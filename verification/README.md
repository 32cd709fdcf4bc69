# Verification of the out-of-order RISC-V core

The repository simulates a 32-bit RISC-V processor. Its own README calls the design a five-stage
pipeline; the code is a dual-issue, speculative, out-of-order core in the style of Tomasulo's
algorithm, with a reorder buffer, register renaming by reorder-buffer tag, reservation stations, an
address unit, a load buffer, a two-bit branch predictor and in-order commit. One clock is
commit, write-back, execute, issue.

This project models that core and proves what it is for: **it executes programs as a machine does
that takes one instruction at a time.** `dafny verify dfyconfig.toml` checks everything.

## How it is organised

| files | content |
|---|---|
| `Words`, `Instructions` | machine words, decoded instructions, the fields each format has |
| `Decoder`, `Alu`, `ByteMemory`, `MemoryImage`, `BranchPrediction` | decoder, arithmetic unit, byte memory and segment loader, branch predictor, each with its own theory |
| `Encodings` | every instruction word of the standard, built from the standard's own tables, and the decoder as its inverse |
| `Isa` | the sequential machine: `Step` and `Run` over pc, registers and memory, for any program and any functional units that obey `Sound` |
| `Operations`, `Accesses`, `Steps` | what the operations, the accesses and the instructions mean, as relations that use nothing of how the units, the core or `Isa` compute; the units and the sequential machine meet them, and nothing else does |
| `OutOfOrder` | the state of the core and the meaning of every stage as a function on it |
| `Registers`, `ReorderBuffers`, `FunctionalUnits`, `ReservationStations`, `Pipeline` | the core as the source writes it: objects updated in place, hash maps traversed in an arbitrary order (`:\|` picks any key left), proved equal to the functions of `OutOfOrder` |
| `Invariant*` | the invariant over tags, rename table, buffers, countdowns and fetch path, and its preservation by every stage |
| `Simulation*` | the speculative data-flow invariant: every value in flight is the sequential machine's at that point of the path, and its preservation by every stage |
| `Path` | the predicted path and the path taken: when an entry is on it, and how both move with the buffer |
| `Panics`, `Refinement`, `Hardware` | where and why a run panics; whole runs refine the sequential run, panics included; the real units obey the laws assumed |
| `Fetches`, `Binaries`, `Executions` | a run depends on its program only where it fetches; the hypotheses on the program read off the words fetched; on the real units a run executes what the instructions mean |
| `Runs`, `Liveness`, `Endings` | runs composed and continued; no deadlock, with a bound, and throughput; a run exits exactly when the sequential machine does, and no fault or exit is lost |
| `Guarantees`, `AtomicReads`, `Ledgers`, `MemoryWrites`, `TagIndependence` | tags never dangle, values flow from their writers, system calls; atomics are atomic over whole runs; conservation; stores exactly once and in the sequential machine's order; independence of the allocator |
| `Exactness`, `Divergences`, `LoadSlip`, `WrongPathPanic` | where the code does not meet its promise: the exact conditions, and concrete runs that fail |

The core predicts a path, and the entries of the reorder buffer lie on it. `Simulation.At` is the
state in which an entry executes on that path: committed registers and memory, and then the effect of
every older entry, whatever is wrong with the prediction. An entry is on the path the program *takes*
exactly when no older entry is mispredicted, faults or is a JALR to 0 (`Path.OnPathExactly`); then
that state is the sequential machine's (`Path.RunAt`, `Path.OnPathFollows`).

The central relation is `Simulation.Simulates(w, c, s, a)`: the core's committed registers and memory
are those of the sequential state `a` (memory up to the store of the head, which is written one clock
before it retires), and what loads have read is what they read in the state of their entry. Which
loads, the scope `w` says: those on the path taken, or all, wrong predictions included. Everything
else follows from the invariant: it already says of *every* entry, with no hypothesis on the program,
that each value it holds comes from the youngest older writer or the committed register
(`Guarantees.ValueFlow`). So under `Simulates` every operand, address, result and data word of every
entry in scope is exact (`Simulation.SlotsExact`).

The sequential machine shares its choice of operands and its functional units with the core. That these
are the right ones is a statement of its own: `Steps.Executes` says by opcode, from the instruction's
fields alone, what becomes of pc, registers and memory, and `Steps.StepExactly` that a step on the real
units leads to a state, or to a fault, exactly when the instruction means that.
`Executions.CoreExecutes` puts the two together, and `Encodings.DecodeExactly` goes back to the words.

What is assumed of a run is `Refinement.Admissible`: units that obey `Sound`, ECALLs without a
destination, an allocator that keeps its guarantee, no load that reads past an older write *in flight*
that overlaps it and that the load gate misses, and no JALR to 0 *among the instructions that retire*.

A reorder-buffer tag is the heap address of a list node in the source. Here the allocator may
return any tag that no live entry holds (`Refinement.Allocates`), so tags are reused freely.

## What is false of the code

For each of these there is an input on which the code fails and the exact condition under which it
does not. The load gate, the JALR to 0 and the ECALL are hypotheses of the refinement.

* **The load gate overlooks two kinds of older writes.** `is_load_ready` waits for an older write
  whose address is pending as `Operand::Rob`, but a plain store starts with `Operand::None`; and it
  compares addresses by equality, whatever the widths (src/pipeline/load_buffer.rs:103-108,
  src/pipeline/reorder_buffer/mod.rs:164-167). When a load reads, an older write in flight overlaps it
  exactly when one with a known, different address does, or a plain store without an address will
  (`Exactness.SlipsExactly` for the first). An open gate excludes every overlap, whatever the unknown addresses
  turn out to be, exactly when every older store has its address and every older known write is at the
  load's address or disjoint from it (`Exactness.GateSafeExactly`). The refinement assumes only that
  no load *in fact* reads past such a write while it is in flight (`Refinement.GateSafeRun`): storing a
  word and loading a byte of it after the store has retired is covered. `LoadSlip.LoadSlipsPastStore`
  has a failing run of 15 clocks, on the real functional units, for either kind: a LW past a SW without
  an address, and an LBU of byte 1 past a SW to 0 whose address has been known for nine clocks; a
  system call reports the old word or byte. Programs that write memory only by atomics are exposed to
  the second kind only (`Refinement.AtomicsRefine`, `Binaries.BinaryRefinement`), and with aligned
  words (`Isa.AlignedWords`) to neither (`Refinement.AlignedRefine`).
* **A JALR to address 0 is dropped**, because 0 also means that no jump was computed
  (src/pipeline/functional_units/address.rs:80-95). The core continues on the sequential path after
  a JALR exactly when its target is not 0 or it stands at 0 itself
  (`SimulationCommit.RetiredPcExactly`); `Divergences.JumpToZeroDiverges` is the failing run.
* **Bit 0 of a JALR's target is not cleared**, as section 2.5 of the RISC-V Unprivileged ISA
  (20191213) asks. Both machines of the model keep it. The target is the standard's exactly when the
  sum of register and immediate is even (`Exactness.TargetExactly`); `Exactness.OddTargetDiverges` is
  a jump to 1 where the standard goes to 0.
* **An ECALL with a destination register leaves a dangling name.** The decoder accepts rd other than
  x0 for ECALL (`Decoder.EcallWords`), retiring it does not clear the rename table, and its entry is
  freed. The rename table is empty after an ECALL exactly when rd is x0 (`Exactness.EcallExactly`);
  `Divergences.EcallDangles` is a run after which x1 waits for an entry that no longer exists.
* **MULHU and MULHSU** sign-extend both factors and equal MULH. `Alu.MulhuExact` and
  `Alu.MulhsuExact` say exactly when the result is still the standard's, `Alu.UnsignedHighFails`
  when it is not.
* **The decoder accepts words that the standard reserves**: a JALR with a funct3 other than 0, an SLLI
  with upper bits, and any SYSTEM word with funct3 0 that is no EBREAK as an ECALL. Apart from these,
  two words it replaces by NOPs and floating point, a word decodes exactly when it is the encoding of
  what it decodes to (`Encodings.DecodeExactly`); what the reserved ones decode to is
  `Encodings.LenientJump`, `LenientShift` and `LenientCall`.
* **Panics of the host language are not precise.** A load that leaves its segment, or a division by
  zero, stops the simulator when it executes, even behind a misprediction. The architectural state is
  precise in every panic, and every panic of every run is explained (`Panics.Explained`): a retirement
  or the head's store has failed, as the next sequential instruction does; or some loads or divisions
  in flight have failed (`Panics.Fails`), and the sequential machine reaches each of these, and the same
  fault, exactly when no older instruction in flight is mispredicted, faults or is a JALR to 0
  (`Panics.Culprit`, `Panics.FailsIsCulprit`). Two failing runs on the real units:
  `WrongPathPanic.PanicsOffPath` panics for a division, and for a load outside its segment, that a
  branch skips. Memory exceptions are precise.

## Model

| member | source | states |
|---|---|---|
| Refinement.SequentialRefinement | src/pipeline/mod.rs:265-276 | From power-on, after any number of clocks and any free tags, the retired instructions are the first of the sequential run, each with its result, address and word written; registers and memory are those it has then (memory up to the head's early store); in every panic registers, memory and pc are exactly its, and what has failed is its next instruction or instructions in flight, each of which it fails at if it gets there |
| Executions.CoreExecutes | src/pipeline/mod.rs:265-276 | From power-on, on the real units, what has retired is a stretch of instructions each of which does to pc, registers and memory what it means by itself; registers and memory are those after the last, up to the head's early store; and a panic in retiring is one that the next instruction means |
| Executions.BinaryExecutes | src/pipeline/mod.rs:218-231 | The same for the machine code of a program without STOREs, with hypotheses on the words fetched only |
| Executions.AtomicsExchange | src/pipeline/functional_units/memory.rs:45-72 | In every clock of every run in which an atomic writes, the four bytes at rs1 make the word it returns, and what it writes there is the sum, the bitwise combination, the extremum or the exchange of that word and rs2 |
| Steps.StepExactly | src/pipeline/reservation_staion.rs:58-124 | For every opcode: pc, each register and memory after an instruction, or the fault, are exactly what the instruction means: rd is pc + imm after AUIPC, imm after LUI, pc + 4 after JAL and JALR, the operation on rs1 and rs2 or imm, the number of the bytes read, the word an atomic finds; nothing else changes; the next pc is pc + 4, pc + imm or rs1 + imm, and a branch's condition decides |
| Refinement.SpeculativeDataFlow | src/pipeline/reservation_staion.rs:126-142 | From power-on, if no load at all reads past a write its gate misses, every value anywhere in the core, wrong predictions included, is the one of its point of the predicted path |
| Refinement.RunRefines | src/pipeline/mod.rs:265-276 | The same from every state that simulates a sequential state, for the path taken or the path predicted, with the whole simulation at the end |
| Refinement.CommitRefines | src/pipeline/mod.rs:120-171 | After every commit that retires no JALR to 0, and in the state in which a retirement faults, registers, memory and pc are exactly those after the retired instructions executed one at a time: all older effects are done and none younger; the fault is the sequential machine's next |
| Refinement.AfterCommitRefines | src/pipeline/mod.rs:184-262 | Write-back, execute and issue change no architectural state; when they panic, the head's store has failed as the next sequential instruction does, or entries have failed whose loads or divisions the sequential machine fails at, if it gets there |
| Panics.FailsIsCulprit | src/pipeline/reservation_staion.rs:161-177 | An entry whose load or division fails, on the path taken or not, is the instruction the sequential machine reaches after as many others exactly when no older entry is mispredicted, faults or is a JALR to 0, and then it faults there in the same way |
| Refinement.ClockRefines | src/pipeline/mod.rs:265-276 | One clock retires a stretch of the sequential run and ends in a state that simulates the state reached |
| Refinement.AtomicsRefine | src/pipeline/load_buffer.rs:98-113 | For programs whose only memory writes are atomics the load gate misses only a write in flight that overlaps a load at another address |
| Refinement.AlignedRefine | src/pipeline/load_buffer.rs:98-113 | If moreover the sequential run accesses aligned words only, the refinement needs no assumption about the core's timing |
| Panics.LoadFault | src/pipeline/load_buffer.rs:116-136 | A load in scope that leaves its segment makes the sequential machine's step fail in the same way in the state of its entry |
| Panics.StationFault | src/pipeline/reservation_staion.rs:161-177 | A computation in scope panics exactly when it is a division and the sequential machine's step fails with it in the state of its entry |
| Binaries.BinaryRefinement | src/pipeline/mod.rs:218-231 | The refinement for machine code on the real units, with the hypotheses on the program stated of the words the run fetches only: they decode, are no STOREs, and name no destination in an ECALL |
| Binaries.PlainWords | src/instruction.rs:468-469 | The program decoded at given addresses has no ECALL with a destination exactly when no ECALL word there has one |
| Binaries.AtomicWords | src/instruction.rs:213-239 | The program decoded at given addresses writes memory only by atomics exactly when no word there has opcode STORE |
| Fetches.RunsAgree | src/pipeline/mod.rs:218-231 | Two programs that agree at the addresses one run fetches have the same run |
| Fetches.RunWithin | src/pipeline/mod.rs:218-231 | What a run retires and leaves in the buffer has been fetched in it or was there before |
| Isa.AlignedWords | src/pipeline/load_buffer.rs:103-108 | Accesses to aligned words overlap only at the same address |
| Hardware.RealCoreSound | src/pipeline/functional_units/memory.rs:10-74 | The real units obey the laws the refinement assumes, whatever else they compute (that is EvalMeets, AmoMeets, LoadMeets and StoreMeets): branches give 0 or 1, only divisions fail, a store leaves disjoint loads alone, an atomic's read traps where its write does |
| Simulation.WriterValue | src/register.rs:43-53 | A register's value at any point of the predicted path is the result of the youngest older writer, or the committed one |
| Simulation.SlotsExact | src/pipeline/reorder_buffer/mod.rs:242-263 | The speculative data-flow invariant: every operand, address, result and data word an entry in scope holds, in any unit, is the one of its point of the path |
| Path.OnPathExactly | src/pipeline/mod.rs:238-250 | An entry is on the path taken exactly when no older entry faults, is mispredicted or is a JALR to 0 |
| Path.OnPathFollows | src/pipeline/mod.rs:238-250 | An entry is on the path taken exactly when the buffer up to it is what the sequential run fetches |
| Path.OutcomeTells | src/pipeline/mod.rs:128-139 | Once a branch has its outcome, comparing it with the recorded prediction tells exactly whether the path leaves there |
| SimulationIssue.CaptureExact | src/pipeline/reservation_staion.rs:91-110 | An operand captured as a value at issue is the register's value at that point of the path, also for an instruction that reads its own rd, and behind a wrong prediction when the scope is the predicted path |
| SimulationIssue.IssueSimulates | src/pipeline/mod.rs:199-262 | Issue keeps the simulation |
| SimulationWriteResult.WakeExact | src/pipeline/reservation_staion.rs:126-142 | An operand woken by a broadcast receives the register's value at that point of the path, for every entry in scope |
| SimulationWriteResult.WriteResultSimulates | src/pipeline/mod.rs:184-190 | Write-back keeps the simulation |
| SimulationExecute.AddressSimulates | src/pipeline/functional_units/address.rs:55-96 | The address unit keeps the simulation |
| SimulationExecute.SumExact | src/pipeline/functional_units/address.rs:55-96 | An address the unit computes is the one of that point of the path |
| SimulationExecute.GateExact | src/pipeline/load_buffer.rs:76-114 | An open gate means that every older write with an address, or waiting for one as an operand, goes to another address |
| SimulationExecute.ReadExact | src/pipeline/load_buffer.rs:76-136 | A load or atomic that reads past no overlapping write its gate misses, of those in the buffer, reads what memory holds after all older instructions |
| SimulationExecute.LoadSimulates | src/pipeline/load_buffer.rs:116-136 | A clock of the load buffer keeps the simulation, across the whole countdown |
| SimulationExecute.StoreSimulates | src/pipeline/reservation_staion.rs:149-158 | The head's store is the sequential machine's next memory, or its next fault |
| SimulationExecute.StationSimulates | src/pipeline/reservation_staion.rs:161-177 | A clock of the station keeps the simulation |
| SimulationCommit.FaultExact | src/pipeline/reorder_buffer/mod.rs:56-70 | A fault at retirement, of a load or a system call, is the sequential machine's at that instruction |
| SimulationCommit.RetiredWriter | src/pipeline/reorder_buffer/mod.rs:41-44 | A store or atomic that retires has written what the sequential machine writes |
| SimulationCommit.RetiredState | src/pipeline/reorder_buffer/mod.rs:50-82 | After the head retires registers and memory are the sequential machine's after one step |
| SimulationCommit.RetiredPcExactly | src/pipeline/functional_units/address.rs:80-95 | After the head retires the core continues on the sequential path exactly when the head is no JALR to 0 (or is at 0) |
| SimulationCommit.CancelledSimulates | src/pipeline/mod.rs:41-48 | After a misprediction retires pc is the branch's actual successor and buffers, stations and rename table are empty; nothing of the squashed entries is left |
| SimulationCommit.RetiredSimulates | src/pipeline/reorder_buffer/mod.rs:50-82 | Retiring keeps the simulation, one sequential step further |
| Invariant.InitialInv | src/pipeline/mod.rs:30-39 | The initial state satisfies the invariant |
| InvariantCommit.CommitInv | src/pipeline/mod.rs:120-171 | Commit keeps the invariant and leaves an incomplete head |
| InvariantCommit.CompletedIsOut | src/pipeline/reorder_buffer/mod.rs:28-47 | A completed entry is in no buffer, so its tag can return |
| InvariantWriteResult.WriteResultInv | src/pipeline/mod.rs:184-190 | Write-back keeps the invariant |
| InvariantExecute.ExecuteInv | src/pipeline/reservation_staion.rs:145-178 | Execute keeps the invariant |
| InvariantIssue.IssueInv | src/pipeline/mod.rs:199-262 | Issue keeps the invariant: path linked, predictions recorded, renames the youngest writers, nothing behind an ECALL or a waiting JALR |
| Liveness.ClockPending | src/pipeline/mod.rs:265-276 | A clock that retires nothing strictly decreases what the head still has to wait for |
| Liveness.NoDeadlock | src/consts.rs:44 | The oldest instruction retires within MEM_CYCLE + 2 clocks, or the run panics |
| Liveness.ClockInv | src/pipeline/mod.rs:265-276 | A clock keeps the invariant, and a clock that goes on leaves an instruction in the buffer: an empty one always issues |
| Liveness.RunInv | src/pipeline/mod.rs:265-276 | Every run keeps the invariant |
| Liveness.Throughput | src/main.rs:47-53 | A run of k * (MEM_CYCLE + 2) clocks that still goes on has retired at least k instructions |
| Endings.RunExits | src/pipeline/mod.rs:173-182 | A run is left by an exit exactly when an exit system call of the sequential run is among the instructions retired, and nothing retires behind it |
| Endings.FaultNotLost | src/main.rs:45-53 | If the sequential machine faults within its first n instructions, every admissible run of more than n * (MEM_CYCLE + 2) clocks has ended without retiring them all, in an explained panic unless the sequential machine exits before |
| Endings.ExitNotLost | src/main.rs:45-53 | If the sequential run comes to an exit system call after n instructions, every admissible run of more than (n + 1) * (MEM_CYCLE + 2) clocks has ended: by the exit with n + 1 instructions retired, or in a panic before |
| Endings.Progress | src/main.rs:45-53 | An admissible run of more than k * (MEM_CYCLE + 2) clocks that still goes on has retired the first k instructions of the sequential run, with their results and writes |
| Guarantees.ReachableInv | src/main.rs:45-53 | Every state reachable from power-on satisfies the invariant |
| Guarantees.TagHygiene | src/pipeline/reorder_buffer/mod.rs:242-276 | Every operand waits for exactly one live, older entry without a result; buffer keys and rename entries are live tags; completed entries are in no buffer |
| Guarantees.ValueFlow | src/pipeline/reorder_buffer/mod.rs:242-263 | For every program and every entry, wrong predictions included: each value held is the youngest older writer's result or the committed register, each address the sum of such a value, each arithmetic result the function of such values |
| Guarantees.EcallSeesExactState | src/pipeline/reorder_buffer/mod.rs:67-70 | A system call retires alone, with an empty rename table, and sees the sequential machine's registers and memory |
| Guarantees.AmoAtomic | src/pipeline/functional_units/memory.rs:10-72 | When an atomic writes, the word it returns in rd is still in memory, and it writes that word combined with rs2 |
| AtomicReads.AtomicInRun | src/pipeline/functional_units/memory.rs:31-72 | Over every run from power-on: of all that is written from the clock of an atomic's read to its own write, nothing overlaps the word read; that word is the sequential machine's, goes to rd, and is what the write combines with rs2 |
| AtomicReads.AtomicWrites | src/pipeline/functional_units/memory.rs:10-29 | In every clock of every run from power-on in which an atomic writes, memory holds the word it returns, and the new memory is that word combined with rs2 |
| AtomicReads.WritesSpareReads | src/pipeline/reservation_staion.rs:149-158 | In every clock of every run from power-on, what the head writes overlaps nothing that a younger load or atomic in scope has read |
| AtomicReads.RunReadsSafe | src/pipeline/load_buffer.rs:92-113 | In every state of a run nothing older than an entry in scope that has read will write what it has read |
| Ledgers.CommitPrefix | src/pipeline/reorder_buffer/mod.rs:265-276 | What commit returns is the completed front of the buffer, in order |
| Ledgers.CommitConserves | src/pipeline/mod.rs:120-171 | What commit returns is exactly what retired; the rest stays, or is squashed after a mispredicted branch and only then |
| Ledgers.RunConserves | src/pipeline/mod.rs:218-262 | Over every run, also one that ends in an exit system call, each instruction issued is retired, squashed or in the buffer, in exactly one class; the retired list is the issue order with the squashed left out |
| MemoryWrites.CommitKeepsMemory | src/pipeline/reorder_buffer/mod.rs:67-81 | Retiring changes memory only in a system call |
| MemoryWrites.ClockMemory | src/pipeline/reservation_staion.rs:149-158 | After commit a clock changes memory only by the head's store |
| MemoryWrites.StoresExactlyOnce | src/pipeline/functional_units/memory.rs:10-29 | Over every run, also one that ends in an exit system call, the writes are, in program order and once each, those of retired stores and atomics, and of a head about to retire; nothing squashed ever writes |
| MemoryWrites.WritesAreSequential | src/pipeline/functional_units/memory.rs:10-29 | Over every admissible run these are the writes of the sequential machine, address and word, in its order |
| TagIndependence.TagsDoNotMatter | src/pipeline/reorder_buffer/mod.rs:122-129 | Two runs with different free tags, reused or not, retire the same instructions with the same results in the same clocks and end equal up to tags |
| TagIndependence.AllocatorIndependence | src/pipeline/reorder_buffer/mod.rs:122-129 | From power-on registers, memory, pc, what retires and any panic do not depend on the addresses the allocator returns |
| Runs.CyclesPlus | src/main.rs:47-53 | A run splits anywhere into two runs |
| Runs.NumberedAllocates | src/pipeline/reorder_buffer/mod.rs:122-129 | The allocator's guarantee can be met for every program and every length of run |
| Exactness.GateSafeExactly | src/pipeline/load_buffer.rs:98-113 | An open load gate rules out every overlap, however unknown addresses turn out, exactly when every older store has its address and every older known write is at the load's address or disjoint from it |
| Exactness.SlipsExactly | src/pipeline/load_buffer.rs:98-113 | When the gate lets a load read, an older write in flight that has an address overlaps it exactly when the two entries' addresses and widths say so and the addresses differ |
| Exactness.TargetExactly | src/pipeline/functional_units/address.rs:80-95 | A JALR goes to the standard's target exactly when the sum of register and immediate is even |
| Exactness.OddTargetDiverges | src/pipeline/functional_units/address.rs:80-95 | A jump to 1 where the standard goes to 0 |
| Exactness.EcallExactly | src/pipeline/reorder_buffer/mod.rs:67-79 | When an ECALL retires the buffers are empty, and the rename table and the invariant are intact exactly when rd is x0 |
| Divergences.JumpToZeroDiverges | src/pipeline/functional_units/address.rs:80-95 | A JALR to 0 at address 4 is fetched again where the sequential machine goes to 0 |
| Divergences.EcallDangles | src/pipeline/reorder_buffer/mod.rs:67-79 | An ECALL that names x1 leaves, after it retires, a name in the rename table whose entry is gone |
| WrongPathPanic.PanicsOffPath | src/pipeline/load_buffer.rs:116-136 | Two concrete programs and runs, with every hypothesis of the refinement met, that panic for a division, and for a load outside its segment, that the sequential machine never executes |
| LoadSlip.LoadSlipsPastStore | src/pipeline/load_buffer.rs:98-113 | Two concrete programs and runs, with every other hypothesis met: a word load passes a store to its address that has no address yet, a byte load passes a resolved store of a word that contains it |
| Pipelines.Pipeline.constructor | src/pipeline/mod.rs:30-39 | The core starts valid, with the entry point, memory and stack pointer given and everything else empty |
| Pipelines.Pipeline.ClearAllBuffers | src/pipeline/mod.rs:41-48 | Buffers, stations and rename table are emptied in place, nothing else changes |
| Pipelines.Pipeline.Retire | src/pipeline/reorder_buffer/mod.rs:50-82 | Retiring in place does what the retirement relation says: fault, cancel or write back |
| Pipelines.Pipeline.SystemCall | src/pipeline/mod.rs:50-118 | A system call is a function of registers and memory that may fail, and writes a0 and memory |
| Pipelines.Pipeline.Commit | src/pipeline/mod.rs:120-171 | Popping all completed entries first and retiring them one by one is the commit that CommitRefines is about |
| Pipelines.Pipeline.RetireAll | src/pipeline/mod.rs:123-170 | Retiring the popped entries stops at the first misprediction or fault, and what it returns is what retired |
| Pipelines.Pipeline.Deliver | src/pipeline/mod.rs:184-190 | Results of distinct tags can be delivered in any order |
| Pipelines.Pipeline.WriteResult | src/pipeline/mod.rs:184-190 | Broadcasting finished results one at a time, in any order, delivers them all at once |
| Pipelines.Pipeline.ExecuteStage | src/pipeline/mod.rs:192-197 | The execute stage in place, in any traversal order, is the one the simulation is about |
| Pipelines.Pipeline.FetchAndPredict | src/pipeline/mod.rs:218-250 | Fetch replaces floating point by NOP, moves pc to the predicted successor and records the same prediction it follows |
| Pipelines.Pipeline.MemoryOperands | src/pipeline/reorder_buffer/mod.rs:163-173 | A store's data and an atomic's data and address are captured at issue, a store's address is not |
| Pipelines.Pipeline.Dispatch | src/pipeline/mod.rs:252-257 | The new entry, the units that work on it and the rename table are filled in the source's order, the new entry hiding no older one |
| Pipelines.Pipeline.IssueOne | src/pipeline/mod.rs:218-257 | Issuing in place renames with the sources read before the destination is renamed |
| Pipelines.Pipeline.Issue | src/pipeline/mod.rs:199-262 | Up to two instructions enter; none behind an ECALL or a waiting JALR |
| Pipelines.Pipeline.IsProgramFinished | src/pipeline/mod.rs:173-182 | True exactly when a retired ECALL finds exit's number in a7 |
| Pipelines.Pipeline.RunClock | src/pipeline/mod.rs:265-276 | A clock of the objects is the clock of the model and keeps them valid: the result does not depend on any hash-map order |
| Pipelines.Pipeline.RunClocks | src/main.rs:45-53 | The main loop refines the sequential machine |
| Registers.RegisterFile.constructor | src/register.rs:31-41 | All registers 0 but the stack pointer, no renames, x0 read-only |
| Registers.RegisterFile.WriteReg | src/register.rs:85-92 | A write changes one register, and never x0 |
| Registers.RegisterFile.SetRegRobIndex | src/register.rs:55-60 | Renames one register, never x0 |
| Registers.RegisterFile.GetRegValue | src/register.rs:43-53 | The register's value, its writer's result, or the tag to wait for |
| Registers.RegisterFile.ClearRenames | src/pipeline/mod.rs:44-47 | Every name is forgotten |
| Registers.RegisterFile.Release | src/pipeline/reorder_buffer/mod.rs:72-79 | A retiring entry takes its own name out of the rename table and nobody else's |
| ReorderBuffers.ReorderBuffer.Add | src/pipeline/reorder_buffer/mod.rs:122-129 | The new entry is the youngest |
| ReorderBuffers.ReorderBuffer.PopFront | src/pipeline/reorder_buffer/mod.rs:131-154 | Takes the oldest entry, if there is one |
| ReorderBuffers.ReorderBuffer.Propagate | src/pipeline/reorder_buffer/mod.rs:242-263 | One result reaches its entry and exactly the operands that wait for it |
| ReorderBuffers.ReorderBuffer.CompletedEntries | src/pipeline/reorder_buffer/mod.rs:265-276 | Pops the longest completed front: all of it completed, the new head not |
| FunctionalUnits.AddressUnit.Issue | src/pipeline/functional_units/address.rs:22-40 | One entry more, with the operand captured for rs1 |
| FunctionalUnits.AddressUnit.Propagate | src/pipeline/functional_units/address.rs:42-53 | Wakes every waiting entry, in any order |
| FunctionalUnits.AddressUnit.Execute | src/pipeline/functional_units/address.rs:55-96 | Whatever the order, every ready address is computed and removed, and the redirection is the one waiting JALR's |
| FunctionalUnits.ReadMemory | src/pipeline/functional_units/memory.rs:31-74 | Reads through the memory's load and returns that word; an atomic prepares the word of its operation on it and rs2 (LoadMeets and AmoMeets say which these are) and restarts the countdown unless the read failed |
| FunctionalUnits.StepLoad | src/pipeline/load_buffer.rs:116-135 | One load's clock: count down, and read when the countdown ends |
| FunctionalUnits.LoadBuffer.PopFinished | src/pipeline/load_buffer.rs:53-74 | Takes out exactly the finished loads, each once, in any order |
| FunctionalUnits.LoadBuffer.Execute | src/pipeline/load_buffer.rs:116-136 | Whatever the order, every load with an open gate advances once, judged by the state before the phase |
| ReservationStations.ExecuteStore | src/pipeline/functional_units/memory.rs:10-29 | The store unit writes the head's word or reports why not |
| ReservationStations.StoreHead | src/pipeline/reservation_staion.rs:149-158 | Only the head of the buffer writes memory |
| ReservationStations.ReservationStation.Issue | src/pipeline/reservation_staion.rs:58-124 | Dispatches to the units that work on the instruction, with operands captured for its sources |
| ReservationStations.ReservationStation.Operands | src/pipeline/reservation_staion.rs:70-110 | The operand pair is captured from the sources that the sequential machine takes for the instruction, which StepExactly shows are the right ones |
| ReservationStations.ReservationStation.StepEntry | src/pipeline/reservation_staion.rs:161-177 | One entry's clock: count down, and compute when the countdown ends, or panic |
| ReservationStations.ReservationStation.Propagate | src/pipeline/reservation_staion.rs:126-142 | Wakes every waiting operand, in any order |
| ReservationStations.ReservationStation.ExecuteGeneral | src/pipeline/reservation_staion.rs:161-177 | Whatever the order, every ready entry advances once, and a panic happens exactly when some computation fails |
| ReservationStations.ReservationStation.PopGenerals | src/pipeline/reservation_staion.rs:182-204 | Takes out exactly the finished computations, each once, in any order |
| ReservationStations.ReservationStation.CompletedJobs | src/pipeline/reservation_staion.rs:180-208 | Takes out exactly what has finished, each result once |
| ReservationStations.ReservationStation.Execute | src/pipeline/reservation_staion.rs:145-178 | The four parts in their order, in place |
| MemoryImage.ProcessMemory.WriteSlice | src/memory/mod.rs:221-247 | Writes the bytes in place, or changes nothing and says why |
| MemoryImage.ProcessMemory.MapSegment | src/memory/mod.rs:38-66 | Maps one more segment behind the others |
| MemoryImage.ProcessMemory.LoadSegments | src/memory/mod.rs:33-67 | Ascending disjoint segments end up at their addresses, the rest is zero, the data vector ends with the last segment, read-only segments cannot be written |
| ByteMemory.ReadBack | src/memory/mod.rs:186-198 | A read after a write returns the bytes written |
| ByteMemory.ReadOtherBytes | src/memory/mod.rs:186-198 | Disjoint bytes are unchanged, in both segments |
| ByteMemory.ReadByByte | src/memory/mod.rs:186-198 | Byte k of a read is the byte at the k-th address from its start |
| ByteMemory.WriteByByte | src/memory/mod.rs:214-247 | Byte k of a write goes to the k-th address from its start |
| ByteMemory.ReadOutcome | src/memory/mod.rs:150-198 | A read succeeds exactly when its address is mapped and its bytes stay in the segment, and the failure says which is not so |
| ByteMemory.WriteOutcome | src/memory/mod.rs:150-166 | A write succeeds exactly when its address is mapped, writable and inside the segment |
| ByteMemory.StoreLoad | src/pipeline/functional_units/memory.rs:13-27 | A load after a store of the same width gives the word narrowed and extended as LoadMeets says |
| ByteMemory.StoreOtherLoad | src/pipeline/functional_units/memory.rs:31-44 | A load elsewhere is not affected by a store |
| Accesses.LoadMeets | src/pipeline/functional_units/memory.rs:38-46 | LB and LH give the signed number congruent to their one or two bytes, LBU and LHU the unsigned one, LW and the atomics the number of four bytes, lowest address first; a load fails exactly as the read of its bytes does |
| Accesses.StoreMeets | src/pipeline/functional_units/memory.rs:21-25 | SB, SH and SW write exactly 1, 2 or 4 bytes, the lowest at the lowest address |
| Accesses.LoadedOne | src/pipeline/functional_units/memory.rs:38-46 | The bytes leave no choice of the value loaded |
| BranchPrediction.BranchPredictor.Predict | src/pipeline/branch_predictor.rs:9-11 | The recorded prediction, not taken for a new branch, which is entered |
| BranchPrediction.BranchPredictor.Update | src/pipeline/branch_predictor.rs:13-30 | One branch's automaton moves, no other |
| BranchPrediction.PredictionIsLastAgreement | src/pipeline/branch_predictor.rs:9-30 | For every history the prediction is the direction of the most recent two equal consecutive outcomes |
| BranchPrediction.MistakeBound | src/pipeline/branch_predictor.rs:9-30 | At most twice the taken outcomes, and twice the others plus two, are mispredicted |
| BranchPrediction.BranchesIndependent | src/pipeline/branch_predictor.rs:9-30 | A branch's entry depends on its own history only |
| Decoder.DecodeWellFormed | src/instruction.rs:133-187 | Every decoded instruction has the fields its format has, so no unwrap in the core fails (which mnemonic it has is DecodeExactly) |
| Decoder.DecodeBelongs | src/instruction.rs:409-477 | A decoded mnemonic is one of its opcode |
| Encodings.DecodeEncode | src/instruction.rs:25-42 | For every mnemonic of RV32I, Zifencei, RV32M and RV32A, all registers and every immediate it can hold, the word of the standard's table decodes to that mnemonic, those registers and that immediate |
| Encodings.EncodeDecode | src/instruction.rs:408-477 | Every word that decodes, floating point and the lenient words apart, is the word of the standard's table for the mnemonic and operands it decodes to |
| Encodings.DecodeExactly | src/instruction.rs:25-42 | Those words decode to an instruction exactly when they are its encoding; all others panic |
| Encodings.LenientJump | src/instruction.rs:415 | A JALR decodes as if its funct3 were 0 |
| Encodings.LenientShift | src/instruction.rs:445 | An SLLI decodes as if its upper seven bits were 0 |
| Encodings.LenientCall | src/instruction.rs:468-469 | A SYSTEM word with funct3 0 that is no EBREAK is an ECALL, with its rd and rs1 |
| Decoder.ImmediateI | src/instruction.rs:106-130 | The I immediate inverts its encoding for every value |
| Decoder.ImmediateS | src/instruction.rs:107-130 | The S immediate inverts its encoding |
| Decoder.ImmediateB | src/instruction.rs:108-130 | The B immediate inverts its encoding |
| Decoder.ImmediateU | src/instruction.rs:114-130 | The U immediate inverts its encoding |
| Decoder.ImmediateJ | src/instruction.rs:115-130 | The J immediate inverts its encoding |
| Decoder.ShiftAmounts | src/instruction.rs:103-105 | Decoded shift amounts are below 32 |
| Decoder.EcallWords | src/instruction.rs:469 | ECALL words with and without a destination register decode alike |
| Operations.EvalMeets | src/alu.rs:6-52 | ADD and SUB modulo 2^32, comparisons and branch conditions in the signed and unsigned order, AND, OR and XOR bit by bit, shifts as products with and floors by powers of two, products, quotients and remainders, each on the two's complement or unsigned numbers; no result exactly where a division has none |
| Operations.GivesOne | src/alu.rs:6-52 | These meanings leave no choice of the result |
| Operations.AmoMeets | src/pipeline/functional_units/memory.rs:57-69 | What an atomic stores: the sum modulo 2^32, rs2, AND, OR and XOR bit by bit, and of the minima and maxima the operand that bounds both in its order |
| Operations.CombinedOne | src/pipeline/functional_units/memory.rs:57-69 | These leave no choice of the word stored |
| Words.SignedExactly | src/alu.rs:6 | The two's complement number of a word is the one congruent to it in the signed range |
| Alu.FullProduct | src/alu.rs:43-44 | MULH and MUL are the halves of the signed 64-bit product |
| Alu.DivRem | src/alu.rs:46-48 | DIV and REM divide with truncation exactly when they do not panic |
| Alu.DivuRemu | src/alu.rs:47-49 | DIVU and REMU divide exactly when the divisor is not 0 |
| Alu.HighProductsAgree | src/alu.rs:44-45 | MULHU and MULHSU compute MULH |
| Alu.UnsignedHighFails | src/alu.rs:45 | Two products whose upper word MULHU and MULHSU get wrong |
| Alu.MulhuExact | src/alu.rs:45 | MULHU is the upper word of the unsigned product exactly when the sign corrections cancel |
| Alu.MulhsuExact | src/alu.rs:45 | MULHSU is the mixed product's upper word exactly when the unsigned factor's top bit is clear or the other is 0 |

## Left out

- Operations.EvalMeets: MULHU and MULHSU are the upper half of the signed product, as the code computes them, not as the standard has them (see above).
- Encodings.DecodeExactly: which floating-point words decode at all is modelled but not stated; they become NOPs.
- Refinement.SequentialRefinement: assumes `Admissible`, because the code is wrong without it (see above).
- Pipelines.Pipeline.SystemCall: the calls themselves are foreign; their effect is any function of registers and memory that may fail and writes a0 and memory. No claim is made on the memory's length across `brk`.
- Pipelines.Pipeline.FetchAndPredict: fetch is a total map from addresses to instructions, separate from memory, so self-modifying code and panics of fetch or decode are not modelled.
- LoadSlip.LoadSlipsPastStore: the run uses a fresh tag for each entry; by AllocatorIndependence any other free tags give the same run.
- What a dangling rename after an ECALL with a destination leads to: the source then reads freed memory, which has no meaning to model.
- Arithmetic overflow checks of debug builds (the sum of AMOADD, shifts by 32 or more, the 64-bit product of MULHU and MULHSU): the model wraps as the release build of the Makefile does.
- Floating-point instructions: the core replaces them by NOP at issue, and so does the model.
- The byte order of the host: memory is little-endian.
- Initial stack contents and auxiliary vectors, ELF and option parsing, printing and the step log: input and output only.
- src/pipeline/reorder_buffer/iter.rs: not used by the linked-list reorder buffer.
- The raw pointers of the reorder buffer: a tag is looked up in the buffer, and the invariant shows that it is there.
- Instruction fields the core does not read (rs3, funct fields) are not kept after decoding.
