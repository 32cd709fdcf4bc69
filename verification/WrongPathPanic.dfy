/** Runs that stop in a panic the sequential machine never meets: behind a mispredicted branch a division
    by zero, or a load that leaves its segment, is executed before the branch retires. */
module WrongPathPanic {
  import opened Words
  import opened Instructions
  import opened ByteMemory
  import opened Isa
  import opened OutOfOrder
  import opened Simulation
  import opened SimulationExecute
  import opened Refinement
  import opened Runs
  import opened Divergences
  import opened Hardware
  import Alu

  /** What happens on the wrong path. */
  datatype Kind = Division | Escape

  const LW5: Inst := Instruction(Opcode.Load, Fields(Some(0), None, Some(5), Some(0)), Lw)
  const BEQ: Inst := Instruction(Opcode.Branch, Fields(Some(0), Some(0), None, Some(8)), Beq)
  const DIV1: Inst := Instruction(Opcode.Op, Fields(Some(0), Some(0), Some(1), None), Function.Div)
  const LW1: Inst := Instruction(Opcode.Load, Fields(Some(0), None, Some(1), Some(4)), Lw)
  const ECALL: Inst := Instruction(Opcode.System, Fields(Some(0), None, Some(0), Some(0)), Ecall)

  function Skipped(k: Kind): Inst { if k.Division? then DIV1 else LW1 }
  function FaultOf(k: Kind): Fault { if k.Division? then DivideFault else SliceIndex }

  /** One word of data at address 0, and an empty stack above it. */
  const M: Mem := ByteMemory.Mem((0, 4), (0, 0), 4, [0, 0, 0, 0], [])

  /** lw x5, 0(x0); beq x0, x0, 8; div x1, x0, x0 or lw x1, 4(x0); ecall. The branch skips the third
      instruction, but is predicted not taken and waits behind the load. The system call fails. */
  ghost predicate Skipping(c: Core, k: Kind) {
    && c.program(0) == LW5 && c.program(4) == BEQ && c.program(8) == Skipped(k) && c.program(12) == ECALL
    && c.alu(Beq, 0, 0) == Some(1) && c.alu(Ecall, 0, 0) == Some(0) && c.alu(Function.Div, 0, 0) == None
    && c.load(Lw, M, 0).Ok? && c.load(Lw, M, 4) == Err(SliceIndex)
    && forall regs: Regs, m: Mem {:trigger c.syscall(regs, m)} :: c.syscall(regs, m) == Err(FailCallingSyscall(0))
  }

  function Load5(addr: Operand, rem: nat, result: Option<u32>): RobEntry {
    RobEntry(0, 0, LW5, Nothing, result, 5, addr, false, rem, None)
  }
  function Branch(result: Option<u32>): RobEntry {
    RobEntry(1, 4, BEQ, Nothing, result, 0, Nothing, false, MEM_CYCLE, None)
  }
  function Third(k: Kind, addr: Operand, rem: nat): RobEntry {
    RobEntry(2, 8, Skipped(k), Nothing, None, 1, addr, false, rem, None)
  }
  function Call(result: Option<u32>): RobEntry {
    RobEntry(3, 12, ECALL, Nothing, result, 0, Nothing, false, MEM_CYCLE, None)
  }

  /** The buffer while the first load, with `rem` clocks left, and what it has read so far, holds the rest up. */
  function Window(k: Kind, rem: nat, result: Option<u32>, call: Option<u32>, later: nat): seq<RobEntry> {
    [Load5(Value(0), rem, result), Branch(Some(1)),
     if k.Division? then Third(k, Nothing, MEM_CYCLE) else Third(k, Value(4), later), Call(call)]
  }

  function Working(t: Tag, i: Inst, status: Status, value: u32, rem: nat): RsEntry {
    RsEntry(t, status, i, Value(0), Value(0), value, rem)
  }

  /** x0 has no writer and is 0. */
  ghost predicate ZeroReads(s: Machine) {
    s.gpr[0] == 0 && s.renames[0] == None && (4 in s.predictor ==> !s.predictor[4].0) && s.mem == M
  }

  // ---- Clock 1 ----

  ghost predicate Start(s: Machine) {
    ZeroReads(s) && s.pc == 0 && s.rob == []
    && (forall t :: t !in s.addressUnit) && (forall t :: t !in s.loadBuf) && (forall t :: t !in s.station)
  }

  ghost predicate LoadWaits(s: Machine) {
    && ZeroReads(s)
    && (forall t :: t in s.addressUnit <==> t == 0) && s.addressUnit[0] == Working(0, LW5, Wait, 0, 1)
    && (forall t :: t in s.loadBuf <==> t == 0) && s.loadBuf[0] == LoadEntry(0, Wait, Ok(0))
  }

  ghost predicate LoadEntered(s: Machine) {
    LoadWaits(s) && s.pc == 4 && s.rob == [Load5(Nothing, MEM_CYCLE, None)] && (forall t :: t !in s.station)
  }

  ghost predicate After1(s: Machine) {
    && LoadWaits(s) && s.pc == 8 && s.rob == [Load5(Nothing, MEM_CYCLE, None), Branch(None)]
    && (forall t :: t in s.station <==> t == 1) && s.station[1] == Working(1, BEQ, Wait, 0, 1)
  }

  lemma StartStays(c: Core, s: Machine)
    requires Start(s)
    ensures Start(WriteResult(s)) && ExecuteStage(c, s).Running? && Start(ExecuteStage(c, s).s)
  {
    NothingToWrite(s);
  }

  lemma IssueLoad(c: Core, k: Kind, s: Machine)
    requires Skipping(c, k) && Start(s)
    ensures LoadEntered(IssueOne(c, s, 0))
  {
  }

  lemma IssueBranch(c: Core, k: Kind, s: Machine)
    requires Skipping(c, k) && LoadEntered(s)
    ensures After1(IssueOne(c, s, 1))
  {
  }

  lemma Clock1(c: Core, k: Kind, s: Machine) returns (s': Machine)
    requires Skipping(c, k) && Start(s)
    ensures Leads(c, s, 0, [], s') && After1(s')
  {
    StartStays(c, s);
    StartStays(c, WriteResult(s));
    var s1 := ExecuteStage(c, WriteResult(s)).s;
    IssueLoad(c, k, s1);
    IssueBranch(c, k, IssueOne(c, s1, 0));
    QuietClock(c, s, 0);
    s' := AfterCommit(c, s, Ids(0)).s;
  }

  // ---- Clock 2 ----

  /** The first load counts down and the branch has its outcome. */
  ghost predicate Begun(s: Machine) {
    && ZeroReads(s) && 0 in s.loadBuf && s.loadBuf[0] == LoadEntry(0, Execute, Ok(0))
    && 1 in s.station && s.station[1] == Working(1, BEQ, Finished, 1, 0)
  }

  ghost predicate Executed2(s: Machine) {
    && Begun(s) && s.pc == 8 && s.rob == [Load5(Value(0), 9, None), Branch(None)]
    && (forall t :: t !in s.addressUnit) && (forall t :: t in s.loadBuf <==> t == 0) && (forall t :: t in s.station <==> t == 1)
  }

  /** The units that work on the third instruction. */
  ghost predicate ThirdWaits(s: Machine, k: Kind) {
    && (forall t :: t in s.addressUnit <==> t == 2 && k.Escape?)
    && (forall t :: t in s.loadBuf <==> t == 0 || (t == 2 && k.Escape?))
    && (if k.Division? then 2 in s.station && s.station[2] == Working(2, DIV1, Wait, 0, 8)
        else s.addressUnit[2] == RsEntry(2, Wait, LW1, Value(0), Value(4), 0, 1) && s.loadBuf[2] == LoadEntry(2, Wait, Ok(0)))
  }

  ghost predicate ThirdEntered(s: Machine, k: Kind) {
    && Begun(s) && s.pc == 12 && s.rob == [Load5(Value(0), 9, None), Branch(None), Third(k, Nothing, MEM_CYCLE)]
    && ThirdWaits(s, k) && (forall t :: t in s.station <==> t == 1 || (t == 2 && k.Division?))
  }

  ghost predicate After2(s: Machine, k: Kind) {
    && Begun(s) && s.rob == [Load5(Value(0), 9, None), Branch(None), Third(k, Nothing, MEM_CYCLE), Call(None)]
    && ThirdWaits(s, k) && (forall t :: t in s.station <==> t == 1 || (t == 2 && k.Division?) || t == 3)
    && s.station[3] == CALL_WAITS
  }

  const CALL_WAITS := Working(3, ECALL, Wait, 0, 1)
  const CALL_DONE := Working(3, ECALL, Finished, 0, 0)

  lemma Execute2(c: Core, k: Kind, s: Machine)
    requires Skipping(c, k) && After1(s)
    ensures ExecuteStage(c, s).Running? && Executed2(ExecuteStage(c, s).s)
  {
    var s1 := AddressPhase(s);
    assert s1.rob == [Load5(Value(0), MEM_CYCLE, None), Branch(None)];
    assert LoadedRob(c, s1) == [Load5(Value(0), 9, None), Branch(None)];
  }

  lemma IssueThird(c: Core, k: Kind, s: Machine)
    requires Skipping(c, k) && Executed2(s)
    ensures ThirdEntered(IssueOne(c, s, 2), k)
  {
    assert RegValue(s, 0) == Value(0);
  }

  lemma IssueCall(c: Core, k: Kind, s: Machine)
    requires Skipping(c, k) && ThirdEntered(s, k)
    ensures After2(IssueOne(c, s, 3), k)
  {
    assert RegValue(s, 0) == Value(0);
  }

  lemma Issue2(c: Core, k: Kind, s: Machine)
    requires Skipping(c, k) && Executed2(s)
    ensures After2(Issue(c, s, Ids(1)), k)
  {
    IssueThird(c, k, s);
    IssueCall(c, k, IssueOne(c, s, 2));
  }

  lemma Clock2(c: Core, k: Kind, s: Machine) returns (s': Machine)
    requires Skipping(c, k) && After1(s)
    ensures Leads(c, s, 1, [], s') && After2(s', k)
  {
    NothingToWrite(s);
    Execute2(c, k, WriteResult(s));
    Issue2(c, k, ExecuteStage(c, WriteResult(s)).s);
    QuietClock(c, s, 1);
    s' := AfterCommit(c, s, Ids(1)).s;
  }

  // ---- Clock 3: the branch's outcome is known, but the branch is not the head ----

  ghost predicate Broadcast3(s: Machine, k: Kind) {
    && s.mem == M && s.rob == [Load5(Value(0), 9, None), Branch(Some(1)), Third(k, Nothing, MEM_CYCLE), Call(None)]
    && ThirdWaits(s, k) && (forall t :: t in s.station <==> (t == 2 && k.Division?) || t == 3)
    && s.loadBuf[0] == LoadEntry(0, Execute, Ok(0)) && s.station[3] == CALL_WAITS
  }

  lemma WokenRob3(k: Kind, s: Machine)
    requires After2(s, k)
    ensures forall t :: t in Jobs(s) <==> t == 1
    ensures WriteResult(s).rob == [Load5(Value(0), 9, None), Branch(Some(1)), Third(k, Nothing, MEM_CYCLE), Call(None)]
  {
    assert forall t :: t in Jobs(s) <==> t == 1;
  }

  lemma Write3(k: Kind, s: Machine)
    requires After2(s, k)
    ensures Broadcast3(WriteResult(s), k)
  {
    WokenRob3(k, s);
  }

  /** The first load has `rem` clocks left, the division one less, the second load one more. */
  ghost predicate Counting(s: Machine, k: Kind, rem: nat, call: Option<u32>, working: Option<RsEntry>) {
    && s.mem == M && s.rob == Window(k, rem, None, call, rem + 1) && Waiting(s, k)
    && (forall t :: t in s.station <==> (t == 2 && k.Division?) || (t == 3 && working.Some?))
    && (k.Division? ==> 1 < rem && s.station[2] == Working(2, DIV1, Execute, 0, rem - 1))
    && (working.Some? ==> s.station[3] == working.value)
  }

  /** Both loads, if there are two, are on their way. */
  ghost predicate Waiting(s: Machine, k: Kind) {
    && (forall t :: t !in s.addressUnit)
    && (forall t :: t in s.loadBuf <==> t == 0 || (t == 2 && k.Escape?))
    && s.loadBuf[0] == LoadEntry(0, Execute, Ok(0)) && (k.Escape? ==> s.loadBuf[2] == LoadEntry(2, Execute, Ok(0)))
  }

  ghost predicate Addressed3(s: Machine, k: Kind) {
    && s.mem == M && s.rob == Window(k, 9, None, None, MEM_CYCLE) && (forall t :: t !in s.addressUnit)
    && (forall t :: t in s.loadBuf <==> t == 0 || (t == 2 && k.Escape?))
    && s.loadBuf[0] == LoadEntry(0, Execute, Ok(0)) && (k.Escape? ==> s.loadBuf[2] == LoadEntry(2, Wait, Ok(0)))
    && (forall t :: t in s.station <==> (t == 2 && k.Division?) || t == 3)
    && (k.Division? ==> s.station[2] == Working(2, DIV1, Wait, 0, 8)) && s.station[3] == CALL_WAITS
  }

  lemma AddressedRob3(k: Kind, s: Machine)
    requires Broadcast3(s, k)
    ensures AddressPhase(s).rob == Window(k, 9, None, None, MEM_CYCLE)
  {
    if k.Division? {
      assert AddressPhase(s).rob == s.rob;
    } else {
      assert AddressPhase(s).rob == [s.rob[0], s.rob[1], s.rob[2].(addr := Value(4)), s.rob[3]];
    }
  }

  lemma Address3(k: Kind, s: Machine)
    requires Broadcast3(s, k)
    ensures Addressed3(AddressPhase(s), k)
  {
    AddressedRob3(k, s);
    assert forall t :: t !in AddressPhase(s).addressUnit;
  }

  lemma Entries3(c: Core, k: Kind, s: Machine)
    requires Addressed3(s, k)
    ensures !AnyLoadPanics(c, s) && LoadedRob(c, s) == Window(k, 8, None, None, 9)
  {
  }

  lemma Buffer3(c: Core, k: Kind, s: Machine)
    requires Addressed3(s, k)
    ensures LoadedEntry(c, s, 0) == LoadEntry(0, Execute, Ok(0))
    ensures k.Escape? ==> LoadedEntry(c, s, 2) == LoadEntry(2, Execute, Ok(0))
  {
    assert s.rob[0].id == 0 && s.rob[1].id == 1 && s.rob[2].id == 2;
  }

  lemma Loads3(c: Core, k: Kind, s: Machine)
    requires Addressed3(s, k)
    ensures LoadPhase(c, s).Running? && LoadPhase(c, s).s.rob == Window(k, 8, None, None, 9) && Waiting(LoadPhase(c, s).s, k)
  {
    Entries3(c, k, s);
    Buffer3(c, k, s);
  }

  lemma Execute3(c: Core, k: Kind, s: Machine)
    requires Skipping(c, k) && Broadcast3(s, k)
    ensures ExecuteStage(c, s).Running? && Counting(ExecuteStage(c, s).s, k, 8, None, Some(CALL_DONE))
  {
    Address3(k, s);
    Loads3(c, k, AddressPhase(s));
  }

  lemma Clock3(c: Core, k: Kind, s: Machine) returns (s': Machine)
    requires Skipping(c, k) && After2(s, k)
    ensures Leads(c, s, 2, [], s') && Counting(s', k, 8, None, Some(CALL_DONE))
  {
    Write3(k, s);
    Execute3(c, k, WriteResult(s));
    QuietClock(c, s, 2);
    s' := AfterCommit(c, s, Ids(2)).s;
  }

  // ---- The countdown ----

  lemma CountGates(c: Core, k: Kind, s: Machine, rem: nat)
    requires s.mem == M && s.rob == Window(k, rem, None, Some(0), rem + 1) && Waiting(s, k) && 1 < rem < MEM_CYCLE
    ensures !AnyLoadPanics(c, s) && GateOpen(s.rob, 0, s.loadBuf[0])
    ensures k.Escape? ==> GateOpen(s.rob, 2, s.loadBuf[2])
  {
  }

  lemma CountEntries(c: Core, k: Kind, s: Machine, rem: nat)
    requires s.mem == M && s.rob == Window(k, rem, None, Some(0), rem + 1) && Waiting(s, k) && 1 < rem < MEM_CYCLE
    ensures !AnyLoadPanics(c, s) && LoadedRob(c, s) == Window(k, rem - 1, None, Some(0), rem)
  {
    CountGates(c, k, s, rem);
  }

  lemma CountLoads(c: Core, k: Kind, s: Machine, rem: nat)
    requires s.mem == M && s.rob == Window(k, rem, None, Some(0), rem + 1) && Waiting(s, k) && 1 < rem < MEM_CYCLE
    ensures LoadPhase(c, s).Running?
    ensures LoadPhase(c, s).s.rob == Window(k, rem - 1, None, Some(0), rem) && Waiting(LoadPhase(c, s).s, k)
  {
    CountEntries(c, k, s, rem);
  }

  lemma Count(c: Core, k: Kind, s: Machine, rem: nat)
    requires Skipping(c, k) && Counting(s, k, rem, Some(0), None) && 1 < rem < MEM_CYCLE && (k.Division? ==> 2 < rem)
    ensures ExecuteStage(c, s).Running? && Counting(ExecuteStage(c, s).s, k, rem - 1, Some(0), None)
  {
    assert AddressPhase(s).rob == s.rob;
    CountLoads(c, k, AddressPhase(s), rem);
  }

  lemma Write4(k: Kind, s: Machine)
    requires Counting(s, k, 8, None, Some(CALL_DONE))
    ensures Counting(WriteResult(s), k, 8, Some(0), None)
  {
    assert forall t :: t in Jobs(s) <==> t == 3;
    assert WriteResult(s).rob == Window(k, 8, None, Some(0), 9);
  }

  lemma Clock4(c: Core, k: Kind, s: Machine) returns (s': Machine)
    requires Skipping(c, k) && Counting(s, k, 8, None, Some(CALL_DONE))
    ensures Leads(c, s, 3, [], s') && Counting(s', k, 7, Some(0), None)
  {
    Write4(k, s);
    Count(c, k, WriteResult(s), 8);
    QuietClock(c, s, 3);
    s' := AfterCommit(c, s, Ids(3)).s;
  }

  lemma CountingStays(k: Kind, s: Machine, rem: nat)
    requires Counting(s, k, rem, Some(0), None)
    ensures Counting(WriteResult(s), k, rem, Some(0), None)
  {
    NothingToWrite(s);
  }

  lemma ClockCounts(c: Core, k: Kind, s: Machine, rem: nat, n: nat) returns (s': Machine)
    requires Skipping(c, k) && Counting(s, k, rem, Some(0), None) && 1 < rem <= 7 && (k.Division? ==> 2 < rem)
    ensures Leads(c, s, n, [], s') && Counting(s', k, rem - 1, Some(0), None)
  {
    CountingStays(k, s, rem);
    Count(c, k, WriteResult(s), rem);
    QuietClock(c, s, n);
    s' := AfterCommit(c, s, Ids(n)).s;
  }

  // ---- The panic ----

  function Panicked(k: Kind): Clocked { Clocked(Panic(FaultOf(k)), [], false) }

  lemma LastClock(c: Core, k: Kind, s: Machine, n: nat)
    requires (s.rob != [] ==> !IsCompleted(s.rob[0])) && ExecuteStage(c, WriteResult(s)) == Panic(FaultOf(k))
    ensures Ends(c, s, n, 1, Panicked(k))
  {
    assert Numbered(n, 1)[0] == Ids(n);
    assert Clock(c, s, Ids(n)) == Panicked(k);
  }

  /** Clock 10: the division is computed. */
  lemma Divides(c: Core, s: Machine, n: nat)
    requires Skipping(c, Division) && Counting(s, Division, 2, Some(0), None)
    ensures Ends(c, s, n, 1, Panicked(Division))
  {
    CountingStays(Division, s, 2);
    var s0 := WriteResult(s);
    var s1 := AddressPhase(s0);
    assert s1.rob == s0.rob;
    CountLoads(c, Division, s1, 2);
    var s2 := LoadPhase(c, s1).s;
    assert StorePhase(c, s2) == Running(s2);
    assert Computes(s2.station[2]) && AluResult(c, s2.station[2]).None?;
    LastClock(c, Division, s, n);
  }

  /** After clock 11: the first load has read, but not retired. */
  ghost predicate After11(c: Core, s: Machine)
    requires c.load(Lw, M, 0).Ok?
  {
    && s.mem == M && s.rob == Window(Escape, 0, None, Some(0), 1) && (forall t :: t !in s.addressUnit) && (forall t :: t !in s.station)
    && (forall t :: t in s.loadBuf <==> t == 0 || t == 2)
    && s.loadBuf[0] == LoadEntry(0, Finished, Ok(c.load(Lw, M, 0).value)) && s.loadBuf[2] == LoadEntry(2, Execute, Ok(0))
  }

  lemma Entries11(c: Core, s: Machine)
    requires Skipping(c, Escape) && s.mem == M && s.rob == Window(Escape, 1, None, Some(0), 2) && Waiting(s, Escape)
    ensures !AnyLoadPanics(c, s) && LoadedRob(c, s) == Window(Escape, 0, None, Some(0), 1)
    ensures LoadedEntry(c, s, 0) == LoadEntry(0, Finished, Ok(c.load(Lw, M, 0).value))
    ensures LoadedEntry(c, s, 2) == LoadEntry(2, Execute, Ok(0))
  {
  }

  lemma Clock11(c: Core, s: Machine, n: nat) returns (s': Machine)
    requires Skipping(c, Escape) && Counting(s, Escape, 1, Some(0), None)
    ensures Leads(c, s, n, [], s') && After11(c, s')
  {
    CountingStays(Escape, s, 1);
    Execute11(c, WriteResult(s));
    QuietClock(c, s, n);
    s' := AfterCommit(c, s, Ids(n)).s;
  }

  lemma Execute11(c: Core, s: Machine)
    requires Skipping(c, Escape) && Counting(s, Escape, 1, Some(0), None)
    ensures ExecuteStage(c, s).Running? && After11(c, ExecuteStage(c, s).s)
  {
    assert AddressPhase(s).rob == s.rob;
    Entries11(c, AddressPhase(s));
  }

  lemma Write12(c: Core, s: Machine)
    requires c.load(Lw, M, 0).Ok? && After11(c, s)
    ensures var s' := WriteResult(s);
      && s'.mem == M && s'.rob == Window(Escape, 0, Some(c.load(Lw, M, 0).value), Some(0), 1)
      && (forall t :: t !in s'.addressUnit) && (forall t :: t in s'.loadBuf <==> t == 2) && s'.loadBuf[2] == LoadEntry(2, Execute, Ok(0))
  {
    assert forall t :: t in Jobs(s) <==> t == 0;
    assert WriteResult(s).rob == Window(Escape, 0, Some(c.load(Lw, M, 0).value), Some(0), 1);
  }

  /** Clock 12: the second load reads. */
  lemma Escapes(c: Core, s: Machine, n: nat)
    requires Skipping(c, Escape) && After11(c, s)
    ensures Ends(c, s, n, 1, Panicked(Escape))
  {
    Write12(c, s);
    var s0 := WriteResult(s);
    var s1 := AddressPhase(s0);
    assert s1.rob == s0.rob;
    assert LoadPanics(c, s1, 2);
    LastClock(c, Escape, s, n);
  }

  // ---- The whole run ----

  /** From the countdown to the panic, in `m` clocks. */
  lemma {:induction false} FromCounting(c: Core, k: Kind, s: Machine, rem: nat, n: nat, m: nat)
    requires Skipping(c, k) && Counting(s, k, rem, Some(0), None) && 1 <= rem <= 7 && m == if k.Division? then rem - 1 else rem + 1
    ensures Ends(c, s, n, m, Panicked(k))
    decreases rem
  {
    if k.Division? && rem == 2 {
      Divides(c, s, n);
    } else if rem == 1 {
      var s1 := Clock11(c, s, n);
      Escapes(c, s1, n + 1);
      QuietNext(c, s, n, s1, 1, Panicked(k));
    } else {
      var s1 := ClockCounts(c, k, s, rem, n);
      FromCounting(c, k, s1, rem - 1, n + 1, m - 1);
      QuietNext(c, s, n, s1, m - 1, Panicked(k));
    }
  }

  function Length(k: Kind): nat { if k.Division? then 10 else 12 }

  lemma From3(c: Core, k: Kind, s: Machine, m: nat)
    requires Skipping(c, k) && After2(s, k) && m == Length(k) - 4
    ensures Ends(c, s, 2, m + 2, Panicked(k))
  {
    var s1 := Clock3(c, k, s);
    var s2 := Clock4(c, k, s1);
    FromCounting(c, k, s2, 7, 4, m);
    QuietNext(c, s1, 3, s2, m, Panicked(k));
    QuietNext(c, s, 2, s1, m + 1, Panicked(k));
  }

  lemma From2(c: Core, k: Kind, s: Machine, m: nat)
    requires Skipping(c, k) && After1(s) && m == Length(k) - 4
    ensures Ends(c, s, 1, m + 3, Panicked(k))
  {
    var s1 := Clock2(c, k, s);
    From3(c, k, s1, m);
    QuietNext(c, s, 1, s1, m + 2, Panicked(k));
  }

  lemma PanickingRun(c: Core, k: Kind, s: Machine)
    requires Skipping(c, k) && Start(s)
    ensures Cycles(c, s, Numbered(0, Length(k))) == Panicked(k)
  {
    var s1 := Clock1(c, k, s);
    From2(c, k, s1, Length(k) - 4);
    RunEnds(c, s, s1, Length(k) - 1, Length(k), Panicked(k));
  }

  // ---- The sequential machine ----

  /** It reads, branches past the third instruction, and stops in the failing system call. */
  lemma Sequential(c: Core, k: Kind, a: State, n: nat)
    requires Skipping(c, k) && a.pc == 0 && a.regs[0] == 0 && a.mem == M && Run(c, a, n).Ok?
    ensures Run(c, a, n).value.pc in {0, 4, 12} && Step(c, Run(c, a, n).value) != Err(FaultOf(k))
  {
    var b := Step(c, a).value;
    assert Step(c, a).Ok? && b.pc == 4 && b.regs[0] == 0;
    var d := Step(c, b).value;
    assert Step(c, b).Ok? && d.pc == 12;
    assert Step(c, d) == Err(Trap(FailCallingSyscall(0)));
    assert Run(c, a, 0) == Ok(a);
    RunSnoc(c, a, 0);
    RunSnoc(c, a, 1);
    RunSnoc(c, a, 2);
    if n > 2 { RunPrefix(c, a, 3, n); }
  }

  // ---- The programs on the real units ----

  function InstAt(k: Kind, pc: u32): Inst {
    if pc == 0 then LW5 else if pc == 4 then BEQ else if pc == 8 then Skipped(k) else ECALL
  }

  function ProgramOf(k: Kind): Program { pc => InstAt(k, pc) }

  function Fails(regs: Regs, m: Mem): Result<(u32, Mem), Exception> {
    Err(FailCallingSyscall(0))
  }

  lemma RealProgram(c: Core, k: Kind)
    requires c.program == ProgramOf(k)
    ensures c.program(0) == LW5 && c.program(4) == BEQ && c.program(8) == Skipped(k) && c.program(12) == ECALL
    ensures EcallsPlain(c) && forall a: State :: TargetOk(c, a)
    ensures forall pc: u32 :: !WritesMem(Fetch(c, pc))
  {
    forall pc: u32 ensures c.program(pc) == InstAt(k, pc) {
    }
  }

  lemma RealSkipping(c: Core, k: Kind)
    requires c.program == ProgramOf(k) && c.alu == Alu.Eval && c.syscall == Fails
    requires c.load(Lw, M, 0).Ok? && c.load(Lw, M, 4) == Err(SliceIndex)
    ensures Skipping(c, k)
  {
    RealProgram(c, k);
  }

  lemma Reads()
    ensures LoadFrom(Lw, M, 0).Ok? && LoadFrom(Lw, M, 4) == Err(SliceIndex)
  {
    assert Width(Lw) == 4;
    assert ReadBytes(M, 0, Width(Lw)).Ok? && ReadBytes(M, 4, Width(Lw)) == Err(SliceIndex);
  }

  /** A program that never writes memory has nothing to read past. */
  lemma {:induction false} ReadOnlyGateSafeRun(w: Scope, c: Core, s: Machine, a: State, tags: seq<Tags>)
    requires forall pc: u32 :: !WritesMem(Fetch(c, pc))
    ensures GateSafeRun(w, c, s, a, tags)
    decreases |tags|
  {
    if tags != [] && Continues(Commit(c, s)) && Run(c, a, |Commit(c, s).retired|).Ok? {
      var s1, b := Commit(c, s).outcome.s, Run(c, a, |Commit(c, s).retired|).value;
      assert GateSafe(w, c, AddressPhase(WriteResult(s1)), b);
      if ExecuteStage(c, WriteResult(s1)).Running? {
        ReadOnlyGateSafeRun(w, c, Issue(c, ExecuteStage(c, WriteResult(s1)).s, tags[0]), b, tags[1..]);
      }
    }
  }

  lemma Panicking(c: Core, k: Kind, s: Machine, a: State, tags: seq<Tags>)
    requires Skipping(c, k) && s == Initial(0, M, 0) && a == State(0, s.gpr, M) && tags == Numbered(0, Length(k))
    ensures Cycles(c, s, tags) == Panicked(k) && Allocates(c, s, tags)
    ensures forall n: nat {:trigger Run(c, a, n)} :: Run(c, a, n).Ok? ==> Step(c, Run(c, a, n).value) != Err(FaultOf(k))
  {
    PanickingRun(c, k, s);
    NumberedAllocates(c, s, 0, Length(k));
    forall n: nat | Run(c, a, n).Ok? ensures Step(c, Run(c, a, n).value) != Err(FaultOf(k)) {
      Sequential(c, k, a, n);
    }
  }

  /** With every hypothesis of the refinement met, for the predicted path too, on the real functional
      units: the core panics for a division, or a load, that the sequential machine never executes. */
  lemma PanicsOffPath(k: Kind) returns (c: Core, s: Machine, a: State, tags: seq<Tags>)
    ensures c == RealCore(ProgramOf(k), Fails) && s == Initial(0, M, 0) && a == State(0, s.gpr, M)
    ensures Admissible(PathPredicted, c, s, a, tags) && Admissible(PathTaken, c, s, a, tags)
    ensures Cycles(c, s, tags).outcome == Panic(FaultOf(k))
    ensures forall n: nat {:trigger Run(c, a, n)} :: Run(c, a, n).Ok? ==> Step(c, Run(c, a, n).value) != Err(FaultOf(k))
  {
    c, s, tags := RealCore(ProgramOf(k), Fails), Initial(0, M, 0), Numbered(0, Length(k));
    a := State(0, s.gpr, M);
    RealCoreSound(ProgramOf(k), Fails);
    Reads();
    RealSkipping(c, k);
    RealProgram(c, k);
    ReadOnlyGateSafeRun(PathPredicted, c, s, a, tags);
    ReadOnlyGateSafeRun(PathTaken, c, s, a, tags);
    Panicking(c, k, s, a, tags);
  }
}
