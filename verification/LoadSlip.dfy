/** Runs in which a load reads memory past an older store that overlaps it: one for each thing the load
    gate does not look for, a store without an address and a store to another address. */
module LoadSlip {
  import opened Words
  import opened Instructions
  import opened ByteMemory
  import opened Isa
  import opened OutOfOrder
  import opened Refinement
  import opened Runs
  import opened Divergences
  import opened Simulation
  import Alu
  import opened Hardware

  /** What the gate misses. */
  datatype Kind = NoAddress | OtherAddress

  const LW5: Inst := Instruction(Opcode.Load, Fields(Some(0), None, Some(5), Some(0)), Lw)
  const ADDI5: Inst := Instruction(Opcode.OpImm, Fields(Some(5), None, Some(5), Some(0)), Addi)
  const ECALL: Inst := Instruction(Opcode.System, Fields(Some(0), None, Some(0), Some(0)), Ecall)

  /** sw x2, 0(x5) or sw x2, 0(x0). */
  function StoreInst(k: Kind): Inst {
    Instruction(Opcode.Store, Fields(Some(if k.NoAddress? then 5 else 0), Some(2), None, Some(0)), Sw)
  }

  /** lw x3, 0(x0) or lbu x3, 1(x0). */
  function LoadInst(k: Kind): Inst {
    Instruction(Opcode.Load, Fields(Some(0), None, Some(3), Some(Where(k))), if k.NoAddress? then Lw else Lbu)
  }

  /** The address of that load, and what it must read. */
  function Where(k: Kind): u32 { if k.NoAddress? then 0 else 1 }
  function Right(k: Kind): u32 { if k.NoAddress? then 0x100 else 1 }

  /** One word of memory at address 0, before and after the store of the stack pointer. */
  const SP: u32 := 0x100
  const M0: Mem := ByteMemory.Mem((0, 4), (0, 0), 4, [0, 0, 0, 0], [])
  const M1: Mem := ByteMemory.Mem((0, 4), (0, 0), 4, [0, 1, 0, 0], [])

  ghost predicate WordAtZero(c: Core, k: Kind) {
    && c.load(Lw, M0, 0) == Ok(0) && c.store(Sw, M0, 0, SP) == Ok(M1)
    && c.load(LoadInst(k).func, M0, Where(k)) == Ok(0) && c.load(LoadInst(k).func, M1, Where(k)) == Ok(Right(k))
  }

  /** lw x5, 0(x0); addi x5, x5, 0; the store; the load; ecall. The second load must see the store, which
      waits behind the first load, and in the first kind is without an address until that has read. The
      system call fails and reports x3. */
  ghost predicate Slipping(c: Core, k: Kind) {
    && c.program(0) == LW5 && c.program(4) == ADDI5 && c.program(8) == StoreInst(k) && c.program(12) == LoadInst(k) && c.program(16) == ECALL
    && c.alu(Addi, 0, 0) == Some(0) && c.alu(Ecall, 0, 0) == Some(0)
    && WordAtZero(c, k)
    && forall regs: Regs, m: Mem {:trigger c.syscall(regs, m)} :: c.syscall(regs, m) == Err(FailCallingSyscall(regs[3]))
  }

  function Load5(addr: Operand, rem: nat, result: Option<u32>): RobEntry {
    RobEntry(0, 0, LW5, Nothing, result, 5, addr, false, rem, None)
  }
  function Add(result: Option<u32>): RobEntry {
    RobEntry(1, 4, ADDI5, Nothing, result, 5, Nothing, false, MEM_CYCLE, None)
  }
  function Store(k: Kind, addr: Operand, rem: nat): RobEntry {
    RobEntry(2, 8, StoreInst(k), Value(SP), None, 0, addr, false, rem, None)
  }
  function Load3(k: Kind, addr: Operand, rem: nat, result: Option<u32>): RobEntry {
    RobEntry(3, 12, LoadInst(k), Nothing, result, 3, addr, false, rem, None)
  }
  function Call(result: Option<u32>): RobEntry {
    RobEntry(4, 16, ECALL, Nothing, result, 0, Nothing, false, MEM_CYCLE, None)
  }

  /** The store's address while it waits behind the first load. */
  function Pending(k: Kind): Operand { if k.NoAddress? then Nothing else Value(0) }

  /** The buffer while the second load, with `rem` clocks left, and the store wait behind `first`. */
  function Window(k: Kind, first: RobEntry, rem: nat, call: Option<u32>): seq<RobEntry> {
    [first, Add(None), Store(k, Pending(k), MEM_CYCLE), Load3(k, Value(Where(k)), rem, None), Call(call)]
  }

  function Names(): Renames { seq<Option<Tag>>(32, _ => None)[5 := Some(1)] }

  /** Registers and memory as at the start. */
  ghost predicate Fresh(s: Machine) {
    s.gpr == Initial(0, M0, SP).gpr && s.mem == M0
  }

  ghost predicate AddWaits(s: Machine, op: Operand) {
    1 in s.station && s.station[1] == RsEntry(1, Wait, ADDI5, op, Value(0), 0, 1)
  }

  ghost predicate StoreWaits(s: Machine, k: Kind) {
    2 in s.addressUnit && s.addressUnit[2] == RsEntry(2, Wait, StoreInst(k), if k.NoAddress? then Rob(1) else Value(0), Value(0), 0, 1)
  }

  /** The address unit holds the store if it has no address, and nothing else. */
  ghost predicate AddressPending(s: Machine, k: Kind) {
    (forall t :: t in s.addressUnit <==> t == 2 && k.NoAddress?) && (k.NoAddress? ==> StoreWaits(s, k))
  }

  /** No instruction works in any unit. */
  ghost predicate Drained(s: Machine) {
    (forall t :: t !in s.addressUnit) && (forall t :: t !in s.loadBuf) && (forall t :: t !in s.station)
  }

  lemma DrainedWrite(s: Machine)
    requires Drained(s)
    ensures WriteResult(s).rob == s.rob && Drained(WriteResult(s))
  {
    NothingToWrite(s);
  }

  lemma DrainedExecute(c: Core, s: Machine)
    requires Drained(s)
    ensures AddressPhase(s).rob == s.rob && AddressPhase(s).pc == s.pc && Drained(AddressPhase(s))
    ensures LoadPhase(c, s).Running? && LoadPhase(c, s).s.rob == s.rob && Drained(LoadPhase(c, s).s)
    ensures StationPhase(c, s).Running? && Drained(StationPhase(c, s).s)
  {
    assert AddressPhase(s).rob == s.rob;
  }

  // ---- Clock 1: the first load and the addition enter ----

  ghost predicate Start(s: Machine) {
    Drained(s) && Fresh(s) && s.pc == 0 && s.rob == [] && s.renames == seq(32, _ => None)
  }

  /** The first load has entered and waits for its address. */
  ghost predicate LoadWaits(s: Machine) {
    && Fresh(s)
    && (forall t :: t in s.addressUnit <==> t == 0) && s.addressUnit[0] == RsEntry(0, Wait, LW5, Value(0), Value(0), 0, 1)
    && (forall t :: t in s.loadBuf <==> t == 0) && s.loadBuf[0] == LoadEntry(0, Wait, Ok(0))
  }

  ghost predicate LoadEntered(s: Machine) {
    && LoadWaits(s) && s.pc == 4 && s.renames == seq<Option<Tag>>(32, _ => None)[5 := Some(0)]
    && s.rob == [Load5(Nothing, MEM_CYCLE, None)] && (forall t :: t !in s.station)
  }

  ghost predicate After1(s: Machine) {
    && LoadWaits(s) && s.pc == 8 && s.renames == Names()
    && s.rob == [Load5(Nothing, MEM_CYCLE, None), Add(None)] && (forall t :: t in s.station <==> t == 1) && AddWaits(s, Rob(0))
  }

  lemma IssueLoad5(c: Core, k: Kind, s: Machine)
    requires Slipping(c, k) && Start(s)
    ensures LoadEntered(IssueOne(c, s, 0))
  {
  }

  lemma IssueAdd(c: Core, k: Kind, s: Machine)
    requires Slipping(c, k) && LoadEntered(s)
    ensures After1(IssueOne(c, s, 1))
  {
    assert RegValue(s, 5) == Rob(0);
  }

  lemma AfterCommit1(c: Core, k: Kind, s: Machine)
    requires Slipping(c, k) && Start(WriteResult(s))
    ensures AfterCommit(c, s, Ids(0)).Running? && After1(AfterCommit(c, s, Ids(0)).s)
  {
    DrainedExecute(c, WriteResult(s));
    DrainedExecute(c, AddressPhase(WriteResult(s)));
    var s1 := ExecuteStage(c, WriteResult(s)).s;
    IssueLoad5(c, k, s1);
    IssueAdd(c, k, IssueOne(c, s1, 0));
  }

  lemma Clock1(c: Core, k: Kind, s: Machine) returns (s': Machine)
    requires Slipping(c, k) && Start(s)
    ensures Leads(c, s, 0, [], s') && After1(s')
  {
    DrainedWrite(s);
    AfterCommit1(c, k, s);
    QuietClock(c, s, 0);
    s' := AfterCommit(c, s, Ids(0)).s;
  }

  // ---- Clock 2: the store and the second load enter ----

  /** The first load counts down, the addition waits for it. */
  ghost predicate Begun(s: Machine) {
    && Fresh(s) && (forall t :: t in s.station <==> t == 1) && AddWaits(s, Rob(0))
    && 0 in s.loadBuf && s.loadBuf[0] == LoadEntry(0, Execute, Ok(0))
  }

  ghost predicate Executed2(s: Machine) {
    && Begun(s) && s.pc == 8 && s.renames == Names() && s.rob == [Load5(Value(0), 9, None), Add(None)]
    && (forall t :: t !in s.addressUnit) && (forall t :: t in s.loadBuf <==> t == 0)
  }

  ghost predicate StoreEntered(s: Machine, k: Kind) {
    && Begun(s) && s.pc == 12 && s.renames == Names()
    && s.rob == [Load5(Value(0), 9, None), Add(None), Store(k, Nothing, MEM_CYCLE)]
    && (forall t :: t in s.addressUnit <==> t == 2) && StoreWaits(s, k) && (forall t :: t in s.loadBuf <==> t == 0)
  }

  ghost predicate After2(s: Machine, k: Kind) {
    && Begun(s) && s.pc == 16 && s.renames == Names()[3 := Some(3)]
    && s.rob == [Load5(Value(0), 9, None), Add(None), Store(k, Nothing, MEM_CYCLE), Load3(k, Nothing, MEM_CYCLE, None)]
    && (forall t :: t in s.addressUnit <==> t == 2 || t == 3) && StoreWaits(s, k)
    && s.addressUnit[3] == RsEntry(3, Wait, LoadInst(k), Value(0), Value(Where(k)), 0, 1)
    && (forall t :: t in s.loadBuf <==> t == 0 || t == 3) && s.loadBuf[3] == LoadEntry(3, Wait, Ok(0))
  }

  lemma Execute2(c: Core, k: Kind, s: Machine)
    requires Slipping(c, k) && After1(s)
    ensures ExecuteStage(c, s).Running? && Executed2(ExecuteStage(c, s).s)
  {
    var s1 := AddressPhase(s);
    assert s1.rob == [Load5(Value(0), MEM_CYCLE, None), Add(None)];
    assert LoadedRob(c, s1) == [Load5(Value(0), 9, None), Add(None)];
  }

  lemma IssueStore(c: Core, k: Kind, s: Machine)
    requires Slipping(c, k) && Executed2(s)
    ensures StoreEntered(IssueOne(c, s, 2), k)
  {
    assert RegValue(s, 5) == Rob(1) && RegValue(s, 2) == Value(SP) && RegValue(s, 0) == Value(0);
  }

  lemma IssueLoad3(c: Core, k: Kind, s: Machine)
    requires Slipping(c, k) && StoreEntered(s, k)
    ensures After2(IssueOne(c, s, 3), k)
  {
    assert RegValue(s, 0) == Value(0);
  }

  lemma Issue2(c: Core, k: Kind, s: Machine)
    requires Slipping(c, k) && Executed2(s)
    ensures After2(Issue(c, s, Ids(1)), k)
  {
    IssueStore(c, k, s);
    IssueLoad3(c, k, IssueOne(c, s, 2));
  }

  lemma Clock2(c: Core, k: Kind, s: Machine) returns (s': Machine)
    requires Slipping(c, k) && After1(s)
    ensures Leads(c, s, 1, [], s') && After2(s', k)
  {
    NothingToWrite(s);
    Execute2(c, k, WriteResult(s));
    Issue2(c, k, ExecuteStage(c, WriteResult(s)).s);
    QuietClock(c, s, 1);
    s' := AfterCommit(c, s, Ids(1)).s;
  }

  // ---- Clock 3: the second load gets its address, the store only if it can; the call enters ----

  ghost predicate Addressed3(s: Machine, k: Kind) {
    && Begun(s) && s.pc == 16 && s.renames == Names()[3 := Some(3)] && AddressPending(s, k)
    && s.rob == [Load5(Value(0), 9, None), Add(None), Store(k, Pending(k), MEM_CYCLE), Load3(k, Value(Where(k)), MEM_CYCLE, None)]
    && (forall t :: t in s.loadBuf <==> t == 0 || t == 3) && s.loadBuf[3] == LoadEntry(3, Wait, Ok(0))
  }

  ghost predicate Executed3(s: Machine, k: Kind) {
    && Begun(s) && s.pc == 16 && s.renames == Names()[3 := Some(3)] && AddressPending(s, k)
    && s.rob == [Load5(Value(0), 8, None), Add(None), Store(k, Pending(k), MEM_CYCLE), Load3(k, Value(Where(k)), 9, None)]
    && (forall t :: t in s.loadBuf <==> t == 0 || t == 3) && s.loadBuf[3] == LoadEntry(3, Execute, Ok(0))
  }

  lemma Address3(k: Kind, s: Machine)
    requires After2(s, k)
    ensures Addressed3(AddressPhase(s), k)
  {
    assert AddressPhase(s).rob
        == [Load5(Value(0), 9, None), Add(None), Store(k, Pending(k), MEM_CYCLE), Load3(k, Value(Where(k)), MEM_CYCLE, None)];
  }

  lemma Entries3(c: Core, k: Kind, s: Machine)
    requires Slipping(c, k) && Addressed3(s, k)
    ensures !AnyLoadPanics(c, s)
    ensures LoadedRob(c, s) == [Load5(Value(0), 8, None), Add(None), Store(k, Pending(k), MEM_CYCLE), Load3(k, Value(Where(k)), 9, None)]
  {
  }

  lemma Buffer3(c: Core, k: Kind, s: Machine)
    requires Slipping(c, k) && Addressed3(s, k)
    ensures LoadedEntry(c, s, 0) == LoadEntry(0, Execute, Ok(0))
    ensures LoadedEntry(c, s, 3) == LoadEntry(3, Execute, Ok(0))
  {
  }

  lemma Execute3(c: Core, k: Kind, s: Machine)
    requires Slipping(c, k) && After2(s, k)
    ensures ExecuteStage(c, s).Running? && Executed3(ExecuteStage(c, s).s, k)
  {
    Address3(k, s);
    Buffer3(c, k, AddressPhase(s));
    Entries3(c, k, AddressPhase(s));
  }

  /** The first load has `rem` clocks left and the second one more. */
  ghost predicate Counting(s: Machine, k: Kind, rem: nat, call: Option<u32>, working: Option<RsEntry>) {
    && Fresh(s) && s.pc == 20 && s.renames == Names()[3 := Some(3)] && AddressPending(s, k)
    && s.rob == Window(k, Load5(Value(0), rem, None), rem + 1, call)
    && (forall t :: t in s.loadBuf <==> t == 0 || t == 3)
    && s.loadBuf[0] == LoadEntry(0, Execute, Ok(0)) && s.loadBuf[3] == LoadEntry(3, Execute, Ok(0))
    && (forall t :: t in s.station <==> t == 1 || (t == 4 && working.Some?)) && AddWaits(s, Rob(0))
    && (working.Some? ==> s.station[4] == working.value)
  }

  const CALL_WAITS := RsEntry(4, Wait, ECALL, Value(0), Value(0), 0, 1)
  const CALL_DONE := RsEntry(4, Finished, ECALL, Value(0), Value(0), 0, 0)

  lemma IssueCall(c: Core, k: Kind, s: Machine)
    requires Slipping(c, k) && Executed3(s, k)
    ensures Counting(Issue(c, s, Ids(2)), k, 8, None, Some(CALL_WAITS))
  {
    assert RegValue(s, 0) == Value(0);
    assert Issue(c, s, Ids(2)) == IssueOne(c, s, 4);
  }

  lemma Clock3(c: Core, k: Kind, s: Machine) returns (s': Machine)
    requires Slipping(c, k) && After2(s, k)
    ensures Leads(c, s, 2, [], s') && Counting(s', k, 8, None, Some(CALL_WAITS))
  {
    NothingToWrite(s);
    Execute3(c, k, WriteResult(s));
    IssueCall(c, k, ExecuteStage(c, WriteResult(s)).s);
    QuietClock(c, s, 2);
    s' := AfterCommit(c, s, Ids(2)).s;
  }

  // ---- Clocks 4 to 10: both loads count down ----

  lemma CountLoads(c: Core, k: Kind, s: Machine, rem: nat, call: Option<u32>, working: Option<RsEntry>)
    requires Slipping(c, k) && Counting(s, k, rem, call, working) && 1 < rem < MEM_CYCLE
    ensures LoadPhase(c, s).Running? && Counting(LoadPhase(c, s).s, k, rem - 1, call, working)
  {
    CountEntries(c, k, s, rem, call, working);
  }

  lemma CountEntries(c: Core, k: Kind, s: Machine, rem: nat, call: Option<u32>, working: Option<RsEntry>)
    requires Slipping(c, k) && Counting(s, k, rem, call, working) && 1 < rem < MEM_CYCLE
    ensures !AnyLoadPanics(c, s)
    ensures LoadedRob(c, s) == Window(k, Load5(Value(0), rem - 1, None), rem, call)
  {
  }

  lemma CountRest(c: Core, k: Kind, s: Machine, rem: nat, call: Option<u32>, working: Option<RsEntry>)
    requires Slipping(c, k) && Counting(s, k, rem, call, working) && working in {None, Some(CALL_WAITS)}
    ensures Counting(AddressPhase(s), k, rem, call, working)
    ensures StorePhase(c, s) == Running(s) && StationPhase(c, s).Running?
    ensures Counting(StationPhase(c, s).s, k, rem, call, if working.Some? then Some(CALL_DONE) else None)
  {
    assert AddressPhase(s).rob == s.rob;
  }

  /** One clock of both countdowns; the ECALL's own computation ends in the first. */
  lemma CountExecute(c: Core, k: Kind, s: Machine, rem: nat, call: Option<u32>, working: Option<RsEntry>)
    requires Slipping(c, k) && Counting(s, k, rem, call, working) && 1 < rem < MEM_CYCLE && working in {None, Some(CALL_WAITS)}
    ensures ExecuteStage(c, s).Running?
    ensures Counting(ExecuteStage(c, s).s, k, rem - 1, call, if working.Some? then Some(CALL_DONE) else None)
  {
    CountRest(c, k, s, rem, call, working);
    CountLoads(c, k, AddressPhase(s), rem, call, working);
    CountRest(c, k, LoadPhase(c, AddressPhase(s)).s, rem - 1, call, working);
  }

  lemma Count(c: Core, k: Kind, s: Machine, rem: nat, call: Option<u32>, working: Option<RsEntry>, ids: Tags)
    requires Slipping(c, k) && Counting(WriteResult(s), k, rem, call, working) && 1 < rem < MEM_CYCLE && working in {None, Some(CALL_WAITS)}
    ensures AfterCommit(c, s, ids).Running?
    ensures Counting(AfterCommit(c, s, ids).s, k, rem - 1, call, if working.Some? then Some(CALL_DONE) else None)
  {
    CountExecute(c, k, WriteResult(s), rem, call, working);
  }

  lemma Clock4(c: Core, k: Kind, s: Machine, n: nat) returns (s': Machine)
    requires Slipping(c, k) && Counting(s, k, 8, None, Some(CALL_WAITS))
    ensures Leads(c, s, n, [], s') && Counting(s', k, 7, None, Some(CALL_DONE))
  {
    NothingToWrite(s);
    Count(c, k, s, 8, None, Some(CALL_WAITS), Ids(n));
    QuietClock(c, s, n);
    s' := AfterCommit(c, s, Ids(n)).s;
  }

  lemma BroadcastCall(k: Kind, s: Machine)
    requires Counting(s, k, 7, None, Some(CALL_DONE))
    ensures Counting(WriteResult(s), k, 7, Some(0), None)
  {
    assert forall t :: t in Jobs(s) <==> t == 4;
    assert WriteResult(s).rob == Window(k, Load5(Value(0), 7, None), 8, Some(0));
  }

  lemma Clock5(c: Core, k: Kind, s: Machine, n: nat) returns (s': Machine)
    requires Slipping(c, k) && Counting(s, k, 7, None, Some(CALL_DONE))
    ensures Leads(c, s, n, [], s') && Counting(s', k, 6, Some(0), None)
  {
    BroadcastCall(k, s);
    Count(c, k, s, 7, Some(0), None, Ids(n));
    QuietClock(c, s, n);
    s' := AfterCommit(c, s, Ids(n)).s;
  }

  lemma Clock6To10(c: Core, k: Kind, s: Machine, rem: nat, n: nat) returns (s': Machine)
    requires Slipping(c, k) && Counting(s, k, rem, Some(0), None) && 1 < rem <= 6
    ensures Leads(c, s, n, [], s') && Counting(s', k, rem - 1, Some(0), None)
  {
    NothingToWrite(s);
    Count(c, k, s, rem, Some(0), None, Ids(n));
    QuietClock(c, s, n);
    s' := AfterCommit(c, s, Ids(n)).s;
  }

  // ---- Clocks 11 and 12: the first load reads, then the second, past the store ----

  /** Where the second load is in its last clocks: `first` heads the buffer, `op` is what the addition
      waits for. */
  ghost predicate Ending(s: Machine, k: Kind, first: RobEntry, rem: nat, done: bool, op: Operand) {
    && Fresh(s) && s.pc == 20 && s.renames == Names()[3 := Some(3)] && AddressPending(s, k)
    && s.rob == Window(k, first, rem, Some(0))
    && 3 in s.loadBuf && s.loadBuf[3] == LoadEntry(3, if done then Finished else Execute, Ok(0))
    && (forall t :: t in s.station <==> t == 1) && AddWaits(s, op)
  }

  ghost predicate After11(s: Machine, k: Kind) {
    && Ending(s, k, Load5(Value(0), 0, None), 1, false, Rob(0))
    && (forall t :: t in s.loadBuf <==> t == 0 || t == 3) && s.loadBuf[0] == LoadEntry(0, Finished, Ok(0))
  }

  lemma Entries11(c: Core, k: Kind, s: Machine)
    requires Slipping(c, k) && Counting(s, k, 1, Some(0), None)
    ensures !AnyLoadPanics(c, s)
    ensures LoadedRob(c, s) == Window(k, Load5(Value(0), 0, None), 1, Some(0))
  {
  }

  lemma Loads11(c: Core, k: Kind, s: Machine)
    requires Slipping(c, k) && Counting(s, k, 1, Some(0), None)
    ensures LoadPhase(c, s).Running? && After11(LoadPhase(c, s).s, k)
  {
    Entries11(c, k, s);
  }

  lemma Rest11(c: Core, k: Kind, s: Machine)
    requires Slipping(c, k) && After11(s, k)
    ensures StorePhase(c, s) == Running(s) && StationPhase(c, s).Running? && After11(StationPhase(c, s).s, k)
  {
  }

  lemma Clock11(c: Core, k: Kind, s: Machine, n: nat) returns (s': Machine)
    requires Slipping(c, k) && Counting(s, k, 1, Some(0), None)
    ensures Leads(c, s, n, [], s') && After11(s', k)
  {
    NothingToWrite(s);
    Execute11(c, k, s, Ids(n));
    QuietClock(c, s, n);
    s' := AfterCommit(c, s, Ids(n)).s;
  }

  lemma Execute11(c: Core, k: Kind, s: Machine, ids: Tags)
    requires Slipping(c, k) && Counting(WriteResult(s), k, 1, Some(0), None)
    ensures AfterCommit(c, s, ids).Running? && After11(AfterCommit(c, s, ids).s, k)
  {
    var s1 := WriteResult(s);
    CountRest(c, k, s1, 1, Some(0), None);
    Loads11(c, k, AddressPhase(s1));
    Rest11(c, k, LoadPhase(c, AddressPhase(s1)).s);
  }

  /** The first load is done; the second has `rem` clocks left, or has read. */
  ghost predicate Reading(s: Machine, k: Kind, rem: nat, done: bool) {
    Ending(s, k, Load5(Value(0), 0, Some(0)), rem, done, Value(0)) && (forall t :: t in s.loadBuf <==> t == 3)
  }

  lemma Write12(k: Kind, s: Machine)
    requires After11(s, k)
    ensures Reading(WriteResult(s), k, 1, false)
  {
    assert forall t :: t in Jobs(s) <==> t == 0;
    assert WriteResult(s).rob == Window(k, Load5(Value(0), 0, Some(0)), 1, Some(0));
  }

  lemma Address12(k: Kind, s: Machine)
    requires Reading(s, k, 1, false)
    ensures Reading(AddressPhase(s), k, 1, false)
  {
    assert AddressPhase(s).rob == s.rob;
  }

  /** The slip: the gate is open, and the load reads the old word. */
  lemma Buffer12(c: Core, k: Kind, s: Machine)
    requires Slipping(c, k) && Reading(s, k, 1, false)
    ensures GateOpen(s.rob, 3, s.loadBuf[3]) && LoadedEntry(c, s, 3) == LoadEntry(3, Finished, Ok(0))
  {
    assert s.rob[0].id == 0 && s.rob[1].id == 1 && s.rob[2].id == 2 && s.rob[3].id == 3;
    assert s.rob[3] == Load3(k, Value(Where(k)), 1, None);
    assert GateOpen(s.rob, 3, s.loadBuf[3]);
    OldWord(c, k, s.rob[3], s.loadBuf[3]);
  }

  lemma OldWord(c: Core, k: Kind, e: RobEntry, l: LoadEntry)
    requires Slipping(c, k) && e == Load3(k, Value(Where(k)), 1, None) && l == LoadEntry(3, Execute, Ok(0))
    ensures SteppedLoad(c, M0, e, l, true) == LoadEntry(3, Finished, Ok(0))
  {
  }

  lemma Entries12(c: Core, k: Kind, s: Machine)
    requires Slipping(c, k) && Reading(s, k, 1, false)
    ensures !AnyLoadPanics(c, s)
    ensures LoadedRob(c, s) == Window(k, Load5(Value(0), 0, Some(0)), 0, Some(0))
  {
  }

  lemma Loads12(c: Core, k: Kind, s: Machine)
    requires Slipping(c, k) && Reading(s, k, 1, false)
    ensures LoadPhase(c, s).Running? && Reading(LoadPhase(c, s).s, k, 0, true)
  {
    Buffer12(c, k, s);
    Entries12(c, k, s);
  }

  ghost predicate AddDone(s: Machine) {
    (forall t :: t in s.station <==> t == 1) && s.station[1] == RsEntry(1, Finished, ADDI5, Value(0), Value(0), 0, 0)
  }

  ghost predicate LoadDone(s: Machine) {
    (forall t :: t in s.loadBuf <==> t == 3) && s.loadBuf[3] == LoadEntry(3, Finished, Ok(0))
  }

  ghost predicate After12(s: Machine, k: Kind) {
    && Fresh(s) && s.pc == 20 && s.renames == Names()[3 := Some(3)] && AddressPending(s, k)
    && s.rob == Window(k, Load5(Value(0), 0, Some(0)), 0, Some(0)) && LoadDone(s) && AddDone(s)
  }

  lemma Station12(c: Core, k: Kind, s: Machine)
    requires Slipping(c, k) && Reading(s, k, 0, true)
    ensures StorePhase(c, s) == Running(s) && StationPhase(c, s).Running? && After12(StationPhase(c, s).s, k)
  {
  }

  lemma Execute12(c: Core, k: Kind, s: Machine, ids: Tags)
    requires Slipping(c, k) && Reading(WriteResult(s), k, 1, false)
    ensures AfterCommit(c, s, ids).Running? && After12(AfterCommit(c, s, ids).s, k)
  {
    var s1 := WriteResult(s);
    Address12(k, s1);
    Loads12(c, k, AddressPhase(s1));
    Station12(c, k, LoadPhase(c, AddressPhase(s1)).s);
  }

  lemma Clock12(c: Core, k: Kind, s: Machine, n: nat) returns (s': Machine)
    requires Slipping(c, k) && After11(s, k)
    ensures Leads(c, s, n, [], s') && After12(s', k)
  {
    Write12(k, s);
    Execute12(c, k, s, Ids(n));
    QuietClock(c, s, n);
    s' := AfterCommit(c, s, Ids(n)).s;
  }

  // ---- Clocks 13 to 15: everything retires ----

  /** The buffer behind the first load. */
  function Tail(k: Kind, result: Option<u32>, addr: Operand, loaded: Option<u32>): seq<RobEntry> {
    [Add(result), Store(k, addr, MEM_CYCLE), Load3(k, Value(Where(k)), 0, loaded), Call(Some(0))]
  }

  ghost predicate Committed13(s: Machine, k: Kind) {
    && Fresh(s) && s.pc == 20 && s.renames == Names()[3 := Some(3)] && AddressPending(s, k)
    && s.rob == Tail(k, None, Pending(k), None) && LoadDone(s) && AddDone(s)
  }

  lemma Commit13(c: Core, k: Kind, s: Machine)
    requires Slipping(c, k) && After12(s, k)
    ensures Commit(c, s).outcome.Running? && Commit(c, s).retired == [Load5(Value(0), 0, Some(0))]
    ensures Committed13(Commit(c, s).outcome.s, k)
  {
    var s1 := Retire(c, s.(rob := s.rob[1..]), s.rob[0]).s;
    assert SetReg(s.gpr, 5, 0) == s.gpr;
    assert Commit(c, s1.(rob := s.rob[1..])).retired == [];
  }

  ghost predicate Broadcast13(s: Machine, k: Kind) {
    && Fresh(s) && s.pc == 20 && s.renames == Names()[3 := Some(3)] && s.rob == Tail(k, Some(0), Pending(k), Some(0))
    && (forall t :: t in s.addressUnit <==> t == 2 && k.NoAddress?)
    && (k.NoAddress? ==> s.addressUnit[2] == RsEntry(2, Wait, StoreInst(k), Value(0), Value(0), 0, 1))
    && (forall t :: t !in s.loadBuf) && (forall t :: t !in s.station)
  }

  lemma Write13(k: Kind, s: Machine)
    requires Committed13(s, k)
    ensures Broadcast13(WriteResult(s), k)
  {
    assert forall t :: t in Jobs(s) <==> t == 1 || t == 3;
    assert WriteResult(s).rob == Tail(k, Some(0), Pending(k), Some(0));
  }

  ghost predicate After13(s: Machine, k: Kind) {
    && Fresh(s) && s.pc == 20 && s.renames == Names()[3 := Some(3)] && Drained(s)
    && s.rob == Tail(k, Some(0), Value(0), Some(0))
  }

  lemma Address13(k: Kind, s: Machine)
    requires Broadcast13(s, k)
    ensures After13(AddressPhase(s), k)
  {
    assert AddressPhase(s).rob == Tail(k, Some(0), Value(0), Some(0));
  }

  lemma AfterCommit13(c: Core, k: Kind, s: Machine, ids: Tags)
    requires Slipping(c, k) && Broadcast13(WriteResult(s), k)
    ensures AfterCommit(c, s, ids).Running? && After13(AfterCommit(c, s, ids).s, k)
  {
    Address13(k, WriteResult(s));
    DrainedExecute(c, AddressPhase(WriteResult(s)));
  }

  lemma Clock13(c: Core, k: Kind, s: Machine, n: nat) returns (s': Machine)
    requires Slipping(c, k) && After12(s, k)
    ensures Leads(c, s, n, [Load5(Value(0), 0, Some(0))], s') && After13(s', k)
  {
    Commit13(c, k, s);
    var s1 := Commit(c, s).outcome.s;
    Write13(k, s1);
    AfterCommit13(c, k, s1, Ids(n));
    CommitClock(c, s, n, [Load5(Value(0), 0, Some(0))]);
    s' := AfterCommit(c, s1, Ids(n)).s;
  }

  ghost predicate Committed14(s: Machine, k: Kind) {
    && Fresh(s) && s.pc == 20 && s.renames == seq<Option<Tag>>(32, _ => None)[3 := Some(3)] && Drained(s)
    && s.rob == [Store(k, Value(0), MEM_CYCLE), Load3(k, Value(Where(k)), 0, Some(0)), Call(Some(0))]
  }

  lemma Commit14(c: Core, k: Kind, s: Machine)
    requires Slipping(c, k) && After13(s, k)
    ensures Commit(c, s).outcome.Running? && Commit(c, s).retired == [Add(Some(0))] && Committed14(Commit(c, s).outcome.s, k)
  {
    var s1 := Retire(c, s.(rob := s.rob[1..]), s.rob[0]).s;
    assert SetReg(s.gpr, 5, 0) == s.gpr;
    assert Commit(c, s1.(rob := s.rob[1..])).retired == [];
  }

  ghost predicate After14(s: Machine, k: Kind) {
    && s.gpr == Initial(0, M0, SP).gpr && s.mem == M1
    && s.rob == [Store(k, Value(0), 0), Load3(k, Value(Where(k)), 0, Some(0)), Call(Some(0))]
  }

  lemma AfterCommit14(c: Core, k: Kind, s: Machine, ids: Tags)
    requires Slipping(c, k) && Committed14(s, k)
    ensures AfterCommit(c, s, ids).Running? && After14(AfterCommit(c, s, ids).s, k)
  {
    DrainedWrite(s);
    var s1 := WriteResult(s);
    DrainedExecute(c, s1);
    DrainedExecute(c, AddressPhase(s1));
  }

  lemma Clock14(c: Core, k: Kind, s: Machine, n: nat) returns (s': Machine)
    requires Slipping(c, k) && After13(s, k)
    ensures Leads(c, s, n, [Add(Some(0))], s') && After14(s', k)
  {
    Commit14(c, k, s);
    var s1 := Commit(c, s).outcome.s;
    AfterCommit14(c, k, s1, Ids(n));
    CommitClock(c, s, n, [Add(Some(0))]);
    s' := AfterCommit(c, s1, Ids(n)).s;
  }

  /** What retires, and how the run ends: the system call sees 0 in x3. */
  function Retired(k: Kind): seq<RobEntry> {
    [Load5(Value(0), 0, Some(0)), Add(Some(0)), Store(k, Value(0), 0), Load3(k, Value(Where(k)), 0, Some(0))]
  }

  function Slipped(retired: seq<RobEntry>): Clocked { Clocked(Panic(Trap(FailCallingSyscall(0))), retired, false) }

  lemma Clock15(c: Core, k: Kind, s: Machine, ids: Tags)
    requires Slipping(c, k) && After14(s, k)
    ensures Clock(c, s, ids) == Slipped([Store(k, Value(0), 0), Load3(k, Value(Where(k)), 0, Some(0))])
  {
    var e, l := s.rob[0], s.rob[1];
    var s1 := Retire(c, s.(rob := s.rob[1..]), e).s.(rob := s.rob[1..]);
    assert s1.rob[1..] == [Call(Some(0))];
    var s2 := Retire(c, s1.(rob := s1.rob[1..]), l).s.(rob := s1.rob[1..]);
    assert s2.gpr[3] == 0;
    assert Commit(c, s2) == Committed(Panic(Trap(FailCallingSyscall(0))), []);
    assert Commit(c, s1) == Committed(Panic(Trap(FailCallingSyscall(0))), [l]);
  }

  // ---- The whole run ----

  lemma From13(c: Core, k: Kind, s: Machine, n: nat)
    requires Slipping(c, k) && After12(s, k)
    ensures Ends(c, s, n, 3, Slipped(Retired(k)))
  {
    var s1 := Clock13(c, k, s, n);
    var s2 := Clock14(c, k, s1, n + 1);
    Clock15(c, k, s2, Ids(n + 2));
    assert Numbered(n + 2, 1)[0] == Ids(n + 2);
    var last := [Store(k, Value(0), 0), Load3(k, Value(Where(k)), 0, Some(0))];
    assert Ends(c, s2, n + 2, 1, Slipped(last));
    EndsNext(c, s1, n + 1, [Add(Some(0))], s2, 1, Slipped(last));
    EndsNext(c, s, n, [Load5(Value(0), 0, Some(0))], s1, 2, Slipped([Add(Some(0))] + last));
    assert [Load5(Value(0), 0, Some(0))] + ([Add(Some(0))] + last) == Retired(k);
  }

  /** From the countdown of the first load to the end. */
  lemma {:induction false} FromCounting(c: Core, k: Kind, s: Machine, rem: nat, n: nat)
    requires Slipping(c, k) && Counting(s, k, rem, Some(0), None) && 0 < rem <= 6
    ensures Ends(c, s, n, rem + 4, Slipped(Retired(k)))
    decreases rem
  {
    if rem == 1 {
      var s1 := Clock11(c, k, s, n);
      var s2 := Clock12(c, k, s1, n + 1);
      From13(c, k, s2, n + 2);
      QuietNext(c, s1, n + 1, s2, 3, Slipped(Retired(k)));
      QuietNext(c, s, n, s1, 4, Slipped(Retired(k)));
    } else {
      var s1 := Clock6To10(c, k, s, rem, n);
      FromCounting(c, k, s1, rem - 1, n + 1);
      QuietNext(c, s, n, s1, rem + 3, Slipped(Retired(k)));
    }
  }

  lemma From2(c: Core, k: Kind, s: Machine)
    requires Slipping(c, k) && After1(s)
    ensures Ends(c, s, 1, 14, Slipped(Retired(k)))
  {
    var s1 := Clock2(c, k, s);
    var s2 := Clock3(c, k, s1);
    var s3 := Clock4(c, k, s2, 3);
    var s4 := Clock5(c, k, s3, 4);
    FromCounting(c, k, s4, 6, 5);
    QuietNext(c, s3, 4, s4, 10, Slipped(Retired(k)));
    QuietNext(c, s2, 3, s3, 11, Slipped(Retired(k)));
    QuietNext(c, s1, 2, s2, 12, Slipped(Retired(k)));
    QuietNext(c, s, 1, s1, 13, Slipped(Retired(k)));
  }

  /** All four instructions retire in 15 clocks, and the system call sees the old word. */
  lemma SlippedRun(c: Core, k: Kind, s: Machine)
    requires Slipping(c, k) && Start(s)
    ensures Cycles(c, s, Numbered(0, 15)) == Slipped(Retired(k))
  {
    var s1 := Clock1(c, k, s);
    From2(c, k, s1);
    RunEnds(c, s, s1, 14, 15, Slipped(Retired(k)));
  }

  // ---- The sequential machine ----

  function Regs0(): Regs { Initial(0, M0, SP).gpr }

  lemma Steps(c: Core, k: Kind)
    requires Slipping(c, k)
    ensures Step(c, State(0, Regs0(), M0)) == Ok(State(4, Regs0(), M0))
    ensures Step(c, State(4, Regs0(), M0)) == Ok(State(8, Regs0(), M0))
    ensures Step(c, State(8, Regs0(), M0)) == Ok(State(12, Regs0(), M1))
    ensures Step(c, State(12, Regs0(), M1)) == Ok(State(16, Regs0()[3 := Right(k)], M1))
    ensures Step(c, State(16, Regs0()[3 := Right(k)], M1)) == Err(Trap(FailCallingSyscall(Right(k))))
  {
    assert Regs0()[5 := 0] == Regs0();
  }

  lemma Sequential(c: Core, k: Kind, a: State)
    requires Slipping(c, k) && a == State(0, Regs0(), M0)
    ensures Run(c, a, 4) == Ok(State(16, Regs0()[3 := Right(k)], M1))
    ensures Step(c, State(16, Regs0()[3 := Right(k)], M1)) == Err(Trap(FailCallingSyscall(Right(k))))
  {
    Steps(c, k);
    assert Run(c, a, 0) == Ok(a);
    RunSnoc(c, a, 0);
    RunSnoc(c, a, 1);
    RunSnoc(c, a, 2);
    RunSnoc(c, a, 3);
  }

  // ---- The programs on the real units ----

  function InstAt(k: Kind, pc: u32): Inst {
    if pc == 0 then LW5 else if pc == 4 then ADDI5 else if pc == 8 then StoreInst(k) else if pc == 12 then LoadInst(k) else ECALL
  }

  function ProgramOf(k: Kind): Program { pc => InstAt(k, pc) }

  function Reports(regs: Regs, m: Mem): Result<(u32, Mem), Exception> {
    Err(FailCallingSyscall(regs[3]))
  }

  lemma BytesOfWords()
    ensures FromBytes([0, 0, 0, 0]) == 0 && FromBytes([0, 1, 0, 0]) == SP && ToBytes(SP, 4) == [0, 1, 0, 0]
    ensures FromBytes([0]) == 0 && FromBytes([1]) == 1
  {
    assert FromBytes([]) == 0 && FromBytes([0]) == 0 && FromBytes([0, 0]) == 0;
    assert [0, 0, 0][1..] == [0, 0] && [0, 0, 0, 0][1..] == [0, 0, 0] && [0, 1, 0, 0][1..] == [1, 0, 0] && [1, 0, 0][1..] == [0, 0];
    assert FromBytes([0, 0, 0]) == 0 && FromBytes([1, 0, 0]) == 1;
    assert [1][1..] == [];
    assert ToBytes(0, 1) == [0] && ToBytes(0, 2) == [0, 0] && ToBytes(1, 3) == [1, 0, 0];
  }

  lemma RealLoad(m: Mem, a: u32, f: Function, word: u32)
    requires m.vRange == (0, 4) && m.stackLo == 4 && |m.data| == 4 && a + Width(f) <= 4
    requires f in {Lw, Lbu} && FromBytes(m.data[a..a + Width(f)]) == word
    ensures LoadFrom(f, m, a) == Ok(word)
  {
    assert ReadBytes(m, a, Width(f)) == Ok(m.data[a..a + Width(f)]);
  }

  lemma RealStore(m: Mem, b: seq<u8>)
    requires m.vRange == (0, 4) && m.readOnly == (0, 0) && m.stackLo == 4 && |m.data| == 4 && |b| == 4
    ensures WriteBytes(m, 0, b) == Ok(m.(data := b))
  {
    assert Splice(m.data, 0, b) == b;
  }

  lemma RealLoads(k: Kind)
    ensures LoadFrom(LoadInst(k).func, M0, Where(k)) == Ok(0) && LoadFrom(LoadInst(k).func, M1, Where(k)) == Ok(Right(k))
  {
    BytesOfWords();
    var a, w := Where(k), Width(LoadInst(k).func);
    if k.NoAddress? {
      assert M0.data[a..a + w] == M0.data && M1.data[a..a + w] == M1.data;
    } else {
      assert M0.data[a..a + w] == [0] && M1.data[a..a + w] == [1];
    }
    RealLoad(M0, a, LoadInst(k).func, 0);
    RealLoad(M1, a, LoadInst(k).func, Right(k));
  }

  lemma RealWord(c: Core, k: Kind)
    requires c.load == LoadFrom && c.store == StoreTo
    ensures WordAtZero(c, k)
  {
    RealLoads(NoAddress);
    RealLoads(k);
    BytesOfWords();
    RealStore(M0, ToBytes(SP, Width(Sw)));
  }

  lemma RealSlipping(c: Core, k: Kind)
    requires c.program == ProgramOf(k) && c.alu == Alu.Eval && c.syscall == Reports && WordAtZero(c, k)
    ensures Slipping(c, k) && EcallsPlain(c)
    ensures forall a: State :: TargetOk(c, a)
  {
    forall pc: u32 ensures c.program(pc) == InstAt(k, pc) {
    }
  }

  lemma SlipsUnsafely(c: Core, s: Machine, a: State, tags: seq<Tags>)
    requires Simulates(PathTaken, c, s, a) && Sound(c) && EcallsPlain(c) && Allocates(c, s, tags) && forall x: State :: TargetOk(c, x)
    requires var r := Cycles(c, s, tags);
      r.outcome.Panic? && r.outcome.fault.Trap? && Run(c, a, |r.retired|).Ok? && Step(c, Run(c, a, |r.retired|).value) != Err(r.outcome.fault)
    ensures !GateSafeRun(PathTaken, c, s, a, tags)
  {
    if GateSafeRun(PathTaken, c, s, a, tags) { RunRefines(PathTaken, c, s, a, tags); }
  }

  lemma SlippingRun(c: Core, k: Kind, s: Machine, a: State, tags: seq<Tags>)
    requires Slipping(c, k) && s == Initial(0, M0, SP) && a == State(0, s.gpr, M0) && tags == Numbered(0, 15)
    ensures var r := Cycles(c, s, tags); r.outcome == Panic(Trap(FailCallingSyscall(0))) && |r.retired| == 4
    ensures Run(c, a, 4).Ok? && Step(c, Run(c, a, 4).value) == Err(Trap(FailCallingSyscall(Right(k))))
    ensures Allocates(c, s, tags)
  {
    SlippedRun(c, k, s);
    Sequential(c, k, a);
    NumberedAllocates(c, s, 0, 15);
  }

  /** With every other hypothesis of the refinement met, on the real functional units, the run ends
      in a system call that has seen 0 where the sequential machine's sees the byte or word just stored:
      the load gate was not safe. In the first kind the store has no address when the load reads, in the
      second it has had its own for nine clocks. */
  lemma LoadSlipsPastStore(k: Kind) returns (c: Core, s: Machine, a: State, tags: seq<Tags>)
    ensures c == RealCore(ProgramOf(k), Reports) && s == Initial(0, M0, SP) && a == State(0, s.gpr, M0)
    ensures Sound(c) && EcallsPlain(c) && Allocates(c, s, tags) && forall x: State :: TargetOk(c, x)
    ensures var r := Cycles(c, s, tags); r.outcome == Panic(Trap(FailCallingSyscall(0))) && |r.retired| == 4
    ensures Run(c, a, 4).Ok? && Step(c, Run(c, a, 4).value) == Err(Trap(FailCallingSyscall(Right(k))))
    ensures !GateSafeRun(PathTaken, c, s, a, tags)
  {
    c, s, tags := RealCore(ProgramOf(k), Reports), Initial(0, M0, SP), Numbered(0, 15);
    a := State(0, s.gpr, M0);
    RealCoreSound(ProgramOf(k), Reports);
    RealWord(c, k);
    RealSlipping(c, k);
    SlippingRun(c, k, s, a, tags);
    InitialSimulates(PathTaken, c, 0, M0, SP);
    SlipsUnsafely(c, s, a, tags);
  }
}
