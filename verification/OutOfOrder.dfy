/** The state of the out-of-order core and, stage by stage, what one clock does to it. Each function
    is the meaning of one method of the source; the classes in Pipeline.dfy are proved to compute
    them, whatever order their hash maps are traversed in. */
module OutOfOrder {
  import opened Words
  import opened Instructions
  import opened ByteMemory
  import opened Isa
  import BranchPrediction

  const MEM_CYCLE: nat := 10

  /** The identity of a reorder buffer entry. The source uses the heap address of its list node, so
      a tag may return as soon as the entry that held it has left the buffer. */
  type Tag = nat

  datatype Operand = Value(v: u32) | Rob(tag: Tag) | Nothing

  datatype Status = Wait | Execute | Finished

  /** `id` is the entry's address in the source, not a field there. */
  datatype RobEntry = RobEntry(
    id: Tag,
    pc: u32,
    inst: Inst,
    memValue: Operand,
    regValue: Option<u32>,
    rd: Reg,
    addr: Operand,
    branchPred: bool,
    memRemCycle: nat,
    memException: Option<Exception>)

  /** An entry of the station or of the address unit. */
  datatype RsEntry = RsEntry(
    robIndex: Tag,
    status: Status,
    inst: Inst,
    op1: Operand,
    op2: Operand,
    value: u32,
    remainingClock: nat)

  datatype LoadEntry = LoadEntry(robIndex: Tag, status: Status, value: Result<u32, Exception>)

  /** A result on its way to everything that waits for it (`FinishedCalc`). */
  datatype Job = Job(value: u32, exception: Option<Exception>)

  type Renames = s: seq<Option<Tag>> | |s| == 32 witness seq(32, _ => None)

  datatype Machine = Machine(
    pc: u32,
    gpr: Regs,
    renames: Renames,
    mem: Mem,
    rob: seq<RobEntry>,
    addressUnit: map<Tag, RsEntry>,
    loadBuf: map<Tag, LoadEntry>,
    station: map<Tag, RsEntry>,
    predictor: BranchPrediction.Table)

  function Initial(pc: u32, mem: Mem, stackPointer: u32): Machine {
    Machine(pc, seq(32, i => if i == 2 then stackPointer else 0), seq(32, _ => None), mem, [], map[], map[], map[], map[])
  }

  // ---- Reorder buffer queries ----

  predicate IsCompleted(e: RobEntry) {
    match e.inst.opcode
    case Store => e.memValue.Value? && e.addr.Value? && e.memRemCycle == 0
    case Amo => e.memValue.Value? && e.addr.Value? && e.regValue.Some? && e.memRemCycle == 0
    case Jalr => e.addr.Value? && e.regValue.Some?
    case _ => e.regValue.Some?
  }

  /** The entry a tag points to. */
  function Lookup(rob: seq<RobEntry>, t: Tag): (r: Option<RobEntry>)
    ensures r.Some? ==> r.value in rob && r.value.id == t
    ensures r.None? ==> forall e :: e in rob ==> e.id != t
  {
    if rob == [] then None
    else if rob[0].id == t then Some(rob[0])
    else Lookup(rob[1..], t)
  }

  /** `get_reg_value`: the register, or the result or the tag of the entry that will write it. */
  function RegValue(s: Machine, r: Reg): Operand {
    match s.renames[r]
    case None => Value(s.gpr[r])
    case Some(t) =>
      var e := Lookup(s.rob, t);
      if e.Some? && e.value.regValue.Some? then Value(e.value.regValue.value) else Rob(t)
  }

  /** An operand as it is captured at issue. */
  function Capture(s: Machine, src: Source): Operand {
    match src
    case FromReg(r) => RegValue(s, r)
    case Const(v) => Value(v)
  }

  // ---- Commit ----

  /** What retiring one entry does: continue, cancel everything younger, or fault. */
  datatype Retirement = Retired(s: Machine) | Cancelled(s: Machine) | Faulted(fault: Fault)

  function ClearAllBuffers(s: Machine): Machine {
    s.(station := map[], loadBuf := map[], addressUnit := map[], rob := [], renames := seq(32, _ => None))
  }

  /** `ReorderBufferEntry::retire` and the branch bookkeeping of `commit`, for an entry that has
      just left the buffer. */
  function Retire(c: Core, s: Machine, e: RobEntry): Retirement {
    if e.memException.Some? then Faulted(Trap(e.memException.value))
    else if e.inst.opcode.Branch? then
      var outcome := e.regValue.GetOr(0);
      var s' := s.(predictor := BranchPrediction.Updated(s.predictor, e.pc, outcome));
      if outcome == (if e.branchPred then 1 else 0) then Retired(s')
      else
        Cancelled(ClearAllBuffers(s').(pc :=
          if outcome == 1 then Wrap(e.pc + Imm(e.inst)) else Wrap(e.pc + WORD_SIZE)))
    else if IsEcall(e.inst) then
      match c.syscall(s.gpr, s.mem)
      case Err(x) => Faulted(Trap(x))
      case Ok((a0, m)) => Retired(s.(gpr := s.gpr[10 := a0], mem := m))
    else if e.regValue.Some? then
      Retired(s.(gpr := SetReg(s.gpr, e.rd, e.regValue.value),
                 renames := if s.renames[e.rd] == Some(e.id) then s.renames[e.rd := None] else s.renames))
    else Retired(s)
  }

  /** The outcome of a stage or of a clock: `Panic` is the source's `unwrap` of an error. */
  datatype Outcome = Running(s: Machine) | Panic(fault: Fault)

  /** `commit`: retire completed entries in order, up to and including the first that cancels.
      `retired` lists what retired, also when a fault stops the stage. */
  datatype Committed = Committed(outcome: Outcome, retired: seq<RobEntry>)

  function Commit(c: Core, s: Machine): Committed
    decreases |s.rob|
  {
    if s.rob == [] || !IsCompleted(s.rob[0]) then Committed(Running(s), [])
    else
      match Retire(c, s.(rob := s.rob[1..]), s.rob[0])
      case Faulted(f) => Committed(Panic(f), [])
      case Cancelled(s') => Committed(Running(s'), [s.rob[0]])
      case Retired(s') =>
        var rest := Commit(c, s'.(rob := s.rob[1..]));
        Committed(rest.outcome, [s.rob[0]] + rest.retired)
  }

  /** `is_program_finished`: an exit system call has retired. */
  predicate IsFinished(s: Machine, retired: seq<RobEntry>) {
    (exists i :: 0 <= i < |retired| && IsEcall(retired[i].inst)) && s.gpr[17] in {93, 94}
  }

  // ---- Write result ----

  /** The job of a finished load: a trapped one reports 0 and its exception. */
  function LoadJob(l: LoadEntry): Job {
    if l.value.Ok? then Job(l.value.value, None) else Job(0, Some(l.value.error))
  }

  function LoadJobs(loads: map<Tag, LoadEntry>): map<Tag, Job> {
    map t | t in loads && loads[t].status.Finished? :: LoadJob(loads[t])
  }

  function StationJobs(station: map<Tag, RsEntry>): map<Tag, Job> {
    map t | t in station && station[t].status.Finished? :: Job(station[t].value, None)
  }

  /** `completed_jobs`: everything finished in the load buffer and the station. */
  function Jobs(s: Machine): map<Tag, Job> {
    LoadJobs(s.loadBuf) + StationJobs(s.station)
  }

  function Wake(op: Operand, jobs: map<Tag, Job>): Operand {
    if op.Rob? && op.tag in jobs then Value(jobs[op.tag].value) else op
  }

  /** An entry takes its own result, and the results its operands wait for. */
  function WakeRob(e: RobEntry, jobs: map<Tag, Job>): RobEntry {
    var others := jobs - {e.id};
    var e' := e.(addr := Wake(e.addr, others), memValue := Wake(e.memValue, others));
    if e.id !in jobs then e'
    else e'.(regValue := Some(jobs[e.id].value),
             memException := if jobs[e.id].exception.Some? then jobs[e.id].exception else e.memException)
  }

  function WakeRs(e: RsEntry, jobs: map<Tag, Job>): RsEntry {
    e.(op1 := Wake(e.op1, jobs), op2 := Wake(e.op2, jobs))
  }

  function WakeAddress(e: RsEntry, jobs: map<Tag, Job>): RsEntry {
    e.(op1 := Wake(e.op1, jobs))
  }

  function WokenRob(rob: seq<RobEntry>, jobs: map<Tag, Job>): seq<RobEntry> {
    seq(|rob|, i requires 0 <= i < |rob| => WakeRob(rob[i], jobs))
  }

  function WokenStation(station: map<Tag, RsEntry>, jobs: map<Tag, Job>): map<Tag, RsEntry> {
    map t | t in station :: WakeRs(station[t], jobs)
  }

  function WokenAddresses(addresses: map<Tag, RsEntry>, jobs: map<Tag, Job>): map<Tag, RsEntry> {
    map t | t in addresses :: WakeAddress(addresses[t], jobs)
  }

  /** Deliver `jobs` to every listener. */
  function Broadcast(s: Machine, jobs: map<Tag, Job>): Machine {
    s.(addressUnit := WokenAddresses(s.addressUnit, jobs),
       station := WokenStation(s.station, jobs),
       rob := WokenRob(s.rob, jobs))
  }

  /** Take the finished entries out of the station and the load buffer. */
  function PopFinished(s: Machine): Machine {
    s.(loadBuf := UnfinishedLoads(s.loadBuf), station := UnfinishedStation(s.station))
  }

  function UnfinishedLoads(loads: map<Tag, LoadEntry>): map<Tag, LoadEntry> {
    map t | t in loads && !loads[t].status.Finished? :: loads[t]
  }

  function UnfinishedStation(station: map<Tag, RsEntry>): map<Tag, RsEntry> {
    map t | t in station && !station[t].status.Finished? :: station[t]
  }

  function WriteResult(s: Machine): Machine {
    Broadcast(PopFinished(s), Jobs(s))
  }

  // ---- Execute ----

  predicate IsReady(e: RsEntry) {
    e.op1.Value? && e.op2.Value?
  }

  function Sum(e: RsEntry): u32
    requires IsReady(e)
  {
    Wrap(e.op1.v + e.op2.v)
  }

  predicate AddressReady(s: Machine, t: Tag) {
    t in s.addressUnit && IsReady(s.addressUnit[t])
  }

  /** The target of a JALR whose address is computed this clock, or 0. Such a JALR is the youngest
      entry, so there is at most one. */
  function Redirect(s: Machine): u32 {
    if s.rob == [] then 0
    else
      var t := s.rob[|s.rob| - 1].id;
      if AddressReady(s, t) && s.addressUnit[t].inst.opcode.Jalr? then Sum(s.addressUnit[t]) else 0
  }

  /** An entry learns its address. */
  function Addressed(s: Machine, e: RobEntry): RobEntry {
    if AddressReady(s, e.id) then e.(addr := Value(Sum(s.addressUnit[e.id]))) else e
  }

  function AddressedRob(s: Machine): seq<RobEntry> {
    seq(|s.rob|, i requires 0 <= i < |s.rob| => Addressed(s, s.rob[i]))
  }

  function AddressesLeft(s: Machine): map<Tag, RsEntry> {
    map t | t in s.addressUnit && !IsReady(s.addressUnit[t]) :: s.addressUnit[t]
  }

  /** `AddressUnit::execute`, and the write of pc that its result causes. */
  function AddressPhase(s: Machine): Machine {
    s.(rob := AddressedRob(s),
       addressUnit := AddressesLeft(s),
       pc := if Redirect(s) == 0 then s.pc else Redirect(s))
  }

  /** An older entry that a load from `a` must wait for. An entry whose address is `Nothing` (a
      store that has not been through the address unit) does not count. */
  predicate Blocks(e: RobEntry, a: u32) {
    WritesMem(e.inst) && (e.addr.Rob? || (e.addr.Value? && e.addr.v == a))
  }

  /** `is_load_ready` for the entry at position `i` of the reorder buffer. */
  predicate GateOpen(rob: seq<RobEntry>, i: nat, l: LoadEntry)
    requires i < |rob|
  {
    && !l.status.Finished?
    && rob[i].addr.Value?
    && !(rob[i].inst.opcode.Amo? && rob[i].memValue.Rob?)
    && forall j :: 0 <= j < i ==> !Blocks(rob[j], rob[i].addr.v)
  }

  function Decrement(n: nat): nat {
    if n == 0 then 0 else n - 1
  }

  /** The clock in which a load reads memory is the last of its countdown. */
  predicate Reads(s: Machine, i: nat)
    requires i < |s.rob|
  {
    s.rob[i].id in s.loadBuf && GateOpen(s.rob, i, s.loadBuf[s.rob[i].id]) && s.rob[i].memRemCycle <= 1
  }

  function LoadResult(c: Core, s: Machine, i: nat): Result<u32, Fault>
    requires i < |s.rob| && s.rob[i].addr.Value?
  {
    c.load(s.rob[i].inst.func, s.mem, s.rob[i].addr.v)
  }

  /** A reorder buffer entry after a clock of its load, whose gate is `open` or not. */
  function SteppedEntry(c: Core, m: Mem, e: RobEntry, open: bool): RobEntry
    requires open ==> e.addr.Value?
  {
    if !open then e
    else
      var r := c.load(e.inst.func, m, e.addr.v);
      if e.memRemCycle > 1 || r.Err? || IsLoad(e.inst.func) then e.(memRemCycle := Decrement(e.memRemCycle))
      else
        e.(memRemCycle := if e.inst.func.Lrw? then 0 else MEM_CYCLE,
           memValue := Value(if e.inst.func.Lrw? then 0
                             else c.amo(e.inst.func, r.value, if e.memValue.Value? then e.memValue.v else 0)))
  }

  /** The load itself after that clock. */
  function SteppedLoad(c: Core, m: Mem, e: RobEntry, l: LoadEntry, open: bool): LoadEntry
    requires open ==> e.addr.Value?
  {
    if !open then l
    else if e.memRemCycle > 1 then l.(status := Execute)
    else
      l.(status := Finished,
         value := match c.load(e.inst.func, m, e.addr.v)
                  case Ok(v) => Ok(v)
                  case Err(Trap(x)) => Err(x)
                  case _ => l.value)
  }

  /** What a clock of the load buffer does to the reorder buffer entry at `i`. */
  function LoadRob(c: Core, s: Machine, i: nat): RobEntry
    requires i < |s.rob|
  {
    var e := s.rob[i];
    if e.id !in s.loadBuf then e else SteppedEntry(c, s.mem, e, GateOpen(s.rob, i, s.loadBuf[e.id]))
  }

  /** What it does to that entry's load. */
  function LoadSlot(c: Core, s: Machine, i: nat): LoadEntry
    requires i < |s.rob| && s.rob[i].id in s.loadBuf
  {
    var l := s.loadBuf[s.rob[i].id];
    SteppedLoad(c, s.mem, s.rob[i], l, GateOpen(s.rob, i, l))
  }

  /** The position of the entry with tag `t`, or the length of the buffer. */
  function IndexOf(rob: seq<RobEntry>, t: Tag): (i: nat)
    ensures i <= |rob|
    ensures i < |rob| ==> rob[i].id == t
    ensures forall j :: 0 <= j < i ==> rob[j].id != t
  {
    if rob == [] || rob[0].id == t then 0 else 1 + IndexOf(rob[1..], t)
  }

  /** A load that leaves the bounds of its segment panics at once, even on a wrong path. */
  predicate LoadPanics(c: Core, s: Machine, i: nat)
    requires i < |s.rob|
  {
    Reads(s, i) && LoadResult(c, s, i).Err? && !LoadResult(c, s, i).error.Trap?
  }

  function LoadedRob(c: Core, s: Machine): (r: seq<RobEntry>)
    ensures |r| == |s.rob|
  {
    seq(|s.rob|, i requires 0 <= i < |s.rob| => LoadRob(c, s, i))
  }

  /** What a clock does to the load with tag `t`. */
  function LoadedEntry(c: Core, s: Machine, t: Tag): LoadEntry
    requires t in s.loadBuf
  {
    var i := IndexOf(s.rob, t);
    if i < |s.rob| then LoadSlot(c, s, i) else s.loadBuf[t]
  }

  function LoadedBuf(c: Core, s: Machine): map<Tag, LoadEntry> {
    map t | t in s.loadBuf :: LoadedEntry(c, s, t)
  }

  predicate AnyLoadPanics(c: Core, s: Machine) {
    exists i :: 0 <= i < |s.rob| && LoadPanics(c, s, i)
  }

  /** `LoadBuffer::execute`. */
  function LoadPhase(c: Core, s: Machine): Outcome {
    if AnyLoadPanics(c, s) then Panic(SliceIndex)
    else
      Running(s.(rob := LoadedRob(c, s), loadBuf := LoadedBuf(c, s)))
  }

  /** The store or atomic at the head of the buffer writes memory as soon as it can. */
  function StorePhase(c: Core, s: Machine): Outcome {
    if s.rob == [] || !WritesMem(s.rob[0].inst) then Running(s)
    else
      var e := s.rob[0];
      if (e.inst.opcode.Amo? && e.regValue.None?) || !e.addr.Value? || !e.memValue.Value? then Running(s)
      else
        match c.store(e.inst.func, s.mem, e.addr.v, e.memValue.v)
        case Err(f) => Panic(f)
        case Ok(m) => Running(s.(mem := m, rob := s.rob[0 := e.(memRemCycle := 0)]))
  }

  /** The store phase writes. */
  predicate CanWrite(s: Machine) {
    s.rob != [] &&
    var e := s.rob[0];
    WritesMem(e.inst) && e.addr.Value? && e.memValue.Value? && (e.inst.opcode.Amo? ==> e.regValue.Some?)
  }

  function RemainClock(f: Function): nat {
    match f
    case Mul | Mulh | Mulhsu | Mulhu => 4
    case Div | Divu | Rem | Remu => 8
    case _ => 1
  }

  /** A station entry that computes its result this clock. */
  predicate Computes(e: RsEntry) {
    !e.status.Finished? && IsReady(e) && e.remainingClock <= 1
  }

  function AluResult(c: Core, e: RsEntry): Option<u32>
    requires IsReady(e)
  {
    c.alu(e.inst.func, e.op1.v, e.op2.v)
  }

  function StationSlot(c: Core, e: RsEntry): RsEntry {
    if e.status.Finished? || !IsReady(e) then e
    else if !Computes(e) then e.(status := Execute, remainingClock := Decrement(e.remainingClock))
    else e.(status := Finished, remainingClock := 0, value := AluResult(c, e).GetOr(0))
  }

  predicate AnyAluPanics(c: Core, station: map<Tag, RsEntry>) {
    exists t :: t in station && Computes(station[t]) && AluResult(c, station[t]).None?
  }

  function SteppedStation(c: Core, station: map<Tag, RsEntry>): map<Tag, RsEntry> {
    map t | t in station :: StationSlot(c, station[t])
  }

  /** The general part of `ReservationStation::execute`. */
  function StationPhase(c: Core, s: Machine): Outcome {
    if AnyAluPanics(c, s.station) then Panic(DivideFault)
    else Running(s.(station := SteppedStation(c, s.station)))
  }

  function ExecuteStage(c: Core, s: Machine): Outcome {
    match LoadPhase(c, AddressPhase(s))
    case Panic(f) => Panic(f)
    case Running(s2) =>
      match StorePhase(c, s2)
      case Panic(f) => Panic(f)
      case Running(s3) => StationPhase(c, s3)
  }

  // ---- Issue ----

  /** The youngest entry is an ECALL, or a JALR still waiting for its target. */
  predicate Stalled(s: Machine) {
    s.rob != [] &&
    var e := s.rob[|s.rob| - 1];
    IsEcall(e.inst) || (e.inst.func.Jalr? && !IsCompleted(e))
  }

  /** ECALL and the jumps end the issue group. */
  predicate EndsGroup(i: Inst) {
    i.opcode.Jal? || i.opcode.Jalr? || IsEcall(i)
  }

  /** Where fetching continues, given the prediction for a branch. */
  function PredictedNext(i: Inst, pc: u32, taken: bool): u32 {
    match i.opcode
    case Jal => Wrap(pc + Imm(i))
    case Jalr => pc
    case Branch => if taken then Wrap(pc + Imm(i)) else Wrap(pc + WORD_SIZE)
    case _ => Wrap(pc + WORD_SIZE)
  }

  function NewRobEntry(s: Machine, i: Inst, id: Tag, taken: bool): RobEntry {
    RobEntry(id, s.pc, i,
             if i.opcode.Store? || i.opcode.Amo? then RegValue(s, Rs2(i)) else Nothing,
             None, Rd(i),
             if i.opcode.Amo? then RegValue(s, Rs1(i)) else Nothing,
             taken, MEM_CYCLE, None)
  }

  function NewAddressEntry(s: Machine, i: Inst, id: Tag): RsEntry {
    RsEntry(id, Wait, i, RegValue(s, Rs1(i)), Value(Imm(i)), 0, 1)
  }

  function NewStationEntry(s: Machine, i: Inst, id: Tag): RsEntry {
    RsEntry(id, Wait, i, Capture(s, Src1(s.pc, i)), Capture(s, Src2(i)), 0, RemainClock(i.func))
  }

  /** Fetch, predict, rename and dispatch one instruction into a fresh entry `id`. */
  function IssueOne(c: Core, s: Machine, id: Tag): Machine {
    var i := Fetch(c, s.pc);
    var taken := i.opcode.Branch? && BranchPrediction.Predicts(s.predictor, s.pc);
    s.(pc := PredictedNext(i, s.pc, taken),
       predictor := if i.opcode.Branch? then BranchPrediction.Entered(s.predictor, s.pc) else s.predictor,
       rob := s.rob + [NewRobEntry(s, i, id, taken)],
       addressUnit := if UsesAddressUnit(i) then s.addressUnit[id := NewAddressEntry(s, i, id)] else s.addressUnit,
       loadBuf := if ReadsMem(i) then s.loadBuf[id := LoadEntry(id, Wait, Ok(0))] else s.loadBuf,
       station := if UsesAlu(i) then s.station[id := NewStationEntry(s, i, id)] else s.station,
       renames := if Rd(i) == 0 then s.renames else s.renames[Rd(i) := Some(id)])
  }

  /** The allocator's two choices for the entries of one clock. */
  type Tags = (Tag, Tag)

  /** Up to two instructions enter, unless the youngest entry forbids it. */
  function Issue(c: Core, s: Machine, ids: Tags): Machine {
    if Stalled(s) then s
    else
      var s1 := IssueOne(c, s, ids.0);
      if EndsGroup(Fetch(c, s.pc)) then s1 else IssueOne(c, s1, ids.1)
  }

  /** No live entry holds `t`: what the allocator guarantees. */
  predicate Free(s: Machine, t: Tag) {
    forall i :: 0 <= i < |s.rob| ==> s.rob[i].id != t
  }

  // ---- One clock ----

  /** The result of one clock and what it retired. `exited` tells that an exit system call retired;
      the stages after commit are then skipped. */
  datatype Clocked = Clocked(outcome: Outcome, retired: seq<RobEntry>, exited: bool)

  function AfterCommit(c: Core, s: Machine, ids: Tags): Outcome {
    match ExecuteStage(c, WriteResult(s))
    case Panic(f) => Panic(f)
    case Running(s') => Running(Issue(c, s', ids))
  }

  /** The second half of the clock follows commit: nothing panicked and no exit system call retired. */
  predicate Continues(r: Committed) {
    r.outcome.Running? && !IsFinished(r.outcome.s, r.retired)
  }

  function Clock(c: Core, s: Machine, ids: Tags): Clocked {
    var r := Commit(c, s);
    if !Continues(r) then Clocked(r.outcome, r.retired, r.outcome.Running?)
    else Clocked(AfterCommit(c, r.outcome.s, ids), r.retired, false)
  }

  /** A run: one clock for each pair of tags the allocator returns, until the program exits or panics. */
  function Cycles(c: Core, s: Machine, tags: seq<Tags>): Clocked
    decreases |tags|
  {
    if tags == [] then Clocked(Running(s), [], false)
    else
      var first := Clock(c, s, tags[0]);
      if first.exited || first.outcome.Panic? then first
      else
        var rest := Cycles(c, first.outcome.s, tags[1..]);
        Clocked(rest.outcome, first.retired + rest.retired, rest.exited)
  }
}
