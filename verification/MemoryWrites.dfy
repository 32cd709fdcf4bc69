/** Stores are not speculative and happen exactly once: the writes to memory are, in order, those of
    the stores and atomics that retire. */
module MemoryWrites {
  import opened Words
  import opened Instructions
  import opened Isa
  import opened OutOfOrder
  import opened Invariant
  import opened InvariantCommit
  import opened InvariantExecute
  import opened InvariantWriteResult
  import opened Simulation
  import opened SimulationCommit
  import opened Refinement
  import opened Runs
  import opened Liveness

  datatype Write = Write(pc: u32, func: Function, addr: u32, value: u32)

  function Word(op: Operand): u32 { if op.Value? then op.v else 0 }

  function WriteOf(e: RobEntry): Write {
    Write(e.pc, e.inst.func, Word(e.addr), Word(e.memValue))
  }

  /** The writes of the stores and atomics in a list of retired entries. */
  function Writers(retired: seq<RobEntry>): seq<Write> {
    if retired == [] then []
    else (if WritesMem(retired[0].inst) then [WriteOf(retired[0])] else []) + Writers(retired[1..])
  }

  /** The write of a head that has written and not retired. */
  function Early(s: Machine): seq<Write> {
    if HeadWritten(s) then [WriteOf(s.rob[0])] else []
  }

  /** The state in which the store phase of a clock starts. */
  function BeforeStore(c: Core, s: Machine): Machine
    requires GoesOn(c, s)
  {
    LoadPhase(c, AddressPhase(WriteResult(Commit(c, s).outcome.s))).s
  }

  /** What a clock writes. */
  function ClockWrites(c: Core, s: Machine): seq<Write> {
    if GoesOn(c, s) && CanWrite(BeforeStore(c, s)) then [WriteOf(BeforeStore(c, s).rob[0])] else []
  }

  /** What a run writes. */
  function Log(c: Core, s: Machine, tags: seq<Tags>): seq<Write>
    decreases |tags|
  {
    if tags == [] then []
    else
      var r := Clock(c, s, tags[0]);
      ClockWrites(c, s) + if Alive(r) then Log(c, r.outcome.s, tags[1..]) else []
  }

  // ---- Memory changes only so ----

  /** Retiring changes memory only in a system call. */
  lemma {:induction false} CommitKeepsMemory(c: Core, s: Machine)
    requires Commit(c, s).outcome.Running? && Commit(c, s).outcome.s.mem != s.mem
    ensures exists e :: e in Commit(c, s).retired && IsEcall(e.inst)
    decreases |s.rob|
  {
    var r := Retire(c, s.(rob := s.rob[1..]), s.rob[0]);
    assert s.rob[0] in Commit(c, s).retired;
    if !IsEcall(s.rob[0].inst) {
      var s' := r.s.(rob := s.rob[1..]);
      CommitKeepsMemory(c, s');
      var e :| e in Commit(c, s').retired && IsEcall(e.inst);
      assert e in Commit(c, s).retired;
    }
  }

  lemma StoreMemory(c: Core, s: Machine)
    requires StorePhase(c, s).Running?
    ensures var m := StorePhase(c, s).s.mem;
      if CanWrite(s) then var w := WriteOf(s.rob[0]); c.store(w.func, s.mem, w.addr, w.value) == Ok(m) else m == s.mem
  {
  }

  lemma IssueMemory(c: Core, s: Machine, ids: Tags)
    ensures Issue(c, s, ids).mem == s.mem
  {
  }

  lemma AroundStore(c: Core, s: Machine, ids: Tags)
    requires GoesOn(c, s)
    ensures BeforeStore(c, s).mem == Commit(c, s).outcome.s.mem
    ensures StorePhase(c, BeforeStore(c, s)).Running? && Clock(c, s, ids).outcome.Running?
    ensures Clock(c, s, ids).outcome.s.mem == StorePhase(c, BeforeStore(c, s)).s.mem
  {
    IssueMemory(c, BeforeIssue(c, s), ids);
  }

  /** After commit a clock changes memory only by the write it is recorded with. */
  lemma ClockMemory(c: Core, s: Machine, ids: Tags)
    requires GoesOn(c, s)
    ensures Clock(c, s, ids).outcome.Running?
    ensures var m, m' := Commit(c, s).outcome.s.mem, Clock(c, s, ids).outcome.s.mem;
      if ClockWrites(c, s) == [] then m' == m
      else var w := ClockWrites(c, s)[0]; ClockWrites(c, s) == [w] && c.store(w.func, m, w.addr, w.value) == Ok(m')
  {
    AroundStore(c, s, ids);
    StoreMemory(c, BeforeStore(c, s));
  }

  // ---- Exactly once ----

  /** A retired store or atomic has written, and was the head when it did. */
  lemma HeadWrites(c: Core, s: Machine)
    requires Inv(c, s) && s.rob != [] && IsCompleted(s.rob[0]) && s.rob[0].memException.None?
    ensures HeadWritten(s) <==> WritesMem(s.rob[0].inst)
    ensures |s.rob| > 1 ==> !Written(s.rob[1])
  {
    assert CountdownOk(s, 0) by { assert SlotOk(c, s, 0); }
    if |s.rob| > 1 {
      assert CountdownOk(s, 1) by { assert SlotOk(c, s, 1); }
    }
  }

  lemma WritersCons(e: RobEntry, rest: seq<RobEntry>)
    ensures Writers([e] + rest) == (if WritesMem(e.inst) then [WriteOf(e)] else []) + Writers(rest)
  {
    assert ([e] + rest)[1..] == rest;
  }

  /** The writer that has written is accounted for by what commit retires, and none is left. */
  ghost predicate WritersRetired(s: Machine, r: Committed) {
    r.outcome.Running? ==> Early(s) == Writers(r.retired) && !HeadWritten(r.outcome.s)
  }

  lemma WritersStep(c: Core, s: Machine, s': Machine)
    requires Inv(c, s) && s.rob != [] && IsCompleted(s.rob[0]) && SameBuffers(s, s') && WritersRetired(s', Commit(c, s'))
    requires Retire(c, s.(rob := s.rob[1..]), s.rob[0]) == Retired(s')
    ensures WritersRetired(s, Commit(c, s))
  {
    HeadWrites(c, s);
    assert s'.(rob := s.rob[1..]) == s';
    assert Early(s') == [];
    WritersCons(s.rob[0], Commit(c, s').retired);
  }

  /** Commit retires the writer that has written, if there is one, and leaves none. */
  lemma {:induction false} CommitWriters(c: Core, s: Machine)
    requires Inv(c, s) && EcallsPlain(c)
    ensures WritersRetired(s, Commit(c, s))
    decreases |s.rob|
  {
    if s.rob == [] || !IsCompleted(s.rob[0]) {
      if s.rob != [] { assert CountdownOk(s, 0) by { assert SlotOk(c, s, 0); } }
    } else {
      var r := Retire(c, s.(rob := s.rob[1..]), s.rob[0]);
      if r.Cancelled? {
        WritersCons(s.rob[0], []);
        assert [s.rob[0]] + [] == [s.rob[0]];
        HeadWrites(c, s);
      } else if r.Retired? {
        RetiredInv(c, s, r.s);
        RetiredFrame(c, s, r.s);
        CommitWriters(c, r.s);
        WritersStep(c, s, r.s);
      }
    }
  }

  /** Up to the store phase nothing is written early. */
  lemma NotYetWritten(c: Core, s: Machine)
    requires Inv(c, s) && Sound(c) && !HeadWritten(s) && LoadPhase(c, AddressPhase(WriteResult(s))).Running?
    ensures !HeadWritten(LoadPhase(c, AddressPhase(WriteResult(s))).s)
  {
    if s.rob != [] {
      WriteResultShape(s);
      CountdownWake(c, s, 0);
      WriteResultInv(c, s);
      var s1 := WriteResult(s);
      AddressShape(s1);
      AddressInv(c, s1);
      var s2 := AddressPhase(s1);
      LoadShape(c, s2);
      CountdownLoad(c, s2, 0);
    }
  }

  /** The head has no exception to raise. */
  predicate NoTrap(s: Machine) {
    s.rob != [] ==> s.rob[0].memException.None?
  }

  lemma EarlyIssue(c: Core, s: Machine, ids: Tags)
    ensures Early(Issue(c, s, ids)) == Early(s)
    ensures NoTrap(Issue(c, s, ids)) ==> NoTrap(s)
  {
  }

  /** From the store phase to the end of the clock: the head is written exactly if it could write. */
  lemma StoreThenIssue(c: Core, s: Machine, ids: Tags)
    requires !HeadWritten(s) && StorePhase(c, s).Running? && StationPhase(c, StorePhase(c, s).s).Running?
    requires NoTrap(Issue(c, StationPhase(c, StorePhase(c, s).s).s, ids))
    ensures Early(Issue(c, StationPhase(c, StorePhase(c, s).s).s, ids)) == if CanWrite(s) then [WriteOf(s.rob[0])] else []
  {
    EarlyIssue(c, StationPhase(c, StorePhase(c, s).s).s, ids);
    StoreShape(c, s);
  }

  lemma ClockWritesOnce(c: Core, s: Machine, ids: Tags)
    requires Inv(c, s) && Sound(c) && EcallsPlain(c) && GoesOn(c, s) && NoTrap(Clock(c, s, ids).outcome.s)
    ensures Early(s) == Writers(Clock(c, s, ids).retired)
    ensures ClockWrites(c, s) == Early(Clock(c, s, ids).outcome.s)
  {
    CommitWriters(c, s);
    CommitInv(c, s);
    NotYetWritten(c, Commit(c, s).outcome.s);
    StoreThenIssue(c, BeforeStore(c, s), ids);
  }

  /** An exception at the head ends the run in the next clock. */
  lemma TrapEnds(c: Core, s: Machine, ids: Tags)
    requires Inv(c, s) && !NoTrap(s)
    ensures Clock(c, s, ids).outcome.Panic?
  {
    assert CountdownOk(s, 0) && Filed(c, s, 0) && OperandsOk(c, s, 0) by { assert SlotOk(c, s, 0); }
  }

  lemma {:induction false} WritersAppend(p: seq<RobEntry>, q: seq<RobEntry>)
    ensures Writers(p + q) == Writers(p) + Writers(q)
  {
    if p == [] {
      assert p + q == q;
    } else {
      WritersAppend(p[1..], q);
      assert p + q == [p[0]] + (p[1..] + q) && p == [p[0]] + p[1..];
      WritersCons(p[0], p[1..] + q);
      WritersCons(p[0], p[1..]);
    }
  }

  lemma TrapEndsRun(c: Core, s: Machine, tags: seq<Tags>)
    requires Inv(c, s) && Cycles(c, s, tags).outcome.Running? && NoTrap(Cycles(c, s, tags).outcome.s)
    ensures NoTrap(s)
  {
    if tags != [] && !NoTrap(s) { TrapEnds(c, s, tags[0]); }
  }

  lemma GoesOnClock(c: Core, s: Machine, ids: Tags)
    requires Alive(Clock(c, s, ids))
    ensures GoesOn(c, s)
  {
  }

  lemma LogNext(c: Core, s: Machine, tags: seq<Tags>)
    requires tags != [] && Alive(Clock(c, s, tags[0]))
    ensures Log(c, s, tags) == ClockWrites(c, s) + Log(c, Clock(c, s, tags[0]).outcome.s, tags[1..])
  {
  }

  /** The writes `log` of a run from `s` that ends in `r`, by itself or by an exit system call, are those
      of what has retired, and of the head that is about to. */
  ghost predicate WrittenOnce(s: Machine, log: seq<Write>, r: Clocked) {
    r.outcome.Running? && NoTrap(r.outcome.s) ==> Early(s) + log == Writers(r.retired) + Early(r.outcome.s)
  }

  lemma WrittenOnceMore(s: Machine, s': Machine, first: seq<RobEntry>, log: seq<Write>, rest: Clocked)
    requires Early(s) == Writers(first) && WrittenOnce(s', log, rest)
    ensures WrittenOnce(s, Early(s') + log, Following(first, rest))
  {
    WritersAppend(first, rest.retired);
  }

  /** What the induction step of StoresExactlyOnce knows. */
  lemma NextWrites(c: Core, s: Machine, tags: seq<Tags>) returns (s': Machine)
    requires Inv(c, s) && Sound(c) && EcallsPlain(c) && Allocates(c, s, tags) && tags != [] && Alive(Clock(c, s, tags[0]))
    requires Cycles(c, s, tags).outcome.Running? && NoTrap(Cycles(c, s, tags).outcome.s)
    ensures Inv(c, s') && Allocates(c, s', tags[1..])
    ensures WrittenOnce(s', Log(c, s', tags[1..]), Cycles(c, s', tags[1..])) ==> WrittenOnce(s, Log(c, s, tags), Cycles(c, s, tags))
  {
    OneClock(c, s, tags);
    s' := Clock(c, s, tags[0]).outcome.s;
    ClockInv(c, s, tags);
    TrapEndsRun(c, s', tags[1..]);
    GoesOnClock(c, s, tags[0]);
    ClockWritesOnce(c, s, tags[0]);
    LogNext(c, s, tags);
    if WrittenOnce(s', Log(c, s', tags[1..]), Cycles(c, s', tags[1..])) {
      WrittenOnceMore(s, s', Clock(c, s, tags[0]).retired, Log(c, s', tags[1..]), Cycles(c, s', tags[1..]));
    }
  }

  /** The clock in which an exit system call retires writes nothing. */
  lemma ExitWrites(c: Core, s: Machine, tags: seq<Tags>)
    requires Inv(c, s) && EcallsPlain(c) && tags != []
    requires Clock(c, s, tags[0]).outcome.Running? && Clock(c, s, tags[0]).exited
    ensures WrittenOnce(s, Log(c, s, tags), Cycles(c, s, tags))
  {
    CommitWriters(c, s);
    assert Log(c, s, tags) == [] && Early(Commit(c, s).outcome.s) == [];
  }

  /** Over every run the writes to memory are, in program order and each once, those of the stores
      and atomics that have retired, and of the one at the head that is about to. What is squashed
      never writes. */
  lemma {:induction false} StoresExactlyOnce(c: Core, s: Machine, tags: seq<Tags>)
    requires Inv(c, s) && Sound(c) && EcallsPlain(c) && Allocates(c, s, tags)
    ensures WrittenOnce(s, Log(c, s, tags), Cycles(c, s, tags))
    decreases |tags|
  {
    if tags != [] && Cycles(c, s, tags).outcome.Running? && NoTrap(Cycles(c, s, tags).outcome.s) {
      if Alive(Clock(c, s, tags[0])) {
        var s' := NextWrites(c, s, tags);
        StoresExactlyOnce(c, s', tags[1..]);
      } else {
        ExitWrites(c, s, tags);
      }
    }
  }

  // ---- In the sequential machine's order ----

  /** What the next instruction of the sequential machine writes. */
  function NextWrite(c: Core, a: State): seq<Write> {
    var i := Fetch(c, a.pc);
    if WritesMem(i) then [Write(a.pc, i.func, Address(i, a.regs), Stored(c, i, a.regs, ValueOf(c, a)))] else []
  }

  /** What its next `n` instructions write. */
  function SequentialWrites(c: Core, a: State, n: nat): seq<Write>
    decreases n
  {
    if n == 0 || Step(c, a).Err? then [] else NextWrite(c, a) + SequentialWrites(c, Step(c, a).value, n - 1)
  }

  lemma IsPathRest(c: Core, a: State, retired: seq<RobEntry>)
    requires IsPath(c, a, retired) && retired != []
    ensures Step(c, a).Ok? && IsPath(c, Step(c, a).value, retired[1..]) && RetiredAs(c, retired[0], a)
  {
    assert Run(c, a, 0) == Ok(a) && Run(c, a, 1).Ok?;
    var b := Step(c, a).value;
    forall j | 0 <= j <= |retired| - 1
      ensures Run(c, b, j).Ok? && (j < |retired| - 1 ==> RetiredAs(c, retired[1..][j], Run(c, b, j).value))
    {
      assert Run(c, a, j + 1) == Run(c, b, j);
    }
  }

  lemma WriteIsNext(c: Core, a: State, e: RobEntry)
    requires RetiredAs(c, e, a)
    ensures NextWrite(c, a) == if WritesMem(e.inst) then [WriteOf(e)] else []
  {
  }

  /** What retired instructions write is what the sequential machine writes. */
  lemma {:induction false} WritersSequential(c: Core, a: State, retired: seq<RobEntry>)
    requires IsPath(c, a, retired)
    ensures Writers(retired) == SequentialWrites(c, a, |retired|)
    decreases |retired|
  {
    if retired != [] {
      IsPathRest(c, a, retired);
      WriteIsNext(c, a, retired[0]);
      WritersSequential(c, Step(c, a).value, retired[1..]);
    }
  }

  /** Over every run the writes to memory are those of the sequential machine, in its order and once
      each: of the instructions that have retired, and of the head if it is about to. */
  lemma WritesAreSequential(w: Scope, c: Core, s: Machine, a: State, tags: seq<Tags>)
    requires Simulates(w, c, s, a) && Admissible(w, c, s, a, tags)
    requires Cycles(c, s, tags).outcome.Running? && NoTrap(Cycles(c, s, tags).outcome.s)
    ensures var r := Cycles(c, s, tags);
      Early(s) + Log(c, s, tags) == SequentialWrites(c, a, |r.retired|) + Early(r.outcome.s)
  {
    StoresExactlyOnce(c, s, tags);
    RunRefines(w, c, s, a, tags);
    WritersSequential(c, a, Cycles(c, s, tags).retired);
  }
}
