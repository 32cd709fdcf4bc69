/** The out-of-order core refines the sequential machine, over every program and every run. */
module Refinement {
  import opened Words
  import opened Isa
  import opened OutOfOrder
  import opened Invariant
  import opened InvariantCommit
  import opened InvariantWriteResult
  import opened InvariantExecute
  import opened InvariantIssue
  import opened Simulation
  import opened Path
  import opened Panics
  import opened SimulationCommit
  import opened SimulationWriteResult
  import opened SimulationExecute
  import opened SimulationIssue

  /** What `retired` lists are the next instructions of the sequential run from `a`, with what they do. */
  ghost predicate IsPath(c: Core, a: State, retired: seq<RobEntry>) {
    && (forall j :: 0 <= j <= |retired| ==> Run(c, a, j).Ok?)
    && (forall j :: 0 <= j < |retired| ==> RetiredAs(c, retired[j], Run(c, a, j).value))
  }

  lemma IsPathCons(c: Core, a: State, e: RobEntry, rest: seq<RobEntry>)
    requires RetiredAs(c, e, a) && Step(c, a).Ok? && IsPath(c, Step(c, a).value, rest)
    ensures IsPath(c, a, [e] + rest)
    ensures Run(c, a, |rest| + 1) == Run(c, Step(c, a).value, |rest|)
  {
    var b := Step(c, a).value;
    assert forall j: nat :: Run(c, a, j + 1) == Run(c, b, j);
    forall j | 0 <= j <= |rest| + 1
      ensures Run(c, a, j).Ok? && (j <= |rest| ==> RetiredAs(c, ([e] + rest)[j], Run(c, a, j).value))
    {
      if j > 0 { assert Run(c, b, j - 1).Ok?; }
    }
  }

  /** What a commit that started in `a` has achieved, `t` being the state it has come to: it has retired a
      stretch of the sequential run, the architectural state is exactly the one reached, and if it panics
      the next instruction faults in the same way. */
  ghost predicate RefinesCommit(w: Scope, c: Core, a: State, r: Committed, t: Machine) {
    && IsPath(c, a, r.retired)
    && var b := Run(c, a, |r.retired|).value;
       && ArchitectureIs(c, t, b)
       && (r.outcome.Panic? ==> Step(c, b) == Err(r.outcome.fault))
       && (r.outcome.Running? ==> r.outcome.s == t && Simulates(w, c, t, b) && !HeadWritten(t))
  }

  lemma RefinesCommitCons(w: Scope, c: Core, a: State, e: RobEntry, r: Committed, t: Machine)
    requires RetiredAs(c, e, a) && Step(c, a).Ok? && RefinesCommit(w, c, Step(c, a).value, r, t)
    ensures RefinesCommit(w, c, a, Committed(r.outcome, [e] + r.retired), t)
  {
    IsPathCons(c, a, e, r.retired);
  }

  lemma RefinesNothing(w: Scope, c: Core, a: State, o: Outcome, t: Machine)
    requires ArchitectureIs(c, t, a) && (o.Panic? ==> Step(c, a) == Err(o.fault))
    requires o.Running? ==> o.s == t && Simulates(w, c, t, a) && !HeadWritten(t)
    ensures RefinesCommit(w, c, a, Committed(o, []), t)
  {
    assert Run(c, a, 0) == Ok(a);
  }

  /** Commit refines the sequential machine, if no JALR that it retires goes to 0. */
  lemma {:induction false} CommitRefines(w: Scope, c: Core, s: Machine, a: State)
    requires Simulates(w, c, s, a) && EcallsPlain(c) && JumpsOk(c, a, |Commit(c, s).retired|)
    ensures RefinesCommit(w, c, a, Commit(c, s), CommitEnd(c, s))
    decreases |s.rob|
  {
    if s.rob == [] || !IsCompleted(s.rob[0]) {
      assert !HeadWritten(s) by {
        if s.rob != [] { assert SlotOk(c, s, 0); }
      }
      RefinesNothing(w, c, a, Running(s), s);
    } else {
      var r := Retire(c, s.(rob := s.rob[1..]), s.rob[0]);
      if r.Faulted? {
        FaultExact(w, c, s, a);
        RefinesNothing(w, c, a, Panic(r.fault), s);
      } else if r.Cancelled? {
        CancelledSimulates(w, c, s, a, r.s);
        RetiredExact(w, c, s, a);
        RefinesNothing(w, c, Step(c, a).value, Running(r.s), r.s);
        RefinesCommitCons(w, c, a, s.rob[0], Committed(Running(r.s), []), r.s);
        assert [s.rob[0]] + [] == [s.rob[0]];
      } else {
        CommitRefinesRetired(w, c, s, a, r.s);
      }
    }
  }

  lemma {:induction false} CommitRefinesRetired(w: Scope, c: Core, s: Machine, a: State, s': Machine)
    requires Simulates(w, c, s, a) && EcallsPlain(c) && s.rob != [] && IsCompleted(s.rob[0])
    requires Retire(c, s.(rob := s.rob[1..]), s.rob[0]) == Retired(s') && JumpsOk(c, a, |Commit(c, s).retired|)
    ensures RefinesCommit(w, c, a, Commit(c, s), CommitEnd(c, s))
    decreases |s.rob|, 0
  {
    RetiredFrame(c, s, s');
    assert s'.(rob := s.rob[1..]) == s';
    var rest := Commit(c, s');
    assert Commit(c, s) == Committed(rest.outcome, [s.rob[0]] + rest.retired);
    assert TargetOk(c, a) by { assert Run(c, a, 0) == Ok(a); }
    RetiredSimulates(w, c, s, a, s');
    JumpsNext(c, a, |rest.retired|);
    CommitRefines(w, c, s', Step(c, a).value);
    RetiredExact(w, c, s, a);
    RefinesCommitCons(w, c, a, s.rob[0], rest, CommitEnd(c, s'));
  }

  lemma JumpsNext(c: Core, a: State, n: nat)
    requires JumpsOk(c, a, n + 1) && Step(c, a).Ok?
    ensures JumpsOk(c, Step(c, a).value, n)
  {
    assert forall k: nat {:trigger Run(c, Step(c, a).value, k)} :: Run(c, Step(c, a).value, k) == Run(c, a, k + 1);
  }

  // ---- The stages after commit ----

  /** They leave the architectural state alone, and every panic they raise is explained by the sequential
      machine. */
  lemma AfterCommitRefines(w: Scope, c: Core, s: Machine, a: State, ids: Tags)
    requires Simulates(w, c, s, a) && !HeadWritten(s) && Sound(c)
    requires GateSafe(w, c, BeforeLoads(s), a)
    requires ExecuteStage(c, WriteResult(s)).Running? ==> FreeTags(ExecuteStage(c, WriteResult(s)).s, ids)
    ensures match AfterCommit(c, s, ids)
      case Running(s') => Simulates(w, c, s', a)
      case Panic(f) => Explained(w, c, Executing(s), a, f)
  {
    UpToLoads(w, c, s, a);
    SomeFails(c, s);
    var t := BeforeLoads(s);
    if LoadPhase(c, t).Panic? {
      FailureExplained(w, c, s, a, SliceIndex);
    } else {
      LoadSimulates(w, c, t, a);
      AfterLoads(w, c, s, LoadPhase(c, t).s, a, ids);
    }
  }

  lemma AfterLoads(w: Scope, c: Core, s: Machine, t: Machine, a: State, ids: Tags)
    requires Simulates(w, c, s, a) && !HeadWritten(s) && Sound(c) && GateSafe(w, c, BeforeLoads(s), a)
    requires LoadPhase(c, BeforeLoads(s)) == Running(t) && Simulates(w, c, t, a) && !HeadWritten(t)
    requires StorePhase(c, t).Running? && StationPhase(c, StorePhase(c, t).s).Running? ==>
      FreeTags(StationPhase(c, StorePhase(c, t).s).s, ids)
    ensures if StorePhase(c, t).Panic? then Explained(w, c, Executing(s), a, StorePhase(c, t).fault)
            else if StationPhase(c, StorePhase(c, t).s).Panic? then Explained(w, c, Executing(s), a, DivideFault)
            else Simulates(w, c, Issue(c, StationPhase(c, StorePhase(c, t).s).s, ids), a)
  {
    StoreSimulates(w, c, t, a);
    if StorePhase(c, t).Running? {
      var s4 := StorePhase(c, t).s;
      if StationPhase(c, s4).Panic? {
        UpToLoads(w, c, s, a);
        SomeFails(c, s);
        FailureExplained(w, c, s, a, DivideFault);
      } else {
        StationSimulates(w, c, s4, a);
        IssueSimulates(w, c, StationPhase(c, s4).s, a, ids);
      }
    }
  }

  // ---- Runs ----

  /** In every clock of the run the allocator returns tags that are free. */
  ghost predicate Allocates(c: Core, s: Machine, tags: seq<Tags>)
    decreases |tags|
  {
    tags != [] && Continues(Commit(c, s)) ==>
      match ExecuteStage(c, WriteResult(Commit(c, s).outcome.s))
      case Panic(_) => true
      case Running(s') => FreeTags(s', tags[0]) && Allocates(c, Issue(c, s', tags[0]), tags[1..])
  }

  /** In every clock of the run that starts in `s`, simulating `a`, no load reads past an older write
      that overlaps it and that its gate misses. */
  ghost predicate GateSafeRun(w: Scope, c: Core, s: Machine, a: State, tags: seq<Tags>)
    decreases |tags|
  {
    tags != [] && Continues(Commit(c, s)) && Run(c, a, |Commit(c, s).retired|).Ok? ==>
      var b := Run(c, a, |Commit(c, s).retired|).value;
      && GateSafe(w, c, AddressPhase(WriteResult(Commit(c, s).outcome.s)), b)
      && match ExecuteStage(c, WriteResult(Commit(c, s).outcome.s))
         case Panic(_) => true
         case Running(s') => GateSafeRun(w, c, Issue(c, s', tags[0]), b, tags[1..])
  }

  /** The hypotheses carry over to the next clock. */
  lemma NextClock(c: Core, s: Machine, tags: seq<Tags>)
    requires tags != [] && Allocates(c, s, tags)
    requires !Clock(c, s, tags[0]).exited && Clock(c, s, tags[0]).outcome.Running?
    ensures Allocates(c, Clock(c, s, tags[0]).outcome.s, tags[1..])
  {
  }

  lemma NextGateSafe(w: Scope, c: Core, s: Machine, a: State, tags: seq<Tags>)
    requires tags != [] && GateSafeRun(w, c, s, a, tags)
    requires !Clock(c, s, tags[0]).exited && Clock(c, s, tags[0]).outcome.Running?
    requires Run(c, a, |Clock(c, s, tags[0]).retired|).Ok?
    ensures GateSafeRun(w, c, Clock(c, s, tags[0]).outcome.s, Run(c, a, |Clock(c, s, tags[0]).retired|).value, tags[1..])
  {
  }

  lemma PathAppendAt(c: Core, a: State, p: seq<RobEntry>, q: seq<RobEntry>, j: nat)
    requires IsPath(c, a, p) && IsPath(c, Run(c, a, |p|).value, q) && |p| <= j <= |p + q|
    ensures Run(c, a, j) == Run(c, Run(c, a, |p|).value, j - |p|)
    ensures Run(c, a, j).Ok? && (j < |p + q| ==> RetiredAs(c, (p + q)[j], Run(c, a, j).value))
  {
    var k := j - |p|;
    RunSplit(c, a, |p|, k, j);
    if k < |q| { assert RetiredAs(c, q[k], Run(c, Run(c, a, |p|).value, k).value); }
  }

  lemma IsPathAppend(c: Core, a: State, p: seq<RobEntry>, q: seq<RobEntry>)
    requires IsPath(c, a, p) && IsPath(c, Run(c, a, |p|).value, q)
    ensures IsPath(c, a, p + q)
    ensures Run(c, a, |p + q|) == Run(c, Run(c, a, |p|).value, |q|)
  {
    forall j | 0 <= j <= |p + q|
      ensures Run(c, a, j).Ok? && (j < |p + q| ==> RetiredAs(c, (p + q)[j], Run(c, a, j).value))
    {
      if j >= |p| { PathAppendAt(c, a, p, q, j); } else { assert RetiredAs(c, p[j], Run(c, a, j).value); }
    }
    PathAppendAt(c, a, p, q, |p + q|);
  }

  /** What a clock or a run that started in `a` and has come to `p` has achieved: it has retired a stretch
      of the sequential run, it simulates the state reached, and a panic is explained. */
  ghost predicate Refines(w: Scope, c: Core, a: State, r: Clocked, p: Stop) {
    && IsPath(c, a, r.retired)
    && match r.outcome
       case Running(s') => Simulates(w, c, s', Run(c, a, |r.retired|).value)
       case Panic(f) => Explained(w, c, p, Run(c, a, |r.retired|).value, f)
  }

  /** What is assumed of a run: units that obey their laws, plain ECALLs, an allocator that keeps its
      guarantee, loads that read past no overlapping write their gate misses, and no JALR to 0 among
      the instructions that retire. */
  ghost predicate Admissible(w: Scope, c: Core, s: Machine, a: State, tags: seq<Tags>) {
    && Sound(c) && EcallsPlain(c) && Allocates(c, s, tags) && GateSafeRun(w, c, s, a, tags)
    && JumpsOk(c, a, |Cycles(c, s, tags).retired|)
  }

  lemma ClockRefines(w: Scope, c: Core, s: Machine, a: State, tags: seq<Tags>)
    requires Simulates(w, c, s, a) && Admissible(w, c, s, a, tags) && tags != []
    ensures Refines(w, c, a, Clock(c, s, tags[0]), StopOf(c, s, [tags[0]]))
  {
    var r := Commit(c, s);
    assert JumpsOk(c, a, |r.retired|);
    CommitRefines(w, c, s, a);
    if Continues(r) {
      AfterCommitRefines(w, c, r.outcome.s, Run(c, a, |r.retired|).value, tags[0]);
    }
  }

  /** What is assumed of a run is assumed of what follows its first clock. */
  lemma NextAdmissible(w: Scope, c: Core, s: Machine, a: State, tags: seq<Tags>)
    requires Simulates(w, c, s, a) && Admissible(w, c, s, a, tags) && tags != []
    requires !Clock(c, s, tags[0]).exited && Clock(c, s, tags[0]).outcome.Running?
    ensures Refines(w, c, a, Clock(c, s, tags[0]), StopOf(c, s, [tags[0]]))
    ensures var first := Clock(c, s, tags[0]);
      Admissible(w, c, first.outcome.s, Run(c, a, |first.retired|).value, tags[1..])
  {
    ClockRefines(w, c, s, a, tags);
    NextClock(c, s, tags);
    NextGateSafe(w, c, s, a, tags);
    var first := Clock(c, s, tags[0]);
    JumpsLater(c, a, |first.retired|, |Cycles(c, first.outcome.s, tags[1..]).retired|);
  }

  /** A clock followed by the rest of the run. */
  lemma ThenRefines(w: Scope, c: Core, a: State, first: Clocked, done: Stop, rest: Clocked, p: Stop)
    requires Refines(w, c, a, first, done) && first.outcome.Running?
    requires Refines(w, c, Run(c, a, |first.retired|).value, rest, p)
    ensures Refines(w, c, a, Clocked(rest.outcome, first.retired + rest.retired, rest.exited), p)
  {
    IsPathAppend(c, a, first.retired, rest.retired);
  }

  lemma StopNext(c: Core, s: Machine, tags: seq<Tags>)
    requires tags != []
    ensures var first := Clock(c, s, tags[0]);
      StopOf(c, s, tags) == if !first.exited && first.outcome.Running? then StopOf(c, first.outcome.s, tags[1..])
                              else StopOf(c, s, [tags[0]])
  {
  }

  lemma {:induction false} RunRefines(w: Scope, c: Core, s: Machine, a: State, tags: seq<Tags>)
    requires Simulates(w, c, s, a) && Admissible(w, c, s, a, tags)
    ensures Refines(w, c, a, Cycles(c, s, tags), StopOf(c, s, tags))
    decreases |tags|
  {
    if tags == [] {
      assert Run(c, a, 0).Ok?;
    } else {
      ClockRefines(w, c, s, a, tags);
      StopNext(c, s, tags);
      var first := Clock(c, s, tags[0]);
      if !first.exited && first.outcome.Running? {
        NextAdmissible(w, c, s, a, tags);
        RunRefines(w, c, first.outcome.s, Run(c, a, |first.retired|).value, tags[1..]);
        ThenRefines(w, c, a, first, StopOf(c, s, [tags[0]]),
                    Cycles(c, first.outcome.s, tags[1..]), StopOf(c, first.outcome.s, tags[1..]));
      }
    }
  }

  lemma InitialSimulates(w: Scope, c: Core, pc: u32, m: ByteMemory.Mem, sp: u32)
    ensures Simulates(w, c, Initial(pc, m, sp), State(pc, Initial(pc, m, sp).gpr, m))
  {
  }

  /** Sequential refinement. From power-on, after any number of clocks and whatever tags the
      allocator picks, the retired instructions are exactly the first ones of the sequential run, with
      their results and their writes,
      the architectural state is the one they lead to (up to the store of the head, which is
      written one clock before it retires). When the run panics the architectural state is precise, and
      what has failed is the next sequential instruction or instructions in flight, each of which the
      sequential machine reaches, and then faults at, exactly when nothing before it in the buffer leads
      elsewhere. */
  lemma SequentialRefinement(w: Scope, c: Core, pc: u32, m: ByteMemory.Mem, sp: u32, tags: seq<Tags>)
    requires Admissible(w, c, Initial(pc, m, sp), State(pc, Initial(pc, m, sp).gpr, m), tags)
    ensures var s := Initial(pc, m, sp);
      var a, r := State(pc, s.gpr, m), Cycles(c, s, tags);
      var n := |r.retired|;
      && (forall i :: 0 <= i <= n ==> Run(c, a, i).Ok?)
      && (forall i :: 0 <= i < n ==> RetiredAs(c, r.retired[i], Run(c, a, i).value))
      && match r.outcome
         case Running(t) => CommittedIs(c, t, Run(c, a, n).value)
         case Panic(f) => Explained(w, c, StopOf(c, s, tags), Run(c, a, n).value, f)
  {
    InitialSimulates(w, c, pc, m, sp);
    RunRefines(w, c, Initial(pc, m, sp), State(pc, Initial(pc, m, sp).gpr, m), tags);
  }

  /** Speculative data flow. From power-on, if no load at all, on a wrong path or not, reads past a
      write its gate misses, every value anywhere in the core is the one of the path the core has
      predicted: each entry executes in the state that the instructions before it in the buffer lead to. */
  lemma SpeculativeDataFlow(c: Core, pc: u32, m: ByteMemory.Mem, sp: u32, tags: seq<Tags>)
    requires Admissible(PathPredicted, c, Initial(pc, m, sp), State(pc, Initial(pc, m, sp).gpr, m), tags)
    requires Cycles(c, Initial(pc, m, sp), tags).outcome.Running?
    ensures var s := Initial(pc, m, sp);
      var a, r := State(pc, s.gpr, m), Cycles(c, s, tags);
      var n, t := |r.retired|, r.outcome.s;
      Run(c, a, n).Ok? && forall i {:trigger At(c, t.rob, Run(c, a, n).value, i)} ::
        0 <= i < |t.rob| ==> SlotExact(c, t, i, At(c, t.rob, Run(c, a, n).value, i))
  {
    var s := Initial(pc, m, sp);
    var a, r := State(pc, s.gpr, m), Cycles(c, s, tags);
    InitialSimulates(PathPredicted, c, pc, m, sp);
    RunRefines(PathPredicted, c, s, a, tags);
    var b, t := Run(c, a, |r.retired|).value, r.outcome.s;
    forall i {:trigger At(c, t.rob, b, i)} | 0 <= i < |t.rob| ensures SlotExact(c, t, i, At(c, t.rob, b, i)) {
      SlotsExact(PathPredicted, c, t, b, i);
    }
  }

  // ---- Programs without plain stores ----

  /** The program's only memory writes are atomics. */
  ghost predicate OnlyAtomics(c: Core) {
    forall pc: u32 {:trigger c.program(pc)} :: !c.program(pc).opcode.Store?
  }

  /** No load reads memory while an older write overlaps it at another address. */
  ghost predicate OverlapSafe(w: Scope, c: Core, s: Machine, a: State) {
    forall i, j {:trigger Overlaps(c, At(c, s.rob, a, j), At(c, s.rob, a, i))} ::
      0 <= j < i < |s.rob| && Reads(s, i) && Covered(w, c, s.rob, a, i) && Overlaps(c, At(c, s.rob, a, j), At(c, s.rob, a, i)) ==>
        Address(s.rob[j].inst, At(c, s.rob, a, j).regs) == Address(s.rob[i].inst, At(c, s.rob, a, i).regs)
  }

  ghost predicate OverlapSafeRun(w: Scope, c: Core, s: Machine, a: State, tags: seq<Tags>)
    decreases |tags|
  {
    tags != [] && Continues(Commit(c, s)) && Run(c, a, |Commit(c, s).retired|).Ok? ==>
      var b := Run(c, a, |Commit(c, s).retired|).value;
      && OverlapSafe(w, c, AddressPhase(WriteResult(Commit(c, s).outcome.s)), b)
      && match ExecuteStage(c, WriteResult(Commit(c, s).outcome.s))
         case Panic(_) => true
         case Running(s') => OverlapSafeRun(w, c, Issue(c, s', tags[0]), b, tags[1..])
  }

  lemma NoStoresGateSafe(w: Scope, c: Core, s: Machine, a: State)
    requires Inv(c, s) && OnlyAtomics(c) && OverlapSafe(w, c, s, a)
    ensures GateSafe(w, c, s, a)
  {
    forall i, j {:trigger Missed(c, s.rob, a, j, i)} | 0 <= j < i < |s.rob| && Reads(s, i) && Covered(w, c, s.rob, a, i)
      ensures !Missed(c, s.rob, a, j, i)
    {
      assert Filed(c, s, j) by { assert SlotOk(c, s, j); }
    }
  }

  lemma {:induction false} NoStoresGateSafeRun(w: Scope, c: Core, s: Machine, a: State, tags: seq<Tags>)
    requires Inv(c, s) && Sound(c) && EcallsPlain(c) && OnlyAtomics(c) && Allocates(c, s, tags) && OverlapSafeRun(w, c, s, a, tags)
    ensures GateSafeRun(w, c, s, a, tags)
    decreases |tags|
  {
    if tags != [] && Continues(Commit(c, s)) && Run(c, a, |Commit(c, s).retired|).Ok? {
      var b := Run(c, a, |Commit(c, s).retired|).value;
      CommitInv(c, s);
      var s1 := Commit(c, s).outcome.s;
      WriteResultInv(c, s1);
      AddressInv(c, WriteResult(s1));
      NoStoresGateSafe(w, c, AddressPhase(WriteResult(s1)), b);
      match ExecuteStage(c, WriteResult(s1)) {
        case Panic(_) =>
        case Running(s2) =>
          ExecuteInv(c, WriteResult(s1));
          IssueInv(c, s2, tags[0]);
          NoStoresGateSafeRun(w, c, Issue(c, s2, tags[0]), b, tags[1..]);
      }
    }
  }

  /** Programs whose only writes are atomics never slip past the load gate: what is left to assume is
      that no load overlaps a write in flight at another address. */
  lemma AtomicsRefine(w: Scope, c: Core, pc: u32, m: ByteMemory.Mem, sp: u32, tags: seq<Tags>)
    requires var s := Initial(pc, m, sp);
      var a := State(pc, s.gpr, m);
      && Sound(c) && EcallsPlain(c) && OnlyAtomics(c) && Allocates(c, s, tags) && OverlapSafeRun(w, c, s, a, tags)
      && JumpsOk(c, a, |Cycles(c, s, tags).retired|)
    ensures var s := Initial(pc, m, sp);
      Refines(w, c, State(pc, s.gpr, m), Cycles(c, s, tags), StopOf(c, s, tags))
  {
    InitialSimulates(w, c, pc, m, sp);
    NoStoresGateSafeRun(w, c, Initial(pc, m, sp), State(pc, Initial(pc, m, sp).gpr, m), tags);
    RunRefines(w, c, Initial(pc, m, sp), State(pc, Initial(pc, m, sp).gpr, m), tags);
  }

  /** Every memory access of the sequential run is of an aligned word. */
  ghost predicate WordAccesses(c: Core, a: State) {
    forall n: nat {:trigger Run(c, a, n)} :: Run(c, a, n).Ok? ==> WordAccess(c, Run(c, a, n).value)
  }

  lemma WordAccessesLater(c: Core, a: State, n: nat)
    requires WordAccesses(c, a) && Run(c, a, n).Ok?
    ensures WordAccesses(c, Run(c, a, n).value)
  {
    var b := Run(c, a, n).value;
    forall k: nat {:trigger Run(c, b, k)} | Run(c, b, k).Ok? ensures WordAccess(c, Run(c, b, k).value) {
      RunPlus(c, a, n, k);
    }
  }

  lemma AlignedGateSafe(c: Core, s: Machine, a: State)
    requires Simulates(PathTaken, c, s, a) && OnlyAtomics(c) && WordAccesses(c, a)
    ensures GateSafe(PathTaken, c, s, a)
  {
    forall i, j {:trigger Missed(c, s.rob, a, j, i)} | 0 <= j < i < |s.rob| && Reads(s, i) && Covered(PathTaken, c, s.rob, a, i)
      ensures !Missed(c, s.rob, a, j, i)
    {
      assert Filed(c, s, j) && Filed(c, s, i) by { assert SlotOk(c, s, j) && SlotOk(c, s, i); }
      OlderPlain(c, s, i);
      RunAt(c, s.rob, a, j);
      RunAt(c, s.rob, a, i);
      if Overlaps(c, At(c, s.rob, a, j), At(c, s.rob, a, i)) { AlignedWords(c, At(c, s.rob, a, j), At(c, s.rob, a, i)); }
    }
  }

  lemma {:induction false} AlignedGateSafeRun(c: Core, s: Machine, a: State, tags: seq<Tags>)
    requires Simulates(PathTaken, c, s, a) && Sound(c) && EcallsPlain(c) && OnlyAtomics(c) && WordAccesses(c, a)
    requires Allocates(c, s, tags) && JumpsOk(c, a, |Cycles(c, s, tags).retired|)
    ensures GateSafeRun(PathTaken, c, s, a, tags)
    decreases |tags|
  {
    if tags != [] && Continues(Commit(c, s)) {
      CommitRefines(PathTaken, c, s, a);
      var s1, n := Commit(c, s).outcome.s, |Commit(c, s).retired|;
      var b := Run(c, a, n).value;
      WordAccessesLater(c, a, n);
      WriteResultSimulates(PathTaken, c, s1, b);
      AddressSimulates(PathTaken, c, WriteResult(s1), b);
      AlignedGateSafe(c, AddressPhase(WriteResult(s1)), b);
      AfterCommitRefines(PathTaken, c, s1, b, tags[0]);
      if ExecuteStage(c, WriteResult(s1)).Running? {
        var s2 := Issue(c, ExecuteStage(c, WriteResult(s1)).s, tags[0]);
        JumpsLater(c, a, n, |Cycles(c, s2, tags[1..]).retired|);
        AlignedGateSafeRun(c, s2, b, tags[1..]);
      }
    }
  }

  /** If moreover the sequential run accesses memory in aligned words only, nothing is assumed of the
      pipeline's timing: every hypothesis left is about the program and its sequential execution. */
  lemma AlignedRefine(c: Core, pc: u32, m: ByteMemory.Mem, sp: u32, tags: seq<Tags>)
    requires var s := Initial(pc, m, sp);
      var a := State(pc, s.gpr, m);
      && Sound(c) && EcallsPlain(c) && OnlyAtomics(c) && WordAccesses(c, a) && Allocates(c, s, tags)
      && JumpsOk(c, a, |Cycles(c, s, tags).retired|)
    ensures var s := Initial(pc, m, sp);
      Refines(PathTaken, c, State(pc, s.gpr, m), Cycles(c, s, tags), StopOf(c, s, tags))
  {
    InitialSimulates(PathTaken, c, pc, m, sp);
    AlignedGateSafeRun(c, Initial(pc, m, sp), State(pc, Initial(pc, m, sp).gpr, m), tags);
    RunRefines(PathTaken, c, Initial(pc, m, sp), State(pc, Initial(pc, m, sp).gpr, m), tags);
  }
}
