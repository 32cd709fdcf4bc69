/** Where a run panics and why: the architectural state is precise, and the instruction that failed is the
    one the sequential machine fails at, if it gets there. */
module Panics {
  import opened Words
  import opened Instructions
  import opened Isa
  import opened OutOfOrder
  import opened Invariant
  import opened InvariantWriteResult
  import opened InvariantExecute
  import opened Simulation
  import opened Path
  import opened SimulationWriteResult
  import opened SimulationExecute

  /** Registers, memory and pc are exactly those of `a`. */
  ghost predicate ArchitectureIs(c: Core, s: Machine, a: State) {
    && s.gpr == a.regs && s.mem == a.mem
    && a.pc == if s.rob == [] then s.pc else s.rob[0].pc
  }

  // ---- Where ----

  /** The state commit leaves, or the one in which the oldest entry's retirement faults. */
  function CommitEnd(c: Core, s: Machine): Machine
    decreases |s.rob|
  {
    if s.rob == [] || !IsCompleted(s.rob[0]) then s
    else
      match Retire(c, s.(rob := s.rob[1..]), s.rob[0])
      case Faulted(_) => s
      case Cancelled(s') => s'
      case Retired(s') => CommitEnd(c, s'.(rob := s.rob[1..]))
  }

  /** Where a run ends: with the state `s`, which is a commit's last if the run panics there or exits, or in
      a panic after the commit that has left `s`. */
  datatype Stop = Retiring(s: Machine) | Executing(s: Machine)

  function StopOf(c: Core, s: Machine, tags: seq<Tags>): Stop
    decreases |tags|
  {
    if tags == [] then Retiring(s)
    else if !Continues(Commit(c, s)) then Retiring(CommitEnd(c, s))
    else
      var s1 := Commit(c, s).outcome.s;
      match AfterCommit(c, s1, tags[0])
      case Panic(_) => Executing(s1)
      case Running(s') => StopOf(c, s', tags[1..])
  }

  /** The state in which the loads of a clock execute, `s` being what its commit has left. */
  function BeforeLoads(s: Machine): Machine {
    AddressPhase(WriteResult(s))
  }

  /** In the clock after commit has left `s`, entry `i` panics with `f`: its load leaves its segment, or
      its computation fails. */
  ghost predicate Fails(c: Core, s: Machine, i: nat, f: Fault) {
    var t := BeforeLoads(s);
    && i < |t.rob|
    && (if f.SliceIndex? then LoadPanics(c, t, i)
        else
          var k := t.rob[i].id;
          f.DivideFault? && k in t.station && Computes(t.station[k]) && AluResult(c, t.station[k]).None?)
  }

  /** In that clock the head's store fails with `f`. */
  ghost predicate HeadFails(c: Core, s: Machine, f: Fault) {
    LoadPhase(c, BeforeLoads(s)).Running? && StorePhase(c, LoadPhase(c, BeforeLoads(s)).s) == Panic(f)
  }

  // ---- Why ----

  /** No entry before `i` leads off the predicted path. */
  ghost predicate GoRight(c: Core, rob: seq<RobEntry>, a: State, i: nat)
    requires i < |rob|
  {
    forall j :: 0 <= j < i ==> GoesRight(c, At(c, rob, a, j), rob[j])
  }

  /** Entry `i` is a load or a division. It is the instruction the sequential machine reaches after `i`
      others exactly when no older entry is mispredicted, faults or is a JALR to 0, and then the
      sequential machine faults there with `f`. On the predicted path it faults so whatever precedes it. */
  ghost predicate Culprit(w: Scope, c: Core, rob: seq<RobEntry>, a: State, i: nat, f: Fault)
    requires i < |rob|
  {
    && (if f.SliceIndex? then ReadsMem(rob[i].inst) else IsDivision(rob[i].inst.func))
    && (w.PathPredicted? ==> Step(c, At(c, rob, a, i)) == Err(f))
    && (GoRight(c, rob, a, i) ==> Run(c, a, i) == Ok(At(c, rob, a, i)) && Step(c, At(c, rob, a, i)) == Err(f))
    && (GoRight(c, rob, a, i) <==> Follows(c, rob, a, i) && Run(c, a, i).value.pc == rob[i].pc)
  }

  /** Why a run that has come to `p`, the sequential machine to `a`, panics with `f`. Registers, memory and
      pc are `a`'s. A retirement or the head's store has failed, and the sequential machine's next
      instruction fails in the same way; or some entries have failed, and each of them is one the
      sequential machine fails at, if it gets there. */
  ghost predicate Explained(w: Scope, c: Core, p: Stop, a: State, f: Fault) {
    && ArchitectureIs(c, p.s, a)
    && (p.Retiring? ==> Step(c, a) == Err(f))
    && (p.Executing? ==>
          || (HeadFails(c, p.s, f) && Step(c, a) == Err(f))
          || ((exists i :: 0 <= i < |p.s.rob| && Fails(c, p.s, i, f))
              && forall i :: 0 <= i < |p.s.rob| && Fails(c, p.s, i, f) ==> Culprit(w, c, p.s.rob, a, i, f)))
  }

  // ---- Proof ----

  lemma CulpritIs(w: Scope, c: Core, s: Machine, a: State, i: nat, f: Fault)
    requires Simulates(w, c, s, a) && i < |s.rob|
    requires if f.SliceIndex? then ReadsMem(s.rob[i].inst) else IsDivision(s.rob[i].inst.func)
    requires Covered(w, c, s.rob, a, i) ==> Step(c, At(c, s.rob, a, i)) == Err(f)
    ensures Culprit(w, c, s.rob, a, i, f)
  {
    OlderPlain(c, s, i);
    OnPathExactly(w, c, s, a, i);
    OnPathFollows(c, s.rob, a, i);
    if OnPath(c, s.rob, a, i) { RunAt(c, s.rob, a, i); }
  }

  /** A load that leaves its segment does so in the sequential machine, too, at that point of the path. */
  lemma LoadFault(w: Scope, c: Core, s: Machine, a: State, i: nat)
    requires Simulates(w, c, s, a) && !HeadWritten(s) && GateSafe(w, c, s, a) && Sound(c)
    requires i < |s.rob| && Covered(w, c, s.rob, a, i) && LoadPanics(c, s, i)
    ensures Step(c, At(c, s.rob, a, i)) == Err(SliceIndex)
  {
    ReadExact(w, c, s, a, i);
    assert Filed(c, s, i) by { assert SlotOk(c, s, i); }
  }

  /** A computation fails exactly when the sequential machine's does at that point of the path, and
      only divisions do. */
  lemma StationFault(w: Scope, c: Core, s: Machine, a: State, i: nat)
    requires Simulates(w, c, s, a) && Sound(c) && i < |s.rob| && Covered(w, c, s.rob, a, i)
    requires s.rob[i].id in s.station && Computes(s.station[s.rob[i].id])
    ensures AluResult(c, s.station[s.rob[i].id]).None? <==>
      IsDivision(s.rob[i].inst.func) && Step(c, At(c, s.rob, a, i)) == Err(DivideFault)
  {
    assert Filed(c, s, i) && Held(c, s, i) by { assert SlotOk(c, s, i); }
    HeldExact(w, c, s, a, i);
  }

  lemma UpToLoads(w: Scope, c: Core, s: Machine, a: State)
    requires Simulates(w, c, s, a) && !HeadWritten(s) && Sound(c)
    ensures var t := BeforeLoads(s); Simulates(w, c, t, a) && !HeadWritten(t) && SameShape(s.rob, t.rob)
  {
    WriteResultSimulates(w, c, s, a);
    WriteResultShape(s);
    AddressSimulates(w, c, WriteResult(s), a);
    AddressShape(WriteResult(s));
  }

  lemma FailsFault(w: Scope, c: Core, s: Machine, a: State, i: nat, f: Fault)
    requires Fails(c, s, i, f) && Sound(c)
    requires var t := BeforeLoads(s); Simulates(w, c, t, a) && !HeadWritten(t) && GateSafe(w, c, t, a)
    ensures var rob := BeforeLoads(s).rob;
      && (if f.SliceIndex? then ReadsMem(rob[i].inst) else IsDivision(rob[i].inst.func))
      && (Covered(w, c, rob, a, i) ==> Step(c, At(c, rob, a, i)) == Err(f))
  {
    var t := BeforeLoads(s);
    assert Filed(c, t, i) && Held(c, t, i) by { assert SlotOk(c, t, i); }
    if Covered(w, c, t.rob, a, i) {
      if f.SliceIndex? { LoadFault(w, c, t, a, i); } else { StationFault(w, c, t, a, i); }
    }
  }

  /** Every entry that fails, on the path taken or not, is to blame for the panic. */
  lemma FailsIsCulprit(w: Scope, c: Core, s: Machine, a: State, i: nat, f: Fault)
    requires Simulates(w, c, s, a) && !HeadWritten(s) && Sound(c) && GateSafe(w, c, BeforeLoads(s), a) && Fails(c, s, i, f)
    ensures i < |s.rob| && Culprit(w, c, s.rob, a, i, f)
  {
    UpToLoads(w, c, s, a);
    FailsFault(w, c, s, a, i, f);
    PathSame(c, s.rob, BeforeLoads(s).rob, a, i);
    CulpritIs(w, c, s, a, i, f);
  }

  /** A panic of the loads, or of the station after the head's store, is some entry's. */
  lemma SomeFails(c: Core, s: Machine)
    requires Inv(c, BeforeLoads(s))
    ensures var t := BeforeLoads(s);
      && (LoadPhase(c, t).Panic? ==> exists i :: 0 <= i < |t.rob| && Fails(c, s, i, SliceIndex))
      && (LoadPhase(c, t).Running? && StorePhase(c, LoadPhase(c, t).s).Running? && StationPhase(c, StorePhase(c, LoadPhase(c, t).s).s).Panic? ==>
            exists i :: 0 <= i < |t.rob| && Fails(c, s, i, DivideFault))
  {
    var t := BeforeLoads(s);
    if LoadPhase(c, t).Panic? {
      var i :| 0 <= i < |t.rob| && LoadPanics(c, t, i);
      assert Fails(c, s, i, SliceIndex);
    } else if StorePhase(c, LoadPhase(c, t).s).Running? && StationPhase(c, StorePhase(c, LoadPhase(c, t).s).s).Panic? {
      StoreShape(c, LoadPhase(c, t).s);
      var k :| k in t.station && Computes(t.station[k]) && AluResult(c, t.station[k]).None?;
      assert Live(t, k);
      var i :| 0 <= i < |t.rob| && t.rob[i].id == k;
      assert Fails(c, s, i, DivideFault);
    }
  }

  /** A panic that is some entry's is explained. */
  lemma FailureExplained(w: Scope, c: Core, s: Machine, a: State, f: Fault)
    requires Simulates(w, c, s, a) && !HeadWritten(s) && Sound(c) && GateSafe(w, c, BeforeLoads(s), a)
    requires exists i :: 0 <= i < |BeforeLoads(s).rob| && Fails(c, s, i, f)
    ensures Explained(w, c, Executing(s), a, f)
  {
    UpToLoads(w, c, s, a);
    forall i | 0 <= i < |s.rob| && Fails(c, s, i, f) ensures Culprit(w, c, s.rob, a, i, f) {
      FailsIsCulprit(w, c, s, a, i, f);
    }
  }
}
