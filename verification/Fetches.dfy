/** The core looks at a program only where it fetches: what the program is elsewhere does not matter. */
module Fetches {
  import opened Words
  import opened Isa
  import opened OutOfOrder
  import opened InvariantExecute
  import opened InvariantWriteResult
  import opened Panics
  import opened Refinement
  import opened Runs
  import BranchPrediction

  /** Where fetching goes on after the instruction at `s.pc`. */
  function NextPc(c: Core, s: Machine): u32 {
    var i := Fetch(c, s.pc);
    PredictedNext(i, s.pc, i.opcode.Branch? && BranchPrediction.Predicts(s.predictor, s.pc))
  }

  /** Where the issue stage fetches. */
  function IssuedPcs(c: Core, s: Machine): set<u32> {
    if Stalled(s) then {} else if EndsGroup(Fetch(c, s.pc)) then {s.pc} else {s.pc, NextPc(c, s)}
  }

  /** Where a run fetches. */
  function FetchedPcs(c: Core, s: Machine, tags: seq<Tags>): set<u32>
    decreases |tags|
  {
    if tags == [] || !GoesOn(c, s) then {}
    else IssuedPcs(c, BeforeIssue(c, s)) + FetchedPcs(c, Issue(c, BeforeIssue(c, s), tags[0]), tags[1..])
  }

  // ---- Another program that agrees there ----

  /** Cores that differ in the program only, and not at the addresses `pcs`. */
  ghost predicate Agree(c: Core, d: Core, pcs: set<u32>) {
    && d == c.(program := d.program)
    && forall pc :: pc in pcs ==> c.program(pc) == d.program(pc)
  }

  lemma {:induction false} CommitAgrees(c: Core, d: Core, s: Machine)
    requires Agree(c, d, {})
    ensures Commit(c, s) == Commit(d, s) && CommitEnd(c, s) == CommitEnd(d, s)
    decreases |s.rob|
  {
    if s.rob != [] && IsCompleted(s.rob[0]) {
      var r := Retire(c, s.(rob := s.rob[1..]), s.rob[0]);
      assert Retire(d, s.(rob := s.rob[1..]), s.rob[0]) == r;
      if r.Retired? { CommitAgrees(c, d, r.s.(rob := s.rob[1..])); }
    }
  }

  lemma LoadsAgree(c: Core, d: Core, s: Machine)
    requires Agree(c, d, {})
    ensures LoadPhase(c, s) == LoadPhase(d, s)
  {
    assert forall i :: 0 <= i < |s.rob| ==> LoadPanics(c, s, i) == LoadPanics(d, s, i);
    assert LoadedRob(c, s) == LoadedRob(d, s);
    assert LoadedBuf(c, s) == LoadedBuf(d, s);
  }

  lemma ExecuteAgrees(c: Core, d: Core, s: Machine)
    requires Agree(c, d, {})
    ensures ExecuteStage(c, s) == ExecuteStage(d, s)
  {
    LoadsAgree(c, d, AddressPhase(s));
    var o := LoadPhase(c, AddressPhase(s));
    if o.Running? && StorePhase(c, o.s).Running? {
      var t := StorePhase(c, o.s).s;
      assert forall k :: k in t.station ==> StationSlot(c, t.station[k]) == StationSlot(d, t.station[k]);
      assert SteppedStation(c, t.station) == SteppedStation(d, t.station);
    }
  }

  lemma IssueOneAgrees(c: Core, d: Core, s: Machine, id: Tag)
    requires Agree(c, d, {s.pc})
    ensures IssueOne(c, s, id) == IssueOne(d, s, id) && Fetch(c, s.pc) == Fetch(d, s.pc) && NextPc(c, s) == NextPc(d, s)
    ensures IssueOne(c, s, id).pc == NextPc(c, s)
  {
    assert c.program(s.pc) == d.program(s.pc);
  }

  lemma IssueAgrees(c: Core, d: Core, s: Machine, ids: Tags)
    requires Agree(c, d, IssuedPcs(c, s))
    ensures Issue(c, s, ids) == Issue(d, s, ids)
  {
    if !Stalled(s) {
      IssueOneAgrees(c, d, s, ids.0);
      if !EndsGroup(Fetch(c, s.pc)) { IssueOneAgrees(c, d, IssueOne(c, s, ids.0), ids.1); }
    }
  }

  lemma BeforeIssueAgrees(c: Core, d: Core, s: Machine)
    requires Agree(c, d, {})
    ensures GoesOn(c, s) == GoesOn(d, s) && (GoesOn(c, s) ==> BeforeIssue(c, s) == BeforeIssue(d, s))
  {
    CommitAgrees(c, d, s);
    if Continues(Commit(c, s)) { ExecuteAgrees(c, d, WriteResult(Commit(c, s).outcome.s)); }
  }

  lemma ClockAgrees(c: Core, d: Core, s: Machine, ids: Tags)
    requires Agree(c, d, if GoesOn(c, s) then IssuedPcs(c, BeforeIssue(c, s)) else {})
    ensures Clock(c, s, ids) == Clock(d, s, ids)
  {
    CommitAgrees(c, d, s);
    BeforeIssueAgrees(c, d, s);
    if GoesOn(c, s) {
      IssueAgrees(c, d, BeforeIssue(c, s), ids);
    } else if Continues(Commit(c, s)) {
      ExecuteAgrees(c, d, WriteResult(Commit(c, s).outcome.s));
    }
  }

  /** A run depends on the program only where it fetches. */
  lemma {:induction false} RunsAgree(c: Core, d: Core, s: Machine, tags: seq<Tags>)
    requires Agree(c, d, FetchedPcs(c, s, tags))
    ensures Cycles(c, s, tags) == Cycles(d, s, tags)
    ensures Allocates(c, s, tags) == Allocates(d, s, tags)
    decreases |tags|
  {
    if tags != [] {
      ClockAgrees(c, d, s, tags[0]);
      BeforeIssueAgrees(c, d, s);
      var first := Clock(c, s, tags[0]);
      if Alive(first) {
        assert first.outcome.s == Issue(c, BeforeIssue(c, s), tags[0]);
        RunsAgree(c, d, first.outcome.s, tags[1..]);
      }
    }
  }

  lemma StopOne(c: Core, s: Machine, ids: Tags)
    ensures StopOf(c, s, [ids]) ==
      if !Continues(Commit(c, s)) then Retiring(CommitEnd(c, s))
      else if !GoesOn(c, s) then Executing(Commit(c, s).outcome.s)
      else Retiring(Issue(c, BeforeIssue(c, s), ids))
  {
  }

  lemma StopAgrees(c: Core, d: Core, s: Machine, ids: Tags)
    requires Agree(c, d, if GoesOn(c, s) then IssuedPcs(c, BeforeIssue(c, s)) else {})
    ensures StopOf(c, s, [ids]) == StopOf(d, s, [ids])
  {
    CommitAgrees(c, d, s);
    BeforeIssueAgrees(c, d, s);
    if GoesOn(c, s) { IssueAgrees(c, d, BeforeIssue(c, s), ids); }
    StopOne(c, s, ids);
    StopOne(d, s, ids);
  }

  lemma {:induction false} StopsAgree(c: Core, d: Core, s: Machine, tags: seq<Tags>)
    requires Agree(c, d, FetchedPcs(c, s, tags))
    ensures StopOf(c, s, tags) == StopOf(d, s, tags)
    decreases |tags|
  {
    if tags != [] {
      ClockAgrees(c, d, s, tags[0]);
      StopAgrees(c, d, s, tags[0]);
      StopNext(c, s, tags);
      StopNext(d, s, tags);
      var first := Clock(c, s, tags[0]);
      if Alive(first) {
        assert first.outcome.s == Issue(c, BeforeIssue(c, s), tags[0]);
        StopsAgree(c, d, first.outcome.s, tags[1..]);
      }
    }
  }

  // ---- Everything in the buffer has been fetched ----

  ghost predicate Within(rob: seq<RobEntry>, pcs: set<u32>) {
    forall i :: 0 <= i < |rob| ==> rob[i].pc in pcs
  }

  lemma {:induction false} CommitWithin(c: Core, s: Machine, pcs: set<u32>)
    requires Within(s.rob, pcs)
    ensures Within(Commit(c, s).retired, pcs)
    ensures Commit(c, s).outcome.Running? ==> Within(Commit(c, s).outcome.s.rob, pcs)
    decreases |s.rob|
  {
    if s.rob != [] && IsCompleted(s.rob[0]) {
      var r := Retire(c, s.(rob := s.rob[1..]), s.rob[0]);
      if r.Retired? { CommitWithin(c, r.s.(rob := s.rob[1..]), pcs); }
    }
  }

  lemma IssueOneWithin(c: Core, s: Machine, id: Tag, pcs: set<u32>)
    requires Within(s.rob, pcs) && s.pc in pcs
    ensures Within(IssueOne(c, s, id).rob, pcs) && IssueOne(c, s, id).pc == NextPc(c, s)
  {
  }

  lemma IssueWithin(c: Core, s: Machine, ids: Tags, pcs: set<u32>)
    requires Within(s.rob, pcs) && IssuedPcs(c, s) <= pcs
    ensures Within(Issue(c, s, ids).rob, pcs)
  {
    if !Stalled(s) {
      IssueOneWithin(c, s, ids.0, pcs);
      if !EndsGroup(Fetch(c, s.pc)) { IssueOneWithin(c, IssueOne(c, s, ids.0), ids.1, pcs); }
    }
  }

  lemma BeforeIssueWithin(c: Core, s: Machine, pcs: set<u32>)
    requires Within(s.rob, pcs) && GoesOn(c, s)
    ensures Within(BeforeIssue(c, s).rob, pcs)
  {
    CommitWithin(c, s, pcs);
    WriteResultShape(Commit(c, s).outcome.s);
    ExecuteShape(c, WriteResult(Commit(c, s).outcome.s));
  }

  /** What a run retires and what it leaves in the buffer has been fetched in it, or was there before. */
  lemma {:induction false} RunWithin(c: Core, s: Machine, tags: seq<Tags>, pcs: set<u32>)
    requires Within(s.rob, pcs) && FetchedPcs(c, s, tags) <= pcs
    ensures Within(Cycles(c, s, tags).retired, pcs)
    ensures Cycles(c, s, tags).outcome.Running? ==> Within(Cycles(c, s, tags).outcome.s.rob, pcs)
    decreases |tags|
  {
    if tags != [] {
      CommitWithin(c, s, pcs);
      var first := Clock(c, s, tags[0]);
      if Alive(first) {
        BeforeIssueWithin(c, s, pcs);
        IssueWithin(c, BeforeIssue(c, s), tags[0], pcs);
        RunWithin(c, first.outcome.s, tags[1..], pcs);
      }
    }
  }

  // ---- The sequential machine ----

  lemma StepAgrees(c: Core, d: Core, a: State, pcs: set<u32>)
    requires Agree(c, d, pcs) && a.pc in pcs
    ensures Step(c, a) == Step(d, a)
  {
    assert Fetch(c, a.pc) == Fetch(d, a.pc);
  }

  /** The sequential runs of both programs agree as long as they stay where the programs do. */
  lemma {:induction false} SequentialAgrees(c: Core, d: Core, a: State, pcs: set<u32>, n: nat)
    requires Agree(c, d, pcs)
    requires forall k: nat {:trigger Run(d, a, k)} :: k < n ==> Run(d, a, k).Ok? && Run(d, a, k).value.pc in pcs
    ensures Run(c, a, n) == Run(d, a, n)
    decreases n
  {
    if n > 0 {
      SequentialAgrees(c, d, a, pcs, n - 1);
      StepAgrees(c, d, Run(d, a, n - 1).value, pcs);
      RunSnoc(c, a, n - 1);
      RunSnoc(d, a, n - 1);
    }
  }
}
