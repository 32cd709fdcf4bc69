/** Runs put together from shorter ones. */
module Runs {
  import opened Isa
  import opened OutOfOrder
  import opened InvariantExecute
  import opened InvariantIssue
  import opened InvariantWriteResult
  import opened Simulation
  import opened Panics
  import opened Refinement

  /** A run that can still go on. */
  predicate Alive(r: Clocked) {
    r.outcome.Running? && !r.exited
  }

  /** A run that follows one that has retired `first`. */
  function Following(first: seq<RobEntry>, r: Clocked): Clocked {
    Clocked(r.outcome, first + r.retired, r.exited)
  }

  lemma FollowingTwice(first: seq<RobEntry>, more: seq<RobEntry>, r: Clocked)
    ensures Following(first, Following(more, r)) == Following(first + more, r)
  {
    assert first + (more + r.retired) == (first + more) + r.retired;
  }

  /** A run is its first clock and the run that follows. */
  lemma OneClock(c: Core, s: Machine, tags: seq<Tags>)
    requires tags != [] && Allocates(c, s, tags)
    ensures Allocates(c, s, [tags[0]])
    ensures var r := Clock(c, s, tags[0]);
      if Alive(r) then Cycles(c, s, tags) == Following(r.retired, Cycles(c, r.outcome.s, tags[1..])) && Allocates(c, r.outcome.s, tags[1..])
      else Cycles(c, s, tags) == r
  {
  }

  /** A run over `p + q` is the run over `p`, and from where that ends the run over `q`. */
  lemma {:induction false} CyclesPlus(c: Core, s: Machine, p: seq<Tags>, q: seq<Tags>)
    ensures var r := Cycles(c, s, p);
      Cycles(c, s, p + q) == if Alive(r) then Following(r.retired, Cycles(c, r.outcome.s, q)) else r
    decreases |p|
  {
    if p == [] {
      assert p + q == q;
      assert [] + Cycles(c, s, q).retired == Cycles(c, s, q).retired;
    } else {
      var first := Clock(c, s, p[0]);
      assert (p + q)[0] == p[0] && (p + q)[1..] == p[1..] + q;
      if Alive(first) {
        CyclesPlus(c, first.outcome.s, p[1..], q);
        var rest := Cycles(c, first.outcome.s, p[1..]);
        if Alive(rest) { FollowingTwice(first.retired, rest.retired, Cycles(c, rest.outcome.s, q)); }
      }
    }
  }

  lemma {:induction false} AllocatesPlus(c: Core, s: Machine, p: seq<Tags>, q: seq<Tags>)
    requires Allocates(c, s, p + q)
    ensures Allocates(c, s, p)
    ensures var r := Cycles(c, s, p); Alive(r) ==> Allocates(c, r.outcome.s, q)
    decreases |p|
  {
    if p == [] {
      assert p + q == q;
    } else {
      var first := Clock(c, s, p[0]);
      assert (p + q)[0] == p[0] && (p + q)[1..] == p[1..] + q;
      if Alive(first) {
        NextClock(c, s, p + q);
        AllocatesPlus(c, first.outcome.s, p[1..], q);
      }
    }
  }

  lemma {:induction false} GateSafePlus(w: Scope, c: Core, s: Machine, a: State, p: seq<Tags>, q: seq<Tags>)
    requires GateSafeRun(w, c, s, a, p + q) && Alive(Cycles(c, s, p)) && Run(c, a, |Cycles(c, s, p).retired|).Ok?
    ensures var r := Cycles(c, s, p); GateSafeRun(w, c, r.outcome.s, Run(c, a, |r.retired|).value, q)
    decreases |p|
  {
    if p == [] {
      assert p + q == q && Run(c, a, 0).value == a;
    } else {
      var first := Clock(c, s, p[0]);
      assert (p + q)[0] == p[0] && (p + q)[1..] == p[1..] + q;
      var rest, n := Cycles(c, first.outcome.s, p[1..]), |Cycles(c, s, p).retired|;
      assert Cycles(c, s, p) == Following(first.retired, rest);
      RunPrefix(c, a, |first.retired|, n);
      NextGateSafe(w, c, s, a, p + q);
      RunSplit(c, a, |first.retired|, |rest.retired|, n);
      GateSafePlus(w, c, first.outcome.s, Run(c, a, |first.retired|).value, p[1..], q);
    }
  }

  lemma {:induction false} GateSafePrefix(w: Scope, c: Core, s: Machine, a: State, p: seq<Tags>, q: seq<Tags>)
    requires GateSafeRun(w, c, s, a, p + q)
    ensures GateSafeRun(w, c, s, a, p)
    decreases |p|
  {
    if p != [] && Continues(Commit(c, s)) && Run(c, a, |Commit(c, s).retired|).Ok? {
      assert (p + q)[0] == p[0] && (p + q)[1..] == p[1..] + q;
      var s1 := Commit(c, s).outcome.s;
      if ExecuteStage(c, WriteResult(s1)).Running? {
        var s' := Issue(c, ExecuteStage(c, WriteResult(s1)).s, p[0]);
        GateSafePrefix(w, c, s', Run(c, a, |Commit(c, s).retired|).value, p[1..], q);
      }
    }
  }

  /** What is assumed of a run holds of both its parts. */
  lemma AdmissiblePlus(w: Scope, c: Core, s: Machine, a: State, p: seq<Tags>, q: seq<Tags>)
    requires Simulates(w, c, s, a) && Admissible(w, c, s, a, p + q) && Alive(Cycles(c, s, p))
    ensures Admissible(w, c, s, a, p) && Refines(w, c, a, Cycles(c, s, p), StopOf(c, s, p))
    ensures var r := Cycles(c, s, p); Admissible(w, c, r.outcome.s, Run(c, a, |r.retired|).value, q)
  {
    CyclesPlus(c, s, p, q);
    AllocatesPlus(c, s, p, q);
    GateSafePrefix(w, c, s, a, p, q);
    var r := Cycles(c, s, p);
    RunRefines(w, c, s, a, p);
    GateSafePlus(w, c, s, a, p, q);
    JumpsLater(c, a, |r.retired|, |Cycles(c, r.outcome.s, q).retired|);
  }

  // ---- An allocator that never reuses a tag ----

  function Numbered(k: nat, n: nat): (tags: seq<Tags>)
    ensures |tags| == n
    decreases n
  {
    if n == 0 then [] else [(2 * k, 2 * k + 1)] + Numbered(k + 1, n - 1)
  }

  /** Every live tag is below `b`. */
  ghost predicate Below(s: Machine, b: nat) {
    forall i :: 0 <= i < |s.rob| ==> s.rob[i].id < b
  }

  lemma {:induction false} CommitBelow(c: Core, s: Machine, b: nat)
    requires Below(s, b)
    ensures Commit(c, s).outcome.Running? ==> Below(Commit(c, s).outcome.s, b)
    decreases |s.rob|
  {
    if s.rob != [] && IsCompleted(s.rob[0]) {
      var r := Retire(c, s.(rob := s.rob[1..]), s.rob[0]);
      if r.Retired? { CommitBelow(c, r.s.(rob := s.rob[1..]), b); }
    }
  }

  lemma ExecuteBelow(c: Core, s: Machine, b: nat)
    requires Below(s, b) && ExecuteStage(c, WriteResult(s)).Running?
    ensures Below(ExecuteStage(c, WriteResult(s)).s, b)
  {
    WriteResultShape(s);
    ExecuteShape(c, WriteResult(s));
  }

  lemma IssueBelow(c: Core, s: Machine, k: nat)
    requires Below(s, 2 * k)
    ensures FreeTags(s, (2 * k, 2 * k + 1)) && Below(Issue(c, s, (2 * k, 2 * k + 1)), 2 * (k + 1))
  {
  }

  /** The core goes on after a clock that neither exits nor panics. */
  predicate GoesOn(c: Core, s: Machine) {
    Continues(Commit(c, s)) && ExecuteStage(c, WriteResult(Commit(c, s).outcome.s)).Running?
  }

  /** The state it issues into. */
  function BeforeIssue(c: Core, s: Machine): Machine
    requires GoesOn(c, s)
  {
    ExecuteStage(c, WriteResult(Commit(c, s).outcome.s)).s
  }

  lemma ClockBelow(c: Core, s: Machine, b: nat)
    requires Below(s, b) && GoesOn(c, s)
    ensures Below(BeforeIssue(c, s), b)
  {
    CommitBelow(c, s, b);
    ExecuteBelow(c, Commit(c, s).outcome.s, b);
  }

  lemma AllocatesCons(c: Core, s: Machine, ids: Tags, rest: seq<Tags>)
    requires GoesOn(c, s) ==> FreeTags(BeforeIssue(c, s), ids) && Allocates(c, Issue(c, BeforeIssue(c, s), ids), rest)
    ensures Allocates(c, s, [ids] + rest)
  {
    assert ([ids] + rest)[1..] == rest;
  }

  lemma BelowNext(c: Core, s: Machine, k: nat) returns (s': Machine)
    requires Below(s, 2 * k) && GoesOn(c, s)
    ensures Below(s', 2 * (k + 1)) && s' == Issue(c, BeforeIssue(c, s), (2 * k, 2 * k + 1))
    ensures FreeTags(BeforeIssue(c, s), (2 * k, 2 * k + 1))
  {
    ClockBelow(c, s, 2 * k);
    var t := BeforeIssue(c, s);
    IssueBelow(c, t, k);
    s' := Issue(c, t, (2 * k, 2 * k + 1));
  }

  /** The allocator's guarantee from the next state on extends to this clock. */
  lemma GuaranteeNext(c: Core, s: Machine, k: nat) returns (s': Machine)
    requires Below(s, 2 * k) && GoesOn(c, s)
    ensures Below(s', 2 * (k + 1))
    ensures forall rest {:trigger Allocates(c, s', rest)} ::
      Allocates(c, s', rest) ==> Allocates(c, s, [(2 * k, 2 * k + 1)] + rest)
  {
    s' := BelowNext(c, s, k);
    forall rest | Allocates(c, s', rest) ensures Allocates(c, s, [(2 * k, 2 * k + 1)] + rest) {
      AllocatesCons(c, s, (2 * k, 2 * k + 1), rest);
    }
  }

  lemma StopAllocates(c: Core, s: Machine, tags: seq<Tags>)
    requires !GoesOn(c, s)
    ensures Allocates(c, s, tags)
  {
  }

  /** Every program has runs of every length: with a fresh tag each time the allocator's guarantee
      holds whatever the core does. */
  lemma {:induction false} NumberedAllocates(c: Core, s: Machine, k: nat, n: nat)
    requires Below(s, 2 * k)
    ensures Allocates(c, s, Numbered(k, n))
    decreases n
  {
    if !GoesOn(c, s) {
      StopAllocates(c, s, Numbered(k, n));
    } else if n > 0 {
      var s' := GuaranteeNext(c, s, k);
      NumberedAllocates(c, s', k + 1, n - 1);
    }
  }
}
