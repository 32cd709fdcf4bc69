/** Conservation: every instruction issued is retired, squashed or still in the buffer, and in
    exactly one of these. A ledger records the instructions in issue order and the fate of those that
    have left the buffer. */
module Ledgers {
  import opened Words
  import opened Instructions
  import opened Isa
  import opened OutOfOrder
  import opened Invariant
  import opened InvariantExecute
  import opened InvariantWriteResult
  import opened Runs

  datatype Stamp = Stamp(pc: u32, inst: Inst)

  function Stamps(rob: seq<RobEntry>): seq<Stamp> {
    seq(|rob|, i requires 0 <= i < |rob| => Stamp(rob[i].pc, rob[i].inst))
  }

  datatype Fate = Retires | Squashed

  datatype Ledger = Ledger(issued: seq<Stamp>, fates: seq<Fate>)

  /** The instructions that retired, in issue order. */
  function Kept(issued: seq<Stamp>, fates: seq<Fate>): seq<Stamp>
    requires |fates| <= |issued|
  {
    if fates == [] then []
    else
      var n := |fates| - 1;
      Kept(issued, fates[..n]) + if fates[n].Retires? then [issued[n]] else []
  }

  /** The buffer holds exactly the instructions without a fate, in issue order. */
  ghost predicate Balanced(l: Ledger, rob: seq<RobEntry>) {
    |l.issued| == |l.fates| + |rob| && Stamps(rob) == l.issued[|l.fates|..]
  }

  function Times(n: nat, f: Fate): seq<Fate> { seq(n, _ => f) }

  /** How many entries the commit squashes. */
  function SquashedBy(s: Machine, r: Committed): int {
    if r.outcome.Running? then |s.rob| - |r.retired| - |r.outcome.s.rob| else 0
  }

  predicate Mispredicted(e: RobEntry) {
    e.inst.opcode.Branch? && e.regValue.GetOr(0) != (if e.branchPred then 1 else 0)
  }

  /** What a commit leaves of `rob` when it retires the first `n` entries: the rest, if its head is
      not completed, or nothing after a misprediction. */
  ghost predicate Leaves(rob: seq<RobEntry>, n: nat, left: seq<RobEntry>)
    requires n <= |rob|
  {
    || (left == rob[n..] && (n < |rob| ==> !IsCompleted(rob[n])))
    || (left == [] && n > 0 && Mispredicted(rob[n - 1]))
  }

  lemma LeavesMore(rob: seq<RobEntry>, n: nat, left: seq<RobEntry>)
    requires n < |rob| && Leaves(rob[1..], n, left)
    ensures Leaves(rob, n + 1, left)
  {
  }

  /** A commit retires completed entries from the front. */
  lemma {:induction false} CommitPrefix(c: Core, s: Machine)
    ensures var n := |Commit(c, s).retired|;
      n <= |s.rob| && Commit(c, s).retired == s.rob[..n] && forall i :: 0 <= i < n ==> IsCompleted(s.rob[i])
    decreases |s.rob|
  {
    if s.rob != [] && IsCompleted(s.rob[0]) {
      var r := Retire(c, s.(rob := s.rob[1..]), s.rob[0]);
      if r.Retired? { CommitPrefix(c, r.s.(rob := s.rob[1..])); }
    }
  }

  /** It stops at the first entry that is not completed, is a misprediction, or faults. */
  lemma {:induction false} CommitConserves(c: Core, s: Machine)
    ensures var r := Commit(c, s);
      var n := |r.retired|;
      && n <= |s.rob| && r.retired == s.rob[..n] && (forall i :: 0 <= i < n ==> IsCompleted(s.rob[i]))
      && (if r.outcome.Panic? then n < |s.rob| && IsCompleted(s.rob[n]) else Leaves(s.rob, n, r.outcome.s.rob))
    decreases |s.rob|
  {
    CommitPrefix(c, s);
    if s.rob != [] && IsCompleted(s.rob[0]) {
      var r := Retire(c, s.(rob := s.rob[1..]), s.rob[0]);
      if r.Retired? {
        var s' := r.s.(rob := s.rob[1..]);
        CommitConserves(c, s');
        if Commit(c, s').outcome.Running? { LeavesMore(s.rob, |Commit(c, s').retired|, Commit(c, s').outcome.s.rob); }
      }
    }
  }

  /** The ledger after the commit, and after the clock. */
  function AfterRetiring(c: Core, s: Machine, l: Ledger): Ledger {
    CommitConserves(c, s);
    var r := Commit(c, s);
    l.(fates := l.fates + Times(|r.retired|, Retires) + Times(SquashedBy(s, r), Squashed))
  }

  function AfterClock(c: Core, s: Machine, ids: Tags, l: Ledger): Ledger {
    var l1 := AfterRetiring(c, s, l);
    if !GoesOn(c, s) then l1
    else
      var s1 := BeforeIssue(c, s);
      l1.(issued := l1.issued + Stamps(Issue(c, s1, ids).rob[|s1.rob|..]))
  }

  /** The ledger after a run. */
  function AfterRun(c: Core, s: Machine, tags: seq<Tags>, l: Ledger): Ledger
    decreases |tags|
  {
    if tags == [] then l
    else
      var l1, r := AfterClock(c, s, tags[0], l), Clock(c, s, tags[0]);
      if Alive(r) then AfterRun(c, r.outcome.s, tags[1..], l1) else l1
  }

  // ---- Proof ----

  lemma {:induction false} KeptMore(issued: seq<Stamp>, fates: seq<Fate>, n: nat, f: Fate)
    requires |fates| + n <= |issued|
    ensures Kept(issued, fates + Times(n, f))
         == Kept(issued, fates) + if f.Retires? then issued[|fates|..|fates| + n] else []
    decreases n
  {
    if n == 0 {
      assert fates + Times(0, f) == fates;
    } else {
      KeptMore(issued, fates, n - 1, f);
      var more := fates + Times(n, f);
      assert more[..|more| - 1] == fates + Times(n - 1, f);
    }
  }

  lemma {:induction false} KeptPrefix(issued: seq<Stamp>, more: seq<Stamp>, fates: seq<Fate>)
    requires |fates| <= |issued|
    ensures Kept(issued + more, fates) == Kept(issued, fates)
    decreases |fates|
  {
    if fates != [] { KeptPrefix(issued, more, fates[..|fates| - 1]); }
  }

  /** `l'` continues `l`, and what retires in between is `retired`. */
  ghost predicate Conserves(l: Ledger, l': Ledger, retired: seq<RobEntry>) {
    && |l.fates| <= |l.issued| && |l'.fates| <= |l'.issued|
    && l.issued <= l'.issued && l.fates <= l'.fates
    && Kept(l'.issued, l'.fates) == Kept(l.issued, l.fates) + Stamps(retired)
  }

  lemma ConservesTwice(l: Ledger, l1: Ledger, l2: Ledger, p: seq<RobEntry>, q: seq<RobEntry>)
    requires Conserves(l, l1, p) && Conserves(l1, l2, q)
    ensures Conserves(l, l2, p + q)
  {
    assert Stamps(p + q) == Stamps(p) + Stamps(q);
  }

  lemma ConservesNothing(l: Ledger)
    requires |l.fates| <= |l.issued|
    ensures Conserves(l, l, [])
  {
    assert Kept(l.issued, l.fates) + Stamps([]) == Kept(l.issued, l.fates);
  }

  /** `n` entries retire, and `k` after them are squashed. */
  lemma Leaving(l: Ledger, rob: seq<RobEntry>, n: nat, k: nat)
    requires Balanced(l, rob) && n + k <= |rob|
    ensures var l' := l.(fates := l.fates + Times(n, Retires) + Times(k, Squashed));
      Balanced(l', rob[n + k..]) && Conserves(l, l', rob[..n])
  {
    KeptMore(l.issued, l.fates, n, Retires);
    KeptMore(l.issued, l.fates + Times(n, Retires), k, Squashed);
    assert Stamps(rob[..n]) == l.issued[|l.fates|..|l.fates| + n];
    assert Stamps(rob[n + k..]) == l.issued[|l.fates| + n + k..];
  }

  /** The entries after those of `p` are new. */
  lemma Entering(l: Ledger, p: seq<RobEntry>, q: seq<RobEntry>)
    requires Balanced(l, p) && |p| <= |q| && q[..|p|] == p
    ensures var l' := l.(issued := l.issued + Stamps(q[|p|..])); Balanced(l', q) && Conserves(l, l', [])
  {
    KeptPrefix(l.issued, Stamps(q[|p|..]), l.fates);
    assert q == p + q[|p|..];
    assert Stamps(q) == Stamps(p) + Stamps(q[|p|..]);
    ConservesNothing(l);
  }

  lemma RetiringBalances(c: Core, s: Machine, l: Ledger)
    requires Balanced(l, s.rob)
    ensures Conserves(l, AfterRetiring(c, s, l), Commit(c, s).retired)
    ensures Commit(c, s).outcome.Running? ==> Balanced(AfterRetiring(c, s, l), Commit(c, s).outcome.s.rob)
  {
    CommitConserves(c, s);
    var r := Commit(c, s);
    Leaving(l, s.rob, |r.retired|, SquashedBy(s, r));
    if r.outcome.Running? {
      assert r.outcome.s.rob == s.rob[|r.retired| + SquashedBy(s, r)..];
    }
  }

  lemma IssueAppends(c: Core, s: Machine, ids: Tags)
    ensures |Issue(c, s, ids).rob| >= |s.rob| && Issue(c, s, ids).rob[..|s.rob|] == s.rob
  {
  }

  lemma SameStamps(p: seq<RobEntry>, q: seq<RobEntry>)
    requires SameShape(p, q)
    ensures Stamps(p) == Stamps(q)
  {
  }

  /** The stages between commit and issue keep the buffer's instructions. */
  lemma StampsKept(c: Core, s: Machine)
    requires ExecuteStage(c, WriteResult(s)).Running?
    ensures Stamps(s.rob) == Stamps(ExecuteStage(c, WriteResult(s)).s.rob)
  {
    var s1 := WriteResult(s);
    WriteResultShape(s);
    SameStamps(s.rob, s1.rob);
    ExecuteShape(c, s1);
    SameStamps(s1.rob, ExecuteStage(c, s1).s.rob);
  }

  lemma ClockBalances(c: Core, s: Machine, ids: Tags, l: Ledger)
    requires Balanced(l, s.rob)
    ensures Conserves(l, AfterClock(c, s, ids, l), Clock(c, s, ids).retired)
    ensures Clock(c, s, ids).outcome.Running? ==> Balanced(AfterClock(c, s, ids, l), Clock(c, s, ids).outcome.s.rob)
  {
    RetiringBalances(c, s, l);
    if GoesOn(c, s) {
      var l1 := AfterRetiring(c, s, l);
      IssuingBalances(c, s, ids, l1);
      ConservesTwice(l, l1, AfterClock(c, s, ids, l), Commit(c, s).retired, []);
      assert Commit(c, s).retired + [] == Commit(c, s).retired;
    }
  }

  lemma IssuingBalances(c: Core, s: Machine, ids: Tags, l: Ledger)
    requires GoesOn(c, s) && Balanced(l, Commit(c, s).outcome.s.rob)
    ensures var s1 := BeforeIssue(c, s);
      var l' := l.(issued := l.issued + Stamps(Issue(c, s1, ids).rob[|s1.rob|..]));
      Conserves(l, l', []) && Balanced(l', Issue(c, s1, ids).rob)
  {
    var s1 := BeforeIssue(c, s);
    StampsKept(c, Commit(c, s).outcome.s);
    assert |Stamps(s1.rob)| == |s1.rob|;
    IssueAppends(c, s1, ids);
    Entering(l, s1.rob, Issue(c, s1, ids).rob);
  }

  /** Conservation, over every run: what retired is, in order, the instructions recorded as retired;
      what is in the buffer is, in order, the instructions without a fate; so issued = retired +
      squashed + in the buffer. So it is, too, after the clock of an exit system call. */
  lemma {:induction false} RunConserves(c: Core, s: Machine, tags: seq<Tags>, l: Ledger)
    requires Balanced(l, s.rob)
    ensures Conserves(l, AfterRun(c, s, tags, l), Cycles(c, s, tags).retired)
    ensures Cycles(c, s, tags).outcome.Running? ==> Balanced(AfterRun(c, s, tags, l), Cycles(c, s, tags).outcome.s.rob)
    decreases |tags|
  {
    if tags == [] {
      ConservesNothing(l);
    } else {
      ClockBalances(c, s, tags[0], l);
      var r, l1 := Clock(c, s, tags[0]), AfterClock(c, s, tags[0], l);
      if Alive(r) {
        RunConserves(c, r.outcome.s, tags[1..], l1);
        ConservesTwice(l, l1, AfterRun(c, r.outcome.s, tags[1..], l1), r.retired, Cycles(c, r.outcome.s, tags[1..]).retired);
      }
    }
  }
}
