/** Issuing keeps the simulation. */
module SimulationIssue {
  import opened Isa
  import opened OutOfOrder
  import opened Invariant
  import opened InvariantIssue
  import opened Simulation
  import opened Path

  lemma OldReadsIssue(w: Scope, c: Core, s: Machine, a: State, id: Tag, i: nat)
    requires Inv(c, s) && LoadsExact(w, c, s, a) && Free(s, id)
    requires i < |s.rob| && Covered(w, c, IssueOne(c, s, id).rob, a, i)
    ensures LoadExact(c, IssueOne(c, s, id), s.rob[i], At(c, IssueOne(c, s, id).rob, a, i))
  {
    PathSame(c, s.rob, IssueOne(c, s, id).rob, a, i);
    assert s.rob[i].id != id;
    assert LoadExact(c, s, s.rob[i], At(c, s.rob, a, i));
  }

  lemma IssueOneSimulates(w: Scope, c: Core, s: Machine, a: State, id: Tag)
    requires Simulates(w, c, s, a) && !Stalled(s) && Free(s, id)
    ensures Simulates(w, c, IssueOne(c, s, id), a)
  {
    var s' := IssueOne(c, s, id);
    IssueOneInv(c, s, id);
    FreeIsOut(s, id);
    forall i {:trigger At(c, s'.rob, a, i)} | 0 <= i < |s'.rob| && Covered(w, c, s'.rob, a, i)
      ensures LoadExact(c, s', s'.rob[i], At(c, s'.rob, a, i))
    {
      if i < |s.rob| { OldReadsIssue(w, c, s, a, id, i); }
    }
  }

  lemma IssueSimulates(w: Scope, c: Core, s: Machine, a: State, ids: Tags)
    requires Simulates(w, c, s, a) && FreeTags(s, ids)
    ensures Simulates(w, c, Issue(c, s, ids), a)
  {
    if !Stalled(s) {
      IssueOneSimulates(w, c, s, a, ids.0);
      if !EndsGroup(Fetch(c, s.pc)) {
        IssueOneSimulates(w, c, IssueOne(c, s, ids.0), a, ids.1);
      }
    }
  }

  /** A value captured at issue is the register's value at that point of the path. */
  lemma CaptureExact(w: Scope, c: Core, s: Machine, a: State, id: Tag, src: Source)
    requires Simulates(w, c, s, a) && !Stalled(s) && Free(s, id)
    requires Covered(w, c, IssueOne(c, s, id).rob, a, |s.rob|)
    ensures Exact(Capture(s, src), Eval(src, Entering(c, s.rob, a, |s.rob|).regs))
  {
    var s' := IssueOne(c, s, id);
    IssueOneSimulates(w, c, s, a, id);
    CaptureTracked(c, s, id, src);
    KnownExact(w, c, s', a, |s.rob|, src);
    EnteringSame(c, s.rob, s'.rob, a, |s.rob|);
  }
}
