/** Issuing an instruction into a free tag keeps the invariant. */
module InvariantIssue {
  import opened Words
  import opened Instructions
  import opened Isa
  import opened OutOfOrder
  import opened Invariant

  /** Captured operands name the youngest writer, or hold what it has computed. */
  lemma CaptureTracked(c: Core, s: Machine, id: Tag, src: Source)
    requires Inv(c, s)
    ensures Tracked(s.gpr, s.rob, |s.rob|, src, Capture(s, src))
    ensures Tracked(s.gpr, IssueOne(c, s, id).rob, |s.rob|, src, Capture(s, src))
  {
    if src.FromReg? {
      LastWriterPrefix(s.rob, IssueOne(c, s, id).rob, |s.rob|, src.r);
      var j := LastWriter(s.rob, |s.rob|, src.r);
      if j >= 0 { LookupIs(s.rob, j); }
    }
  }

  lemma KnownIssue(c: Core, s: Machine, id: Tag, i: nat)
    requires i < |s.rob|
    ensures SameKnown(s.gpr, s.rob, i, s.gpr, IssueOne(c, s, id).rob, i)
  {
    var q := IssueOne(c, s, id).rob;
    forall src {:trigger Known(s.gpr, q, i, src)} ensures Known(s.gpr, q, i, src) == Known(s.gpr, s.rob, i, src) {
      if src.FromReg? { LastWriterPrefix(s.rob, q, i, src.r); }
    }
    forall src, op | Tracked(s.gpr, s.rob, i, src, op) ensures Tracked(s.gpr, q, i, src, op) {
      if op.Rob? { LastWriterPrefix(s.rob, q, i, src.r); }
    }
  }

  lemma OldSlot(c: Core, s: Machine, id: Tag, i: nat)
    requires Inv(c, s) && Free(s, id) && i < |s.rob|
    ensures SlotOk(c, IssueOne(c, s, id), i)
  {
    var s' := IssueOne(c, s, id);
    KnownIssue(c, s, id, i);
    assert Filed(c, s, i) && Held(c, s, i) && OperandsOk(c, s, i) && Computed(c, s.gpr, s.rob, i) && CountdownOk(s, i) by {
      assert SlotOk(c, s, i);
    }
    assert s'.rob[i] == s.rob[i] && s.rob[i].id != id;
    HeldKept(c, s, i, s', i);
    AddrKept(s.gpr, s.rob, i, s'.gpr, s'.rob, i);
    ComputedKept(c, s.gpr, s.rob, i, s'.gpr, s'.rob, i);
    DataKept(c, s, i, s', i);
    assert Filed(c, s', i);
    assert CountdownOk(s', i);
  }

  /** No buffer holds a free tag. */
  lemma FreeIsOut(s: Machine, id: Tag)
    requires KeysLive(s) && Free(s, id)
    ensures id !in s.station && id !in s.loadBuf && id !in s.addressUnit
  {
    assert !Live(s, id);
  }

  lemma NewStation(c: Core, s: Machine, id: Tag)
    requires Inv(c, s)
    ensures StationOk(c, s.gpr, IssueOne(c, s, id).rob, |s.rob|, NewStationEntry(s, Fetch(c, s.pc), id))
  {
    CaptureTracked(c, s, id, Src1(s.pc, Fetch(c, s.pc)));
    CaptureTracked(c, s, id, Src2(Fetch(c, s.pc)));
  }

  lemma NewAddress(c: Core, s: Machine, id: Tag)
    requires Inv(c, s)
    ensures AddressOk(s.gpr, IssueOne(c, s, id).rob, |s.rob|, NewAddressEntry(s, Fetch(c, s.pc), id))
  {
    CaptureTracked(c, s, id, FromReg(Rs1(Fetch(c, s.pc))));
  }

  lemma NewHeld(c: Core, s: Machine, id: Tag)
    requires Inv(c, s) && Free(s, id)
    ensures Held(c, IssueOne(c, s, id), |s.rob|)
  {
    FreeIsOut(s, id);
    NewStation(c, s, id);
    NewAddress(c, s, id);
  }

  lemma NewOperands(c: Core, s: Machine, id: Tag)
    requires Inv(c, s) && Free(s, id)
    ensures OperandsOk(c, IssueOne(c, s, id), |s.rob|)
  {
    var i := Fetch(c, s.pc);
    FreeIsOut(s, id);
    CaptureTracked(c, s, id, FromReg(Rs1(i)));
    CaptureTracked(c, s, id, FromReg(Rs2(i)));
  }

  lemma NewSlot(c: Core, s: Machine, id: Tag)
    requires Inv(c, s) && Free(s, id)
    ensures SlotOk(c, IssueOne(c, s, id), |s.rob|)
  {
    var s' := IssueOne(c, s, id);
    FreeIsOut(s, id);
    NewHeld(c, s, id);
    NewOperands(c, s, id);
    assert Filed(c, s', |s.rob|);
    assert CountdownOk(s', |s.rob|);
  }

  lemma RenamesIssue(c: Core, s: Machine, id: Tag)
    requires RenamesOk(s)
    ensures RenamesOk(IssueOne(c, s, id))
  {
    var s' := IssueOne(c, s, id);
    forall r: Reg ensures LastWriter(s'.rob, |s.rob|, r) == LastWriter(s.rob, |s.rob|, r) {
      LastWriterPrefix(s.rob, s'.rob, |s.rob|, r);
    }
    assert s'.rob[|s.rob|].rd == Rd(Fetch(c, s.pc));
  }

  lemma KeysIssue(c: Core, s: Machine, id: Tag)
    requires KeysLive(s) && Distinct(s.rob) && Free(s, id)
    ensures KeysLive(IssueOne(c, s, id)) && Distinct(IssueOne(c, s, id).rob)
  {
    var s' := IssueOne(c, s, id);
    assert s'.rob[|s.rob|].id == id;
    forall t | Live(s, t) ensures Live(s', t) {
      var i :| 0 <= i < |s.rob| && s.rob[i].id == t;
      assert s'.rob[i].id == t;
    }
  }

  lemma PathIssue(c: Core, s: Machine, id: Tag)
    requires Serial(s) && PathLinked(s) && !Stalled(s)
    requires s.rob != [] ==> s.rob[|s.rob| - 1].inst.opcode.Jalr? == s.rob[|s.rob| - 1].inst.func.Jalr?
    ensures Serial(IssueOne(c, s, id)) && PathLinked(IssueOne(c, s, id))
  {
    var s' := IssueOne(c, s, id);
    assert forall i :: 0 <= i < |s.rob| ==> s'.rob[i] == s.rob[i];
    assert s'.pc == Followed(s'.rob[|s.rob|]);
  }

  lemma IssueOneInv(c: Core, s: Machine, id: Tag)
    requires Inv(c, s) && Free(s, id) && !Stalled(s)
    ensures Inv(c, IssueOne(c, s, id))
  {
    var s' := IssueOne(c, s, id);
    RenamesIssue(c, s, id);
    KeysIssue(c, s, id);
    PathIssue(c, s, id);
    forall i | 0 <= i < |s'.rob| ensures SlotOk(c, s', i) {
      if i < |s.rob| { OldSlot(c, s, id, i); } else { NewSlot(c, s, id); }
    }
  }

  /** The allocator's tags are free: the second too when it is used. */
  ghost predicate FreeTags(s: Machine, ids: Tags) {
    Free(s, ids.0) && Free(s, ids.1) && ids.0 != ids.1
  }

  lemma IssueInv(c: Core, s: Machine, ids: Tags)
    requires Inv(c, s) && FreeTags(s, ids)
    ensures Inv(c, Issue(c, s, ids))
  {
    if !Stalled(s) {
      IssueOneInv(c, s, ids.0);
      var s1 := IssueOne(c, s, ids.0);
      if !EndsGroup(Fetch(c, s.pc)) {
        IssueOneInv(c, s1, ids.1);
      }
    }
  }
}
