/** Retiring an entry keeps the invariant. */
module InvariantCommit {
  import opened Words
  import opened Isa
  import opened OutOfOrder
  import opened Invariant

  /** The head's result is in its register, and no other register has changed. */
  ghost predicate RegsPopped(s: Machine, s': Machine) {
    && s.rob != []
    && forall r: Reg ::
         if r != 0 && s.rob[0].rd == r then s.rob[0].regValue == Some(s'.gpr[r]) else s'.gpr[r] == s.gpr[r]
  }

  lemma RetiredRegs(c: Core, s: Machine, s': Machine)
    requires Inv(c, s) && |s.rob| > 1 && IsCompleted(s.rob[0])
    requires Retire(c, s.(rob := s.rob[1..]), s.rob[0]) == Retired(s')
    ensures RegsPopped(s, s')
  {
    assert Filed(c, s, 0) by { assert SlotOk(c, s, 0); }
    assert !IsEcall(s.rob[0].inst);
  }

  /** What is known of a source does not change when the head's result moves to its register. */
  lemma KnownPop(s: Machine, s': Machine, i: nat, src: Source)
    requires 0 < i <= |s.rob| && RegsPopped(s, s')
    ensures Known(s'.gpr, s.rob[1..], i - 1, src) == Known(s.gpr, s.rob, i, src)
  {
    if src.FromReg? { LastWriterPop(s.rob, i, src.r); }
  }

  lemma TrackedPop(c: Core, s: Machine, s': Machine, i: nat, src: Source, op: Operand)
    requires Inv(c, s) && 0 < i < |s.rob| && IsCompleted(s.rob[0]) && RegsPopped(s, s')
    requires Tracked(s.gpr, s.rob, i, src, op)
    ensures Tracked(s'.gpr, s.rob[1..], i - 1, src, op)
  {
    KnownPop(s, s', i, src);
    if op.Rob? {
      assert SlotOk(c, s, 0);
      LastWriterPop(s.rob, i, src.r);
    }
  }

  lemma KnownPopped(c: Core, s: Machine, s': Machine, i: nat)
    requires Inv(c, s) && 0 < i < |s.rob| && IsCompleted(s.rob[0]) && RegsPopped(s, s') && s'.rob == s.rob[1..]
    ensures SameKnown(s.gpr, s.rob, i, s'.gpr, s'.rob, i - 1)
  {
    forall src {:trigger Known(s'.gpr, s'.rob, i - 1, src)} ensures Known(s'.gpr, s'.rob, i - 1, src) == Known(s.gpr, s.rob, i, src) {
      KnownPop(s, s', i, src);
    }
    forall src, op | Tracked(s.gpr, s.rob, i, src, op) ensures Tracked(s'.gpr, s'.rob, i - 1, src, op) {
      TrackedPop(c, s, s', i, src, op);
    }
  }

  lemma SlotPop(c: Core, s: Machine, s': Machine, i: nat)
    requires Inv(c, s) && 0 < i < |s.rob| && IsCompleted(s.rob[0])
    requires SameBuffers(s, s') && RegsPopped(s, s')
    ensures SlotOk(c, s', i - 1)
  {
    KnownPopped(c, s, s', i);
    assert Filed(c, s, i) && Held(c, s, i) && OperandsOk(c, s, i) && Computed(c, s.gpr, s.rob, i) && CountdownOk(s, i) by {
      assert SlotOk(c, s, i);
    }
    assert s'.rob[i - 1] == s.rob[i];
    HeldKept(c, s, i, s', i - 1);
    AddrKept(s.gpr, s.rob, i, s'.gpr, s'.rob, i - 1);
    ComputedKept(c, s.gpr, s.rob, i, s'.gpr, s'.rob, i - 1);
    DataKept(c, s, i, s', i - 1);
  }

  /** A completed entry has left every buffer, so its tag can be reused. */
  lemma CompletedIsOut(c: Core, s: Machine)
    requires Inv(c, s) && s.rob != [] && IsCompleted(s.rob[0])
    ensures s.rob[0].id !in s.station && s.rob[0].id !in s.loadBuf && s.rob[0].id !in s.addressUnit
  {
    assert SlotOk(c, s, 0);
  }

  lemma RenamesPop(c: Core, s: Machine, s': Machine)
    requires Inv(c, s) && s.rob != [] && IsCompleted(s.rob[0])
    requires s'.rob == s.rob[1..]
    requires s'.renames == if s.renames[s.rob[0].rd] == Some(s.rob[0].id) then s.renames[s.rob[0].rd := None] else s.renames
    ensures RenamesOk(s')
  {
    forall r: Reg
      ensures s'.renames[r] ==
        if r == 0 || LastWriter(s'.rob, |s'.rob|, r) < 0 then None else Some(s'.rob[LastWriter(s'.rob, |s'.rob|, r)].id)
    {
      LastWriterPop(s.rob, |s.rob|, r);
      var j := LastWriter(s.rob, |s.rob|, r);
      if j > 0 { assert s.rob[0].id != s.rob[j].id; }
    }
  }

  lemma RetiredRenames(c: Core, s: Machine, s': Machine)
    requires Inv(c, s) && EcallsPlain(c) && s.rob != [] && IsCompleted(s.rob[0])
    requires Retire(c, s.(rob := s.rob[1..]), s.rob[0]) == Retired(s')
    ensures RenamesOk(s')
  {
    var e := s.rob[0];
    assert SlotOk(c, s, 0);
    assert s.renames[0] == None;
    RenamesPop(c, s, s');
  }

  lemma KeysPop(c: Core, s: Machine, s': Machine)
    requires Inv(c, s) && s.rob != [] && IsCompleted(s.rob[0])
    requires s'.rob == s.rob[1..] && s'.station == s.station && s'.loadBuf == s.loadBuf && s'.addressUnit == s.addressUnit
    ensures KeysLive(s')
  {
    CompletedIsOut(c, s);
    forall t | t in s.station || t in s.loadBuf || t in s.addressUnit ensures Live(s', t) {
      var i :| 0 <= i < |s.rob| && s.rob[i].id == t;
      assert s'.rob[i - 1].id == t;
    }
  }

  lemma PathPop(s: Machine, s': Machine)
    requires s.rob != [] && s'.rob == s.rob[1..] && s'.pc == s.pc
    requires Distinct(s.rob) && Serial(s) && PathLinked(s)
    ensures Distinct(s'.rob) && Serial(s') && PathLinked(s')
  {
    assert forall i :: 0 <= i < |s'.rob| ==> s'.rob[i] == s.rob[i + 1];
  }

  /** The parts of the state that retiring does not touch. */
  ghost predicate SameBuffers(s: Machine, s': Machine) {
    && s.rob != [] && s'.rob == s.rob[1..] && s'.pc == s.pc
    && s'.station == s.station && s'.loadBuf == s.loadBuf && s'.addressUnit == s.addressUnit
    && s.predictor.Keys <= s'.predictor.Keys
  }

  lemma RetiredFrame(c: Core, s: Machine, s': Machine)
    requires s.rob != [] && Retire(c, s.(rob := s.rob[1..]), s.rob[0]) == Retired(s')
    ensures SameBuffers(s, s')
  {
  }

  lemma SlotsPop(c: Core, s: Machine, s': Machine)
    requires Inv(c, s) && s.rob != [] && IsCompleted(s.rob[0])
    requires SameBuffers(s, s') && (|s.rob| > 1 ==> RegsPopped(s, s'))
    ensures forall i :: 0 <= i < |s'.rob| ==> SlotOk(c, s', i)
  {
    forall i | 0 <= i < |s'.rob| ensures SlotOk(c, s', i) {
      SlotPop(c, s, s', i + 1);
    }
  }

  /** Retiring the head without a cancellation. */
  lemma RetiredInv(c: Core, s: Machine, s': Machine)
    requires Inv(c, s) && EcallsPlain(c)
    requires s.rob != [] && IsCompleted(s.rob[0])
    requires Retire(c, s.(rob := s.rob[1..]), s.rob[0]) == Retired(s')
    ensures Inv(c, s')
  {
    RetiredFrame(c, s, s');
    RetiredRenames(c, s, s');
    PathPop(s, s');
    KeysPop(c, s, s');
    if |s.rob| > 1 { RetiredRegs(c, s, s'); }
    SlotsPop(c, s, s');
  }

  lemma CommitInv(c: Core, s: Machine)
    requires Inv(c, s) && EcallsPlain(c)
    ensures Commit(c, s).outcome.Running? ==>
      && Inv(c, Commit(c, s).outcome.s)
      && (Commit(c, s).outcome.s.rob != [] ==> !IsCompleted(Commit(c, s).outcome.s.rob[0]))
    decreases |s.rob|
  {
    if s.rob != [] && IsCompleted(s.rob[0]) {
      var r := Retire(c, s.(rob := s.rob[1..]), s.rob[0]);
      if r.Retired? {
        RetiredInv(c, s, r.s);
        CommitInv(c, r.s);
        assert r.s.(rob := s.rob[1..]) == r.s;
      }
    }
  }
}
