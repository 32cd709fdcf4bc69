/** Broadcasting results keeps the invariant. */
module InvariantWriteResult {
  import opened Words
  import opened Instructions
  import opened Isa
  import opened OutOfOrder
  import opened Invariant

  lemma WriteResultShape(s: Machine)
    ensures SameShape(s.rob, WriteResult(s).rob)
    ensures forall i :: 0 <= i < |s.rob| ==> WriteResult(s).rob[i] == WakeRob(s.rob[i], Jobs(s))
  {
  }

  /** A broadcast tag belongs to an entry that has no result yet. */
  lemma JobsAreFinished(c: Core, s: Machine, i: nat)
    requires Inv(c, s) && i < |s.rob|
    ensures s.rob[i].id in Jobs(s) ==> s.rob[i].regValue.None?
    ensures s.rob[i].id in Jobs(s) && UsesAlu(s.rob[i].inst) ==>
      s.rob[i].id in s.station && Jobs(s)[s.rob[i].id] == Job(s.station[s.rob[i].id].value, None)
    ensures s.rob[i].id in Jobs(s) && !UsesAlu(s.rob[i].inst) ==>
      ReadsMem(s.rob[i].inst) && s.rob[i].id in s.loadBuf && s.loadBuf[s.rob[i].id].status.Finished?
      && Jobs(s)[s.rob[i].id] == if s.loadBuf[s.rob[i].id].value.Ok? then Job(s.loadBuf[s.rob[i].id].value.value, None)
                                 else Job(0, Some(s.loadBuf[s.rob[i].id].value.error))
  {
    assert SlotOk(c, s, i);
  }

  /** What is known stays known. */
  lemma KnownWake(c: Core, s: Machine, i: nat, src: Source)
    requires Inv(c, s) && i <= |s.rob| && Known(s.gpr, s.rob, i, src).Some?
    ensures Known(s.gpr, WriteResult(s).rob, i, src) == Known(s.gpr, s.rob, i, src)
  {
    if src.FromReg? {
      WriterWake(c, s, i, src.r);
      if LastWriter(s.rob, i, src.r) >= 0 { JobsAreFinished(c, s, LastWriter(s.rob, i, src.r)); }
    }
  }

  lemma WriterWake(c: Core, s: Machine, i: nat, r: Reg)
    requires Inv(c, s) && i <= |s.rob|
    ensures LastWriter(WriteResult(s).rob, i, r) == LastWriter(s.rob, i, r)
    ensures var j := LastWriter(s.rob, i, r); j >= 0 ==> WriteResult(s).rob[j] == WakeRob(s.rob[j], Jobs(s))
  {
    WriteResultShape(s);
    LastWriterShape(s.rob, WriteResult(s).rob, i, r);
  }

  lemma TagWoken(g: Regs, p: seq<RobEntry>, q: seq<RobEntry>, i: nat, src: Source, t: Tag, jobs: map<Tag, Job>)
    requires i <= |p| && i <= |q| && Tracked(g, p, i, src, Rob(t)) && LastWriter(q, i, src.r) == LastWriter(p, i, src.r)
    requires q[LastWriter(p, i, src.r)].regValue == if t in jobs then Some(jobs[t].value) else None
    requires q[LastWriter(p, i, src.r)].id == t
    ensures Tracked(g, q, i, src, Wake(Rob(t), jobs))
  {
  }

  /** An operand whose tag is broadcast receives the value its writer does; any other tag still has
      no result. */
  lemma TrackedWake(c: Core, s: Machine, i: nat, src: Source, op: Operand)
    requires Inv(c, s) && i < |s.rob|
    requires Tracked(s.gpr, s.rob, i, src, op)
    ensures Tracked(s.gpr, WriteResult(s).rob, i, src, Wake(op, Jobs(s)))
    ensures Tracked(s.gpr, WriteResult(s).rob, i, src, Wake(op, Jobs(s) - {s.rob[i].id}))
  {
    if op.Rob? {
      WriterWake(c, s, i, src.r);
      assert s.rob[LastWriter(s.rob, i, src.r)].id != s.rob[i].id;
      TagWoken(s.gpr, s.rob, WriteResult(s).rob, i, src, op.tag, Jobs(s));
      TagWoken(s.gpr, s.rob, WriteResult(s).rob, i, src, op.tag, Jobs(s) - {s.rob[i].id});
    } else {
      KnownWake(c, s, i, src);
    }
  }

  lemma StationWake(c: Core, s: Machine, i: nat)
    requires Inv(c, s) && i < |s.rob|
    requires s.rob[i].id in WriteResult(s).station
    ensures StationOk(c, s.gpr, WriteResult(s).rob, i, WriteResult(s).station[s.rob[i].id])
  {
    var t := s.rob[i].id;
    assert SlotOk(c, s, i);
    var q := s.station[t];
    WriteResultShape(s);
    TrackedWake(c, s, i, Src1(s.rob[i].pc, s.rob[i].inst), q.op1);
    TrackedWake(c, s, i, Src2(s.rob[i].inst), q.op2);
    assert WriteResult(s).station[t] == WakeRs(q, Jobs(s));
  }

  lemma AddressWake(c: Core, s: Machine, i: nat)
    requires Inv(c, s) && i < |s.rob|
    requires s.rob[i].id in WriteResult(s).addressUnit
    ensures AddressOk(s.gpr, WriteResult(s).rob, i, WriteResult(s).addressUnit[s.rob[i].id])
  {
    assert SlotOk(c, s, i);
    WriteResultShape(s);
    TrackedWake(c, s, i, FromReg(Rs1(s.rob[i].inst)), s.addressUnit[s.rob[i].id].op1);
  }

  /** A load's or atomic's progress is not changed by a broadcast. */
  lemma ProgressWake(c: Core, s: Machine, i: nat)
    requires Inv(c, s) && i < |s.rob| && ReadsMem(s.rob[i].inst)
    ensures var e, e' := s.rob[i], WriteResult(s).rob[i];
      && HasRead(WriteResult(s), e') == HasRead(s, e) && HasTrapped(WriteResult(s), e') == HasTrapped(s, e)
      && (HasRead(s, e) && !HasTrapped(s, e) ==> ReadWord(WriteResult(s), e') == ReadWord(s, e))
  {
    WriteResultShape(s);
    assert Filed(c, s, i) by { assert SlotOk(c, s, i); }
    JobsAreFinished(c, s, i);
  }

  lemma SummedStays(g: Regs, p: seq<RobEntry>, q: seq<RobEntry>, i: nat, addr: Operand)
    requires i < |p| && i < |q| && p[i].inst == q[i].inst && Summed(g, p, i, addr)
    requires var src := FromReg(Rs1(p[i].inst)); Known(g, p, i, src).Some? ==> Known(g, q, i, src) == Known(g, p, i, src)
    ensures Summed(g, q, i, addr)
  {
  }

  lemma AddrWake(c: Core, s: Machine, i: nat)
    requires Inv(c, s) && i < |s.rob|
    ensures AddrOk(s.gpr, WriteResult(s).rob, i)
  {
    var e := s.rob[i];
    assert AddrOk(s.gpr, s.rob, i) by { assert SlotOk(c, s, i); }
    WriteResultShape(s);
    if e.inst.opcode.Amo? {
      TrackedWake(c, s, i, FromReg(Rs1(e.inst)), e.addr);
    } else {
      if Known(s.gpr, s.rob, i, FromReg(Rs1(e.inst))).Some? { KnownWake(c, s, i, FromReg(Rs1(e.inst))); }
      SummedStays(s.gpr, s.rob, WriteResult(s).rob, i, e.addr);
    }
  }

  lemma DataWake(c: Core, s: Machine, i: nat)
    requires Inv(c, s) && i < |s.rob|
    ensures DataOk(c, WriteResult(s), i)
  {
    var e := s.rob[i];
    assert DataOk(c, s, i) by { assert SlotOk(c, s, i); }
    WriteResultShape(s);
    if ReadsMem(e.inst) { ProgressWake(c, s, i); }
    if e.inst.opcode.Store? || e.inst.opcode.Amo? {
      if ReadsMem(e.inst) && HasRead(s, e) && !HasTrapped(s, e) {
        KnownWake(c, s, i, FromReg(Rs2(e.inst)));
      } else {
        TrackedWake(c, s, i, FromReg(Rs2(e.inst)), e.memValue);
      }
    }
  }

  lemma ComputedWake(c: Core, s: Machine, i: nat)
    requires Inv(c, s) && i < |s.rob|
    ensures Computed(c, s.gpr, WriteResult(s).rob, i)
  {
    var e := s.rob[i];
    assert Held(c, s, i) && Computed(c, s.gpr, s.rob, i) by { assert SlotOk(c, s, i); }
    WriteResultShape(s);
    JobsAreFinished(c, s, i);
    if UsesAlu(e.inst) && WriteResult(s).rob[i].regValue.Some? {
      KnownWake(c, s, i, Src1(e.pc, e.inst));
      KnownWake(c, s, i, Src2(e.inst));
    }
  }

  lemma CountdownWake(c: Core, s: Machine, i: nat)
    requires Inv(c, s) && i < |s.rob|
    ensures CountdownOk(WriteResult(s), i)
    ensures Written(WriteResult(s).rob[i]) <==> Written(s.rob[i])
  {
    assert SlotOk(c, s, i);
    JobsAreFinished(c, s, i);
    WriteResultShape(s);
  }

  /** The outcome of a branch is 0 or 1. */
  lemma BranchOutcome(c: Core, g: Regs, rob: seq<RobEntry>, i: nat, q: RsEntry)
    requires Sound(c) && i < |rob| && StationOk(c, g, rob, i, q) && q.status.Finished? && rob[i].inst.opcode.Branch?
    ensures q.value <= 1
  {
    assert AluResult(c, q) == Some(q.value);
  }

  lemma BranchJob(c: Core, s: Machine, i: nat)
    requires Inv(c, s) && Sound(c) && i < |s.rob| && s.rob[i].inst.opcode.Branch? && s.rob[i].id in Jobs(s)
    ensures Jobs(s)[s.rob[i].id].value <= 1
  {
    JobsAreFinished(c, s, i);
    var q := s.station[s.rob[i].id];
    assert StationOk(c, s.gpr, s.rob, i, q) by { assert SlotOk(c, s, i); }
    BranchOutcome(c, s.gpr, s.rob, i, q);
  }

  /** The buffers an entry is left in. */
  lemma KeysLeft(c: Core, s: Machine, i: nat)
    requires Inv(c, s) && i < |s.rob|
    ensures var e, s' := WriteResult(s).rob[i], WriteResult(s);
      && (e.id in s'.station <==> UsesAlu(e.inst) && e.regValue.None?)
      && (e.id in s'.loadBuf <==> ReadsMem(e.inst) && e.regValue.None?)
      && (e.id in s'.addressUnit <==> e.id in s.addressUnit)
  {
    assert Filed(c, s, i) by { assert SlotOk(c, s, i); }
    WriteResultShape(s);
    JobsAreFinished(c, s, i);
  }

  lemma AddressKeyLeft(c: Core, s: Machine, i: nat)
    requires Inv(c, s) && i < |s.rob|
    ensures var e, s' := WriteResult(s).rob[i], WriteResult(s);
      e.id in s'.addressUnit <==> UsesAddressUnit(e.inst) && !e.addr.Value?
  {
    assert Filed(c, s, i) && AddrOk(s.gpr, s.rob, i) by { assert SlotOk(c, s, i); }
    WriteResultShape(s);
  }

  lemma FiledWake(c: Core, s: Machine, i: nat)
    requires Inv(c, s) && Sound(c) && i < |s.rob|
    ensures Filed(c, WriteResult(s), i)
  {
    WriteResultShape(s);
    KeysLeft(c, s, i);
    AddressKeyLeft(c, s, i);
    var e, e' := s.rob[i], WriteResult(s).rob[i];
    assert e'.inst == Fetch(c, e'.pc) && e'.rd == Rd(e'.inst) && (e.inst.opcode.Store? ==> e.regValue.None?)
      && (e.inst.opcode.Branch? ==> e.pc in s.predictor && (e.regValue.Some? ==> e.regValue.value <= 1)) by {
      assert SlotOk(c, s, i);
    }
    if e.id in Jobs(s) {
      JobsAreFinished(c, s, i);
      if e.inst.opcode.Branch? { BranchJob(c, s, i); }
    }
  }

  lemma SlotWake(c: Core, s: Machine, i: nat)
    requires Inv(c, s) && Sound(c) && i < |s.rob|
    ensures SlotOk(c, WriteResult(s), i)
  {
    assert s.rob[i].id in s.loadBuf ==> s.loadBuf[s.rob[i].id].robIndex == s.rob[i].id by { assert SlotOk(c, s, i); }
    if s.rob[i].id in WriteResult(s).station { StationWake(c, s, i); }
    if s.rob[i].id in WriteResult(s).addressUnit { AddressWake(c, s, i); }
    FiledWake(c, s, i);
    AddrWake(c, s, i);
    DataWake(c, s, i);
    ComputedWake(c, s, i);
    CountdownWake(c, s, i);
    WriteResultShape(s);
  }

  lemma KeysWake(s: Machine)
    requires KeysLive(s) && Distinct(s.rob)
    ensures KeysLive(WriteResult(s)) && Distinct(WriteResult(s).rob)
  {
    WriteResultShape(s);
    forall t | Live(s, t) ensures Live(WriteResult(s), t) {
      var i :| 0 <= i < |s.rob| && s.rob[i].id == t;
      assert WriteResult(s).rob[i].id == t;
    }
  }

  /** Broadcasts change no jump target and uncomplete no jump. */
  lemma FollowedWake(s: Machine, i: nat)
    requires i < |s.rob| && AddrOk(s.gpr, s.rob, i)
    ensures Followed(WriteResult(s).rob[i]) == Followed(s.rob[i])
    ensures IsCompleted(s.rob[i]) && s.rob[i].inst.opcode.Jalr? ==> IsCompleted(WriteResult(s).rob[i])
  {
    WriteResultShape(s);
  }

  lemma SerialWake(c: Core, s: Machine)
    requires Inv(c, s)
    ensures Serial(WriteResult(s)) && PathLinked(WriteResult(s))
  {
    var s' := WriteResult(s);
    WriteResultShape(s);
    forall i | 0 <= i < |s.rob|
      ensures Followed(s'.rob[i]) == Followed(s.rob[i])
      ensures IsCompleted(s.rob[i]) && s.rob[i].inst.opcode.Jalr? ==> IsCompleted(s'.rob[i])
    {
      assert AddrOk(s.gpr, s.rob, i) by { assert SlotOk(c, s, i); }
      FollowedWake(s, i);
    }
  }

  lemma RenamesWake(s: Machine)
    requires RenamesOk(s)
    ensures RenamesOk(WriteResult(s))
  {
    WriteResultShape(s);
    forall r: Reg ensures LastWriter(s.rob, |s.rob|, r) == LastWriter(WriteResult(s).rob, |s.rob|, r) {
      LastWriterShape(s.rob, WriteResult(s).rob, |s.rob|, r);
    }
  }

  lemma WriteResultInv(c: Core, s: Machine)
    requires Inv(c, s) && Sound(c)
    ensures Inv(c, WriteResult(s))
  {
    forall i | 0 <= i < |s.rob| ensures SlotOk(c, WriteResult(s), i) {
      SlotWake(c, s, i);
    }
    KeysWake(s);
    SerialWake(c, s);
    RenamesWake(s);
  }
}
