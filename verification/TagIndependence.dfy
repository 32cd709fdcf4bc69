/** The tags do not matter: whichever free addresses the allocator returns, reused or not, the core
    computes the same things in the same clocks. */
module TagIndependence {
  import opened Words
  import opened Instructions
  import opened Isa
  import opened OutOfOrder
  import opened Invariant
  import opened InvariantCommit
  import opened InvariantExecute
  import opened InvariantIssue
  import opened InvariantWriteResult
  import opened Refinement
  import opened Runs
  import BranchPrediction
  import ByteMemory

  // ---- The state without its tags ----

  function Blind(op: Operand): Operand {
    if op.Rob? then Rob(0) else op
  }

  function BlindEntry(e: RobEntry): RobEntry {
    e.(id := 0, addr := Blind(e.addr), memValue := Blind(e.memValue))
  }

  function BlindRs(e: RsEntry): RsEntry {
    e.(robIndex := 0, op1 := Blind(e.op1), op2 := Blind(e.op2))
  }

  /** An instruction with what the units hold for it. */
  datatype Slot = Slot(entry: RobEntry, station: Option<RsEntry>, address: Option<RsEntry>, load: Option<LoadEntry>)

  function View(s: Machine, i: nat): Slot
    requires i < |s.rob|
  {
    var t := s.rob[i].id;
    Slot(BlindEntry(s.rob[i]),
         if t in s.station then Some(BlindRs(s.station[t])) else None,
         if t in s.addressUnit then Some(BlindRs(s.addressUnit[t])) else None,
         if t in s.loadBuf then Some(s.loadBuf[t].(robIndex := 0)) else None)
  }

  ghost predicate SameViews(s: Machine, t: Machine) {
    |s.rob| == |t.rob| && forall i {:trigger View(s, i)} {:trigger View(t, i)} :: 0 <= i < |s.rob| ==> View(s, i) == View(t, i)
  }

  /** The parts of the state that hold no tags. */
  ghost predicate SameTagless(s: Machine, t: Machine) {
    s.pc == t.pc && s.gpr == t.gpr && s.mem == t.mem && s.predictor == t.predictor
  }

  /** Equal up to the choice of tags. */
  ghost predicate Alike(s: Machine, t: Machine) {
    SameTagless(s, t) && SameViews(s, t)
  }

  ghost predicate AlikeRob(p: seq<RobEntry>, q: seq<RobEntry>) {
    |p| == |q| && forall i :: 0 <= i < |p| ==> BlindEntry(p[i]) == BlindEntry(q[i])
  }

  /** Both in order, and equal up to tags. */
  ghost predicate Twins(c: Core, s: Machine, t: Machine) {
    Inv(c, s) && Inv(c, t) && Alike(s, t)
  }

  lemma EntriesAlike(s: Machine, t: Machine)
    requires SameViews(s, t)
    ensures AlikeRob(s.rob, t.rob)
  {
    forall i | 0 <= i < |s.rob| ensures BlindEntry(s.rob[i]) == BlindEntry(t.rob[i]) {
      assert View(s, i) == View(t, i);
    }
  }

  lemma {:induction false} WriterAlike(p: seq<RobEntry>, q: seq<RobEntry>, i: nat, r: Reg)
    requires AlikeRob(p, q) && i <= |p|
    ensures LastWriter(p, i, r) == LastWriter(q, i, r)
  {
    if i > 0 {
      assert BlindEntry(p[i - 1]) == BlindEntry(q[i - 1]);
      WriterAlike(p, q, i - 1, r);
    }
  }

  // ---- Commit ----

  lemma SameFields(e: RobEntry, d: RobEntry)
    requires BlindEntry(e) == BlindEntry(d)
    ensures e.pc == d.pc && e.inst == d.inst && e.regValue == d.regValue && e.rd == d.rd && e.branchPred == d.branchPred
    ensures e.memException == d.memException && e.memRemCycle == d.memRemCycle
    ensures Blind(e.addr) == Blind(d.addr) && Blind(e.memValue) == Blind(d.memValue)
    ensures IsCompleted(e) == IsCompleted(d)
  {
  }

  lemma SameRs(p: RsEntry, q: RsEntry)
    requires BlindRs(p) == BlindRs(q)
    ensures p.status == q.status && p.inst == q.inst && p.value == q.value && p.remainingClock == q.remainingClock
    ensures IsReady(p) == IsReady(q) && (IsReady(p) ==> p.op1 == q.op1 && p.op2 == q.op2)
    ensures Blind(p.op1) == Blind(q.op1) && Blind(p.op2) == Blind(q.op2)
  {
  }

  /** Two slots with the same view have the same units at work, in the same state. */
  lemma SameUnits(s: Machine, t: Machine, i: nat)
    requires i < |s.rob| && i < |t.rob| && View(s, i) == View(t, i)
    ensures BlindEntry(s.rob[i]) == BlindEntry(t.rob[i])
    ensures var x, y := s.rob[i].id, t.rob[i].id;
      && (x in s.station <==> y in t.station) && (x in s.addressUnit <==> y in t.addressUnit) && (x in s.loadBuf <==> y in t.loadBuf)
      && (x in s.station ==> BlindRs(s.station[x]) == BlindRs(t.station[y]))
      && (x in s.addressUnit ==> BlindRs(s.addressUnit[x]) == BlindRs(t.addressUnit[y]))
      && (x in s.loadBuf ==> s.loadBuf[x].status == t.loadBuf[y].status && s.loadBuf[x].value == t.loadBuf[y].value)
  {
  }

  /** What the two retirements have in common. */
  ghost predicate SameRetirement(x: Retirement, y: Retirement) {
    && x.Faulted? == y.Faulted? && x.Cancelled? == y.Cancelled?
    && (if x.Faulted? then x == y else SameTagless(x.s, y.s))
    && (x.Cancelled? ==> x.s.rob == [] && y.s.rob == [])
  }

  lemma RetireBranchSame(c: Core, s: Machine, t: Machine, e: RobEntry, d: RobEntry)
    requires e.pc == d.pc && e.inst == d.inst && e.regValue == d.regValue && e.branchPred == d.branchPred
    requires e.memException.None? && d.memException.None? && e.inst.opcode.Branch? && SameTagless(s, t)
    ensures SameRetirement(Retire(c, s, e), Retire(c, t, d))
  {
  }

  lemma RetireEcallSame(c: Core, s: Machine, t: Machine, e: RobEntry, d: RobEntry)
    requires e.inst == d.inst && IsEcall(e.inst) && e.memException.None? && d.memException.None? && SameTagless(s, t)
    ensures SameRetirement(Retire(c, s, e), Retire(c, t, d))
  {
  }

  lemma RetireOtherSame(c: Core, s: Machine, t: Machine, e: RobEntry, d: RobEntry)
    requires e.inst == d.inst && e.regValue == d.regValue && e.rd == d.rd && !e.inst.opcode.Branch? && !IsEcall(e.inst)
    requires e.memException.None? && d.memException.None? && SameTagless(s, t)
    ensures SameRetirement(Retire(c, s, e), Retire(c, t, d))
  {
  }

  /** Retiring looks at no tag except to free the rename table. */
  lemma RetireSame(c: Core, s: Machine, t: Machine, e: RobEntry, d: RobEntry)
    requires BlindEntry(e) == BlindEntry(d) && SameTagless(s, t)
    ensures SameRetirement(Retire(c, s, e), Retire(c, t, d))
  {
    SameFields(e, d);
    if e.memException.None? {
      if e.inst.opcode.Branch? {
        RetireBranchSame(c, s, t, e, d);
      } else if IsEcall(e.inst) {
        RetireEcallSame(c, s, t, e, d);
      } else {
        RetireOtherSame(c, s, t, e, d);
      }
    }
  }

  lemma PoppedAlike(s: Machine, t: Machine, s': Machine, t': Machine)
    requires SameViews(s, t) && SameBuffers(s, s') && SameBuffers(t, t')
    ensures SameViews(s', t')
  {
    forall i | 0 <= i < |s'.rob| ensures View(s', i) == View(t', i) {
      assert View(s, i + 1) == View(t, i + 1);
      assert s'.rob[i] == s.rob[i + 1] && t'.rob[i] == t.rob[i + 1];
    }
  }

  lemma RetireAlike(c: Core, s: Machine, t: Machine)
    requires Twins(c, s, t) && EcallsPlain(c) && s.rob != [] && IsCompleted(s.rob[0]) && IsCompleted(t.rob[0])
    ensures var x, y := Retire(c, s.(rob := s.rob[1..]), s.rob[0]), Retire(c, t.(rob := t.rob[1..]), t.rob[0]);
      SameRetirement(x, y) && (x.Retired? ==> Twins(c, x.s, y.s) && x.s.rob == s.rob[1..] && y.s.rob == t.rob[1..])
  {
    EntriesAlike(s, t);
    assert BlindEntry(s.rob[0]) == BlindEntry(t.rob[0]);
    RetireSame(c, s.(rob := s.rob[1..]), t.(rob := t.rob[1..]), s.rob[0], t.rob[0]);
    var x, y := Retire(c, s.(rob := s.rob[1..]), s.rob[0]), Retire(c, t.(rob := t.rob[1..]), t.rob[0]);
    if x.Retired? {
      RetiredInv(c, s, x.s);
      RetiredInv(c, t, y.s);
      RetiredFrame(c, s, x.s);
      RetiredFrame(c, t, y.s);
      PoppedAlike(s, t, x.s, y.s);
    }
  }

  ghost predicate TwinOutcomes(c: Core, x: Outcome, y: Outcome) {
    if x.Panic? then y == x else y.Running? && Twins(c, x.s, y.s)
  }

  /** Committing the head of one buffer and of the other. */
  lemma {:induction false} CommitHead(c: Core, s: Machine, t: Machine)
    requires Twins(c, s, t) && EcallsPlain(c) && s.rob != [] && IsCompleted(s.rob[0]) && IsCompleted(t.rob[0])
    ensures SameCommit(Commit(c, s), Commit(c, t))
    decreases |s.rob|, 0
  {
    EntriesAlike(s, t);
    RetireAlike(c, s, t);
    var x, y := Retire(c, s.(rob := s.rob[1..]), s.rob[0]), Retire(c, t.(rob := t.rob[1..]), t.rob[0]);
    if x.Retired? {
      assert x.s.(rob := s.rob[1..]) == x.s && y.s.(rob := t.rob[1..]) == y.s;
      CommitSame(c, x.s, y.s);
    }
  }

  ghost predicate SameCommit(x: Committed, y: Committed) {
    && AlikeRob(x.retired, y.retired)
    && if x.outcome.Panic? then y.outcome == x.outcome else y.outcome.Running? && Alike(x.outcome.s, y.outcome.s)
  }

  lemma {:induction false} CommitSame(c: Core, s: Machine, t: Machine)
    requires Twins(c, s, t) && EcallsPlain(c)
    ensures SameCommit(Commit(c, s), Commit(c, t))
    decreases |s.rob|
  {
    EntriesAlike(s, t);
    if s.rob != [] {
      SameFields(s.rob[0], t.rob[0]);
      if IsCompleted(s.rob[0]) { CommitHead(c, s, t); }
    }
  }

  lemma CommitAlike(c: Core, s: Machine, t: Machine)
    requires Twins(c, s, t) && EcallsPlain(c)
    ensures AlikeRob(Commit(c, s).retired, Commit(c, t).retired)
    ensures TwinOutcomes(c, Commit(c, s).outcome, Commit(c, t).outcome)
  {
    CommitSame(c, s, t);
    CommitInv(c, s);
    CommitInv(c, t);
  }

  // ---- Write result ----

  /** Operands captured for the same source, equal up to tags, wait for entries at the same position. */
  lemma SameWaiting(g: Regs, p: seq<RobEntry>, q: seq<RobEntry>, i: nat, src: Source, x: Operand, y: Operand)
    requires AlikeRob(p, q) && i <= |p| && Tracked(g, p, i, src, x) && Tracked(g, q, i, src, y) && Blind(x) == Blind(y)
    ensures if x.Rob? then y.Rob? && exists j :: 0 <= j < i && x.tag == p[j].id && y.tag == q[j].id else x == y
  {
    if x.Rob? { WriterAlike(p, q, i, src.r); }
  }

  /** Entries at the same position finish together, with the same result. */
  lemma JobAlike(c: Core, s: Machine, t: Machine, i: nat)
    requires Twins(c, s, t) && i < |s.rob|
    ensures s.rob[i].id in Jobs(s) <==> t.rob[i].id in Jobs(t)
    ensures s.rob[i].id in Jobs(s) ==> Jobs(s)[s.rob[i].id] == Jobs(t)[t.rob[i].id]
  {
    assert View(s, i) == View(t, i);
    assert SlotOk(c, s, i) && SlotOk(c, t, i);
    JobsAreFinished(c, s, i);
    JobsAreFinished(c, t, i);
  }

  lemma WakeSame(x: Operand, y: Operand, jobs: map<Tag, Job>, results: map<Tag, Job>)
    requires Blind(x) == Blind(y)
    requires x.Rob? ==> (x.tag in jobs <==> y.tag in results) && (x.tag in jobs ==> jobs[x.tag] == results[y.tag])
    ensures Blind(Wake(x, jobs)) == Blind(Wake(y, results))
  {
  }

  lemma WakeBoth(x: Operand, y: Operand, jobs: map<Tag, Job>, results: map<Tag, Job>, own: Tag, own': Tag)
    requires Blind(x) == Blind(y)
    requires x.Rob? ==> x.tag != own && y.tag != own'
    requires x.Rob? ==> (x.tag in jobs <==> y.tag in results) && (x.tag in jobs ==> jobs[x.tag] == results[y.tag])
    ensures Blind(Wake(x, jobs)) == Blind(Wake(y, results))
    ensures Blind(Wake(x, jobs - {own})) == Blind(Wake(y, results - {own'}))
  {
    WakeSame(x, y, jobs, results);
    WakeSame(x, y, jobs - {own}, results - {own'});
  }

  lemma WakeAlike(c: Core, s: Machine, t: Machine, i: nat, src: Source, x: Operand, y: Operand)
    requires Twins(c, s, t) && i < |s.rob| && Tracked(s.gpr, s.rob, i, src, x) && Tracked(t.gpr, t.rob, i, src, y) && Blind(x) == Blind(y)
    ensures Blind(Wake(x, Jobs(s))) == Blind(Wake(y, Jobs(t)))
    ensures Blind(Wake(x, Jobs(s) - {s.rob[i].id})) == Blind(Wake(y, Jobs(t) - {t.rob[i].id}))
  {
    WaitingSame(c, s, t, i, src, x, y);
    WakeBoth(x, y, Jobs(s), Jobs(t), s.rob[i].id, t.rob[i].id);
  }

  lemma WaitingSame(c: Core, s: Machine, t: Machine, i: nat, src: Source, x: Operand, y: Operand)
    requires Twins(c, s, t) && i < |s.rob| && Tracked(s.gpr, s.rob, i, src, x) && Tracked(t.gpr, t.rob, i, src, y) && Blind(x) == Blind(y)
    ensures x.Rob? ==> x.tag != s.rob[i].id && y.tag != t.rob[i].id
    ensures x.Rob? ==> (x.tag in Jobs(s) <==> y.tag in Jobs(t)) && (x.tag in Jobs(s) ==> Jobs(s)[x.tag] == Jobs(t)[y.tag])
  {
    EntriesAlike(s, t);
    if x.Rob? {
      SameWaiting(s.gpr, s.rob, t.rob, i, src, x, y);
      var j :| 0 <= j < i && x.tag == s.rob[j].id && y.tag == t.rob[j].id;
      JobAlike(c, s, t, j);
    }
  }

  /** Entries take the same result, and the same values for their operands. */
  lemma WakeEntrySame(e: RobEntry, d: RobEntry, jobs: map<Tag, Job>, results: map<Tag, Job>)
    requires BlindEntry(e) == BlindEntry(d)
    requires (e.id in jobs <==> d.id in results) && (e.id in jobs ==> jobs[e.id] == results[d.id])
    requires Blind(Wake(e.addr, jobs - {e.id})) == Blind(Wake(d.addr, results - {d.id}))
    requires Blind(Wake(e.memValue, jobs - {e.id})) == Blind(Wake(d.memValue, results - {d.id}))
    ensures BlindEntry(WakeRob(e, jobs)) == BlindEntry(WakeRob(d, results))
  {
    SameFields(e, d);
  }

  lemma WakeEntryAlike(c: Core, s: Machine, t: Machine, i: nat)
    requires Twins(c, s, t) && i < |s.rob|
    ensures BlindEntry(WakeRob(s.rob[i], Jobs(s))) == BlindEntry(WakeRob(t.rob[i], Jobs(t)))
  {
    WakeOperandsAlike(c, s, t, i);
    JobAlike(c, s, t, i);
    WakeEntrySame(s.rob[i], t.rob[i], Jobs(s), Jobs(t));
  }

  lemma WakeOperandsAlike(c: Core, s: Machine, t: Machine, i: nat)
    requires Twins(c, s, t) && i < |s.rob|
    ensures var e, d := s.rob[i], t.rob[i];
      && BlindEntry(e) == BlindEntry(d)
      && Blind(Wake(e.addr, Jobs(s) - {e.id})) == Blind(Wake(d.addr, Jobs(t) - {d.id}))
      && Blind(Wake(e.memValue, Jobs(s) - {e.id})) == Blind(Wake(d.memValue, Jobs(t) - {d.id}))
  {
    var e, d := s.rob[i], t.rob[i];
    assert View(s, i) == View(t, i);
    SameFields(e, d);
    assert OperandsOk(c, s, i) && OperandsOk(c, t, i) by { assert SlotOk(c, s, i) && SlotOk(c, t, i); }
    if e.addr.Rob? { WakeAlike(c, s, t, i, FromReg(Rs1(e.inst)), e.addr, d.addr); }
    if e.memValue.Rob? { WakeAlike(c, s, t, i, FromReg(Rs2(e.inst)), e.memValue, d.memValue); }
  }

  lemma WakeStationAlike(c: Core, s: Machine, t: Machine, i: nat)
    requires Twins(c, s, t) && i < |s.rob| && s.rob[i].id in s.station && t.rob[i].id in t.station
    ensures BlindRs(WakeRs(s.station[s.rob[i].id], Jobs(s))) == BlindRs(WakeRs(t.station[t.rob[i].id], Jobs(t)))
  {
    var e, d := s.rob[i], t.rob[i];
    assert View(s, i) == View(t, i);
    SameFields(e, d);
    assert Held(c, s, i) && Held(c, t, i) by { assert SlotOk(c, s, i) && SlotOk(c, t, i); }
    WakeAlike(c, s, t, i, Src1(e.pc, e.inst), s.station[e.id].op1, t.station[d.id].op1);
    WakeAlike(c, s, t, i, Src2(e.inst), s.station[e.id].op2, t.station[d.id].op2);
  }

  lemma WakeAddressAlike(c: Core, s: Machine, t: Machine, i: nat)
    requires Twins(c, s, t) && i < |s.rob| && s.rob[i].id in s.addressUnit && t.rob[i].id in t.addressUnit
    ensures BlindRs(WakeAddress(s.addressUnit[s.rob[i].id], Jobs(s))) == BlindRs(WakeAddress(t.addressUnit[t.rob[i].id], Jobs(t)))
  {
    var e, d := s.rob[i], t.rob[i];
    assert View(s, i) == View(t, i);
    SameFields(e, d);
    assert Held(c, s, i) && Held(c, t, i) by { assert SlotOk(c, s, i) && SlotOk(c, t, i); }
    WakeAlike(c, s, t, i, FromReg(Rs1(e.inst)), s.addressUnit[e.id].op1, t.addressUnit[d.id].op1);
  }

  lemma WriteViewAlike(c: Core, s: Machine, t: Machine, i: nat)
    requires Twins(c, s, t) && i < |s.rob|
    ensures |WriteResult(s).rob| == |WriteResult(t).rob| == |s.rob| && View(WriteResult(s), i) == View(WriteResult(t), i)
  {
    WriteResultShape(s);
    WriteResultShape(t);
    assert View(s, i) == View(t, i);
    WakeEntryAlike(c, s, t, i);
    if s.rob[i].id in s.station { WakeStationAlike(c, s, t, i); }
    if s.rob[i].id in s.addressUnit { WakeAddressAlike(c, s, t, i); }
  }

  lemma WriteAlike(c: Core, s: Machine, t: Machine)
    requires Twins(c, s, t) && Sound(c)
    ensures Twins(c, WriteResult(s), WriteResult(t))
  {
    WriteResultInv(c, s);
    WriteResultInv(c, t);
    WriteResultShape(s);
    WriteResultShape(t);
    forall i | 0 <= i < |s.rob| ensures View(WriteResult(s), i) == View(WriteResult(t), i) {
      WriteViewAlike(c, s, t, i);
    }
  }

  // ---- Execute ----

  lemma AddressSame(s: Machine, t: Machine, i: nat)
    requires SameViews(s, t) && i < |s.rob|
    ensures AddressReady(s, s.rob[i].id) <==> AddressReady(t, t.rob[i].id)
    ensures AddressReady(s, s.rob[i].id) ==>
      Sum(s.addressUnit[s.rob[i].id]) == Sum(t.addressUnit[t.rob[i].id])
      && s.addressUnit[s.rob[i].id].inst == t.addressUnit[t.rob[i].id].inst
  {
    assert View(s, i) == View(t, i);
    SameUnits(s, t, i);
    if s.rob[i].id in s.addressUnit { SameRs(s.addressUnit[s.rob[i].id], t.addressUnit[t.rob[i].id]); }
  }

  lemma AddressViewAlike(s: Machine, t: Machine, i: nat)
    requires SameViews(s, t) && i < |s.rob|
    ensures |AddressPhase(s).rob| == |AddressPhase(t).rob| == |s.rob| && View(AddressPhase(s), i) == View(AddressPhase(t), i)
  {
    AddressShape(s);
    AddressShape(t);
    AddressSame(s, t, i);
    assert View(s, i) == View(t, i);
    SameUnits(s, t, i);
    var s', t' := AddressPhase(s), AddressPhase(t);
    assert BlindEntry(s'.rob[i]) == BlindEntry(t'.rob[i]);
  }

  lemma RedirectAlike(s: Machine, t: Machine)
    requires SameViews(s, t)
    ensures Redirect(s) == Redirect(t)
  {
    if s.rob != [] { AddressSame(s, t, |s.rob| - 1); }
  }

  lemma AddressAlike(c: Core, s: Machine, t: Machine)
    requires Twins(c, s, t)
    ensures Twins(c, AddressPhase(s), AddressPhase(t))
  {
    AddressInv(c, s);
    AddressInv(c, t);
    RedirectAlike(s, t);
    AddressViewsAlike(s, t);
  }

  lemma AddressViewsAlike(s: Machine, t: Machine)
    requires SameViews(s, t)
    ensures SameViews(AddressPhase(s), AddressPhase(t))
  {
    AddressShape(s);
    AddressShape(t);
    forall i | 0 <= i < |s.rob| ensures View(AddressPhase(s), i) == View(AddressPhase(t), i) {
      AddressViewAlike(s, t, i);
    }
  }

  /** The load gate looks at no tag. */
  lemma GateAlike(s: Machine, t: Machine, i: nat)
    requires SameViews(s, t) && i < |s.rob|
    ensures s.rob[i].id in s.loadBuf <==> t.rob[i].id in t.loadBuf
    ensures s.rob[i].id in s.loadBuf ==>
      (GateOpen(s.rob, i, s.loadBuf[s.rob[i].id]) <==> GateOpen(t.rob, i, t.loadBuf[t.rob[i].id]))
  {
    assert View(s, i) == View(t, i);
    if s.rob[i].addr.Value? {
      forall j | 0 <= j < i ensures Blocks(s.rob[j], s.rob[i].addr.v) <==> Blocks(t.rob[j], s.rob[i].addr.v) {
        assert View(s, j) == View(t, j);
      }
    }
  }

  /** A load and its entry advance in the same way. */
  lemma SteppedSame(c: Core, m: ByteMemory.Mem, e: RobEntry, d: RobEntry, l: LoadEntry, k: LoadEntry, open: bool)
    requires BlindEntry(e) == BlindEntry(d) && l.(robIndex := 0) == k.(robIndex := 0)
    requires open ==> e.addr.Value? && d.addr.Value?
    ensures BlindEntry(SteppedEntry(c, m, e, open)) == BlindEntry(SteppedEntry(c, m, d, open))
    ensures SteppedLoad(c, m, e, l, open).(robIndex := 0) == SteppedLoad(c, m, d, k, open).(robIndex := 0)
  {
    SameFields(e, d);
  }

  lemma LoadViewAlike(c: Core, s: Machine, t: Machine, i: nat)
    requires SameViews(s, t) && s.mem == t.mem && Distinct(s.rob) && Distinct(t.rob)
    requires i < |s.rob| && LoadPhase(c, s).Running? && LoadPhase(c, t).Running?
    ensures |LoadPhase(c, s).s.rob| == |LoadPhase(c, t).s.rob| == |s.rob|
    ensures View(LoadPhase(c, s).s, i) == View(LoadPhase(c, t).s, i)
  {
    LoadShape(c, s);
    LoadShape(c, t);
    assert View(s, i) == View(t, i);
    SameUnits(s, t, i);
    GateAlike(s, t, i);
    var e, d := s.rob[i], t.rob[i];
    assert LoadPhase(c, s).s.rob[i] == LoadRob(c, s, i) && LoadPhase(c, t).s.rob[i] == LoadRob(c, t, i);
    if e.id in s.loadBuf {
      LoadSlotIs(c, s, i);
      LoadSlotIs(c, t, i);
      SteppedSame(c, s.mem, e, d, s.loadBuf[e.id], t.loadBuf[d.id], GateOpen(s.rob, i, s.loadBuf[e.id]));
    }
  }

  lemma LoadPanicsAlike(c: Core, s: Machine, t: Machine)
    requires Alike(s, t)
    ensures LoadPhase(c, s).Panic? <==> LoadPhase(c, t).Panic?
  {
    forall i | 0 <= i < |s.rob| ensures LoadPanics(c, s, i) <==> LoadPanics(c, t, i) {
      assert View(s, i) == View(t, i);
      SameFields(s.rob[i], t.rob[i]);
      GateAlike(s, t, i);
    }
  }

  lemma LoadAlike(c: Core, s: Machine, t: Machine)
    requires Twins(c, s, t)
    ensures TwinOutcomes(c, LoadPhase(c, s), LoadPhase(c, t))
  {
    LoadPanicsAlike(c, s, t);
    if LoadPhase(c, s).Running? {
      LoadInv(c, s);
      LoadInv(c, t);
      LoadShape(c, s);
      LoadShape(c, t);
      forall i | 0 <= i < |s.rob| ensures View(LoadPhase(c, s).s, i) == View(LoadPhase(c, t).s, i) {
        LoadViewAlike(c, s, t, i);
      }
    }
  }

  /** The store phase does the same to two heads with the same fields. */
  lemma StoreHeadSame(c: Core, s: Machine, t: Machine)
    requires s.rob != [] && t.rob != [] && s.mem == t.mem
    requires var e, d := s.rob[0], t.rob[0];
      && e.inst == d.inst && e.regValue == d.regValue && Blind(e.addr) == Blind(d.addr) && Blind(e.memValue) == Blind(d.memValue)
    ensures var x, y := StorePhase(c, s), StorePhase(c, t);
      if x.Panic? then y == x
      else
        && y.Running? && x.s.mem == y.s.mem
        && (if !CanWrite(s) then x.s == s && y.s == t
            else && x.s == s.(mem := x.s.mem, rob := s.rob[0 := s.rob[0].(memRemCycle := 0)])
                 && y.s == t.(mem := y.s.mem, rob := t.rob[0 := t.rob[0].(memRemCycle := 0)]))
  {
  }

  lemma StoreSame(c: Core, s: Machine, t: Machine)
    requires Alike(s, t)
    ensures var x, y := StorePhase(c, s), StorePhase(c, t);
      if x.Panic? then y == x
      else y.Running? && SameTagless(x.s, y.s) && AlikeRob(x.s.rob, y.s.rob)
  {
    EntriesAlike(s, t);
    if s.rob != [] {
      SameFields(s.rob[0], t.rob[0]);
      StoreHeadSame(c, s, t);
    }
  }

  lemma StoreAlike(c: Core, s: Machine, t: Machine)
    requires Twins(c, s, t)
    ensures TwinOutcomes(c, StorePhase(c, s), StorePhase(c, t))
  {
    StoreSame(c, s, t);
    if StorePhase(c, s).Running? {
      StoreInv(c, s);
      StoreInv(c, t);
      StoreViewsAlike(c, s, t);
    }
  }

  lemma StoreViewsAlike(c: Core, s: Machine, t: Machine)
    requires Alike(s, t) && StorePhase(c, s).Running? && StorePhase(c, t).Running?
    ensures SameViews(StorePhase(c, s).s, StorePhase(c, t).s)
  {
    StoreShape(c, s);
    StoreShape(c, t);
    StoreSame(c, s, t);
    forall i | 0 <= i < |s.rob| ensures View(StorePhase(c, s).s, i) == View(StorePhase(c, t).s, i) {
      assert View(s, i) == View(t, i);
      SameUnits(s, t, i);
    }
  }

  lemma ComputesAlike(c: Core, s: Machine, t: Machine, i: nat)
    requires SameViews(s, t) && i < |s.rob| && s.rob[i].id in s.station
    ensures t.rob[i].id in t.station
    ensures var p, q := s.station[s.rob[i].id], t.station[t.rob[i].id];
      && (Computes(p) && AluResult(c, p).None? ==> Computes(q) && AluResult(c, q).None?)
      && BlindRs(StationSlot(c, p)) == BlindRs(StationSlot(c, q))
  {
    assert View(s, i) == View(t, i);
    SameUnits(s, t, i);
    SameRs(s.station[s.rob[i].id], t.station[t.rob[i].id]);
  }

  lemma StationPanicsAlike(c: Core, s: Machine, t: Machine)
    requires SameViews(s, t) && KeysLive(s)
    ensures AnyAluPanics(c, s.station) ==> AnyAluPanics(c, t.station)
  {
    if AnyAluPanics(c, s.station) {
      var k :| k in s.station && Computes(s.station[k]) && AluResult(c, s.station[k]).None?;
      assert Live(s, k);
      var i :| 0 <= i < |s.rob| && s.rob[i].id == k;
      ComputesAlike(c, s, t, i);
    }
  }

  lemma StationViewsAlike(c: Core, s: Machine, t: Machine)
    requires Alike(s, t) && StationPhase(c, s).Running? && StationPhase(c, t).Running?
    ensures Alike(StationPhase(c, s).s, StationPhase(c, t).s)
  {
    forall i | 0 <= i < |s.rob| ensures View(StationPhase(c, s).s, i) == View(StationPhase(c, t).s, i) {
      assert View(s, i) == View(t, i);
      SameUnits(s, t, i);
      if s.rob[i].id in s.station { ComputesAlike(c, s, t, i); }
    }
  }

  lemma StationAlike(c: Core, s: Machine, t: Machine)
    requires Twins(c, s, t)
    ensures TwinOutcomes(c, StationPhase(c, s), StationPhase(c, t))
  {
    StationPanicsAlike(c, s, t);
    StationPanicsAlike(c, t, s);
    if StationPhase(c, s).Running? {
      StationInv(c, s);
      StationInv(c, t);
      StationViewsAlike(c, s, t);
    }
  }

  lemma ExecuteAlike(c: Core, s: Machine, t: Machine)
    requires Twins(c, s, t)
    ensures TwinOutcomes(c, ExecuteStage(c, s), ExecuteStage(c, t))
  {
    AddressAlike(c, s, t);
    var s1, t1 := AddressPhase(s), AddressPhase(t);
    LoadAlike(c, s1, t1);
    if LoadPhase(c, s1).Running? {
      var s2, t2 := LoadPhase(c, s1).s, LoadPhase(c, t1).s;
      StoreAlike(c, s2, t2);
      if StorePhase(c, s2).Running? { StationAlike(c, StorePhase(c, s2).s, StorePhase(c, t2).s); }
    }
  }

  // ---- Issue ----

  lemma RegValueAlike(c: Core, s: Machine, t: Machine, r: Reg)
    requires Twins(c, s, t)
    ensures Blind(RegValue(s, r)) == Blind(RegValue(t, r))
  {
    EntriesAlike(s, t);
    WriterAlike(s.rob, t.rob, |s.rob|, r);
    var j := LastWriter(s.rob, |s.rob|, r);
    if r != 0 && j >= 0 {
      LookupIs(s.rob, j);
      LookupIs(t.rob, j);
      SameFields(s.rob[j], t.rob[j]);
    }
  }

  lemma CaptureAlike(c: Core, s: Machine, t: Machine, src: Source)
    requires Twins(c, s, t)
    ensures Blind(Capture(s, src)) == Blind(Capture(t, src))
  {
    if src.FromReg? { RegValueAlike(c, s, t, src.r); }
  }

  lemma OldViewAlike(c: Core, s: Machine, t: Machine, x: Tag, y: Tag, i: nat)
    requires Twins(c, s, t) && Free(s, x) && Free(t, y) && i < |s.rob|
    ensures View(IssueOne(c, s, x), i) == View(IssueOne(c, t, y), i)
  {
    assert View(s, i) == View(t, i);
    assert s.rob[i].id != x && t.rob[i].id != y;
    SameUnits(s, t, i);
  }

  lemma NewEntryAlike(c: Core, s: Machine, t: Machine, i: Inst, x: Tag, y: Tag, taken: bool)
    requires Twins(c, s, t)
    ensures BlindEntry(NewRobEntry(s, i, x, taken)) == BlindEntry(NewRobEntry(t, i, y, taken))
    ensures BlindRs(NewAddressEntry(s, i, x)) == BlindRs(NewAddressEntry(t, i, y))
    ensures BlindRs(NewStationEntry(s, i, x)) == BlindRs(NewStationEntry(t, i, y))
  {
    RegValueAlike(c, s, t, Rs1(i));
    RegValueAlike(c, s, t, Rs2(i));
    CaptureAlike(c, s, t, Src1(s.pc, i));
    CaptureAlike(c, s, t, Src2(i));
  }

  /** The slot of a new entry. */
  lemma NewView(c: Core, s: Machine, x: Tag)
    requires KeysLive(s) && Free(s, x)
    ensures var i := Fetch(c, s.pc);
      var taken := i.opcode.Branch? && BranchPrediction.Predicts(s.predictor, s.pc);
      View(IssueOne(c, s, x), |s.rob|) == Slot(
        BlindEntry(NewRobEntry(s, i, x, taken)),
        if UsesAlu(i) then Some(BlindRs(NewStationEntry(s, i, x))) else None,
        if UsesAddressUnit(i) then Some(BlindRs(NewAddressEntry(s, i, x))) else None,
        if ReadsMem(i) then Some(LoadEntry(0, Wait, Ok(0))) else None)
  {
    FreeIsOut(s, x);
  }

  lemma NewViewAlike(c: Core, s: Machine, t: Machine, x: Tag, y: Tag)
    requires Twins(c, s, t) && Free(s, x) && Free(t, y)
    ensures View(IssueOne(c, s, x), |s.rob|) == View(IssueOne(c, t, y), |s.rob|)
  {
    var i := Fetch(c, s.pc);
    NewEntryAlike(c, s, t, i, x, y, i.opcode.Branch? && BranchPrediction.Predicts(s.predictor, s.pc));
    NewView(c, s, x);
    NewView(c, t, y);
  }

  lemma IssueOneAlike(c: Core, s: Machine, t: Machine, x: Tag, y: Tag)
    requires Twins(c, s, t) && Free(s, x) && Free(t, y) && !Stalled(s) && !Stalled(t)
    ensures Twins(c, IssueOne(c, s, x), IssueOne(c, t, y))
  {
    IssueOneInv(c, s, x);
    IssueOneInv(c, t, y);
    var s', t' := IssueOne(c, s, x), IssueOne(c, t, y);
    forall i | 0 <= i < |s'.rob| ensures View(s', i) == View(t', i) {
      if i < |s.rob| { OldViewAlike(c, s, t, x, y, i); } else { NewViewAlike(c, s, t, x, y); }
    }
  }

  lemma StalledAlike(s: Machine, t: Machine)
    requires SameViews(s, t)
    ensures Stalled(s) == Stalled(t)
  {
    EntriesAlike(s, t);
    if s.rob != [] { SameFields(s.rob[|s.rob| - 1], t.rob[|t.rob| - 1]); }
  }

  lemma IssueTwoAlike(c: Core, s: Machine, t: Machine, p: Tags, q: Tags)
    requires Twins(c, s, t) && FreeTags(s, p) && FreeTags(t, q) && !Stalled(s) && !Stalled(t) && !EndsGroup(Fetch(c, s.pc))
    ensures Twins(c, IssueOne(c, IssueOne(c, s, p.0), p.1), IssueOne(c, IssueOne(c, t, q.0), q.1))
  {
    IssueOneAlike(c, s, t, p.0, q.0);
    IssueOneAlike(c, IssueOne(c, s, p.0), IssueOne(c, t, q.0), p.1, q.1);
  }

  lemma IssueAlike(c: Core, s: Machine, t: Machine, p: Tags, q: Tags)
    requires Twins(c, s, t) && FreeTags(s, p) && FreeTags(t, q)
    ensures Twins(c, Issue(c, s, p), Issue(c, t, q))
  {
    StalledAlike(s, t);
    if !Stalled(s) {
      if EndsGroup(Fetch(c, s.pc)) {
        IssueOneAlike(c, s, t, p.0, q.0);
      } else {
        IssueTwoAlike(c, s, t, p, q);
      }
    }
  }

  // ---- Clocks and runs ----

  /** Results of clocks or runs that agree in everything but tags. */
  ghost predicate TwinRuns(c: Core, x: Clocked, y: Clocked) {
    AlikeRob(x.retired, y.retired) && x.exited == y.exited && TwinOutcomes(c, x.outcome, y.outcome)
  }

  lemma ContinuesAlike(c: Core, s: Machine, t: Machine)
    requires Twins(c, s, t) && EcallsPlain(c)
    ensures Continues(Commit(c, s)) == Continues(Commit(c, t))
  {
    CommitAlike(c, s, t);
    var p, q := Commit(c, s).retired, Commit(c, t).retired;
    forall i | 0 <= i < |p| ensures p[i].inst == q[i].inst {
      SameFields(p[i], q[i]);
    }
  }

  lemma AfterCommitAlike(c: Core, s: Machine, t: Machine, p: Tags, q: Tags)
    requires Twins(c, s, t) && Sound(c)
    requires ExecuteStage(c, WriteResult(s)).Running? ==> FreeTags(ExecuteStage(c, WriteResult(s)).s, p)
    requires ExecuteStage(c, WriteResult(t)).Running? ==> FreeTags(ExecuteStage(c, WriteResult(t)).s, q)
    ensures TwinOutcomes(c, AfterCommit(c, s, p), AfterCommit(c, t, q))
  {
    WriteAlike(c, s, t);
    ExecuteAlike(c, WriteResult(s), WriteResult(t));
    if ExecuteStage(c, WriteResult(s)).Running? {
      IssueAlike(c, ExecuteStage(c, WriteResult(s)).s, ExecuteStage(c, WriteResult(t)).s, p, q);
    }
  }

  lemma ClockAlike(c: Core, s: Machine, t: Machine, p: seq<Tags>, q: seq<Tags>)
    requires Twins(c, s, t) && Sound(c) && EcallsPlain(c) && p != [] && q != [] && Allocates(c, s, p) && Allocates(c, t, q)
    ensures TwinRuns(c, Clock(c, s, p[0]), Clock(c, t, q[0]))
  {
    CommitAlike(c, s, t);
    ContinuesAlike(c, s, t);
    if Continues(Commit(c, s)) {
      AfterCommitAlike(c, Commit(c, s).outcome.s, Commit(c, t).outcome.s, p[0], q[0]);
    }
  }

  /** Two runs of equal length from states equal up to tags retire the same instructions with the
      same results in the same clocks and end alike, whatever free tags each is given. */
  lemma {:induction false} TagsDoNotMatter(c: Core, s: Machine, t: Machine, p: seq<Tags>, q: seq<Tags>)
    requires Twins(c, s, t) && Sound(c) && EcallsPlain(c) && |p| == |q| && Allocates(c, s, p) && Allocates(c, t, q)
    ensures TwinRuns(c, Cycles(c, s, p), Cycles(c, t, q))
    decreases |p|
  {
    if p != [] {
      ClockAlike(c, s, t, p, q);
      OneClock(c, s, p);
      OneClock(c, t, q);
      var x, y := Clock(c, s, p[0]), Clock(c, t, q[0]);
      if Alive(x) {
        TagsDoNotMatter(c, x.outcome.s, y.outcome.s, p[1..], q[1..]);
        AlikeAppend(x.retired, y.retired, Cycles(c, x.outcome.s, p[1..]).retired, Cycles(c, y.outcome.s, q[1..]).retired);
      }
    }
  }

  lemma AlikeAppend(p: seq<RobEntry>, q: seq<RobEntry>, p': seq<RobEntry>, q': seq<RobEntry>)
    requires AlikeRob(p, q) && AlikeRob(p', q')
    ensures AlikeRob(p + p', q + q')
  {
  }

  /** From power-on: registers, memory, pc, what retires and when, and any panic are independent of
      the addresses the allocator returns. */
  lemma AllocatorIndependence(c: Core, pc: u32, m: ByteMemory.Mem, sp: u32, p: seq<Tags>, q: seq<Tags>)
    requires var s := Initial(pc, m, sp);
      Sound(c) && EcallsPlain(c) && |p| == |q| && Allocates(c, s, p) && Allocates(c, s, q)
    ensures var s := Initial(pc, m, sp);
      var x, y := Cycles(c, s, p), Cycles(c, s, q);
      && x.exited == y.exited && |x.retired| == |y.retired|
      && (forall i :: 0 <= i < |x.retired| ==> x.retired[i].pc == y.retired[i].pc && x.retired[i].regValue == y.retired[i].regValue)
      && (x.outcome.Panic? ==> y.outcome == x.outcome)
      && (x.outcome.Running? ==> y.outcome.Running? && SameTagless(x.outcome.s, y.outcome.s))
  {
    InitialInv(c, pc, m, sp);
    TagsDoNotMatter(c, Initial(pc, m, sp), Initial(pc, m, sp), p, q);
    var x, y := Cycles(c, Initial(pc, m, sp), p).retired, Cycles(c, Initial(pc, m, sp), q).retired;
    forall i | 0 <= i < |x| ensures x[i].pc == y[i].pc && x[i].regValue == y[i].regValue {
      SameFields(x[i], y[i]);
    }
  }
}
