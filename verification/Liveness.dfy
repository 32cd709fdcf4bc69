/** No deadlock: the oldest instruction retires within MEM_CYCLE + 2 clocks, and an empty reorder
    buffer always issues. */
module Liveness {
  import opened Isa
  import opened OutOfOrder
  import opened Invariant
  import opened InvariantCommit
  import opened InvariantWriteResult
  import opened InvariantExecute
  import opened InvariantIssue
  import opened Refinement
  import opened Runs

  /** Clocks before the head is completed: its load's or its arithmetic's countdown and the
      broadcast, or one clock for a pending address or store. */
  function Pending(s: Machine): nat
    requires s.rob != []
  {
    var e := s.rob[0];
    if IsCompleted(e) then 0
    else if ReadsMem(e.inst) && !HasRead(s, e) then e.memRemCycle + 1
    else if e.regValue.None? && e.id in s.station then s.station[e.id].remainingClock + 1
    else 1
  }

  lemma PendingBounded(c: Core, s: Machine)
    requires Inv(c, s) && s.rob != []
    ensures Pending(s) <= MEM_CYCLE + 1
  {
    assert SlotOk(c, s, 0);
  }

  /** The head waits for nobody. */
  lemma HeadReady(c: Core, s: Machine)
    requires Inv(c, s) && s.rob != []
    ensures var e := s.rob[0];
      && (e.id in s.station ==> IsReady(s.station[e.id]))
      && (e.id in s.addressUnit ==> IsReady(s.addressUnit[e.id]))
      && (e.inst.opcode.Amo? ==> e.addr.Value? && e.memValue.Value?)
      && (e.inst.opcode.Store? ==> e.memValue.Value?)
  {
    assert SlotOk(c, s, 0);
  }

  /** The head's result is computed but not broadcast. */
  predicate Unsent(s: Machine) {
    s.rob != [] &&
    var e := s.rob[0];
    e.regValue.None? && ((e.id in s.station && s.station[e.id].status.Finished?) || (e.id in s.loadBuf && s.loadBuf[e.id].status.Finished?))
  }

  /** What is finished has been broadcast. */
  lemma NoneUnsent(c: Core, s: Machine)
    requires Inv(c, s) && s.rob != []
    ensures !Unsent(WriteResult(s))
  {
    WriteResultShape(s);
  }

  lemma WritePending(c: Core, s: Machine)
    requires Inv(c, s) && s.rob != []
    ensures var s' := WriteResult(s);
      s'.rob != [] && s'.rob[0].id == s.rob[0].id && Pending(s') <= Pending(s) && !Unsent(s')
  {
    WriteResultShape(s);
    NoneUnsent(c, s);
    assert Filed(c, s, 0) && CountdownOk(s, 0) by { assert SlotOk(c, s, 0); }
    HeadReady(c, s);
    if ReadsMem(s.rob[0].inst) { ProgressWake(c, s, 0); }
    JobsAreFinished(c, s, 0);
  }

  lemma AddressPending(c: Core, s: Machine)
    requires Inv(c, s) && s.rob != [] && !Unsent(s)
    ensures var s' := AddressPhase(s);
      && s'.rob != [] && s'.rob[0].id == s.rob[0].id && Pending(s') <= Pending(s) && !Unsent(s')
      && (UsesAddressUnit(s'.rob[0].inst) ==> s'.rob[0].addr.Value?)
  {
    AddressShape(s);
    HeadReady(c, s);
    assert SlotOk(c, s, 0);
  }

  /** Nothing holds a load at the head back: its countdown runs, and in its last clock it reads. */
  lemma HeadLoads(c: Core, s: Machine)
    requires Inv(c, s) && s.rob != [] && !Unsent(s) && LoadPhase(c, s).Running?
    requires UsesAddressUnit(s.rob[0].inst) ==> s.rob[0].addr.Value?
    requires s.rob[0].id in s.loadBuf
    ensures var s' := LoadPhase(c, s).s;
      if s.rob[0].memRemCycle > 1 then !HasRead(s', s'.rob[0]) && s'.rob[0].memRemCycle == s.rob[0].memRemCycle - 1
      else HasRead(s', s'.rob[0])
  {
    LoadShape(c, s);
    LoadFrame(c, s);
    assert Filed(c, s, 0) && CountdownOk(s, 0) by { assert SlotOk(c, s, 0); }
    assert GateOpen(s.rob, 0, s.loadBuf[s.rob[0].id]) by { HeadReady(c, s); }
    assert LoadPhase(c, s).s.rob[0] == LoadRob(c, s, 0);
    LoadSlotIs(c, s, 0);
    LoadCases(c, s, 0);
  }

  lemma HeadIdles(c: Core, s: Machine)
    requires s.rob != [] && LoadPhase(c, s).Running? && s.rob[0].id !in s.loadBuf
    ensures LoadPhase(c, s).s.rob != [] && LoadPhase(c, s).s.rob[0] == s.rob[0] && s.rob[0].id !in LoadPhase(c, s).s.loadBuf
    ensures LoadPhase(c, s).s.station == s.station
    ensures Pending(LoadPhase(c, s).s) == Pending(s)
  {
    assert LoadPhase(c, s).s.rob[0] == LoadRob(c, s, 0);
  }

  /** A load at the head advances every clock. */
  lemma LoadPending(c: Core, s: Machine)
    requires Inv(c, s) && s.rob != [] && !Unsent(s) && LoadPhase(c, s).Running?
    requires UsesAddressUnit(s.rob[0].inst) ==> s.rob[0].addr.Value?
    ensures var s' := LoadPhase(c, s).s;
      && s'.rob != [] && s'.rob[0].id == s.rob[0].id && s'.rob[0].inst == s.rob[0].inst && s'.rob[0].addr == s.rob[0].addr
      && s'.rob[0].regValue == s.rob[0].regValue && s'.station == s.station
      && Pending(s') <= Pending(s)
      && (ReadsMem(s.rob[0].inst) && s.rob[0].regValue.None? ==> Pending(s') < Pending(s))
  {
    assert Filed(c, s, 0) && CountdownOk(s, 0) by { assert SlotOk(c, s, 0); }
    if s.rob[0].id in s.loadBuf {
      LoadShape(c, s);
      LoadFrame(c, s);
      HeadLoads(c, s);
    } else {
      HeadIdles(c, s);
    }
  }

  lemma StorePending(c: Core, s: Machine)
    requires Inv(c, s) && s.rob != [] && StorePhase(c, s).Running?
    requires UsesAddressUnit(s.rob[0].inst) ==> s.rob[0].addr.Value?
    ensures var s' := StorePhase(c, s).s;
      && s'.rob != [] && s'.rob[0].id == s.rob[0].id && s'.rob[0].inst == s.rob[0].inst && s'.station == s.station
      && s'.rob[0].regValue == s.rob[0].regValue
      && Pending(s') <= Pending(s)
      && (s.rob[0].inst.opcode.Store? || s.rob[0].regValue.Some? ==> Pending(s') == 0)
  {
    StoreShape(c, s);
    HeadReady(c, s);
    assert Filed(c, s, 0) && CountdownOk(s, 0) && OperandsOk(c, s, 0) by { assert SlotOk(c, s, 0); }
  }

  lemma StationPending(c: Core, s: Machine)
    requires Inv(c, s) && s.rob != [] && StationPhase(c, s).Running?
    ensures var s' := StationPhase(c, s).s;
      && s'.rob == s.rob && Pending(s') <= Pending(s)
      && (s.rob[0].id in s.station && !s.station[s.rob[0].id].status.Finished? ==> Pending(s') < Pending(s))
  {
    HeadReady(c, s);
    assert SlotOk(c, s, 0);
  }

  lemma ExecutePending(c: Core, s: Machine)
    requires Inv(c, s) && s.rob != [] && !Unsent(s) && ExecuteStage(c, s).Running?
    ensures var s' := ExecuteStage(c, s).s;
      && s'.rob != [] && s'.rob[0].id == s.rob[0].id && Pending(s') <= Pending(s) && (Pending(s) > 0 ==> Pending(s') < Pending(s))
  {
    AddressPending(c, s);
    AddressInv(c, s);
    var s1 := AddressPhase(s);
    LoadPending(c, s1);
    LoadInv(c, s1);
    var s2 := LoadPhase(c, s1).s;
    StorePending(c, s2);
    StoreInv(c, s2);
    var s3 := StorePhase(c, s2).s;
    StationPending(c, s3);
    assert Filed(c, s1, 0) by { assert SlotOk(c, s1, 0); }
  }

  lemma IssueOnePending(c: Core, s: Machine, id: Tag)
    requires Free(s, id)
    ensures IssueOne(c, s, id).rob != []
    ensures s.rob != [] ==> IssueOne(c, s, id).rob[0] == s.rob[0] && Pending(IssueOne(c, s, id)) == Pending(s)
  {
    if s.rob != [] { assert s.rob[0].id != id; }
  }

  /** Issue leaves the head alone, and gives an empty buffer one. */
  lemma IssuePending(c: Core, s: Machine, ids: Tags)
    requires FreeTags(s, ids)
    ensures Issue(c, s, ids).rob != []
    ensures s.rob != [] ==> Issue(c, s, ids).rob[0] == s.rob[0] && Pending(Issue(c, s, ids)) == Pending(s)
  {
    if !Stalled(s) {
      IssueOnePending(c, s, ids.0);
      var s1 := IssueOne(c, s, ids.0);
      assert Free(s1, ids.1);
      IssueOnePending(c, s1, ids.1);
    }
  }

  lemma CommitIdle(c: Core, s: Machine)
    requires Commit(c, s).retired == [] && Commit(c, s).outcome.Running?
    ensures Commit(c, s).outcome.s == s && Continues(Commit(c, s))
    ensures s.rob != [] ==> Pending(s) > 0
  {
  }

  lemma AfterCommitPending(c: Core, s: Machine, ids: Tags)
    requires Inv(c, s) && Sound(c) && s.rob != []
    requires AfterCommit(c, s, ids).Running? && FreeTags(ExecuteStage(c, WriteResult(s)).s, ids)
    ensures var s' := AfterCommit(c, s, ids).s;
      s'.rob != [] && s'.rob[0].id == s.rob[0].id && (Pending(s) > 0 ==> Pending(s') < Pending(s))
  {
    WritePending(c, s);
    WriteResultInv(c, s);
    var s1 := WriteResult(s);
    ExecutePending(c, s1);
    ExecuteInv(c, s1);
    IssuePending(c, ExecuteStage(c, s1).s, ids);
  }

  /** Progress: a clock that retires nothing brings the head closer to completion. */
  lemma ClockPending(c: Core, s: Machine, tags: seq<Tags>)
    requires Inv(c, s) && Sound(c) && s.rob != [] && tags != [] && Allocates(c, s, tags)
    ensures var r := Clock(c, s, tags[0]);
      r.retired == [] && r.outcome.Running? ==>
        r.outcome.s.rob != [] && r.outcome.s.rob[0].id == s.rob[0].id && Pending(r.outcome.s) < Pending(s)
  {
    var r := Clock(c, s, tags[0]);
    if r.retired == [] && r.outcome.Running? {
      CommitIdle(c, s);
      AfterCommitPending(c, s, tags[0]);
    }
  }

  /** The invariant survives a clock, and the buffer is not empty after it. */
  lemma ClockInv(c: Core, s: Machine, tags: seq<Tags>)
    requires Inv(c, s) && Sound(c) && EcallsPlain(c) && tags != [] && Allocates(c, s, tags)
    ensures var r := Clock(c, s, tags[0]);
      r.outcome.Running? ==> Inv(c, r.outcome.s) && (!r.exited ==> r.outcome.s.rob != [])
  {
    CommitInv(c, s);
    if Continues(Commit(c, s)) {
      var s1 := Commit(c, s).outcome.s;
      WriteResultInv(c, s1);
      if ExecuteStage(c, WriteResult(s1)).Running? {
        ExecuteInv(c, WriteResult(s1));
        var s2 := ExecuteStage(c, WriteResult(s1)).s;
        IssueInv(c, s2, tags[0]);
        IssuePending(c, s2, tags[0]);
      }
    }
  }

  /** Every run keeps the invariant, and a run that can go on has an instruction in the buffer. */
  lemma {:induction false} RunInv(c: Core, s: Machine, tags: seq<Tags>)
    requires Inv(c, s) && Sound(c) && EcallsPlain(c) && Allocates(c, s, tags)
    ensures Cycles(c, s, tags).outcome.Running? ==> Inv(c, Cycles(c, s, tags).outcome.s)
    ensures Alive(Cycles(c, s, tags)) && (tags != [] || s.rob != []) ==> Cycles(c, s, tags).outcome.s.rob != []
    decreases |tags|
  {
    if tags != [] {
      ClockInv(c, s, tags);
      var first := Clock(c, s, tags[0]);
      if !first.exited && first.outcome.Running? {
        NextClock(c, s, tags);
        RunInv(c, first.outcome.s, tags[1..]);
      }
    }
  }

  /** What the head's clocks so far leave to do. */
  ghost predicate HeadGone(s: Machine, r: Clocked)
    requires s.rob != []
  {
    r.outcome.Panic? || (r.retired != [] && r.retired[0].id == s.rob[0].id)
  }

  lemma FirstRetired(c: Core, s: Machine, ids: Tags)
    requires s.rob != [] && Clock(c, s, ids).retired != []
    ensures Clock(c, s, ids).retired[0] == s.rob[0]
  {
  }

  lemma ExitRetires(c: Core, s: Machine, ids: Tags)
    requires Clock(c, s, ids).exited
    ensures Clock(c, s, ids).retired != []
  {
  }

  /** The head retires within `Pending + 1` clocks, unless the run panics first. */
  lemma {:induction false} HeadRetires(c: Core, s: Machine, tags: seq<Tags>)
    requires Inv(c, s) && Sound(c) && EcallsPlain(c) && Allocates(c, s, tags)
    requires s.rob != [] && |tags| > Pending(s)
    ensures HeadGone(s, Cycles(c, s, tags))
    decreases |tags|
  {
    var first := Clock(c, s, tags[0]);
    if first.retired != [] {
      FirstRetired(c, s, tags[0]);
    } else if first.outcome.Running? {
      if first.exited { ExitRetires(c, s, tags[0]); }
      ClockInv(c, s, tags);
      ClockPending(c, s, tags);
      NextClock(c, s, tags);
      HeadRetires(c, first.outcome.s, tags[1..]);
    }
  }

  /** No deadlock: in every reachable state with a non-empty buffer, MEM_CYCLE + 2 clocks retire at
      least the oldest instruction. */
  lemma NoDeadlock(c: Core, s: Machine, tags: seq<Tags>)
    requires Inv(c, s) && Sound(c) && EcallsPlain(c) && Allocates(c, s, tags)
    requires s.rob != [] && |tags| == MEM_CYCLE + 2
    ensures HeadGone(s, Cycles(c, s, tags))
  {
    PendingBounded(c, s);
    HeadRetires(c, s, tags);
  }

  /** Throughput: a run of k * (MEM_CYCLE + 2) clocks that still goes on has retired at least k
      instructions. */
  lemma {:induction false} Throughput(c: Core, s: Machine, tags: seq<Tags>, k: nat)
    requires Inv(c, s) && Sound(c) && EcallsPlain(c) && Allocates(c, s, tags)
    requires s.rob != [] && |tags| >= (MEM_CYCLE + 2) * k
    ensures Alive(Cycles(c, s, tags)) ==> |Cycles(c, s, tags).retired| >= k
    decreases k
  {
    if k > 0 {
      var p, q := tags[..MEM_CYCLE + 2], tags[MEM_CYCLE + 2..];
      assert tags == p + q;
      AllocatesPlus(c, s, p, q);
      CyclesPlus(c, s, p, q);
      NoDeadlock(c, s, p);
      RunInv(c, s, p);
      var r := Cycles(c, s, p);
      if Alive(r) { Throughput(c, r.outcome.s, q, k - 1); }
    }
  }

  /** An empty buffer fills in one clock. */
  lemma ThroughputFromAnywhere(c: Core, s: Machine, tags: seq<Tags>, k: nat)
    requires Inv(c, s) && Sound(c) && EcallsPlain(c) && Allocates(c, s, tags) && |tags| > (MEM_CYCLE + 2) * k
    ensures Alive(Cycles(c, s, tags)) ==> |Cycles(c, s, tags).retired| >= k
  {
    if s.rob != [] {
      Throughput(c, s, tags, k);
    } else if Alive(Cycles(c, s, tags)) {
      OneClock(c, s, tags);
      ClockInv(c, s, tags);
      Throughput(c, Clock(c, s, tags[0]).outcome.s, tags[1..], k);
    }
  }
}
