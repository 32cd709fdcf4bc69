/** Concrete runs in which the core leaves the sequential machine's path: one for each hypothesis of
    the refinement that is about the code and not about the program's memory accesses. */
module Divergences {
  import opened Words
  import opened Instructions
  import opened ByteMemory
  import opened Isa
  import opened OutOfOrder
  import opened Runs

  /** A quiet clock: nothing panics and nothing retires. */
  ghost predicate Quiet(r: Clocked) {
    r.outcome.Running? && r.retired == [] && !r.exited
  }

  /** A run of quiet clocks gets longer. */
  lemma QuietRun(c: Core, s: Machine, tags: seq<Tags>, s': Machine, ids: Tags)
    requires Cycles(c, s, tags) == Clocked(Running(s'), [], false) && Quiet(Clock(c, s', ids))
    ensures Cycles(c, s, tags + [ids]) == Clocked(Running(Clock(c, s', ids).outcome.s), [], false)
  {
    CyclesPlus(c, s, tags, [ids]);
    assert [ids][1..] == [];
    var r := Clock(c, s', ids);
    assert Cycles(c, s', [ids]).outcome == r.outcome;
  }

  /** A write-back that finds nothing finished delivers nothing. */
  lemma NothingToWrite(s: Machine)
    requires forall t :: t in s.station ==> !s.station[t].status.Finished?
    requires forall t :: t in s.loadBuf ==> !s.loadBuf[t].status.Finished?
    ensures var w := WriteResult(s);
      && w.rob == s.rob
      && (forall t :: t in w.station <==> t in s.station)
      && (forall t :: t in w.loadBuf <==> t in s.loadBuf)
      && (forall t :: t in w.addressUnit <==> t in s.addressUnit)
      && (forall t :: t in s.station ==> w.station[t] == s.station[t])
      && (forall t :: t in s.loadBuf ==> w.loadBuf[t] == s.loadBuf[t])
      && (forall t :: t in s.addressUnit ==> w.addressUnit[t] == s.addressUnit[t])
  {
    assert forall t :: t !in Jobs(s);
    forall i | 0 <= i < |s.rob| ensures WakeRob(s.rob[i], Jobs(s)) == s.rob[i] {
      assert forall t :: t !in Jobs(s) - {s.rob[i].id};
    }
  }

  // ---- Runs clock by clock ----

  function Ids(k: nat): Tags { (2 * k, 2 * k + 1) }

  /** The clock after `k` others retires `done` and leaves `s'`. */
  ghost predicate Leads(c: Core, s: Machine, k: nat, done: seq<RobEntry>, s': Machine) {
    forall ids {:trigger Clock(c, s, ids)} :: ids == Ids(k) ==> Clock(c, s, ids) == Clocked(Running(s'), done, false)
  }

  /** The `n` clocks after `k` others end in `r`. */
  ghost predicate Ends(c: Core, s: Machine, k: nat, n: nat, r: Clocked) {
    forall tags {:trigger Cycles(c, s, tags)} :: tags == Numbered(k, n) ==> Cycles(c, s, tags) == r
  }

  lemma EndsNext(c: Core, s: Machine, k: nat, done: seq<RobEntry>, s': Machine, n: nat, r: Clocked)
    requires Leads(c, s, k, done, s') && Ends(c, s', k + 1, n, r)
    ensures Ends(c, s, k, n + 1, Following(done, r))
  {
    assert Numbered(k, n + 1)[0] == Ids(k) && Numbered(k, n + 1)[1..] == Numbered(k + 1, n);
    assert Clock(c, s, Ids(k)) == Clocked(Running(s'), done, false);
    assert Cycles(c, s', Numbered(k + 1, n)) == r;
  }

  /** A clock whose head is not completed. */
  lemma QuietClock(c: Core, s: Machine, k: nat)
    requires (s.rob != [] ==> !IsCompleted(s.rob[0])) && AfterCommit(c, s, Ids(k)).Running?
    ensures Leads(c, s, k, [], AfterCommit(c, s, Ids(k)).s)
  {
  }

  lemma CommitClock(c: Core, s: Machine, k: nat, done: seq<RobEntry>)
    requires Commit(c, s).retired == done && Continues(Commit(c, s)) && AfterCommit(c, Commit(c, s).outcome.s, Ids(k)).Running?
    ensures Leads(c, s, k, done, AfterCommit(c, Commit(c, s).outcome.s, Ids(k)).s)
  {
  }

  lemma QuietNext(c: Core, s: Machine, k: nat, s': Machine, n: nat, r: Clocked)
    requires Leads(c, s, k, [], s') && Ends(c, s', k + 1, n, r)
    ensures Ends(c, s, k, n + 1, r)
  {
    EndsNext(c, s, k, [], s', n, r);
    assert [] + r.retired == r.retired;
  }

  /** The run itself: its first clock and the `n` after it. */
  lemma RunEnds(c: Core, s: Machine, s': Machine, n: nat, m: nat, r: Clocked)
    requires Leads(c, s, 0, [], s') && Ends(c, s', 1, n, r) && m == n + 1
    ensures Cycles(c, s, Numbered(0, m)) == r
  {
    QuietNext(c, s, 0, s', n, r);
  }

  // ---- JALR to address 0 ----

  const JALR0: Inst := Instruction(Opcode.Jalr, Fields(Some(0), None, Some(0), Some(0)), Function.Jalr)

  /** The entry of a jump at address 4. */
  function Jump(t: Tag, result: Option<u32>, target: Operand): RobEntry {
    RobEntry(t, 4, JALR0, Nothing, result, 0, target, false, MEM_CYCLE, None)
  }

  /** Fetching the jump, with nothing else under way. */
  ghost predicate AtJump(s: Machine) {
    && s.pc == 4 && s.renames[0] == None && s.gpr[0] == 0
    && (forall t :: t !in s.addressUnit) && (forall t :: t !in s.loadBuf) && (forall t :: t !in s.station)
  }

  ghost predicate JumpIssued(s: Machine, t: Tag, older: seq<RobEntry>) {
    && s.pc == 4 && s.renames[0] == None && s.gpr[0] == 0 && s.rob == older + [Jump(t, None, Nothing)]
    && (forall k :: k in s.addressUnit <==> k == t) && s.addressUnit[t] == RsEntry(t, Wait, JALR0, Value(0), Value(0), 0, 1)
    && (forall k :: k in s.station <==> k == t) && s.station[t] == RsEntry(t, Wait, JALR0, Value(4), Value(4), 0, 1)
    && (forall k :: k !in s.loadBuf)
  }

  ghost predicate JumpComputed(s: Machine, t: Tag) {
    && s.pc == 4 && s.renames[0] == None && s.gpr[0] == 0 && s.rob == [Jump(t, None, Value(0))]
    && (forall k :: k in s.station <==> k == t) && s.station[t] == RsEntry(t, Finished, JALR0, Value(4), Value(4), 8, 0)
    && (forall k :: k !in s.addressUnit) && (forall k :: k !in s.loadBuf)
  }

  lemma JumpIssues(c: Core, s: Machine, t: Tag)
    requires c.program(4) == JALR0 && AtJump(s)
    ensures JumpIssued(IssueOne(c, s, t), t, s.rob)
  {
    assert Fetch(c, 4) == JALR0 && Rs1(JALR0) == 0 && Rd(JALR0) == 0 && Imm(JALR0) == 0;
  }

  lemma JumpClock1(c: Core, s: Machine, ids: Tags)
    requires c.program(4) == JALR0 && AtJump(s) && s.rob == []
    ensures Quiet(Clock(c, s, ids)) && JumpIssued(Clock(c, s, ids).outcome.s, ids.0, [])
  {
    NothingToWrite(s);
    var s2 := ExecuteStage(c, WriteResult(s)).s;
    assert AtJump(s2) && s2.rob == [];
    JumpIssues(c, s2, ids.0);
  }

  lemma JumpClock2(c: Core, s: Machine, t: Tag, ids: Tags)
    requires c.alu(Function.Jalr, 4, 4) == Some(8) && JumpIssued(s, t, [])
    ensures Quiet(Clock(c, s, ids)) && JumpComputed(Clock(c, s, ids).outcome.s, t)
  {
    NothingToWrite(s);
    var s1 := AddressPhase(WriteResult(s));
    assert s1.rob == [Jump(t, None, Value(0))] && s1.pc == 4;
    assert LoadPhase(c, s1).s.rob == s1.rob;
  }

  lemma JumpBroadcast(s: Machine, t: Tag)
    requires JumpComputed(s, t)
    ensures AtJump(WriteResult(s)) && WriteResult(s).rob == [Jump(t, Some(8), Value(0))]
  {
    assert Jobs(s)[t] == Job(8, None);
  }

  lemma JumpExecuteIdle(c: Core, s: Machine)
    requires AtJump(s)
    ensures s.rob == [] || !WritesMem(s.rob[0].inst) ==>
      ExecuteStage(c, s).Running? && AtJump(ExecuteStage(c, s).s) && ExecuteStage(c, s).s.rob == s.rob
  {
    assert AddressPhase(s).rob == s.rob;
  }

  lemma JumpClock3(c: Core, s: Machine, t: Tag, ids: Tags)
    requires c.program(4) == JALR0 && JumpComputed(s, t)
    ensures Quiet(Clock(c, s, ids)) && JumpIssued(Clock(c, s, ids).outcome.s, ids.0, [Jump(t, Some(8), Value(0))])
  {
    JumpBroadcast(s, t);
    JumpExecuteIdle(c, WriteResult(s));
    JumpIssues(c, ExecuteStage(c, WriteResult(s)).s, ids.0);
  }

  lemma JumpRun(c: Core, s: Machine, i: Tags, j: Tags, k: Tags)
    requires c.program(4) == JALR0 && c.alu(Function.Jalr, 4, 4) == Some(8) && AtJump(s) && s.rob == []
    ensures var r := Cycles(c, s, [i] + [j] + [k]);
      Quiet(r) && JumpIssued(r.outcome.s, k.0, [Jump(i.0, Some(8), Value(0))])
  {
    JumpClock1(c, s, i);
    QuietRun(c, s, [], s, i);
    assert [] + [i] == [i];
    var s1 := Clock(c, s, i).outcome.s;
    JumpClock2(c, s1, i.0, j);
    QuietRun(c, s, [i], s1, j);
    var s2 := Clock(c, s1, j).outcome.s;
    JumpClock3(c, s2, i.0, k);
    QuietRun(c, s, [i] + [j], s2, k);
  }

  lemma JumpStep(c: Core, regs: Regs, m: Mem)
    requires c.program(4) == JALR0 && c.alu(Function.Jalr, 4, 4) == Some(8) && regs[0] == 0
    ensures Run(c, State(4, regs, m), 1) == Ok(State(0, regs, m))
  {
    assert Fetch(c, 4) == JALR0 && Rs1(JALR0) == 0 && Rd(JALR0) == 0 && Imm(JALR0) == 0;
    assert Step(c, State(4, regs, m)) == Ok(State(0, regs, m));
    assert Run(c, State(4, regs, m), 1) == Run(c, State(0, regs, m), 0);
  }

  /** The jump goes to 0, but the core fetches the jump once more: when it retires, in clock 4, the
      next instruction is at 4, where the sequential machine is at 0. */
  lemma JumpToZeroDiverges(c: Core, m: Mem, sp: u32, i: Tags, j: Tags, k: Tags)
    requires c.program(4) == JALR0 && c.alu(Function.Jalr, 4, 4) == Some(8)
    ensures var s := Initial(4, m, sp);
      var r := Cycles(c, s, [i] + [j] + [k]);
      && Quiet(r)
      && var q := Commit(c, r.outcome.s);
      && q.outcome.Running? && |q.retired| == 1 && q.outcome.s.rob != [] && q.outcome.s.rob[0].pc == 4
      && Run(c, State(4, s.gpr, m), 1) == Ok(State(0, s.gpr, m))
  {
    var s := Initial(4, m, sp);
    JumpRun(c, s, i, j, k);
    JumpStep(c, s.gpr, m);
    var s3 := Cycles(c, s, [i] + [j] + [k]).outcome.s;
    assert Commit(c, s3.(rob := s3.rob[1..])).retired == [];
  }

  // ---- ECALL with a destination ----

  const ECALL1: Inst := Instruction(Opcode.System, Fields(Some(0), None, Some(1), Some(0)), Ecall)

  function Call(t: Tag, result: Option<u32>): RobEntry {
    RobEntry(t, 0, ECALL1, Nothing, result, 1, Nothing, false, MEM_CYCLE, None)
  }

  ghost predicate AtCall(s: Machine) {
    && s.pc == 0 && s.rob == [] && s.renames == seq(32, _ => None) && s.gpr[0] == 0
    && (forall k :: k !in s.addressUnit) && (forall k :: k !in s.loadBuf) && (forall k :: k !in s.station)
  }

  /** The call is in the buffer with its `result`, and in the station if `q` says so. */
  ghost predicate Calling(s: Machine, t: Tag, result: Option<u32>, q: Option<RsEntry>) {
    && s.rob == [Call(t, result)] && s.renames[1] == Some(t)
    && (forall k :: k in s.station <==> k == t && q.Some?) && (q.Some? ==> s.station[t] == q.value)
    && (forall k :: k !in s.addressUnit) && (forall k :: k !in s.loadBuf)
  }

  function CallWaits(t: Tag): RsEntry { RsEntry(t, Wait, ECALL1, Value(0), Value(0), 0, 1) }
  function CallFinished(t: Tag): RsEntry { RsEntry(t, Finished, ECALL1, Value(0), Value(0), 0, 0) }

  lemma CallExecute(c: Core, s: Machine)
    requires AtCall(s)
    ensures AtCall(WriteResult(s)) && ExecuteStage(c, s).Running? && AtCall(ExecuteStage(c, s).s)
  {
    NothingToWrite(s);
  }

  lemma CallIssues(c: Core, s: Machine, ids: Tags)
    requires c.program(0) == ECALL1 && AtCall(s)
    ensures Calling(Issue(c, s, ids), ids.0, None, Some(CallWaits(ids.0)))
  {
    assert Fetch(c, 0) == ECALL1 && Rs1(ECALL1) == 0 && Rd(ECALL1) == 1 && Imm(ECALL1) == 0;
    assert Issue(c, s, ids) == IssueOne(c, s, ids.0);
  }

  lemma CallClock1(c: Core, s: Machine, ids: Tags)
    requires c.program(0) == ECALL1 && AtCall(s)
    ensures Quiet(Clock(c, s, ids)) && Calling(Clock(c, s, ids).outcome.s, ids.0, None, Some(CallWaits(ids.0)))
  {
    CallExecute(c, s);
    CallExecute(c, WriteResult(s));
    CallIssues(c, ExecuteStage(c, WriteResult(s)).s, ids);
  }

  lemma CallComputes(c: Core, s: Machine, t: Tag)
    requires c.alu(Ecall, 0, 0) == Some(0) && Calling(s, t, None, Some(CallWaits(t)))
    ensures ExecuteStage(c, s).Running? && Calling(ExecuteStage(c, s).s, t, None, Some(CallFinished(t)))
  {
    assert AddressPhase(s).rob == s.rob;
  }

  lemma CallClock2(c: Core, s: Machine, t: Tag, ids: Tags)
    requires c.alu(Ecall, 0, 0) == Some(0) && Calling(s, t, None, Some(CallWaits(t)))
    ensures Quiet(Clock(c, s, ids)) && Calling(Clock(c, s, ids).outcome.s, t, None, Some(CallFinished(t)))
  {
    NothingToWrite(s);
    CallComputes(c, WriteResult(s), t);
  }

  lemma CallBroadcast(c: Core, s: Machine, t: Tag)
    requires Calling(s, t, None, Some(CallFinished(t)))
    ensures Calling(WriteResult(s), t, Some(0), None)
  {
    assert Jobs(s)[t] == Job(0, None);
  }

  lemma CallIdles(c: Core, s: Machine, t: Tag)
    requires Calling(s, t, Some(0), None)
    ensures ExecuteStage(c, s).Running? && Calling(ExecuteStage(c, s).s, t, Some(0), None)
  {
    assert AddressPhase(s).rob == s.rob;
  }

  lemma CallClock3(c: Core, s: Machine, t: Tag, ids: Tags)
    requires Calling(s, t, None, Some(CallFinished(t)))
    ensures Quiet(Clock(c, s, ids)) && Calling(Clock(c, s, ids).outcome.s, t, Some(0), None)
  {
    CallBroadcast(c, s, t);
    CallIdles(c, WriteResult(s), t);
  }

  /** An ECALL that names x1 leaves its entry's tag in the rename table: in clock 4 it has retired,
      the buffer is empty, and x1 still waits for it. */
  lemma EcallDangles(c: Core, m: Mem, sp: u32, i: Tags, j: Tags, k: Tags)
    requires c.program(0) == ECALL1 && c.alu(Ecall, 0, 0) == Some(0)
    requires forall regs: Regs, n: Mem {:trigger c.syscall(regs, n)} :: c.syscall(regs, n).Ok?
    ensures var r := Cycles(c, Initial(0, m, sp), [i] + [j] + [k]);
      && Quiet(r)
      && var q := Commit(c, r.outcome.s);
      && q.outcome.Running? && |q.retired| == 1 && q.outcome.s.rob == []
      && q.outcome.s.renames[1] == Some(i.0) && RegValue(q.outcome.s, 1) == Rob(i.0)
  {
    var s := Initial(0, m, sp);
    CallClock1(c, s, i);
    QuietRun(c, s, [], s, i);
    assert [] + [i] == [i];
    var s1 := Clock(c, s, i).outcome.s;
    CallClock2(c, s1, i.0, j);
    QuietRun(c, s, [i], s1, j);
    var s2 := Clock(c, s1, j).outcome.s;
    CallClock3(c, s2, i.0, k);
    QuietRun(c, s, [i] + [j], s2, k);
    CallRetires(c, Clock(c, s2, k).outcome.s, i.0);
  }

  lemma CallRetires(c: Core, s: Machine, t: Tag)
    requires Calling(s, t, Some(0), None) && c.syscall(s.gpr, s.mem).Ok?
    ensures var q := Commit(c, s);
      && q.outcome.Running? && |q.retired| == 1 && q.outcome.s.rob == []
      && q.outcome.s.renames[1] == Some(t) && RegValue(q.outcome.s, 1) == Rob(t)
  {
    assert s.rob[1..] == [];
  }
}
