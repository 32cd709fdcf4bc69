/** The core as an object (src/pipeline/mod.rs): every stage updates its parts in place, and is
    proved to do to their contents what the stage's function in OutOfOrder says. */
module Pipelines {
  import opened Words
  import opened Instructions
  import opened MemoryImage
  import opened BranchPrediction
  import opened Hardware
  import opened Isa
  import opened OutOfOrder
  import opened Invariant
  import opened InvariantCommit
  import opened InvariantWriteResult
  import opened InvariantExecute
  import opened InvariantIssue
  import opened Registers
  import opened ReorderBuffers
  import opened FunctionalUnits
  import opened ReservationStations
  import opened Simulation
  import opened Panics
  import opened Refinement
  import opened Runs

  class Pipeline {
    const program: Program
    const syscall: Syscalls
    const reg: RegisterFile
    const memory: ProcessMemory
    const rob: ReorderBuffer
    const rs: ReservationStation
    const branchPredictor: BranchPredictor
    var clock: nat

    function TheCore(): Core {
      RealCore(program, syscall)
    }

    /** Everything the parts hold. */
    ghost function Contents(): Machine
      requires reg.Valid()
      reads reg, reg.gpr, reg.relatedRob, memory, rob, rs, rs.addressUnit, rs.loadBuf, branchPredictor
    {
      Machine(reg.pc, reg.Values(), reg.Table(), memory.View(), rob.buf, rs.addressUnit.buf, rs.loadBuf.buf, rs.station,
              branchPredictor.branchMap)
    }

    ghost predicate Valid()
      reads reg, reg.gpr, reg.relatedRob, memory, rob, rs, rs.addressUnit, rs.loadBuf, branchPredictor
    {
      reg.Valid() && Inv(TheCore(), Contents())
    }

    constructor (program: Program, syscall: Syscalls, entryPoint: u32, memory: ProcessMemory, stackPointer: u32)
      ensures Valid() && Contents() == Initial(entryPoint, memory.View(), stackPointer)
      ensures this.memory == memory && this.program == program && this.syscall == syscall && clock == 0
    {
      this.program, this.syscall := program, syscall;
      this.memory := memory;
      reg := new RegisterFile(entryPoint, stackPointer);
      rob := new ReorderBuffer();
      rs := new ReservationStation();
      branchPredictor := new BranchPredictor();
      clock := 0;
      new;
      InitialInv(TheCore(), entryPoint, memory.View(), stackPointer);
    }

    method ClearAllBuffers()
      requires reg.Valid()
      modifies reg.relatedRob, rob, rs, rs.addressUnit, rs.loadBuf
      ensures reg.Valid() && Contents() == OutOfOrder.ClearAllBuffers(old(Contents()))
    {
      rs.Clear();
      rob.Clear();
      reg.ClearRenames();
    }

    /** Retire an entry that has left the buffer; `cancelled` tells a misprediction. */
    method Retire(e: RobEntry) returns (cancelled: bool, fault: Option<Fault>)
      requires reg.Valid()
      requires e.inst.opcode.Branch? ==> e.pc in branchPredictor.branchMap && e.regValue.Some? && e.regValue.value <= 1
      modifies reg, reg.gpr, reg.relatedRob, memory, rob, rs, rs.addressUnit, rs.loadBuf, branchPredictor
      ensures reg.Valid()
      ensures match OutOfOrder.Retire(TheCore(), old(Contents()), e)
        case Faulted(f) => fault == Some(f)
        case Cancelled(s) => fault == None && cancelled && Contents() == s
        case Retired(s) => fault == None && !cancelled && Contents() == s
    {
      cancelled, fault := false, None;
      if e.memException.Some? {
        return false, Some(Trap(e.memException.value));
      }
      if e.inst.opcode.Branch? {
        cancelled := e.regValue.value != (if e.branchPred then 1 else 0);
        branchPredictor.Update(e.pc, e.regValue.value);
        if cancelled {
          ClearAllBuffers();
          reg.pc := if e.regValue.value == 1 then Wrap(e.pc + Imm(e.inst)) else Wrap(e.pc + WORD_SIZE);
        }
      } else if IsEcall(e.inst) {
        fault := SystemCall();
      } else if e.regValue.Some? {
        reg.WriteReg(e.rd, e.regValue.value);
        reg.Release(e.rd, e.id);
      }
    }

    /** The system call sees the registers and memory and may write a0 and memory. */
    method SystemCall() returns (fault: Option<Fault>)
      requires reg.Valid()
      modifies reg.gpr, memory
      ensures reg.Valid()
      ensures match syscall(old(reg.Values()), old(memory.View()))
        case Err(x) => fault == Some(Trap(x))
        case Ok((a0, m)) =>
          fault == None && reg.Values() == old(reg.Values())[10 := a0] && memory.View() == m
    {
      var regs := reg.ReadAll();
      match syscall(regs, memory.View())
      case Err(x) => fault := Some(Trap(x));
      case Ok((a0, m)) =>
        fault := None;
        reg.WriteReg(10, a0);
        memory.Replace(m);
    }

    /** Retire the first of the popped entries `left`: one step of the commit that has them all
        still in the buffer. */
    method RetireFront(e: RobEntry, ghost left: seq<RobEntry>) returns (cancelled: bool, fault: Option<Fault>)
      requires reg.Valid() && left != [] && left[0] == e && IsCompleted(e)
      requires e.inst.opcode.Branch? ==> e.pc in branchPredictor.branchMap && e.regValue.Some? && e.regValue.value <= 1
      modifies reg, reg.gpr, reg.relatedRob, memory, rob, rs, rs.addressUnit, rs.loadBuf, branchPredictor
      ensures reg.Valid() && (fault.None? ==> old(branchPredictor.branchMap).Keys <= branchPredictor.branchMap.Keys)
      ensures var r := OutOfOrder.Commit(TheCore(), old(Contents()).(rob := left + old(rob.buf)));
        && (fault.Some? ==> r == Committed(Panic(fault.value), []))
        && (fault.None? && cancelled ==> r == Committed(Running(Contents()), [e]))
        && (fault.None? && !cancelled ==>
              rob.buf == old(rob.buf) && r == Preceded([e], OutOfOrder.Commit(TheCore(), Contents().(rob := left[1..] + rob.buf))))
    {
      CommitStep(TheCore(), Contents(), left, rob.buf);
      RetireKeepsTable(TheCore(), Contents(), e);
      RetireIgnoresRob(TheCore(), Contents(), e, rob.buf);
      cancelled, fault := Retire(e);
    }

    /** `done` have retired of the popped entries, and `completed[i..]` are left of the commit that
        ends in `goal`. */
    ghost predicate Retiring(completed: seq<RobEntry>, i: nat, done: seq<RobEntry>, goal: Committed)
      reads reg, reg.gpr, reg.relatedRob, memory, rob, rs, rs.addressUnit, rs.loadBuf, branchPredictor
    {
      && i <= |completed| && reg.Valid()
      && (rob.buf != [] ==> !IsCompleted(rob.buf[0]))
      && (forall k :: 0 <= k < |completed| ==> IsCompleted(completed[k]))
      && BranchesKnown(branchPredictor.branchMap, completed)
      && goal == Preceded(done, OutOfOrder.Commit(TheCore(), Contents().(rob := completed[i..] + rob.buf)))
    }

    method RetireNext(completed: seq<RobEntry>, i: nat, ghost done: seq<RobEntry>, ghost goal: Committed)
      returns (cancelled: bool, fault: Option<Fault>)
      requires i < |completed| && Retiring(completed, i, done, goal)
      modifies reg, reg.gpr, reg.relatedRob, memory, rob, rs, rs.addressUnit, rs.loadBuf, branchPredictor
      ensures reg.Valid()
      ensures fault.Some? ==> goal == Committed(Panic(fault.value), done)
      ensures fault.None? && cancelled ==> goal == Committed(Running(Contents()), done + [completed[i]])
      ensures fault.None? && !cancelled ==> Retiring(completed, i + 1, done + [completed[i]], goal)
    {
      assert completed[i..][1..] == completed[i + 1..];
      cancelled, fault := RetireFront(completed[i], completed[i..]);
      if fault.None? && !cancelled {
        PrecededTwice(done, completed[i], OutOfOrder.Commit(TheCore(), Contents().(rob := completed[i + 1..] + rob.buf)));
      }
    }

    lemma RetiringStarts(completed: seq<RobEntry>)
      requires reg.Valid() && (rob.buf != [] ==> !IsCompleted(rob.buf[0])) && BranchesKnown(branchPredictor.branchMap, completed)
      requires forall k :: 0 <= k < |completed| ==> IsCompleted(completed[k])
      ensures Retiring(completed, 0, [], OutOfOrder.Commit(TheCore(), Contents().(rob := completed + rob.buf)))
    {
      assert completed[0..] == completed;
    }

    lemma RetiringEnds(completed: seq<RobEntry>, done: seq<RobEntry>, goal: Committed)
      requires Retiring(completed, |completed|, done, goal)
      ensures goal == Committed(Running(Contents()), done)
    {
      CommitDone(TheCore(), Contents(), completed[|completed|..]);
    }

    /** Retire `completed` in order, until one is a misprediction. */
    method RetireAll(completed: seq<RobEntry>) returns (retired: seq<RobEntry>, fault: Option<Fault>)
      requires rob.buf != [] ==> !IsCompleted(rob.buf[0])
      requires forall k :: 0 <= k < |completed| ==> IsCompleted(completed[k])
      requires reg.Valid() && BranchesKnown(branchPredictor.branchMap, completed)
      modifies reg, reg.gpr, reg.relatedRob, memory, rob, rs, rs.addressUnit, rs.loadBuf, branchPredictor
      ensures reg.Valid()
      ensures Committed(Outcome(fault), retired)
           == OutOfOrder.Commit(TheCore(), old(Contents()).(rob := completed + old(rob.buf)))
    {
      ghost var goal := OutOfOrder.Commit(TheCore(), Contents().(rob := completed + rob.buf));
      RetiringStarts(completed);
      retired, fault := [], None;
      var i, cancelled := 0, false;
      while i < |completed| && !cancelled
        invariant 0 <= i <= |completed| && reg.Valid() && fault == None
        invariant if cancelled then goal == Committed(Running(Contents()), retired) else Retiring(completed, i, retired, goal)
      {
        cancelled, fault := RetireNext(completed, i, retired, goal);
        if fault.Some? { return; }
        retired := retired + [completed[i]];
        i := i + 1;
      }
      if !cancelled { RetiringEnds(completed, retired, goal); }
    }

    /** Retire the completed entries at the front, until one is a misprediction. */
    method Commit() returns (retired: seq<RobEntry>, fault: Option<Fault>)
      requires Valid()
      modifies reg, reg.gpr, reg.relatedRob, memory, rob, rs, rs.addressUnit, rs.loadBuf, branchPredictor
      ensures reg.Valid() && Committed(Outcome(fault), retired) == OutOfOrder.Commit(TheCore(), old(Contents()))
    {
      ghost var s := Contents();
      var completed := rob.CompletedEntries();
      CompletedBranches(TheCore(), s, completed, rob.buf);
      assert Contents().(rob := completed + rob.buf) == s;
      retired, fault := RetireAll(completed);
    }

    /** Broadcast what has finished, one result at a time, in whatever order the units list it. */
    method WriteResult()
      requires Valid()
      modifies rob, rs, rs.addressUnit, rs.loadBuf
      ensures reg.Valid() && Contents() == OutOfOrder.WriteResult(old(Contents()))
    {
      ghost var s := Contents();
      InvCountdowns(TheCore(), s);
      var jobs := rs.CompletedJobs();
      Deliver(jobs);
    }

    method Deliver(jobs: seq<(Tag, Job)>)
      requires reg.Valid() && NoDuplicates(jobs)
      modifies rob, rs, rs.addressUnit
      ensures reg.Valid() && Contents() == Broadcast(old(Contents()), JobMap(jobs))
    {
      ghost var s := Contents();
      BroadcastNothing(s);
      assert jobs[..0] == [];
      for i := 0 to |jobs|
        invariant reg.Valid() && Contents() == Broadcast(s, JobMap(jobs[..i]))
      {
        BroadcastMore(s, jobs, i);
        rs.Propagate(jobs[i].0, jobs[i].1);
        rob.Propagate(jobs[i].0, jobs[i].1);
      }
      assert jobs[..|jobs|] == jobs;
    }

    method ExecuteStage() returns (fault: Option<Fault>)
      requires Valid()
      modifies reg, rs, rs.addressUnit, rs.loadBuf, rob, memory
      ensures reg.Valid() && Outcome(fault) == OutOfOrder.ExecuteStage(TheCore(), old(Contents()))
    {
      var npc;
      npc, fault := rs.Execute(rob, memory, TheCore(), Contents());
      if npc.Some? {
        reg.pc := npc.value;
      }
    }

    /** The new entry's operands that only the reorder buffer holds. */
    method MemoryOperands(i: Inst, ghost s: Machine) returns (memValue: Operand, addr: Operand)
      requires reg.Reflects(s, rob.buf)
      ensures memValue == if i.opcode.Store? || i.opcode.Amo? then RegValue(s, Rs2(i)) else Nothing
      ensures addr == if i.opcode.Amo? then RegValue(s, Rs1(i)) else Nothing
    {
      memValue, addr := Nothing, Nothing;
      if i.opcode.Store? || i.opcode.Amo? {
        memValue := reg.GetRegValue(Rs2(i), rob.buf, s);
      }
      if i.opcode.Amo? {
        addr := reg.GetRegValue(Rs1(i), rob.buf, s);
      }
    }

    /** Fetch at pc, predict a branch, and move pc on. */
    method FetchAndPredict() returns (i: Inst, stop: bool, branchPred: bool)
      modifies reg, branchPredictor
      ensures i == Fetch(TheCore(), old(reg.pc)) && stop == EndsGroup(i)
      ensures branchPred == (i.opcode.Branch? && Predicts(old(branchPredictor.branchMap), old(reg.pc)))
      ensures reg.pc == PredictedNext(i, old(reg.pc), branchPred)
      ensures branchPredictor.branchMap ==
        if i.opcode.Branch? then Entered(old(branchPredictor.branchMap), old(reg.pc)) else old(branchPredictor.branchMap)
    {
      var pc := reg.pc;
      i := program(pc);
      if IsFloat(i.opcode) {
        i := NOP;
      }
      var npc := Wrap(pc + WORD_SIZE);
      stop := false;
      if i.opcode.Jal? {
        npc, stop := Wrap(pc + Imm(i)), true;
      } else if i.opcode.Jalr? {
        npc, stop := pc, true;
      } else if i.opcode.System? && i.func.Ecall? {
        stop := true;
      } else if i.opcode.Branch? {
        var taken := branchPredictor.Predict(pc);
        if taken {
          npc := Wrap(pc + Imm(i));
        }
      }
      reg.pc := npc;
      branchPred := false;
      if i.opcode.Branch? {
        branchPred := branchPredictor.Predict(pc);
      }
    }

    /** Enter the instruction into the reorder buffer, the units and the rename table. */
    method Dispatch(i: Inst, t: Tag, branchPred: bool, pc: u32, ghost s: Machine)
      requires reg.Valid() && s == Contents().(pc := pc, predictor := s.predictor)
      requires NamesLive(s)
      modifies reg.relatedRob, rob, rs, rs.addressUnit, rs.loadBuf
      ensures reg.Valid() && Contents() == old(Contents()).(
        rob := s.rob + [NewRobEntry(s, i, t, branchPred)],
        addressUnit := if UsesAddressUnit(i) then s.addressUnit[t := NewAddressEntry(s, i, t)] else s.addressUnit,
        loadBuf := if ReadsMem(i) then s.loadBuf[t := LoadEntry(t, Wait, Ok(0))] else s.loadBuf,
        station := if UsesAlu(i) then s.station[t := NewStationEntry(s, i, t)] else s.station,
        renames := if Rd(i) == 0 then s.renames else s.renames[Rd(i) := Some(t)])
    {
      var memValue, addr := MemoryOperands(i, s);
      var e := RobEntry(t, pc, i, memValue, None, Rd(i), addr, branchPred, MEM_CYCLE, None);
      LookupsKept(s, e);
      rob.Add(e);
      rs.Issue(t, i, pc, reg, rob.buf, s);
      reg.SetRegRobIndex(Rd(i), t);
    }

    /** Fetch, predict, rename and dispatch one instruction; `t` is the address its entry gets. */
    method IssueOne(t: Tag) returns (stop: bool)
      requires Valid() && Free(Contents(), t)
      modifies reg, reg.relatedRob, rob, rs, rs.addressUnit, rs.loadBuf, branchPredictor
      ensures reg.Valid() && Contents() == OutOfOrder.IssueOne(TheCore(), old(Contents()), t)
      ensures stop == EndsGroup(Fetch(TheCore(), old(reg.pc)))
    {
      ghost var s := Contents();
      var pc := reg.pc;
      InvNamesLive(TheCore(), s);
      var i, branchPred;
      i, stop, branchPred := FetchAndPredict();
      Dispatch(i, t, branchPred, pc, s);
    }

    /** Up to two instructions enter, unless the youngest entry forbids it. */
    method Issue(ids: Tags)
      requires Valid() && FreeTags(Contents(), ids)
      modifies reg, reg.relatedRob, rob, rs, rs.addressUnit, rs.loadBuf, branchPredictor
      ensures reg.Valid() && Contents() == OutOfOrder.Issue(TheCore(), old(Contents()), ids)
    {
      if rob.buf != [] {
        var last := rob.buf[|rob.buf| - 1];
        if last.inst.func.Ecall? || (last.inst.func.Jalr? && !IsCompleted(last)) { return; }
      }
      ghost var s := Contents();
      var stop := IssueOne(ids.0);
      if stop { return; }
      IssueOneInv(TheCore(), s, ids.0);
      stop := IssueOne(ids.1);
    }

    method IsProgramFinished(retired: seq<RobEntry>) returns (finished: bool)
      requires reg.Valid()
      ensures finished == IsFinished(Contents(), retired)
    {
      for i := 0 to |retired|
        invariant forall k :: 0 <= k < i ==> !(IsEcall(retired[k].inst) && Contents().gpr[17] in {93, 94})
      {
        if retired[i].inst.func.Ecall? {
          if reg.gpr[17].value in {93, 94} { return true; }
        }
      }
      finished := false;
    }

    /** One clock: commit, write back, execute, issue. */
    method RunClock(ids: Tags) returns (retired: seq<RobEntry>, finished: bool, fault: Option<Fault>)
      requires Valid() && EcallsPlain(TheCore()) && Allocates(TheCore(), Contents(), [ids])
      modifies this`clock, reg, reg.gpr, reg.relatedRob, memory, rob, rs, rs.addressUnit, rs.loadBuf, branchPredictor
      ensures clock == old(clock) + 1
      ensures reg.Valid() && Clocked(Outcome(fault), retired, finished) == Clock(TheCore(), old(Contents()), ids)
      ensures fault.None? ==> Valid()
    {
      ghost var c, s := TheCore(), Contents();
      RealCoreSound(program, syscall);
      clock := clock + 1;
      CommitInv(c, s);
      retired, fault := Commit();
      finished := false;
      if fault.Some? { return; }
      ghost var s1 := Contents();
      finished := IsProgramFinished(retired);
      if finished { return; }
      WriteResultInv(c, s1);
      WriteResult();
      if OutOfOrder.ExecuteStage(c, OutOfOrder.WriteResult(s1)).Running? { ExecuteInv(c, OutOfOrder.WriteResult(s1)); }
      fault := ExecuteStage();
      if fault.Some? { return; }
      IssueInv(c, Contents(), ids);
      Issue(ids);
    }

    /** The main loop: clocks until the program finishes, a panic, or `tags` runs out. Started from
        a state that simulates `a`, the objects end in one that simulates the sequential machine
        after the instructions retired. */
    method RunClocks(tags: seq<Tags>, ghost w: Scope, ghost a: State) returns (retired: seq<RobEntry>, finished: bool, fault: Option<Fault>)
      requires Valid() && EcallsPlain(TheCore()) && Allocates(TheCore(), Contents(), tags)
      modifies this`clock, reg, reg.gpr, reg.relatedRob, memory, rob, rs, rs.addressUnit, rs.loadBuf, branchPredictor
      ensures reg.Valid() && Clocked(Outcome(fault), retired, finished) == Cycles(TheCore(), old(Contents()), tags)
      ensures (&& Simulates(w, TheCore(), old(Contents()), a) && GateSafeRun(w, TheCore(), old(Contents()), a, tags)
               && JumpsOk(TheCore(), a, |retired|)) ==>
        Refines(w, TheCore(), a, Clocked(Outcome(fault), retired, finished), StopOf(TheCore(), old(Contents()), tags))
    {
      ghost var c, s := TheCore(), Contents();
      retired, finished, fault := Loop(tags);
      if Simulates(w, c, s, a) && GateSafeRun(w, c, s, a, tags) && JumpsOk(c, a, |retired|) {
        RealCoreSound(program, syscall);
        RunRefines(w, c, s, a, tags);
      }
    }

    /** `i` clocks of the run that ends in `goal` are over, and have retired `done`. */
    ghost predicate Underway(tags: seq<Tags>, i: nat, done: seq<RobEntry>, goal: Clocked)
      reads reg, reg.gpr, reg.relatedRob, memory, rob, rs, rs.addressUnit, rs.loadBuf, branchPredictor
    {
      && i <= |tags| && Valid() && EcallsPlain(TheCore())
      && Allocates(TheCore(), Contents(), tags[i..])
      && goal == Following(done, Cycles(TheCore(), Contents(), tags[i..]))
    }

    method LoopOnce(tags: seq<Tags>, i: nat, ghost done: seq<RobEntry>, ghost goal: Clocked)
      returns (retired: seq<RobEntry>, finished: bool, fault: Option<Fault>)
      requires i < |tags| && Underway(tags, i, done, goal)
      modifies this`clock, reg, reg.gpr, reg.relatedRob, memory, rob, rs, rs.addressUnit, rs.loadBuf, branchPredictor
      ensures reg.Valid()
      ensures if finished || fault.Some? then goal == Clocked(Outcome(fault), done + retired, finished)
              else Underway(tags, i + 1, done + retired, goal)
    {
      ghost var c, now, left := TheCore(), Contents(), tags[i..];
      assert left[0] == tags[i] && left[1..] == tags[i + 1..];
      OneClock(c, now, left);
      ghost var first := Clock(c, now, tags[i]);
      retired, finished, fault := RunClock(tags[i]);
      if Alive(first) { FollowingTwice(done, retired, Cycles(c, first.outcome.s, left[1..])); }
    }

    method Loop(tags: seq<Tags>) returns (retired: seq<RobEntry>, finished: bool, fault: Option<Fault>)
      requires Valid() && EcallsPlain(TheCore()) && Allocates(TheCore(), Contents(), tags)
      modifies this`clock, reg, reg.gpr, reg.relatedRob, memory, rob, rs, rs.addressUnit, rs.loadBuf, branchPredictor
      ensures reg.Valid() && Clocked(Outcome(fault), retired, finished) == Cycles(TheCore(), old(Contents()), tags)
    {
      ghost var goal := Cycles(TheCore(), Contents(), tags);
      retired, finished, fault := [], false, None;
      var i := 0;
      assert tags[0..] == tags && Following([], goal) == goal;
      while i < |tags| && !finished && fault.None?
        invariant 0 <= i <= |tags| && reg.Valid()
        invariant if finished || fault.Some? then goal == Clocked(Outcome(fault), retired, finished) else Underway(tags, i, retired, goal)
      {
        var more;
        more, finished, fault := LoopOnce(tags, i, retired, goal);
        retired := retired + more;
        i := i + 1;
      }
      assert tags[|tags|..] == [];
    }

    /** The outcome of a stage: where it has left the parts, or the panic that ended it. */
    ghost function Outcome(fault: Option<Fault>): Outcome
      requires reg.Valid()
      reads reg, reg.gpr, reg.relatedRob, memory, rob, rs, rs.addressUnit, rs.loadBuf, branchPredictor
    {
      if fault.Some? then Panic(fault.value) else Running(Contents())
    }
  }

  lemma CommitDone(c: Core, s: Machine, left: seq<RobEntry>)
    requires left == [] && (s.rob != [] ==> !IsCompleted(s.rob[0]))
    ensures OutOfOrder.Commit(c, s.(rob := left + s.rob)) == Committed(Running(s), [])
  {
    assert s.(rob := left + s.rob) == s;
  }

  /** A commit that has already retired `first`. */
  function Preceded(first: seq<RobEntry>, r: Committed): Committed {
    Committed(r.outcome, first + r.retired)
  }

  lemma PrecededTwice(first: seq<RobEntry>, e: RobEntry, r: Committed)
    ensures Preceded(first, Preceded([e], r)) == Preceded(first + [e], r)
  {
    assert first + ([e] + r.retired) == (first + [e]) + r.retired;
  }

  /** Every tag in the rename table is in the buffer: no pointer dangles. */
  ghost predicate NamesLive(s: Machine) {
    forall r: Reg :: s.renames[r].Some? ==> Lookup(s.rob, s.renames[r].value).Some?
  }

  lemma InvNamesLive(c: Core, s: Machine)
    requires Inv(c, s)
    ensures NamesLive(s)
  {
    forall r: Reg | s.renames[r].Some? ensures Lookup(s.rob, s.renames[r].value).Some? {
      LookupIs(s.rob, LastWriter(s.rob, |s.rob|, r));
    }
  }

  lemma {:induction false} LookupAppend(rob: seq<RobEntry>, e: RobEntry, t: Tag)
    requires Lookup(rob, t).Some?
    ensures Lookup(rob + [e], t) == Lookup(rob, t)
  {
    if rob[0].id != t {
      LookupAppend(rob[1..], e, t);
      assert (rob + [e])[1..] == rob[1..] + [e];
    }
  }

  /** A new entry at the end hides none of the entries the rename table names. */
  lemma LookupsKept(s: Machine, e: RobEntry)
    requires NamesLive(s)
    ensures SameLookups(s, s.rob + [e])
  {
    forall r: Reg | s.renames[r].Some?
      ensures Lookup(s.rob + [e], s.renames[r].value) == Lookup(s.rob, s.renames[r].value)
    {
      LookupAppend(s.rob, e, s.renames[r].value);
    }
  }

  lemma BroadcastNothing(s: Machine)
    ensures Broadcast(s, map[]) == s
  {
    assert WokenRob(s.rob, map[]) == s.rob;
    assert WokenStation(s.station, map[]) == s.station;
    assert WokenAddresses(s.addressUnit, map[]) == s.addressUnit;
  }

  lemma WakeTwice(op: Operand, jobs: map<Tag, Job>, t: Tag, job: Job)
    requires t !in jobs
    ensures Wake(Wake(op, jobs), map[t := job]) == Wake(op, jobs[t := job])
  {
  }

  lemma WakeRobTwice(e: RobEntry, jobs: map<Tag, Job>, t: Tag, job: Job)
    requires t !in jobs
    ensures WakeRob(WakeRob(e, jobs), map[t := job]) == WakeRob(e, jobs[t := job])
  {
    if e.id == t {
      assert jobs[t := job] - {t} == jobs - {t} && map[t := job] - {t} == map[];
    } else {
      assert jobs[t := job] - {e.id} == (jobs - {e.id})[t := job] && map[t := job] - {e.id} == map[t := job];
      WakeTwice(e.addr, jobs - {e.id}, t, job);
      WakeTwice(e.memValue, jobs - {e.id}, t, job);
    }
  }

  lemma WokenStationTwice(m: map<Tag, RsEntry>, jobs: map<Tag, Job>, t: Tag, job: Job)
    requires t !in jobs
    ensures WokenStation(WokenStation(m, jobs), map[t := job]) == WokenStation(m, jobs[t := job])
  {
    forall k | k in m ensures WakeRs(WakeRs(m[k], jobs), map[t := job]) == WakeRs(m[k], jobs[t := job]) {
      WakeTwice(m[k].op1, jobs, t, job);
      WakeTwice(m[k].op2, jobs, t, job);
    }
  }

  lemma WokenAddressesTwice(m: map<Tag, RsEntry>, jobs: map<Tag, Job>, t: Tag, job: Job)
    requires t !in jobs
    ensures WokenAddresses(WokenAddresses(m, jobs), map[t := job]) == WokenAddresses(m, jobs[t := job])
  {
    forall k | k in m ensures WakeAddress(WakeAddress(m[k], jobs), map[t := job]) == WakeAddress(m[k], jobs[t := job]) {
      WakeTwice(m[k].op1, jobs, t, job);
    }
  }

  lemma WokenRobTwice(rob: seq<RobEntry>, jobs: map<Tag, Job>, t: Tag, job: Job)
    requires t !in jobs
    ensures WokenRob(WokenRob(rob, jobs), map[t := job]) == WokenRob(rob, jobs[t := job])
  {
    forall i | 0 <= i < |rob| ensures WakeRob(WakeRob(rob[i], jobs), map[t := job]) == WakeRob(rob[i], jobs[t := job]) {
      WakeRobTwice(rob[i], jobs, t, job);
    }
  }

  /** Broadcasts of distinct tags add up. */
  lemma BroadcastTwice(s: Machine, jobs: map<Tag, Job>, t: Tag, job: Job)
    requires t !in jobs
    ensures Broadcast(Broadcast(s, jobs), map[t := job]) == Broadcast(s, jobs[t := job])
  {
    WokenStationTwice(s.station, jobs, t, job);
    WokenAddressesTwice(s.addressUnit, jobs, t, job);
    WokenRobTwice(s.rob, jobs, t, job);
  }

  lemma BroadcastMore(s: Machine, jobs: seq<(Tag, Job)>, i: nat)
    requires i < |jobs| && NoDuplicates(jobs)
    ensures Broadcast(Broadcast(s, JobMap(jobs[..i])), map[jobs[i].0 := jobs[i].1]) == Broadcast(s, JobMap(jobs[..i + 1]))
  {
    assert jobs[..i + 1] == jobs[..i] + [(jobs[i].0, jobs[i].1)];
    JobMapSnoc(jobs[..i], jobs[i].0, jobs[i].1);
    JobMapKeys(jobs[..i]);
    BroadcastTwice(s, JobMap(jobs[..i]), jobs[i].0, jobs[i].1);
  }

  /** The branches among `entries` have an outcome, and the predictor knows them. */
  ghost predicate BranchesKnown(t: Table, entries: seq<RobEntry>) {
    forall i :: 0 <= i < |entries| && entries[i].inst.opcode.Branch? ==>
      entries[i].pc in t && entries[i].regValue.Some? && entries[i].regValue.value <= 1
  }

  lemma CompletedBranches(c: Core, s: Machine, completed: seq<RobEntry>, rest: seq<RobEntry>)
    requires Inv(c, s) && s.rob == completed + rest && forall e :: e in completed ==> IsCompleted(e)
    ensures BranchesKnown(s.predictor, completed)
  {
    forall i | 0 <= i < |completed| && completed[i].inst.opcode.Branch?
      ensures completed[i].pc in s.predictor && completed[i].regValue.Some? && completed[i].regValue.value <= 1
    {
      assert completed[i] in completed;
      assert s.rob[i] == completed[i];
      assert SlotOk(c, s, i);
    }
  }

  lemma RetireKeepsTable(c: Core, s: Machine, e: RobEntry)
    ensures var r := OutOfOrder.Retire(c, s, e);
      (r.Retired? || r.Cancelled?) ==> s.predictor.Keys <= r.s.predictor.Keys
  {
  }

  /** Retiring does not look at the buffer. */
  lemma RetireIgnoresRob(c: Core, s: Machine, e: RobEntry, rob: seq<RobEntry>)
    ensures var r, q := OutOfOrder.Retire(c, s, e), OutOfOrder.Retire(c, s.(rob := rob), e);
      && (r.Faulted? || r.Cancelled? ==> q == r)
      && (r.Retired? ==> q == Retired(r.s.(rob := rob)) && r.s.rob == s.rob)
  {
  }

  /** Commit takes the entries that were popped together one by one. */
  lemma CommitStep(c: Core, s: Machine, popped: seq<RobEntry>, rest: seq<RobEntry>)
    requires popped != [] && IsCompleted(popped[0]) && s.rob == rest
    ensures var r := OutOfOrder.Commit(c, s.(rob := popped + rest));
      var q := OutOfOrder.Retire(c, s, popped[0]);
      && (q.Faulted? ==> r == Committed(Panic(q.fault), []))
      && (q.Cancelled? ==> r == Committed(Running(q.s), [popped[0]]))
      && (q.Retired? ==> r == Preceded([popped[0]], OutOfOrder.Commit(c, q.s.(rob := popped[1..] + rest))))
  {
    var t := s.(rob := popped + rest);
    assert t.rob[0] == popped[0] && t.rob[1..] == popped[1..] + rest;
    RetireIgnoresRob(c, s, popped[0], t.rob[1..]);
    assert t.(rob := t.rob[1..]) == s.(rob := t.rob[1..]);
  }
}
