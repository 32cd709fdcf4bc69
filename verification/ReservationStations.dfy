/** The reservation station, with the address unit and the load buffer it contains, as an object
    (src/pipeline/reservation_staion.rs), and the store unit. */
module ReservationStations {
  import opened Words
  import opened Instructions
  import opened ByteMemory
  import opened MemoryImage
  import opened Isa
  import opened OutOfOrder
  import opened Invariant
  import opened Registers
  import opened ReorderBuffers
  import opened FunctionalUnits

  /** The core stores to memory as the memory does. */
  ghost predicate RealStore(c: Core) {
    forall f, m, a, v :: c.store(f, m, a, v) == StoreTo(f, m, a, v)
  }

  /** `MemoryUnit::execute_store` for the entry at the head of the buffer. */
  method ExecuteStore(e: RobEntry, memory: ProcessMemory, ghost c: Core, ghost s: Machine)
    returns (e': RobEntry, fault: Option<Fault>)
    requires RealStore(c) && s.rob != [] && s.rob[0] == e && WritesMem(e.inst) && s.mem == memory.View()
    modifies memory
    ensures match StorePhase(c, s)
      case Panic(f) => fault == Some(f)
      case Running(t) => fault == None && memory.View() == t.mem && t == s.(mem := t.mem, rob := s.rob[0 := e'])
  {
    e', fault := e, None;
    assert s == s.(rob := s.rob[0 := e]);
    if e.inst.opcode.Amo? && e.regValue.None? { return; }
    if e.addr.Value? && e.memValue.Value? {
      assert c.store(e.inst.func, s.mem, e.addr.v, e.memValue.v) == StoreTo(e.inst.func, s.mem, e.addr.v, e.memValue.v);
      fault := memory.WriteSlice(e.addr.v, ToBytes(e.memValue.v, Width(e.inst.func)));
      if fault.None? {
        e' := e.(memRemCycle := 0);
      }
    }
  }

  /** The head of the buffer writes memory if it is a store or atomic that can. */
  method StoreHead(rob: ReorderBuffer, memory: ProcessMemory, ghost c: Core, ghost s: Machine) returns (fault: Option<Fault>)
    requires RealStore(c) && s.rob == rob.buf && s.mem == memory.View()
    modifies rob, memory
    ensures match StorePhase(c, s)
      case Panic(f) => fault == Some(f)
      case Running(t) => fault == None && rob.buf == t.rob && memory.View() == t.mem && t == s.(mem := t.mem, rob := t.rob)
  {
    fault := None;
    if rob.buf != [] && WritesMem(rob.buf[0].inst) {
      var head;
      head, fault := ExecuteStore(rob.buf[0], memory, c, s);
      if fault.Some? { return; }
      rob.Put(rob.buf[0].id, head);
    }
  }

  class ReservationStation {
    const addressUnit: AddressUnit
    const loadBuf: LoadBuffer
    var station: map<Tag, RsEntry>

    constructor ()
      ensures fresh(addressUnit) && fresh(loadBuf)
      ensures station == map[] && addressUnit.buf == map[] && loadBuf.buf == map[]
    {
      addressUnit := new AddressUnit();
      loadBuf := new LoadBuffer();
      station := map[];
    }

    method Clear()
      modifies this, addressUnit, loadBuf
      ensures station == map[] && addressUnit.buf == map[] && loadBuf.buf == map[]
    {
      station := map[];
      loadBuf.Clear();
      addressUnit.Clear();
    }

    /** The operand pair of a station entry. */
    method Operands(i: Inst, pc: u32, reg: RegisterFile, rob: seq<RobEntry>, ghost s: Machine)
      returns (op1: Operand, op2: Operand)
      requires reg.Reflects(s, rob)
      ensures op1 == Capture(s, Src1(pc, i)) && op2 == Capture(s, Src2(i))
    {
      if i.opcode.Jalr? || i.opcode.Jal? {
        op1, op2 := Value(pc), Value(WORD_SIZE);
      } else if i.opcode.AuiPc? {
        op1, op2 := Value(pc), Value(Imm(i));
      } else if i.opcode.Lui? {
        op1, op2 := Value(0), Value(Imm(i));
      } else if i.opcode.Amo? {
        op1, op2 := Value(0), Value(0);
      } else {
        op1 := reg.GetRegValue(Rs1(i), rob, s);
        if i.fields.rs2.Some? {
          op2 := reg.GetRegValue(Rs2(i), rob, s);
        } else {
          op2 := Value(Imm(i));
        }
      }
    }

    /** Dispatch the instruction of the new entry to the buffers that work on it. */
    method Issue(t: Tag, i: Inst, pc: u32, reg: RegisterFile, rob: seq<RobEntry>, ghost s: Machine)
      requires reg.Reflects(s, rob) && s.pc == pc
      requires s.addressUnit == addressUnit.buf && s.loadBuf == loadBuf.buf && s.station == station
      modifies this, addressUnit, loadBuf
      ensures addressUnit.buf == if UsesAddressUnit(i) then s.addressUnit[t := NewAddressEntry(s, i, t)] else s.addressUnit
      ensures loadBuf.buf == if ReadsMem(i) then s.loadBuf[t := LoadEntry(t, Wait, Ok(0))] else s.loadBuf
      ensures station == if UsesAlu(i) then s.station[t := NewStationEntry(s, i, t)] else s.station
    {
      if i.opcode.Store? {
        addressUnit.Issue(t, i, reg, rob, s);
      } else if i.opcode.Load? {
        addressUnit.Issue(t, i, reg, rob, s);
        loadBuf.Issue(t);
      } else if i.opcode.Amo? && !i.func.Scw? {
        loadBuf.Issue(t);
      } else {
        if i.opcode.Jalr? {
          addressUnit.Issue(t, i, reg, rob, s);
        }
        var op1, op2 := Operands(i, pc, reg, rob, s);
        station := station[t := RsEntry(t, Wait, i, op1, op2, 0, RemainClock(i.func))];
      }
    }

    /** Hand one result to the address unit and the station. */
    method Propagate(t: Tag, job: Job)
      modifies this, addressUnit
      ensures addressUnit.buf == WokenAddresses(old(addressUnit.buf), map[t := job])
      ensures station == WokenStation(old(station), map[t := job])
    {
      addressUnit.Propagate(t, job);
      var todo := station.Keys;
      while todo != {}
        invariant todo <= station.Keys == old(station).Keys
        invariant addressUnit.buf == WokenAddresses(old(addressUnit.buf), map[t := job])
        invariant forall k :: k in station ==>
          station[k] == if k in todo then old(station)[k] else WakeRs(old(station)[k], map[t := job])
      {
        var k :| k in todo;
        todo := todo - {k};
        var e := station[k];
        if e.op1 == Rob(t) { e := e.(op1 := Value(job.value)); }
        if e.op2 == Rob(t) { e := e.(op2 := Value(job.value)); }
        station := station[k := e];
      }
    }

    /** One entry's clock; `None` if the arithmetic unit panics. */
    method StepEntry(c: Core, entry: RsEntry) returns (e: Option<RsEntry>)
      requires entry.status.Finished? || entry.remainingClock > 0
      ensures e == if Computes(entry) && AluResult(c, entry).None? then None else Some(StationSlot(c, entry))
    {
      if entry.status.Finished? || !entry.op1.Value? || !entry.op2.Value? {
        return Some(entry);
      }
      var q := entry.(status := Status.Execute, remainingClock := entry.remainingClock - 1);
      if q.remainingClock == 0 {
        var v := c.alu(q.inst.func, q.op1.v, q.op2.v);
        if v.None? { return None; }
        q := q.(value := v.value, status := Finished);
      }
      e := Some(q);
    }

    /** Every entry with both operands counts down, and computes when the countdown ends. Whatever
        the order, the effect is that of the station phase. */
    method ExecuteGeneral(c: Core) returns (panicked: bool)
      requires forall t :: t in station ==> station[t].status.Finished? || station[t].remainingClock > 0
      modifies this
      ensures panicked <==> AnyAluPanics(c, old(station))
      ensures !panicked ==> station == SteppedStation(c, old(station))
    {
      var todo := station.Keys;
      while todo != {}
        invariant todo <= station.Keys == old(station).Keys
        invariant forall k :: k in station ==>
          station[k] == if k in todo then old(station)[k] else StationSlot(c, old(station)[k])
        invariant forall k :: k in station && k !in todo ==>
          !(Computes(old(station)[k]) && AluResult(c, old(station)[k]).None?)
      {
        var k :| k in todo;
        todo := todo - {k};
        var e := StepEntry(c, station[k]);
        if e.None? { return true; }
        station := station[k := e.value];
      }
      panicked := false;
    }

    /** Take the finished entries out of the station, in any order. */
    method PopGenerals() returns (jobs: seq<(Tag, Job)>)
      requires forall t :: t in station ==> station[t].robIndex == t
      modifies this
      ensures JobMap(jobs) == StationJobs(old(station)) && NoDuplicates(jobs)
      ensures station == UnfinishedStation(old(station))
    {
      var todo, finished := station.Keys, {};
      jobs := [];
      while todo != {}
        invariant todo <= old(station).Keys && station == old(station)
        invariant finished == set t | t in old(station).Keys - todo && old(station)[t].status.Finished?
        invariant NoDuplicates(jobs) && JobMap(jobs) == map t | t in finished :: Job(old(station)[t].value, None)
      {
        var t :| t in todo;
        todo := todo - {t};
        if station[t].status.Finished? {
          var entry := station[t];
          JobMapSnoc(jobs, entry.robIndex, Job(entry.value, None));
          jobs := jobs + [(entry.robIndex, Job(entry.value, None))];
          finished := finished + {t};
        }
      }
      station := map t | t in station && t !in finished :: station[t];
    }

    /** Take out everything finished: the loads, then the station's entries. */
    method CompletedJobs() returns (jobs: seq<(Tag, Job)>)
      requires forall t :: t in loadBuf.buf ==> loadBuf.buf[t].robIndex == t && t !in station
      requires forall t :: t in station ==> station[t].robIndex == t
      modifies this, loadBuf
      ensures JobMap(jobs) == LoadJobs(old(loadBuf.buf)) + StationJobs(old(station)) && NoDuplicates(jobs)
      ensures loadBuf.buf == UnfinishedLoads(old(loadBuf.buf)) && station == UnfinishedStation(old(station))
    {
      var loads := loadBuf.PopFinished();
      var generals := PopGenerals();
      JobMapAppend(loads, generals);
      jobs := loads + generals;
    }

    /** The execute stage; `npc` is where a JALR redirects fetching. */
    method Execute(rob: ReorderBuffer, memory: ProcessMemory, c: Core, ghost s: Machine)
      returns (npc: Option<u32>, fault: Option<Fault>)
      requires RealStore(c) && Inv(c, s) && Holds(s, rob, memory)
      modifies this, addressUnit, loadBuf, rob, memory
      ensures match ExecuteStage(c, s)
        case Panic(f) => fault == Some(f)
        case Running(t) =>
          && fault == None && Holds(t, rob, memory)
          && t.pc == npc.GetOr(s.pc) && t.gpr == s.gpr && t.renames == s.renames && t.predictor == s.predictor
    {
      InvAddressKeys(c, s);
      npc := addressUnit.Execute(rob, s);
      ghost var s1 := AddressPhase(s);
      InvariantExecute.AddressInv(c, s);
      InvLoadKeys(c, s1);
      var panicked := loadBuf.Execute(rob, c, memory.View(), s1);
      if panicked { return npc, Some(SliceIndex); }
      ghost var s2 := LoadPhase(c, s1).s;
      InvariantExecute.LoadInv(c, s1);
      fault := StoreHead(rob, memory, c, s2);
      if fault.Some? { return; }
      ghost var s3 := StorePhase(c, s2).s;
      InvariantExecute.StoreInv(c, s2);
      InvCountdowns(c, s3);
      panicked := ExecuteGeneral(c);
      if panicked { fault := Some(DivideFault); }
    }

    /** The objects hold what `s` says. */
    ghost predicate Holds(s: Machine, rob: ReorderBuffer, memory: ProcessMemory)
      reads this, addressUnit, loadBuf, rob, memory
    {
      && s.addressUnit == addressUnit.buf && s.loadBuf == loadBuf.buf && s.station == station
      && s.rob == rob.buf && s.mem == memory.View()
    }
  }

  /** No countdown of the station has run out without a result. */
  lemma InvCountdowns(c: Core, s: Machine)
    requires Inv(c, s)
    ensures forall t :: t in s.station ==> s.station[t].robIndex == t && t !in s.loadBuf
    ensures forall t :: t in s.loadBuf ==> s.loadBuf[t].robIndex == t && t !in s.station
    ensures forall t :: t in s.station ==> s.station[t].status.Finished? || s.station[t].remainingClock > 0
  {
    forall t | t in s.station || t in s.loadBuf
      ensures t in s.station ==> t !in s.loadBuf && s.station[t].robIndex == t
      ensures t in s.station ==> s.station[t].status.Finished? || s.station[t].remainingClock > 0
      ensures t in s.loadBuf ==> s.loadBuf[t].robIndex == t && t !in s.station
    {
      assert Live(s, t);
      var i :| 0 <= i < |s.rob| && s.rob[i].id == t;
      assert SlotOk(c, s, i);
    }
  }
}
