/** The four parts of the execute stage keep the invariant. */
module InvariantExecute {
  import opened Words
  import opened Isa
  import opened OutOfOrder
  import opened Invariant

  /** Execution never changes results: only write-back does. */
  ghost predicate SameResults(p: seq<RobEntry>, q: seq<RobEntry>) {
    && SameShape(p, q)
    && forall i :: 0 <= i < |p| ==> p[i].regValue == q[i].regValue && p[i].memException == q[i].memException
  }

  lemma KnownSame(g: Regs, p: seq<RobEntry>, q: seq<RobEntry>, i: nat, src: Source)
    requires SameResults(p, q) && i <= |p|
    ensures Known(g, p, i, src) == Known(g, q, i, src)
  {
    if src.FromReg? { LastWriterShape(p, q, i, src.r); }
  }

  lemma TrackedSame(g: Regs, p: seq<RobEntry>, q: seq<RobEntry>, i: nat, src: Source, op: Operand)
    requires SameResults(p, q) && i <= |p| && Tracked(g, p, i, src, op)
    ensures Tracked(g, q, i, src, op)
  {
    KnownSame(g, p, q, i, src);
    if op.Rob? { LastWriterShape(p, q, i, src.r); }
  }

  lemma AllKnownSame(g: Regs, p: seq<RobEntry>, q: seq<RobEntry>, i: nat)
    requires SameResults(p, q) && i < |p|
    ensures SameKnown(g, p, i, g, q, i)
  {
    forall src, op | Tracked(g, p, i, src, op) ensures Tracked(g, q, i, src, op) {
      TrackedSame(g, p, q, i, src, op);
    }
    forall src {:trigger Known(g, q, i, src)} ensures Known(g, p, i, src) == Known(g, q, i, src) {
      KnownSame(g, p, q, i, src);
    }
  }

  /** What remains to check when no result changes. */
  ghost predicate Reshaped(s: Machine, s': Machine) {
    && SameResults(s.rob, s'.rob)
    && s'.renames == s.renames
    && s'.station.Keys <= s.station.Keys
    && s'.loadBuf.Keys <= s.loadBuf.Keys
    && s'.addressUnit.Keys <= s.addressUnit.Keys
  }

  lemma RestKept(s: Machine, s': Machine)
    requires Reshaped(s, s') && Distinct(s.rob) && KeysLive(s) && RenamesOk(s)
    ensures Distinct(s'.rob) && KeysLive(s') && RenamesOk(s')
  {
    forall t | Live(s, t) ensures Live(s', t) {
      var i :| 0 <= i < |s.rob| && s.rob[i].id == t;
      assert s'.rob[i].id == t;
    }
    forall r: Reg ensures LastWriter(s.rob, |s.rob|, r) == LastWriter(s'.rob, |s.rob|, r) {
      LastWriterShape(s.rob, s'.rob, |s.rob|, r);
    }
  }

  // ---- Address unit ----

  lemma AddressShape(s: Machine)
    ensures var s' := AddressPhase(s);
      && Reshaped(s, s') && s' == s.(rob := s'.rob, addressUnit := s'.addressUnit, pc := s'.pc)
      && (forall i :: 0 <= i < |s.rob| ==>
            s'.rob[i] == if AddressReady(s, s.rob[i].id) then s.rob[i].(addr := Value(Sum(s.addressUnit[s.rob[i].id])))
                         else s.rob[i])
      && (forall t :: t in s'.addressUnit <==> t in s.addressUnit && !AddressReady(s, t))
      && (forall t :: t in s'.addressUnit ==> s'.addressUnit[t] == s.addressUnit[t])
  {
  }

  lemma FiledAddress(c: Core, s: Machine, i: nat)
    requires Inv(c, s) && i < |s.rob|
    ensures Filed(c, AddressPhase(s), i) && CountdownOk(AddressPhase(s), i)
  {
    AddressShape(s);
    assert SlotOk(c, s, i);
  }

  lemma SummedIs(g: Regs, rob: seq<RobEntry>, i: nat, x: RsEntry)
    requires i < |rob| && AddressOk(g, rob, i, x) && IsReady(x)
    ensures Summed(g, rob, i, Value(Sum(x)))
  {
  }

  /** A computed address is the sum of what is known of rs1 and the immediate. */
  lemma AddrAddress(c: Core, s: Machine, i: nat)
    requires Inv(c, s) && i < |s.rob|
    ensures AddrOk(s.gpr, AddressPhase(s).rob, i)
  {
    var s', t := AddressPhase(s), s.rob[i].id;
    AddressShape(s);
    AllKnownSame(s.gpr, s.rob, s'.rob, i);
    assert Filed(c, s, i) && Held(c, s, i) && AddrOk(s.gpr, s.rob, i) by { assert SlotOk(c, s, i); }
    if AddressReady(s, t) {
      AddressKept(s.gpr, s.rob, i, s.gpr, s'.rob, i, s.addressUnit[t]);
      SummedIs(s.gpr, s'.rob, i, s.addressUnit[t]);
    } else {
      AddrKept(s.gpr, s.rob, i, s.gpr, s'.rob, i);
    }
  }

  lemma SlotAddress(c: Core, s: Machine, i: nat)
    requires Inv(c, s) && i < |s.rob|
    ensures SlotOk(c, AddressPhase(s), i)
  {
    var s' := AddressPhase(s);
    AddressShape(s);
    AllKnownSame(s.gpr, s.rob, s'.rob, i);
    FiledAddress(c, s, i);
    AddrAddress(c, s, i);
    assert Held(c, s, i) && DataOk(c, s, i) && Computed(c, s.gpr, s.rob, i) by { assert SlotOk(c, s, i); }
    HeldKept(c, s, i, s', i);
    DataKept(c, s, i, s', i);
    ComputedKept(c, s.gpr, s.rob, i, s.gpr, s'.rob, i);
  }

  /** A JALR that is not the youngest entry has its address already. */
  lemma OlderFollowed(c: Core, s: Machine, i: nat)
    requires i < |s.rob| - 1 && Serial(s) && Filed(c, s, i)
    ensures Followed(AddressPhase(s).rob[i]) == Followed(s.rob[i])
    ensures s.rob[i].inst.opcode.Jalr? ==> IsCompleted(AddressPhase(s).rob[i])
  {
    AddressShape(s);
  }

  /** The youngest entry's successor is where fetching goes on, redirected or not. */
  lemma YoungestFollowed(c: Core, s: Machine)
    requires s.rob != [] && s.pc == Followed(s.rob[|s.rob| - 1]) && Filed(c, s, |s.rob| - 1) && Held(c, s, |s.rob| - 1)
    ensures AddressPhase(s).pc == Followed(AddressPhase(s).rob[|s.rob| - 1])
  {
    AddressShape(s);
  }

  lemma PathAddress(c: Core, s: Machine)
    requires Inv(c, s)
    ensures Serial(AddressPhase(s)) && PathLinked(AddressPhase(s))
  {
    AddressShape(s);
    forall i | 0 <= i < |s.rob| - 1
      ensures Followed(AddressPhase(s).rob[i]) == Followed(s.rob[i])
      ensures s.rob[i].inst.opcode.Jalr? ==> IsCompleted(AddressPhase(s).rob[i])
    {
      assert Filed(c, s, i) by { assert SlotOk(c, s, i); }
      OlderFollowed(c, s, i);
    }
    if s.rob != [] {
      assert Filed(c, s, |s.rob| - 1) && Held(c, s, |s.rob| - 1) by { assert SlotOk(c, s, |s.rob| - 1); }
      YoungestFollowed(c, s);
    }
  }

  lemma AddressInv(c: Core, s: Machine)
    requires Inv(c, s)
    ensures Inv(c, AddressPhase(s))
  {
    RestKept(s, AddressPhase(s));
    PathAddress(c, s);
    forall i | 0 <= i < |s.rob| ensures SlotOk(c, AddressPhase(s), i) {
      SlotAddress(c, s, i);
    }
  }

  // ---- Loads ----

  lemma LoadShape(c: Core, s: Machine)
    requires LoadPhase(c, s).Running?
    ensures var s' := LoadPhase(c, s).s;
      && Reshaped(s, s') && s' == s.(rob := LoadedRob(c, s), loadBuf := s'.loadBuf)
      && s'.loadBuf.Keys == s.loadBuf.Keys
    ensures forall i :: 0 <= i < |s.rob| ==> !LoadPanics(c, s, i)
  {
  }

  /** The load of the entry at `i` is the one the load buffer updates. */
  lemma LoadSlotIs(c: Core, s: Machine, i: nat)
    requires LoadPhase(c, s).Running? && Distinct(s.rob) && i < |s.rob| && s.rob[i].id in s.loadBuf
    ensures LoadPhase(c, s).s.loadBuf[s.rob[i].id] == LoadSlot(c, s, i)
  {
    IndexIs(s.rob, i);
  }

  /** A clock of the load buffer, case by case. */
  lemma LoadCases(c: Core, s: Machine, i: nat)
    requires i < |s.rob| && !LoadPanics(c, s, i) && s.rob[i].id in s.loadBuf
    ensures var e, e', l, l' := s.rob[i], LoadRob(c, s, i), s.loadBuf[s.rob[i].id], LoadSlot(c, s, i);
      if !GateOpen(s.rob, i, l) then e' == e && l' == l
      else if !Reads(s, i) then e' == e.(memRemCycle := Decrement(e.memRemCycle)) && l' == l.(status := Execute)
      else if LoadResult(c, s, i).Err? then
        && e' == e.(memRemCycle := 0) && l'.status.Finished? && l'.value.Err?
        && LoadResult(c, s, i).error == Trap(l'.value.error)
      else
        && l'.status.Finished? && l'.value.Ok? && l'.value.value == LoadResult(c, s, i).value
        && (e.inst.opcode.Load? ==> e' == e.(memRemCycle := 0))
        && (e.inst.opcode.Load? ||
            (e'.memRemCycle == (if e.inst.func.Lrw? then 0 else MEM_CYCLE)
             && e'.memValue == Value(if e.inst.func.Lrw? then 0
                                     else c.amo(e.inst.func, l'.value.value, if e.memValue.Value? then e.memValue.v else 0))
             && e' == e.(memRemCycle := e'.memRemCycle, memValue := e'.memValue)))
  {
  }

  lemma CountdownLoad(c: Core, s: Machine, i: nat)
    requires Inv(c, s) && LoadPhase(c, s).Running? && i < |s.rob|
    ensures CountdownOk(LoadPhase(c, s).s, i)
    ensures Written(LoadPhase(c, s).s.rob[i]) <==> Written(s.rob[i])
  {
    var s' := LoadPhase(c, s).s;
    LoadShape(c, s);
    assert Filed(c, s, i) && CountdownOk(s, i) && OperandsOk(c, s, i) by { assert SlotOk(c, s, i); }
    assert s'.rob[i] == LoadRob(c, s, i);
    if s.rob[i].id in s.loadBuf {
      LoadSlotIs(c, s, i);
      LoadCases(c, s, i);
    }
  }

  lemma FiledLoad(c: Core, s: Machine, i: nat)
    requires i < |s.rob| && Filed(c, s, i) && LoadPhase(c, s).Running?
    ensures Filed(c, LoadPhase(c, s).s, i)
  {
    LoadShape(c, s);
    LoadFrame(c, s);
  }

  lemma HeldLoad(c: Core, s: Machine, i: nat)
    requires i < |s.rob| && Distinct(s.rob) && Held(c, s, i) && LoadPhase(c, s).Running?
    ensures Held(c, LoadPhase(c, s).s, i)
  {
    var s' := LoadPhase(c, s).s;
    LoadShape(c, s);
    LoadFrame(c, s);
    AllKnownSame(s.gpr, s.rob, s'.rob, i);
    if s.rob[i].id in s.loadBuf { LoadSlotIs(c, s, i); }
  }

  /** An atomic that reads now prepares the word of what it has read and what is known of rs2. */
  lemma DataRead(c: Core, s: Machine, i: nat)
    requires Inv(c, s) && LoadPhase(c, s).Running? && i < |s.rob| && s.rob[i].id in s.loadBuf
    requires GateOpen(s.rob, i, s.loadBuf[s.rob[i].id]) && Reads(s, i)
    ensures DataOk(c, LoadPhase(c, s).s, i)
  {
    var s' := LoadPhase(c, s).s;
    LoadShape(c, s);
    AllKnownSame(s.gpr, s.rob, s'.rob, i);
    assert Filed(c, s, i) && DataOk(c, s, i) by { assert SlotOk(c, s, i); }
    LoadSlotIs(c, s, i);
    LoadCases(c, s, i);
    assert s'.rob[i] == LoadRob(c, s, i);
    assert !HasRead(s, s.rob[i]) && HasRead(s', s'.rob[i]);
  }

  lemma DataLoad(c: Core, s: Machine, i: nat)
    requires Inv(c, s) && LoadPhase(c, s).Running? && i < |s.rob|
    ensures DataOk(c, LoadPhase(c, s).s, i)
  {
    var s', t := LoadPhase(c, s).s, s.rob[i].id;
    LoadShape(c, s);
    assert s'.rob[i] == LoadRob(c, s, i);
    if t in s.loadBuf && GateOpen(s.rob, i, s.loadBuf[t]) && Reads(s, i) {
      DataRead(c, s, i);
    } else {
      AllKnownSame(s.gpr, s.rob, s'.rob, i);
      assert Filed(c, s, i) && DataOk(c, s, i) by { assert SlotOk(c, s, i); }
      if t in s.loadBuf {
        LoadSlotIs(c, s, i);
        LoadCases(c, s, i);
      }
      assert s'.rob[i].memValue == s.rob[i].memValue;
      assert HasRead(s', s'.rob[i]) == HasRead(s, s.rob[i]) && HasTrapped(s', s'.rob[i]) == HasTrapped(s, s.rob[i]);
    }
  }

  lemma AddrLoad(c: Core, s: Machine, i: nat)
    requires Inv(c, s) && LoadPhase(c, s).Running? && i < |s.rob|
    ensures AddrOk(s.gpr, LoadPhase(c, s).s.rob, i) && Computed(c, s.gpr, LoadPhase(c, s).s.rob, i)
  {
    var s' := LoadPhase(c, s).s;
    LoadShape(c, s);
    LoadFrame(c, s);
    AllKnownSame(s.gpr, s.rob, s'.rob, i);
    assert AddrOk(s.gpr, s.rob, i) && Computed(c, s.gpr, s.rob, i) by { assert SlotOk(c, s, i); }
    AddrKept(s.gpr, s.rob, i, s.gpr, s'.rob, i);
    ComputedKept(c, s.gpr, s.rob, i, s.gpr, s'.rob, i);
  }

  /** A clock of the load buffer changes only an entry's countdown and data operand. */
  lemma LoadFrame(c: Core, s: Machine)
    requires LoadPhase(c, s).Running?
    ensures forall i :: 0 <= i < |s.rob| ==>
      var e, e' := s.rob[i], LoadPhase(c, s).s.rob[i];
      e' == e.(memRemCycle := e'.memRemCycle, memValue := e'.memValue)
  {
    forall i | 0 <= i < |s.rob|
      ensures var e, e' := s.rob[i], LoadPhase(c, s).s.rob[i];
        e' == e.(memRemCycle := e'.memRemCycle, memValue := e'.memValue)
    {
      assert LoadPhase(c, s).s.rob[i] == LoadRob(c, s, i);
    }
  }

  lemma PathLoad(c: Core, s: Machine)
    requires Serial(s) && PathLinked(s) && LoadPhase(c, s).Running?
    ensures Serial(LoadPhase(c, s).s) && PathLinked(LoadPhase(c, s).s)
  {
    LoadFrame(c, s);
  }

  lemma SlotLoad(c: Core, s: Machine, i: nat)
    requires Inv(c, s) && LoadPhase(c, s).Running? && i < |s.rob|
    ensures |LoadPhase(c, s).s.rob| == |s.rob| && SlotOk(c, LoadPhase(c, s).s, i)
  {
    LoadShape(c, s);
    CountdownLoad(c, s, i);
    assert Filed(c, s, i) && Held(c, s, i) by { assert SlotOk(c, s, i); }
    FiledLoad(c, s, i);
    HeldLoad(c, s, i);
    AddrLoad(c, s, i);
    DataLoad(c, s, i);
  }

  lemma LoadInv(c: Core, s: Machine)
    requires Inv(c, s) && LoadPhase(c, s).Running?
    ensures Inv(c, LoadPhase(c, s).s)
  {
    var s' := LoadPhase(c, s).s;
    LoadShape(c, s);
    RestKept(s, s');
    PathLoad(c, s);
    forall i | 0 <= i < |s'.rob| ensures SlotOk(c, s', i) {
      SlotLoad(c, s, i);
    }
  }

  // ---- The head's store ----

  lemma StoreShape(c: Core, s: Machine)
    requires StorePhase(c, s).Running?
    ensures var s' := StorePhase(c, s).s;
      || s' == s
      || (s.rob != [] && var e := s.rob[0];
          && WritesMem(e.inst) && e.addr.Value? && e.memValue.Value? && (e.inst.opcode.Amo? ==> e.regValue.Some?)
          && c.store(e.inst.func, s.mem, e.addr.v, e.memValue.v).Ok?
          && s' == s.(mem := c.store(e.inst.func, s.mem, e.addr.v, e.memValue.v).value,
                      rob := s.rob[0 := e.(memRemCycle := 0)]))
    ensures Reshaped(s, StorePhase(c, s).s)
    ensures forall i :: 0 < i < |s.rob| ==> StorePhase(c, s).s.rob[i] == s.rob[i]
  {
  }

  lemma CountdownStore(c: Core, s: Machine, i: nat)
    requires Inv(c, s) && StorePhase(c, s).Running? && i < |s.rob|
    ensures Filed(c, StorePhase(c, s).s, i) && CountdownOk(StorePhase(c, s).s, i)
  {
    StoreShape(c, s);
    assert Filed(c, s, i) && CountdownOk(s, i) by { assert SlotOk(c, s, i); }
  }

  lemma SlotStore(c: Core, s: Machine, i: nat)
    requires Inv(c, s) && StorePhase(c, s).Running? && i < |s.rob|
    ensures SlotOk(c, StorePhase(c, s).s, i)
  {
    StoreShape(c, s);
    var s' := StorePhase(c, s).s;
    AllKnownSame(s.gpr, s.rob, s'.rob, i);
    CountdownStore(c, s, i);
    assert Held(c, s, i) && OperandsOk(c, s, i) && Computed(c, s.gpr, s.rob, i) by { assert SlotOk(c, s, i); }
    assert s'.rob[i] == s.rob[i] || (i == 0 && s'.rob[0] == s.rob[0].(memRemCycle := 0));
    HeldKept(c, s, i, s', i);
    AddrKept(s.gpr, s.rob, i, s.gpr, s'.rob, i);
    ComputedKept(c, s.gpr, s.rob, i, s.gpr, s'.rob, i);
    DataKept(c, s, i, s', i);
  }

  lemma PathStore(c: Core, s: Machine)
    requires Serial(s) && PathLinked(s) && StorePhase(c, s).Running?
    ensures Serial(StorePhase(c, s).s) && PathLinked(StorePhase(c, s).s)
  {
    StoreShape(c, s);
  }

  lemma StoreInv(c: Core, s: Machine)
    requires Inv(c, s) && StorePhase(c, s).Running?
    ensures Inv(c, StorePhase(c, s).s)
  {
    var s' := StorePhase(c, s).s;
    StoreShape(c, s);
    RestKept(s, s');
    PathStore(c, s);
    forall i | 0 <= i < |s.rob| ensures SlotOk(c, s', i) {
      SlotStore(c, s, i);
    }
  }

  // ---- Station ----

  lemma SlotStation(c: Core, s: Machine, i: nat)
    requires Inv(c, s) && StationPhase(c, s).Running? && i < |s.rob|
    ensures SlotOk(c, StationPhase(c, s).s, i)
  {
    var s' := StationPhase(c, s).s;
    assert SlotOk(c, s, i);
    assert Filed(c, s', i);
    assert Held(c, s', i);
    assert CountdownOk(s', i);
  }

  lemma StationInv(c: Core, s: Machine)
    requires Inv(c, s) && StationPhase(c, s).Running?
    ensures Inv(c, StationPhase(c, s).s)
  {
    var s' := StationPhase(c, s).s;
    RestKept(s, s');
    forall i | 0 <= i < |s.rob| ensures SlotOk(c, s', i) {
      SlotStation(c, s, i);
    }
  }

  lemma ExecuteInv(c: Core, s: Machine)
    requires Inv(c, s) && ExecuteStage(c, s).Running?
    ensures Inv(c, ExecuteStage(c, s).s)
  {
    AddressInv(c, s);
    var s1 := AddressPhase(s);
    LoadInv(c, s1);
    var s2 := LoadPhase(c, s1).s;
    StoreInv(c, s2);
    StationInv(c, StorePhase(c, s2).s);
  }

  /** Executing changes no entry's identity. */
  lemma ExecuteShape(c: Core, s: Machine)
    requires ExecuteStage(c, s).Running?
    ensures SameShape(s.rob, ExecuteStage(c, s).s.rob)
  {
    AddressShape(s);
    LoadShape(c, AddressPhase(s));
    StoreShape(c, LoadPhase(c, AddressPhase(s)).s);
  }
}
