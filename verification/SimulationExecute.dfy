/** The four parts of the execute stage keep the simulation. */
module SimulationExecute {
  import opened Words
  import opened Instructions
  import opened Isa
  import opened OutOfOrder
  import opened Invariant
  import opened InvariantExecute
  import opened Simulation
  import opened Path

  // ---- Address unit ----

  /** A stage that touches no load and no result. */
  lemma ReadsKept(w: Scope, c: Core, s: Machine, s': Machine, a: State)
    requires LoadsExact(w, c, s, a) && SameResults(s.rob, s'.rob) && s'.loadBuf == s.loadBuf
    ensures LoadsExact(w, c, s', a)
  {
    forall i {:trigger At(c, s'.rob, a, i)} | 0 <= i < |s'.rob| && Covered(w, c, s'.rob, a, i)
      ensures LoadExact(c, s', s'.rob[i], At(c, s'.rob, a, i))
    {
      PathSame(c, s.rob, s'.rob, a, i);
      assert LoadExact(c, s, s.rob[i], At(c, s.rob, a, i));
    }
  }

  lemma AddressSimulates(w: Scope, c: Core, s: Machine, a: State)
    requires Simulates(w, c, s, a)
    ensures Simulates(w, c, AddressPhase(s), a)
    ensures HeadWritten(AddressPhase(s)) == HeadWritten(s)
  {
    AddressInv(c, s);
    AddressShape(s);
    ReadsKept(w, c, s, AddressPhase(s), a);
  }

  lemma SumIs(x: RsEntry, i: Inst, regs: Regs)
    requires x.op1 == Value(regs[Rs1(i)]) && x.op2 == Value(Imm(i)) && !i.opcode.Amo?
    ensures Sum(x) == Address(i, regs)
  {
  }

  /** The address unit computes the address of that point of the path. */
  lemma SumExact(w: Scope, c: Core, s: Machine, a: State, i: nat)
    requires Simulates(w, c, s, a) && i < |s.rob| && Covered(w, c, s.rob, a, i) && AddressReady(s, s.rob[i].id)
    ensures Sum(s.addressUnit[s.rob[i].id]) == Address(s.rob[i].inst, At(c, s.rob, a, i).regs)
  {
    HeldExact(w, c, s, a, i);
    var x := s.addressUnit[s.rob[i].id];
    assert !s.rob[i].inst.opcode.Amo? && x.op2 == Value(Imm(s.rob[i].inst)) by { assert SlotOk(c, s, i); }
    SumIs(x, s.rob[i].inst, At(c, s.rob, a, i).regs);
  }

  // ---- Loads ----

  /** The older write of entry `j` overlaps what entry `i` is about to read, and the load gate does not
      look for that: the store has no address yet, or its address is another one. */
  ghost predicate Missed(c: Core, rob: seq<RobEntry>, a: State, j: nat, i: nat)
    requires j < i < |rob|
  {
    var x, y := At(c, rob, a, j), At(c, rob, a, i);
    Overlaps(c, x, y) && (Unresolved(rob[j]) || Address(rob[j].inst, x.regs) != Address(rob[i].inst, y.regs))
  }

  /** A plain store that has not been through the address unit. */
  predicate Unresolved(e: RobEntry) {
    e.inst.opcode.Store? && !e.addr.Value?
  }

  /** No load reads memory past an older write that overlaps it and that its gate misses. */
  ghost predicate GateSafe(w: Scope, c: Core, s: Machine, a: State) {
    forall i, j {:trigger Missed(c, s.rob, a, j, i)} :: 0 <= j < i < |s.rob| && Reads(s, i) && Covered(w, c, s.rob, a, i) ==>
      !Missed(c, s.rob, a, j, i)
  }

  /** An open gate means that every older write with an address, or waiting for one as an operand, is
      to another address. */
  lemma GateExact(w: Scope, c: Core, s: Machine, a: State, i: nat, j: nat)
    requires Simulates(w, c, s, a)
    requires j < i < |s.rob| && Covered(w, c, s.rob, a, i) && Reads(s, i) && WritesMem(s.rob[j].inst) && !Unresolved(s.rob[j])
    ensures Address(s.rob[j].inst, At(c, s.rob, a, j).regs) != Address(s.rob[i].inst, At(c, s.rob, a, i).regs)
  {
    assert OperandsOk(c, s, j) by { assert SlotOk(c, s, j); }
    CoveredBelow(w, c, s.rob, a, i, j);
    AddrExact(w, c, s, a, j);
    AddrExact(w, c, s, a, i);
    assert !Blocks(s.rob[j], s.rob[i].addr.v);
  }

  /** A load that reads is past an overlapping write exactly when its gate has missed one. */
  lemma OverlapIsMissed(w: Scope, c: Core, s: Machine, a: State, i: nat, j: nat)
    requires Simulates(w, c, s, a) && j < i < |s.rob| && Covered(w, c, s.rob, a, i) && Reads(s, i)
    ensures Overlaps(c, At(c, s.rob, a, j), At(c, s.rob, a, i)) <==> Missed(c, s.rob, a, j, i)
  {
    assert Filed(c, s, j) by { assert SlotOk(c, s, j); }
    if WritesMem(s.rob[j].inst) && !Unresolved(s.rob[j]) { GateExact(w, c, s, a, i, j); }
  }

  /** An older instruction that writes elsewhere leaves a load unchanged. */
  lemma EffectKeepsLoad(c: Core, x: State, y: State)
    requires Sound(c) && ReadsMem(Fetch(c, y.pc)) && !Overlaps(c, x, y)
    ensures var f, b := Fetch(c, y.pc).func, Address(Fetch(c, y.pc), y.regs);
      c.load(f, MemoryAfter(c, x), b) == c.load(f, x.mem, b)
  {
    var i := Fetch(c, x.pc);
    if WritesMem(i) {
      assert StoreThenLoad(c, i.func, Fetch(c, y.pc).func, x.mem, Address(Fetch(c, y.pc), y.regs), Address(i, x.regs),
                           Stored(c, i, x.regs, ValueOf(c, x)));
    }
  }

  /** The memory an entry would see is, where it reads, the committed memory. */
  lemma {:induction false} OlderKeepLoad(c: Core, rob: seq<RobEntry>, a: State, y: State, k: nat)
    requires k <= |rob| && Sound(c) && ReadsMem(Fetch(c, y.pc))
    requires forall j :: 0 <= j < k ==> !Overlaps(c, At(c, rob, a, j), y)
    ensures var f, b := Fetch(c, y.pc).func, Address(Fetch(c, y.pc), y.regs);
      c.load(f, Entering(c, rob, a, k).mem, b) == c.load(f, a.mem, b)
  {
    if k > 0 {
      OlderKeepLoad(c, rob, a, y, k - 1);
      EffectKeepsLoad(c, At(c, rob, a, k - 1), y);
    }
  }

  /** Load and AMO read correctness: what is read is what the sequential machine reads. */
  lemma ReadExact(w: Scope, c: Core, s: Machine, a: State, i: nat)
    requires Simulates(w, c, s, a) && !HeadWritten(s) && GateSafe(w, c, s, a) && Sound(c)
    requires i < |s.rob| && Covered(w, c, s.rob, a, i) && Reads(s, i)
    ensures LoadResult(c, s, i) == Produced(c, At(c, s.rob, a, i))
  {
    AddrExact(w, c, s, a, i);
    assert Filed(c, s, i) by { assert SlotOk(c, s, i); }
    forall j | 0 <= j < i ensures !Overlaps(c, At(c, s.rob, a, j), At(c, s.rob, a, i)) {
      OverlapIsMissed(w, c, s, a, i, j);
    }
    OlderKeepLoad(c, s.rob, a, At(c, s.rob, a, i), i);
  }

  lemma NewReadExact(w: Scope, c: Core, s: Machine, a: State, i: nat)
    requires Simulates(w, c, s, a) && !HeadWritten(s) && GateSafe(w, c, s, a) && Sound(c)
    requires LoadPhase(c, s).Running? && i < |s.rob| && Covered(w, c, s.rob, a, i)
    ensures LoadExact(c, LoadPhase(c, s).s, LoadPhase(c, s).s.rob[i], At(c, s.rob, a, i))
  {
    LoadShape(c, s);
    LoadFrame(c, s);
    assert Filed(c, s, i) by { assert SlotOk(c, s, i); }
    assert LoadExact(c, s, s.rob[i], At(c, s.rob, a, i));
    if s.rob[i].id in s.loadBuf {
      LoadSlotIs(c, s, i);
      LoadCases(c, s, i);
      if Reads(s, i) { ReadExact(w, c, s, a, i); }
    }
  }

  lemma LoadSimulates(w: Scope, c: Core, s: Machine, a: State)
    requires Simulates(w, c, s, a) && !HeadWritten(s) && GateSafe(w, c, s, a) && Sound(c)
    requires LoadPhase(c, s).Running?
    ensures Simulates(w, c, LoadPhase(c, s).s, a) && !HeadWritten(LoadPhase(c, s).s)
  {
    var s' := LoadPhase(c, s).s;
    LoadInv(c, s);
    LoadShape(c, s);
    forall i {:trigger At(c, s'.rob, a, i)} | 0 <= i < |s'.rob| && Covered(w, c, s'.rob, a, i)
      ensures LoadExact(c, s', s'.rob[i], At(c, s'.rob, a, i))
    {
      PathSame(c, s.rob, s'.rob, a, i);
      NewReadExact(w, c, s, a, i);
    }
    if s.rob != [] { CountdownLoad(c, s, 0); }
  }

  // ---- The head's store ----

  /** The head's write is the sequential machine's, or both fault. */
  lemma StoreExact(w: Scope, c: Core, s: Machine, a: State)
    requires Simulates(w, c, s, a) && !HeadWritten(s) && Sound(c) && CanWrite(s)
    ensures var e := s.rob[0];
      var m := c.store(e.inst.func, s.mem, e.addr.v, e.memValue.v);
      if m.Err? then Step(c, a) == Err(m.error)
      else e.memException.None? && Step(c, a).Ok? && Step(c, a).value.mem == m.value
  {
    var e := s.rob[0];
    assert Filed(c, s, 0) && CountdownOk(s, 0) by { assert SlotOk(c, s, 0); }
    SlotsExact(w, c, s, a, 0);
    assert At(c, s.rob, a, 0) == a;
    if e.memException.Some? {
      assert TrapsAgree(c, e.inst.func, s.mem, e.addr.v, e.memValue.v);
    }
  }

  lemma StoreSimulates(w: Scope, c: Core, s: Machine, a: State)
    requires Simulates(w, c, s, a) && !HeadWritten(s) && Sound(c)
    ensures StorePhase(c, s).Running? ==> Simulates(w, c, StorePhase(c, s).s, a)
    ensures StorePhase(c, s).Panic? ==> Step(c, a) == Err(StorePhase(c, s).fault)
  {
    if CanWrite(s) { StoreExact(w, c, s, a); }
    if StorePhase(c, s).Running? {
      StoreInv(c, s);
      StoreShape(c, s);
      ReadsKept(w, c, s, StorePhase(c, s).s, a);
    }
  }

  // ---- Station ----

  lemma StationSimulates(w: Scope, c: Core, s: Machine, a: State)
    requires Simulates(w, c, s, a) && StationPhase(c, s).Running?
    ensures Simulates(w, c, StationPhase(c, s).s, a)
  {
    StationInv(c, s);
    ReadsKept(w, c, s, StationPhase(c, s).s, a);
  }
}
