/** What the invariant and the simulation mean for tags, values in flight, system calls and atomics. */
module Guarantees {
  import opened Words
  import opened Instructions
  import opened Isa
  import opened OutOfOrder
  import opened Invariant
  import opened InvariantExecute
  import opened Simulation
  import opened SimulationExecute
  import opened Refinement
  import opened Liveness
  import ByteMemory

  /** From power-on, after any number of clocks, the invariant holds. */
  lemma ReachableInv(c: Core, pc: u32, m: ByteMemory.Mem, sp: u32, tags: seq<Tags>)
    requires Sound(c) && EcallsPlain(c) && Allocates(c, Initial(pc, m, sp), tags)
    ensures var r := Cycles(c, Initial(pc, m, sp), tags); r.outcome.Running? ==> Inv(c, r.outcome.s)
  {
    InitialInv(c, pc, m, sp);
    RunInv(c, Initial(pc, m, sp), tags);
  }

  // ---- Tags ----

  /** The operand of an entry at `i` has a value, or names exactly one live entry, which is older
      and has yet to produce its result. */
  ghost predicate Delivered(rob: seq<RobEntry>, i: nat, op: Operand)
    requires i <= |rob|
  {
    op.Rob? ==> exists j :: 0 <= j < i && rob[j].id == op.tag && rob[j].regValue.None?
                            && forall k :: 0 <= k < |rob| && rob[k].id == op.tag ==> k == j
  }

  lemma TrackedDelivered(g: Regs, rob: seq<RobEntry>, i: nat, src: Source, op: Operand)
    requires i <= |rob| && Distinct(rob) && Tracked(g, rob, i, src, op)
    ensures Delivered(rob, i, op)
  {
    if op.Rob? {
      var j := LastWriter(rob, i, src.r);
      assert rob[j].id == op.tag && rob[j].regValue.None?;
    }
  }

  /** No tag dangles: every operand waits for a live older instruction, every buffer key and every
      name in the rename table is a live tag, and no two live entries share one. So a tag that
      returns after its entry has left can reach nobody but its new owner's consumers. */
  lemma TagHygiene(c: Core, s: Machine, i: nat)
    requires Inv(c, s) && i < |s.rob|
    ensures var e := s.rob[i];
      && Delivered(s.rob, i, e.addr) && Delivered(s.rob, i, e.memValue)
      && (e.id in s.station ==> Delivered(s.rob, i, s.station[e.id].op1) && Delivered(s.rob, i, s.station[e.id].op2))
      && (e.id in s.addressUnit ==> Delivered(s.rob, i, s.addressUnit[e.id].op1) && s.addressUnit[e.id].op2.Value?)
      && (IsCompleted(e) ==> e.id !in s.station && e.id !in s.loadBuf && e.id !in s.addressUnit)
    ensures forall t :: t in s.station || t in s.loadBuf || t in s.addressUnit ==> Live(s, t)
    ensures forall r: Reg :: s.renames[r].Some? ==> r != 0 && Live(s, s.renames[r].value)
  {
    var e := s.rob[i];
    assert SlotOk(c, s, i);
    if e.addr.Rob? { TrackedDelivered(s.gpr, s.rob, i, FromReg(Rs1(e.inst)), e.addr); }
    if e.memValue.Rob? { TrackedDelivered(s.gpr, s.rob, i, FromReg(Rs2(e.inst)), e.memValue); }
    if e.id in s.station {
      TrackedDelivered(s.gpr, s.rob, i, Src1(e.pc, e.inst), s.station[e.id].op1);
      TrackedDelivered(s.gpr, s.rob, i, Src2(e.inst), s.station[e.id].op2);
    }
    if e.id in s.addressUnit {
      TrackedDelivered(s.gpr, s.rob, i, FromReg(Rs1(e.inst)), s.addressUnit[e.id].op1);
    }
  }

  // ---- Values ----

  /** A value an entry at `i` holds for a source is the source's: of a register, the result of its
      youngest older writer, and without one the committed value. */
  ghost predicate Flows(s: Machine, i: nat, src: Source, op: Operand)
    requires i <= |s.rob|
  {
    op.Value? ==>
      match src
      case Const(v) => op.v == v
      case FromReg(r) =>
        if r == 0 || (forall j :: 0 <= j < i ==> s.rob[j].rd != r) then op.v == s.gpr[r]
        else exists j :: 0 <= j < i && s.rob[j].rd == r && s.rob[j].regValue == Some(op.v)
                         && forall k :: j < k < i ==> s.rob[k].rd != r
  }

  lemma TrackedFlows(s: Machine, i: nat, src: Source, op: Operand)
    requires i <= |s.rob| && Tracked(s.gpr, s.rob, i, src, op)
    ensures Flows(s, i, src, op)
  {
    if src.FromReg? && op.Value? {
      var j := LastWriter(s.rob, i, src.r);
      assert j >= 0 ==> s.rob[j].rd == src.r;
    }
  }

  /** What is known of a source flows. */
  lemma KnownFlows(s: Machine, i: nat, src: Source) returns (op: Operand)
    requires i <= |s.rob|
    ensures Flows(s, i, src, op)
    ensures var k := Known(s.gpr, s.rob, i, src); k.Some? ==> op == Value(k.value)
  {
    var k := Known(s.gpr, s.rob, i, src);
    op := if k.Some? then Value(k.value) else Nothing;
    if k.Some? { TrackedFlows(s, i, src, op); }
  }

  /** Every value in flight is the one its instruction is to work on, for every entry, behind a wrong
      prediction or not, and whatever the program: station and address-unit operands, an atomic's address,
      the data of a store or of an atomic before its read; an address is the sum, and a result of the
      arithmetic unit the function, of such values. */
  lemma ValueFlow(c: Core, s: Machine, i: nat)
    requires Inv(c, s) && i < |s.rob|
    ensures var e := s.rob[i];
      && (e.id in s.station ==>
            Flows(s, i, Src1(e.pc, e.inst), s.station[e.id].op1) && Flows(s, i, Src2(e.inst), s.station[e.id].op2))
      && (e.id in s.addressUnit ==> Flows(s, i, FromReg(Rs1(e.inst)), s.addressUnit[e.id].op1))
      && (e.inst.opcode.Amo? ==> Flows(s, i, FromReg(Rs1(e.inst)), e.addr))
      && (!e.inst.opcode.Amo? && e.addr.Value? ==>
            exists x: u32 :: Flows(s, i, FromReg(Rs1(e.inst)), Value(x)) && e.addr.v == Wrap(x + Imm(e.inst)))
      && (e.inst.opcode.Store? || (e.inst.opcode.Amo? && !HasRead(s, e)) ==> Flows(s, i, FromReg(Rs2(e.inst)), e.memValue))
      && (UsesAlu(e.inst) && e.regValue.Some? ==>
            exists x: u32, y: u32 :: Flows(s, i, Src1(e.pc, e.inst), Value(x)) && Flows(s, i, Src2(e.inst), Value(y))
                                     && c.alu(e.inst.func, x, y) == e.regValue)
  {
    var e := s.rob[i];
    assert Filed(c, s, i) && Held(c, s, i) && OperandsOk(c, s, i) && Computed(c, s.gpr, s.rob, i) by { assert SlotOk(c, s, i); }
    if e.id in s.station {
      TrackedFlows(s, i, Src1(e.pc, e.inst), s.station[e.id].op1);
      TrackedFlows(s, i, Src2(e.inst), s.station[e.id].op2);
    }
    if e.id in s.addressUnit { TrackedFlows(s, i, FromReg(Rs1(e.inst)), s.addressUnit[e.id].op1); }
    if e.inst.opcode.Amo? { TrackedFlows(s, i, FromReg(Rs1(e.inst)), e.addr); }
    if e.inst.opcode.Store? || (e.inst.opcode.Amo? && !HasRead(s, e)) { TrackedFlows(s, i, FromReg(Rs2(e.inst)), e.memValue); }
    var _ := KnownFlows(s, i, FromReg(Rs1(e.inst)));
    var _ := KnownFlows(s, i, Src1(e.pc, e.inst));
    var _ := KnownFlows(s, i, Src2(e.inst));
  }

  // ---- System calls ----

  /** A system call runs alone and sees the sequential machine's registers and memory. */
  lemma EcallSeesExactState(w: Scope, c: Core, s: Machine, a: State)
    requires Simulates(w, c, s, a) && s.rob != [] && IsCompleted(s.rob[0]) && IsEcall(s.rob[0].inst)
    ensures |s.rob| == 1 && s.gpr == a.regs && s.mem == a.mem && IsEcall(Fetch(c, a.pc))
    ensures EcallsPlain(c) ==> forall r: Reg :: s.renames[r] == None
  {
    assert SlotOk(c, s, 0);
    if EcallsPlain(c) {
      assert Rd(c.program(s.rob[0].pc)) == 0;
      assert forall r: Reg :: r != 0 ==> LastWriter(s.rob, 1, r) == -1;
    }
  }

  // ---- Atomics ----

  /** An atomic is atomic although it reads and writes in different clocks: when it writes, the word
      it has read, and returns in rd, is still in memory, and what it writes is computed from that
      word and rs2. */
  lemma AmoAtomic(w: Scope, c: Core, s: Machine, a: State)
    requires Simulates(w, c, s, a) && !HeadWritten(s) && Sound(c)
    requires CanWrite(s) && ReadsMem(s.rob[0].inst) && StorePhase(c, s).Running?
    ensures var e, s' := s.rob[0], StorePhase(c, s).s;
      && e.addr == Value(s.gpr[Rs1(e.inst)]) && e.regValue.Some?
      && c.load(e.inst.func, s.mem, e.addr.v) == Ok(e.regValue.value)
      && c.store(e.inst.func, s.mem, e.addr.v, c.amo(e.inst.func, e.regValue.value, s.gpr[Rs2(e.inst)])) == Ok(s'.mem)
      && s'.rob[0] == e.(memRemCycle := 0) && Written(s'.rob[0])
  {
    StoreShape(c, s);
    StoreExact(w, c, s, a);
    SlotsExact(w, c, s, a, 0);
    assert At(c, s.rob, a, 0) == a;
    assert Filed(c, s, 0) && CountdownOk(s, 0) by { assert SlotOk(c, s, 0); }
  }
}
