/** Where the core does not always do what the sequential machine or the standard does, with the exact
    condition under which it does: the load gate, a JALR's target, and an ECALL that names a destination
    register. (A JALR to address 0 is RetiredPcExactly in SimulationCommit.dfy.) */
module Exactness {
  import opened Words
  import opened Instructions
  import opened ByteMemory
  import opened Isa
  import opened OutOfOrder
  import opened Invariant
  import opened InvariantCommit
  import opened Simulation
  import opened SimulationExecute

  // ---- The load gate ----

  /** `q` is what `p` may become once every address older than `i` is known: known ones stay. */
  ghost predicate Resolution(p: seq<RobEntry>, q: seq<RobEntry>, i: nat)
    requires i < |p|
  {
    && |q| == |p| && q[i] == p[i]
    && forall j :: 0 <= j < i ==>
         q[j].inst == p[j].inst && q[j].addr.Value? && (p[j].addr.Value? ==> q[j].addr == p[j].addr)
  }

  /** Entry `j` has an address, and writes there what entry `i` is about to read. */
  ghost predicate Hits(rob: seq<RobEntry>, j: nat, i: nat)
    requires j < |rob| && i < |rob| && rob[i].addr.Value?
  {
    && WritesMem(rob[j].inst) && rob[j].addr.Value?
    && !Disjoint(rob[i].addr.v, Width(rob[i].inst.func), rob[j].addr.v, Width(rob[j].inst.func))
  }

  /** Every older plain store has been through the address unit. */
  predicate StoresResolved(rob: seq<RobEntry>, i: nat)
    requires i <= |rob|
  {
    forall j :: 0 <= j < i ==> !Unresolved(rob[j])
  }

  /** Every older write whose address is known is to the load's address or disjoint from it. */
  ghost predicate KnownApart(rob: seq<RobEntry>, i: nat)
    requires i < |rob| && rob[i].addr.Value?
  {
    forall j :: 0 <= j < i && Hits(rob, j, i) ==> rob[j].addr == rob[i].addr
  }

  /** `rob` with every unknown address set to `a`. */
  function Collided(rob: seq<RobEntry>, a: u32): seq<RobEntry> {
    seq(|rob|, j requires 0 <= j < |rob| => if rob[j].addr.Value? then rob[j] else rob[j].(addr := Value(a)))
  }

  /** An open gate rules out an overlap with every older write, however the unknown addresses turn
      out, exactly when every older store has an address and no known write overlaps the load at another
      address. */
  lemma GateSafeExactly(c: Core, s: Machine, i: nat, l: LoadEntry)
    requires Inv(c, s) && i < |s.rob| && GateOpen(s.rob, i, l)
    ensures (forall q: seq<RobEntry> :: Resolution(s.rob, q, i) ==> forall j :: 0 <= j < i ==> !Hits(q, j, i))
       <==> StoresResolved(s.rob, i) && KnownApart(s.rob, i)
  {
    if StoresResolved(s.rob, i) && KnownApart(s.rob, i) {
      forall q: seq<RobEntry>, j: nat | Resolution(s.rob, q, i) && j < i ensures !Hits(q, j, i) {
        assert OperandsOk(c, s, j) by { assert SlotOk(c, s, j); }
        assert !Blocks(s.rob[j], s.rob[i].addr.v);
        assert Hits(q, j, i) ==> Hits(s.rob, j, i);
      }
    } else {
      var q := Collided(s.rob, s.rob[i].addr.v);
      assert Resolution(s.rob, q, i);
      if j: nat :| j < i && Unresolved(s.rob[j]) {
        assert Hits(q, j, i);
      } else {
        var j: nat :| j < i && Hits(s.rob, j, i) && s.rob[j].addr != s.rob[i].addr;
        assert Hits(q, j, i);
      }
    }
  }

  /** When the gate lets a load read, an older write with an address overlaps it exactly when their entries
      say so and the addresses differ. So the value read can be wrong only past such a write, or past a
      plain store without an address. */
  lemma SlipsExactly(w: Scope, c: Core, s: Machine, a: State, i: nat, j: nat)
    requires Simulates(w, c, s, a) && j < i < |s.rob| && Covered(w, c, s.rob, a, i) && Reads(s, i) && !Unresolved(s.rob[j])
    ensures Overlaps(c, At(c, s.rob, a, j), At(c, s.rob, a, i)) <==> Hits(s.rob, j, i) && s.rob[j].addr != s.rob[i].addr
  {
    assert Filed(c, s, i) && Filed(c, s, j) && OperandsOk(c, s, j) by { assert SlotOk(c, s, i) && SlotOk(c, s, j); }
    CoveredBelow(w, c, s.rob, a, i, j);
    AddrExact(w, c, s, a, j);
    AddrExact(w, c, s, a, i);
    assert !Blocks(s.rob[j], s.rob[i].addr.v);
  }

  // ---- The target of a JALR ----

  /** The standard's target: the sum with its lowest bit cleared. */
  function StandardTarget(i: Inst, regs: Regs): u32 {
    var sum := Wrap(regs[Rs1(i)] + Imm(i));
    sum - sum % 2
  }

  /** A JALR goes where the standard says exactly when the sum of register and immediate is even. */
  lemma TargetExactly(c: Core, s: State)
    requires Fetch(c, s.pc).opcode.Jalr? && Step(c, s).Ok?
    ensures var i := Fetch(c, s.pc);
      Step(c, s).value.pc == StandardTarget(i, s.regs) <==> (s.regs[Rs1(i)] + Imm(i)) % 2 == 0
  {
    var i := Fetch(c, s.pc);
    EvenWrap(s.regs[Rs1(i)] + Imm(i));
  }

  lemma EvenWrap(x: int)
    ensures Wrap(x) % 2 == x % 2
  {
    assert x == TWO_TO_THE_32 * (x / TWO_TO_THE_32) + Wrap(x);
  }

  /** jalr x0, 1(x0) */
  const ODD_JUMP: Inst := Instruction(Opcode.Jalr, Fields(Some(0), None, Some(0), Some(1)), Function.Jalr)

  /** A jump to 1, which the standard rounds down to 0. */
  lemma OddTargetDiverges(c: Core, s: State)
    requires c.program(s.pc) == ODD_JUMP && c.alu(Function.Jalr, s.pc, WORD_SIZE).Some? && s.regs[0] == 0
    ensures Step(c, s).Ok? && Step(c, s).value.pc == 1 && StandardTarget(ODD_JUMP, s.regs) == 0
  {
    assert Fetch(c, s.pc) == ODD_JUMP && Rs1(ODD_JUMP) == 0 && Rd(ODD_JUMP) == 0 && Imm(ODD_JUMP) == 1;
  }

  // ---- ECALL ----

  /** When an ECALL retires the buffer is empty, and the rename table is empty exactly when the
      ECALL names no destination: otherwise its entry's tag stays in the table although the entry
      is gone, and the invariant is lost. */
  lemma EcallExactly(c: Core, s: Machine, s': Machine)
    requires Inv(c, s) && s.rob != [] && IsCompleted(s.rob[0]) && IsEcall(s.rob[0].inst)
    requires Retire(c, s.(rob := s.rob[1..]), s.rob[0]) == Retired(s')
    ensures s'.rob == [] && s'.station == map[] && s'.loadBuf == map[] && s'.addressUnit == map[]
    ensures s'.renames == seq(32, _ => None) <==> Rd(s.rob[0].inst) == 0
    ensures Inv(c, s') <==> Rd(s.rob[0].inst) == 0
  {
    assert |s.rob| == 1;
    assert SlotOk(c, s, 0);
    CompletedIsOut(c, s);
    assert forall t :: Live(s, t) ==> t == s.rob[0].id;
    assert forall r: Reg :: LastWriter(s.rob, 1, r) == if s.rob[0].rd == r then 0 else -1;
    var rd := Rd(s.rob[0].inst);
    assert s'.renames == s.renames;
    if rd == 0 {
      assert forall r: Reg :: s.renames[r] == None;
    } else {
      assert s.renames[rd] == Some(s.rob[0].id);
      assert LastWriter(s'.rob, 0, rd) == -1;
    }
  }
}
