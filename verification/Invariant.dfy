/** What holds of the core between any two stages, whatever the program computes: tags, rename
    table, buffer keys, countdowns and fetch path are consistent. */
module Invariant {
  import opened Words
  import opened Instructions
  import opened Isa
  import opened OutOfOrder

  /** The youngest entry before position `i` that writes register `r`, or -1. */
  function LastWriter(rob: seq<RobEntry>, i: nat, r: Reg): (j: int)
    requires i <= |rob|
    ensures -1 <= j < i
    ensures j >= 0 ==> rob[j].rd == r
    ensures forall k :: j < k < i ==> rob[k].rd != r
  {
    if i == 0 then -1 else if rob[i - 1].rd == r then i - 1 else LastWriter(rob, i - 1, r)
  }

  /** What the core knows of a source when the entry at `i` reads it: the committed register, or the
      result of the youngest older writer, wherever the predicted path leads. */
  function Known(g: Regs, rob: seq<RobEntry>, i: nat, src: Source): Option<u32>
    requires i <= |rob|
  {
    match src
    case Const(v) => Some(v)
    case FromReg(r) =>
      var j := LastWriter(rob, i, r);
      if r == 0 || j < 0 then Some(g[r]) else rob[j].regValue
  }

  /** An operand captured by the entry at `i` holds the value known of its source, or the tag of the
      youngest older writer of its register, which has no result yet. */
  ghost predicate Tracked(g: Regs, rob: seq<RobEntry>, i: nat, src: Source, op: Operand)
    requires i <= |rob|
  {
    match op
    case Value(v) => Known(g, rob, i, src) == Some(v)
    case Rob(t) =>
      && src.FromReg? && src.r != 0
      && var j := LastWriter(rob, i, src.r);
      j >= 0 && rob[j].id == t && rob[j].regValue.None?
    case Nothing => false
  }

  ghost predicate StationOk(c: Core, g: Regs, rob: seq<RobEntry>, i: nat, q: RsEntry)
    requires i < |rob|
  {
    var e := rob[i];
    && q.robIndex == e.id && q.inst == e.inst
    && Tracked(g, rob, i, Src1(e.pc, e.inst), q.op1)
    && Tracked(g, rob, i, Src2(e.inst), q.op2)
    && q.remainingClock <= RemainClock(e.inst.func)
    && (q.status.Finished? <==> q.remainingClock == 0)
    && (q.status.Finished? ==> IsReady(q) && AluResult(c, q) == Some(q.value))
  }

  ghost predicate AddressOk(g: Regs, rob: seq<RobEntry>, i: nat, q: RsEntry)
    requires i < |rob|
  {
    && q.robIndex == rob[i].id && q.inst == rob[i].inst
    && Tracked(g, rob, i, FromReg(Rs1(rob[i].inst)), q.op1)
    && q.op2 == Value(Imm(rob[i].inst))
  }

  /** `addr` is the sum the address unit computes from what is known of rs1. */
  ghost predicate Summed(g: Regs, rob: seq<RobEntry>, i: nat, addr: Operand)
    requires i < |rob|
  {
    addr.Value? ==>
      var base := Known(g, rob, i, FromReg(Rs1(rob[i].inst)));
      base.Some? && addr.v == Wrap(base.value + Imm(rob[i].inst))
  }

  /** The address an entry carries. */
  ghost predicate AddrOk(g: Regs, rob: seq<RobEntry>, i: nat)
    requires i < |rob|
  {
    var e := rob[i];
    if e.inst.opcode.Amo? then Tracked(g, rob, i, FromReg(Rs1(e.inst)), e.addr)
    else (e.addr.Nothing? || (UsesAddressUnit(e.inst) && e.addr.Value?)) && Summed(g, rob, i, e.addr)
  }

  /** The data operand an entry carries: rs2, or after the read of an atomic the word it will write. */
  ghost predicate DataOk(c: Core, s: Machine, i: nat)
    requires i < |s.rob|
  {
    var e := s.rob[i];
    if !(e.inst.opcode.Store? || e.inst.opcode.Amo?) then e.memValue.Nothing?
    else if ReadsMem(e.inst) && HasRead(s, e) && !HasTrapped(s, e) then
      var x := Known(s.gpr, s.rob, i, FromReg(Rs2(e.inst)));
      e.memValue.Value? && x.Some? && (!e.inst.func.Lrw? ==> e.memValue.v == c.amo(e.inst.func, ReadWord(s, e), x.value))
    else Tracked(s.gpr, s.rob, i, FromReg(Rs2(e.inst)), e.memValue)
  }

  ghost predicate OperandsOk(c: Core, s: Machine, i: nat)
    requires i < |s.rob|
  {
    AddrOk(s.gpr, s.rob, i) && DataOk(c, s, i)
  }

  /** A result that did not come from memory is the arithmetic unit's, of what is known of the sources. */
  ghost predicate Computed(c: Core, g: Regs, rob: seq<RobEntry>, i: nat)
    requires i < |rob|
  {
    var e := rob[i];
    UsesAlu(e.inst) && e.regValue.Some? ==>
      var x, y := Known(g, rob, i, Src1(e.pc, e.inst)), Known(g, rob, i, Src2(e.inst));
      x.Some? && y.Some? && c.alu(e.inst.func, x.value, y.value) == e.regValue
  }

  /** The entry's load has read memory. */
  predicate HasRead(s: Machine, e: RobEntry) {
    e.regValue.Some? || (e.id in s.loadBuf && s.loadBuf[e.id].status.Finished?)
  }

  /** The entry's load has trapped. */
  predicate HasTrapped(s: Machine, e: RobEntry) {
    e.memException.Some?
    || (e.regValue.None? && e.id in s.loadBuf && s.loadBuf[e.id].status.Finished? && s.loadBuf[e.id].value.Err?)
  }

  /** The word a load or atomic has read. */
  function ReadWord(s: Machine, e: RobEntry): u32 {
    if e.regValue.Some? then e.regValue.value
    else if e.id in s.loadBuf && s.loadBuf[e.id].value.Ok? then s.loadBuf[e.id].value.value
    else 0
  }

  /** The entry has written memory. */
  predicate Written(e: RobEntry) {
    WritesMem(e.inst) && e.memRemCycle == 0 && (e.inst.opcode.Store? || (e.regValue.Some? && e.memException.None?))
  }

  /** The countdown of an entry and the progress of its memory accesses agree. */
  ghost predicate CountdownOk(s: Machine, i: nat)
    requires i < |s.rob|
  {
    var e := s.rob[i];
    && e.memRemCycle <= MEM_CYCLE
    && (Written(e) ==> i == 0 && IsCompleted(e))
    && (if ReadsMem(e.inst) then
          && (HasRead(s, e) ==> e.addr.Value? && (e.inst.opcode.Amo? ==> e.memValue.Value?))
          && (!HasRead(s, e) ==> e.memRemCycle > 0)
          && (HasRead(s, e) && (!WritesMem(e.inst) || HasTrapped(s, e)) ==> e.memRemCycle == 0)
          && (HasRead(s, e) && WritesMem(e.inst) && !HasTrapped(s, e) ==> e.memRemCycle == MEM_CYCLE || Written(e))
        else e.memRemCycle == MEM_CYCLE || Written(e))
    && (e.memException.Some? ==> ReadsMem(e.inst) && e.regValue == Some(0))
  }

  /** Which buffers hold an entry, and the facts fixed when it was issued. */
  ghost predicate Filed(c: Core, s: Machine, i: nat)
    requires i < |s.rob|
  {
    var e := s.rob[i];
    && e.inst == Fetch(c, e.pc) && e.rd == Rd(e.inst)
    && (e.id in s.station <==> UsesAlu(e.inst) && e.regValue.None?)
    && (e.id in s.loadBuf <==> ReadsMem(e.inst) && e.regValue.None?)
    && (e.id in s.addressUnit <==> UsesAddressUnit(e.inst) && !e.addr.Value?)
    && (e.inst.opcode.Store? ==> e.regValue.None?)
    && (e.inst.opcode.Branch? ==> e.pc in s.predictor && (e.regValue.Some? ==> e.regValue.value <= 1))
  }

  /** What the buffers hold for an entry is consistent with it. */
  ghost predicate Held(c: Core, s: Machine, i: nat)
    requires i < |s.rob|
  {
    var t := s.rob[i].id;
    && (t in s.station ==> StationOk(c, s.gpr, s.rob, i, s.station[t]))
    && (t in s.addressUnit ==> AddressOk(s.gpr, s.rob, i, s.addressUnit[t]))
    && (t in s.loadBuf ==> s.loadBuf[t].robIndex == t)
  }

  ghost predicate SlotOk(c: Core, s: Machine, i: nat)
    requires i < |s.rob|
  {
    Filed(c, s, i) && Held(c, s, i) && OperandsOk(c, s, i) && Computed(c, s.gpr, s.rob, i) && CountdownOk(s, i)
  }

  ghost predicate Distinct(rob: seq<RobEntry>) {
    forall i, j :: 0 <= i < j < |rob| ==> rob[i].id != rob[j].id
  }

  ghost predicate Live(s: Machine, t: Tag) {
    exists i :: 0 <= i < |s.rob| && s.rob[i].id == t
  }

  /** Every key of a buffer is a live tag. */
  ghost predicate KeysLive(s: Machine) {
    && (forall t :: t in s.station ==> Live(s, t))
    && (forall t :: t in s.loadBuf ==> Live(s, t))
    && (forall t :: t in s.addressUnit ==> Live(s, t))
  }

  /** The rename table names the youngest writer of each register. */
  ghost predicate RenamesOk(s: Machine) {
    forall r: Reg :: s.renames[r] ==
      if r == 0 || LastWriter(s.rob, |s.rob|, r) < 0 then None else Some(s.rob[LastWriter(s.rob, |s.rob|, r)].id)
  }

  /** Nothing is younger than an ECALL or than a JALR waiting for its target. */
  ghost predicate Serial(s: Machine) {
    forall i :: 0 <= i < |s.rob| - 1 ==> !IsEcall(s.rob[i].inst) && (s.rob[i].inst.opcode.Jalr? ==> IsCompleted(s.rob[i]))
  }

  /** Where fetching went after an entry: its predicted successor, or for a JALR its target, or
      its own pc while the target is unknown (or is 0). */
  function Followed(e: RobEntry): u32 {
    if e.inst.opcode.Jalr? then if e.addr.Value? && e.addr.v != 0 then e.addr.v else e.pc
    else PredictedNext(e.inst, e.pc, e.branchPred)
  }

  ghost predicate PathLinked(s: Machine) {
    && (forall i :: 0 <= i < |s.rob| - 1 ==> s.rob[i + 1].pc == Followed(s.rob[i]))
    && (s.rob != [] ==> s.pc == Followed(s.rob[|s.rob| - 1]))
  }

  ghost predicate Inv(c: Core, s: Machine) {
    && Distinct(s.rob)
    && KeysLive(s)
    && RenamesOk(s)
    && Serial(s)
    && PathLinked(s)
    && forall i :: 0 <= i < |s.rob| ==> SlotOk(c, s, i)
  }

  lemma InitialInv(c: Core, pc: u32, m: ByteMemory.Mem, sp: u32)
    ensures Inv(c, Initial(pc, m, sp))
  {
  }

  // ---- Helpers ----

  /** The stages other than commit and issue keep these fields of every entry. */
  ghost predicate SameShape(p: seq<RobEntry>, q: seq<RobEntry>) {
    && |p| == |q|
    && forall i :: 0 <= i < |p| ==>
         p[i].id == q[i].id && p[i].pc == q[i].pc && p[i].inst == q[i].inst && p[i].rd == q[i].rd
         && p[i].branchPred == q[i].branchPred
  }

  lemma {:induction false} LastWriterShape(p: seq<RobEntry>, q: seq<RobEntry>, i: nat, r: Reg)
    requires SameShape(p, q) && i <= |p|
    ensures LastWriter(p, i, r) == LastWriter(q, i, r)
  {
    if i > 0 && p[i - 1].rd != r {
      LastWriterShape(p, q, i - 1, r);
    }
  }

  lemma {:induction false} LastWriterPrefix(p: seq<RobEntry>, q: seq<RobEntry>, i: nat, r: Reg)
    requires i <= |p| <= |q| && q[..|p|] == p
    ensures LastWriter(p, i, r) == LastWriter(q, i, r)
  {
    if i > 0 {
      assert q[i - 1] == q[..|p|][i - 1];
      LastWriterPrefix(p, q, i - 1, r);
    }
  }

  lemma {:induction false} LastWriterPop(p: seq<RobEntry>, i: nat, r: Reg)
    requires 0 < i <= |p|
    ensures LastWriter(p[1..], i - 1, r) == if LastWriter(p, i, r) > 0 then LastWriter(p, i, r) - 1 else -1
  {
    if i > 1 {
      LastWriterPop(p, i - 1, r);
    }
  }

  lemma LookupIs(rob: seq<RobEntry>, j: nat)
    requires Distinct(rob) && j < |rob|
    ensures Lookup(rob, rob[j].id) == Some(rob[j])
  {
    assert rob[j] in rob;
  }

  lemma IndexIs(rob: seq<RobEntry>, j: nat)
    requires Distinct(rob) && j < |rob|
    ensures IndexOf(rob, rob[j].id) == j
  {
  }

  /** What entry `i` of `p` may know of its sources is what entry `j` of `q` may. */
  ghost predicate SameKnown(g: Regs, p: seq<RobEntry>, i: nat, g': Regs, q: seq<RobEntry>, j: nat) {
    && i < |p| && j < |q|
    && p[i].id == q[j].id && p[i].pc == q[j].pc && p[i].inst == q[j].inst && p[i].regValue == q[j].regValue
    && (forall src {:trigger Known(g', q, j, src)} :: Known(g', q, j, src) == Known(g, p, i, src))
    && (forall src, op {:trigger Tracked(g', q, j, src, op)} :: Tracked(g, p, i, src, op) ==> Tracked(g', q, j, src, op))
  }

  lemma StationKept(c: Core, g: Regs, p: seq<RobEntry>, i: nat, g': Regs, q: seq<RobEntry>, j: nat, x: RsEntry)
    requires SameKnown(g, p, i, g', q, j) && StationOk(c, g, p, i, x)
    ensures StationOk(c, g', q, j, x)
  {
  }

  lemma AddressKept(g: Regs, p: seq<RobEntry>, i: nat, g': Regs, q: seq<RobEntry>, j: nat, x: RsEntry)
    requires SameKnown(g, p, i, g', q, j) && AddressOk(g, p, i, x)
    ensures AddressOk(g', q, j, x)
  {
  }

  lemma AddrKept(g: Regs, p: seq<RobEntry>, i: nat, g': Regs, q: seq<RobEntry>, j: nat)
    requires SameKnown(g, p, i, g', q, j) && AddrOk(g, p, i) && p[i].addr == q[j].addr
    ensures AddrOk(g', q, j)
  {
  }

  lemma ComputedKept(c: Core, g: Regs, p: seq<RobEntry>, i: nat, g': Regs, q: seq<RobEntry>, j: nat)
    requires SameKnown(g, p, i, g', q, j) && Computed(c, g, p, i)
    ensures Computed(c, g', q, j)
  {
  }

  lemma DataKept(c: Core, s: Machine, i: nat, s': Machine, j: nat)
    requires SameKnown(s.gpr, s.rob, i, s'.gpr, s'.rob, j) && DataOk(c, s, i)
    requires s.rob[i].memValue == s'.rob[j].memValue && s.rob[i].memException == s'.rob[j].memException
    requires var t := s.rob[i].id; (t in s.loadBuf <==> t in s'.loadBuf) && (t in s.loadBuf ==> s'.loadBuf[t] == s.loadBuf[t])
    ensures DataOk(c, s', j)
  {
  }

  /** The buffers hold the same for an entry, or less. */
  lemma HeldKept(c: Core, s: Machine, i: nat, s': Machine, j: nat)
    requires SameKnown(s.gpr, s.rob, i, s'.gpr, s'.rob, j) && Held(c, s, i)
    requires var t := s.rob[i].id;
      && (t in s'.station ==> t in s.station && s'.station[t] == s.station[t])
      && (t in s'.addressUnit ==> t in s.addressUnit && s'.addressUnit[t] == s.addressUnit[t])
      && (t in s'.loadBuf ==> t in s.loadBuf && s'.loadBuf[t].robIndex == s.loadBuf[t].robIndex)
    ensures Held(c, s', j)
  {
    var t := s.rob[i].id;
    if t in s'.station { StationKept(c, s.gpr, s.rob, i, s'.gpr, s'.rob, j, s.station[t]); }
    if t in s'.addressUnit { AddressKept(s.gpr, s.rob, i, s'.gpr, s'.rob, j, s.addressUnit[t]); }
  }
}
