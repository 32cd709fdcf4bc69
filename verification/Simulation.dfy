/** The simulation relation between the out-of-order core and the sequential machine, along the path
    the core predicts and along the path the program takes. */
module Simulation {
  import opened Words
  import opened Instructions
  import opened ByteMemory
  import opened Isa
  import opened OutOfOrder
  import opened Invariant

  // ---- The predicted path ----

  /** What an instruction hands to younger ones: its result, or 0 if it faults. */
  function ValueOf(c: Core, x: State): u32 {
    if Produced(c, x).Ok? then Produced(c, x).value else 0
  }

  /** Memory after the instruction's write, if it has one that succeeds. */
  function MemoryAfter(c: Core, x: State): Mem {
    var i := Fetch(c, x.pc);
    if !WritesMem(i) then x.mem
    else
      match c.store(i.func, x.mem, Address(i, x.regs), Stored(c, i, x.regs, ValueOf(c, x)))
      case Ok(m) => m
      case Err(_) => x.mem
  }

  /** Registers and memory after an instruction, whatever happens to it; its pc is left. */
  function Effect(c: Core, x: State): State {
    x.(regs := SetReg(x.regs, Rd(Fetch(c, x.pc)), ValueOf(c, x)), mem := MemoryAfter(c, x))
  }

  /** Registers and memory before the `i`-th instruction of the buffer, the committed ones being `a`'s. */
  function Entering(c: Core, rob: seq<RobEntry>, a: State, i: nat): State
    requires i <= |rob|
  {
    if i == 0 then a else Effect(c, Entering(c, rob, a, i - 1).(pc := rob[i - 1].pc))
  }

  /** The state in which entry `i` executes on the path the core has predicted. */
  function At(c: Core, rob: seq<RobEntry>, a: State, i: nat): State
    requires i < |rob|
  {
    Entering(c, rob, a, i).(pc := rob[i].pc)
  }

  // ---- The path taken ----

  /** The program goes on after entry `j` where the core has predicted. */
  ghost predicate StaysOn(c: Core, rob: seq<RobEntry>, a: State, j: nat)
    requires j + 1 < |rob|
  {
    Step(c, At(c, rob, a, j)).Ok? && Step(c, At(c, rob, a, j)).value.pc == rob[j + 1].pc
  }

  /** Entry `i` is on the path the program takes. */
  ghost predicate OnPath(c: Core, rob: seq<RobEntry>, a: State, i: nat)
    requires i < |rob|
  {
    forall j :: 0 <= j < i ==> StaysOn(c, rob, a, j)
  }

  /** The entries a statement is about: those on the path, or all, wrong predictions included. */
  datatype Scope = PathTaken | PathPredicted

  ghost predicate Covered(w: Scope, c: Core, rob: seq<RobEntry>, a: State, i: nat)
    requires i < |rob|
  {
    w.PathPredicted? || OnPath(c, rob, a, i)
  }

  /** The first `n` entries are the next `n` instructions of the sequential run from `a`, which does
      not fault before the state they lead to. */
  ghost predicate Follows(c: Core, rob: seq<RobEntry>, a: State, n: nat)
    requires n <= |rob|
  {
    && (forall j :: 0 <= j <= n ==> Run(c, a, j).Ok?)
    && (forall j :: 0 <= j < n ==> rob[j].pc == Run(c, a, j).value.pc)
  }

  // ---- Simulation ----

  /** What a load or atomic has read is what it reads in state `x`. All else an entry holds follows
      from the invariant. */
  ghost predicate LoadExact(c: Core, s: Machine, e: RobEntry, x: State) {
    ReadsMem(e.inst) ==>
      && (e.regValue.Some? && e.memException.None? ==> Produced(c, x) == Ok(e.regValue.value))
      && (e.memException.Some? ==> Produced(c, x) == Err(Trap(e.memException.value)))
      && (e.id in s.loadBuf && s.loadBuf[e.id].status.Finished? ==>
            match s.loadBuf[e.id].value
            case Ok(v) => Produced(c, x) == Ok(v)
            case Err(t) => Produced(c, x) == Err(Trap(t)))
  }

  ghost predicate LoadsExact(w: Scope, c: Core, s: Machine, a: State) {
    forall i {:trigger At(c, s.rob, a, i)} ::
      0 <= i < |s.rob| && Covered(w, c, s.rob, a, i) ==> LoadExact(c, s, s.rob[i], At(c, s.rob, a, i))
  }

  /** The head's store is in memory although the head has not retired yet. */
  predicate HeadWritten(s: Machine) {
    s.rob != [] && Written(s.rob[0])
  }

  /** Committed state: registers and memory are those of `a`, up to the head's early write, and
      `a`'s pc is that of the oldest instruction not yet retired. */
  ghost predicate CommittedIs(c: Core, s: Machine, a: State) {
    && s.gpr == a.regs
    && a.pc == (if s.rob == [] then s.pc else s.rob[0].pc)
    && (if HeadWritten(s) then Step(c, a).Ok? && s.mem == Step(c, a).value.mem else s.mem == a.mem)
  }

  ghost predicate Simulates(w: Scope, c: Core, s: Machine, a: State) {
    Inv(c, s) && CommittedIs(c, s, a) && LoadsExact(w, c, s, a)
  }

  // ---- What it means for every value in flight ----

  /** The first `i` entries hold what was fetched at their pc, and no ECALL. */
  ghost predicate Plain(c: Core, rob: seq<RobEntry>, i: nat)
    requires i <= |rob|
  {
    forall k :: 0 <= k < i ==>
      rob[k].inst == Fetch(c, rob[k].pc) && rob[k].rd == Rd(rob[k].inst) && !IsEcall(rob[k].inst)
  }

  lemma OlderPlain(c: Core, s: Machine, i: nat)
    requires Inv(c, s) && i < |s.rob|
    ensures Plain(c, s.rob, i)
  {
    forall k | 0 <= k < i ensures s.rob[k].inst == Fetch(c, s.rob[k].pc) && s.rob[k].rd == Rd(s.rob[k].inst) {
      assert SlotOk(c, s, k);
    }
  }

  /** A register before entry `i` of the predicted path holds the result of its youngest older writer,
      or the committed value. */
  lemma {:induction false} WriterValue(c: Core, rob: seq<RobEntry>, a: State, i: nat, r: Reg)
    requires i <= |rob| && forall k :: 0 <= k < i ==> rob[k].rd == Rd(Fetch(c, rob[k].pc))
    ensures var j := LastWriter(rob, i, r);
      Entering(c, rob, a, i).regs[r] == if r == 0 || j < 0 then a.regs[r] else ValueOf(c, At(c, rob, a, j))
  {
    if i > 0 { WriterValue(c, rob, a, i - 1, r); }
  }

  lemma CoveredBelow(w: Scope, c: Core, rob: seq<RobEntry>, a: State, i: nat, j: nat)
    requires j <= i < |rob| && Covered(w, c, rob, a, i)
    ensures Covered(w, c, rob, a, j)
  {
  }

  /** A result an entry has is the one the sequential machine computes at that point. */
  lemma {:induction false} ResultExact(w: Scope, c: Core, s: Machine, a: State, j: nat)
    requires Simulates(w, c, s, a) && j < |s.rob| && Covered(w, c, s.rob, a, j) && s.rob[j].regValue.Some?
    ensures s.rob[j].regValue.value == ValueOf(c, At(c, s.rob, a, j))
    ensures s.rob[j].memException.None? ==> Produced(c, At(c, s.rob, a, j)) == Ok(s.rob[j].regValue.value)
    ensures s.rob[j].memException.Some? ==> Produced(c, At(c, s.rob, a, j)) == Err(Trap(s.rob[j].memException.value))
    decreases j, 1
  {
    var e, x := s.rob[j], At(c, s.rob, a, j);
    assert Filed(c, s, j) && CountdownOk(s, j) && Computed(c, s.gpr, s.rob, j) by { assert SlotOk(c, s, j); }
    if UsesAlu(e.inst) {
      KnownExact(w, c, s, a, j, Src1(e.pc, e.inst));
      KnownExact(w, c, s, a, j, Src2(e.inst));
    } else {
      assert LoadExact(c, s, e, x);
    }
  }

  /** What is known of a source is its value at that point of the path. */
  lemma {:induction false} KnownExact(w: Scope, c: Core, s: Machine, a: State, i: nat, src: Source)
    requires Simulates(w, c, s, a) && i < |s.rob| && Covered(w, c, s.rob, a, i)
    ensures var k := Known(s.gpr, s.rob, i, src); k.Some? ==> k.value == Eval(src, At(c, s.rob, a, i).regs)
    decreases i, 0
  {
    if src.FromReg? {
      OlderPlain(c, s, i);
      WriterValue(c, s.rob, a, i, src.r);
      var j := LastWriter(s.rob, i, src.r);
      if src.r != 0 && j >= 0 && s.rob[j].regValue.Some? {
        CoveredBelow(w, c, s.rob, a, i, j);
        ResultExact(w, c, s, a, j);
      }
    }
  }

  predicate Exact(op: Operand, v: u32) {
    op.Value? ==> op.v == v
  }

  /** Every value an entry holds, anywhere in the core, agrees with executing it in state `x`. */
  ghost predicate SlotExact(c: Core, s: Machine, i: nat, x: State)
    requires i < |s.rob|
  {
    var e := s.rob[i];
    && e.inst == Fetch(c, x.pc)
    && (e.regValue.Some? && e.memException.None? ==> Produced(c, x) == Ok(e.regValue.value))
    && (e.memException.Some? ==> Produced(c, x) == Err(Trap(e.memException.value)))
    && Exact(e.addr, Address(e.inst, x.regs))
    && (e.id in s.station ==>
          && Exact(s.station[e.id].op1, Eval(Src1(e.pc, e.inst), x.regs))
          && Exact(s.station[e.id].op2, Eval(Src2(e.inst), x.regs))
          && (s.station[e.id].status.Finished? ==> Produced(c, x) == Ok(s.station[e.id].value)))
    && (e.id in s.addressUnit ==> Exact(s.addressUnit[e.id].op1, x.regs[Rs1(e.inst)]))
    && LoadExact(c, s, e, x)
    && DataExact(c, s, e, x)
  }

  /** The data operand of a store or atomic: rs2, and after the read of an atomic the word to write. */
  ghost predicate DataExact(c: Core, s: Machine, e: RobEntry, x: State) {
    if ReadsMem(e.inst) && HasRead(s, e) && !HasTrapped(s, e) then
      WritesMem(e.inst) ==> Produced(c, x).Ok? && e.memValue == Value(Stored(c, e.inst, x.regs, Produced(c, x).value))
    else Exact(e.memValue, x.regs[Rs2(e.inst)])
  }

  lemma AddrExact(w: Scope, c: Core, s: Machine, a: State, i: nat)
    requires Simulates(w, c, s, a) && i < |s.rob| && Covered(w, c, s.rob, a, i)
    ensures Exact(s.rob[i].addr, Address(s.rob[i].inst, At(c, s.rob, a, i).regs))
  {
    assert AddrOk(s.gpr, s.rob, i) && Filed(c, s, i) by { assert SlotOk(c, s, i); }
    KnownExact(w, c, s, a, i, FromReg(Rs1(s.rob[i].inst)));
  }

  lemma HeldDataExact(w: Scope, c: Core, s: Machine, a: State, i: nat)
    requires Simulates(w, c, s, a) && i < |s.rob| && Covered(w, c, s.rob, a, i)
    ensures DataExact(c, s, s.rob[i], At(c, s.rob, a, i))
  {
    var e := s.rob[i];
    assert DataOk(c, s, i) && Filed(c, s, i) && CountdownOk(s, i) by { assert SlotOk(c, s, i); }
    KnownExact(w, c, s, a, i, FromReg(Rs2(e.inst)));
    assert LoadExact(c, s, e, At(c, s.rob, a, i));
  }

  lemma HeldExact(w: Scope, c: Core, s: Machine, a: State, i: nat)
    requires Simulates(w, c, s, a) && i < |s.rob| && Covered(w, c, s.rob, a, i)
    ensures var e, x := s.rob[i], At(c, s.rob, a, i);
      && (e.id in s.station ==>
            && Exact(s.station[e.id].op1, Eval(Src1(e.pc, e.inst), x.regs))
            && Exact(s.station[e.id].op2, Eval(Src2(e.inst), x.regs))
            && (s.station[e.id].status.Finished? ==> Produced(c, x) == Ok(s.station[e.id].value)))
      && (e.id in s.addressUnit ==> Exact(s.addressUnit[e.id].op1, x.regs[Rs1(e.inst)]))
  {
    var e := s.rob[i];
    assert Held(c, s, i) && Filed(c, s, i) by { assert SlotOk(c, s, i); }
    KnownExact(w, c, s, a, i, Src1(e.pc, e.inst));
    KnownExact(w, c, s, a, i, Src2(e.inst));
    KnownExact(w, c, s, a, i, FromReg(Rs1(e.inst)));
  }

  /** The speculative data-flow invariant: every operand, address, result and data word of every
      entry is the one of its point of the path. */
  lemma SlotsExact(w: Scope, c: Core, s: Machine, a: State, i: nat)
    requires Simulates(w, c, s, a) && i < |s.rob| && Covered(w, c, s.rob, a, i)
    ensures SlotExact(c, s, i, At(c, s.rob, a, i))
  {
    assert Filed(c, s, i) by { assert SlotOk(c, s, i); }
    if s.rob[i].regValue.Some? { ResultExact(w, c, s, a, i); }
    AddrExact(w, c, s, a, i);
    HeldExact(w, c, s, a, i);
    HeldDataExact(w, c, s, a, i);
    assert LoadExact(c, s, s.rob[i], At(c, s.rob, a, i));
    assert CountdownOk(s, i) by { assert SlotOk(c, s, i); }
  }
}
