/** The sequential machine: one instruction at a time, straight from program counter, registers
    and memory. The pipeline is proved to refine it. */
module Isa {
  import opened Words
  import opened Instructions
  import opened ByteMemory

  /** What both machines share: the program, and the functions computed by the functional units.
      Nothing about the pipeline depends on which functions these are beyond `Sound`. */
  datatype Core = Core(
    program: u32 -> Inst,
    alu: (Function, u32, u32) -> Option<u32>,
    amo: (Function, u32, u32) -> u32,
    load: (Function, Mem, u32) -> Result<u32, Fault>,
    store: (Function, Mem, u32, u32) -> Result<Mem, Fault>,
    syscall: (Regs, Mem) -> Result<(u32, Mem), Exception>)

  /** The instruction executed at `pc`: floating-point instructions are replaced by a NOP. */
  function Fetch(c: Core, pc: u32): Inst {
    var i := c.program(pc);
    if IsFloat(i.opcode) then NOP else i
  }

  /** Where an operand comes from: a register, or a constant known at issue. */
  datatype Source = FromReg(r: Reg) | Const(v: u32)

  function Eval(src: Source, regs: Regs): u32 {
    match src
    case FromReg(r) => regs[r]
    case Const(v) => v
  }

  /** The first operand of the arithmetic unit. */
  function Src1(pc: u32, i: Inst): Source {
    match i.opcode
    case Jalr | Jal | AuiPc => Const(pc)
    case Lui | Amo => Const(0)
    case _ => FromReg(Rs1(i))
  }

  /** The second operand of the arithmetic unit. */
  function Src2(i: Inst): Source {
    match i.opcode
    case Jalr | Jal => Const(WORD_SIZE)
    case AuiPc | Lui => Const(Imm(i))
    case Amo => Const(0)
    case _ => if i.fields.rs2.Some? then FromReg(Rs2(i)) else Const(Imm(i))
  }

  predicate IsEcall(i: Inst) { i.func.Ecall? }

  /** Loads and atomics other than SC read memory through the load buffer. */
  predicate ReadsMem(i: Inst) {
    i.opcode.Load? || (i.opcode.Amo? && !i.func.Scw?)
  }

  /** Stores and atomics other than LR write memory. */
  predicate WritesMem(i: Inst) {
    (i.opcode.Store? || i.opcode.Amo?) && !i.func.Lrw?
  }

  /** The instructions whose register result comes from the arithmetic unit. */
  predicate UsesAlu(i: Inst) {
    !i.opcode.Store? && !ReadsMem(i)
  }

  /** The instructions whose address or target is rs1 + imm. */
  predicate UsesAddressUnit(i: Inst) {
    i.opcode.Store? || i.opcode.Load? || i.opcode.Jalr?
  }

  /** Address accessed, or jump target: atomics use rs1 as it is. */
  function Address(i: Inst, regs: Regs): u32 {
    if i.opcode.Amo? then regs[Rs1(i)] else Wrap(regs[Rs1(i)] + Imm(i))
  }

  datatype State = State(pc: u32, regs: Regs, mem: Mem)

  /** x0 is not writable. */
  function SetReg(regs: Regs, r: Reg, v: u32): Regs {
    if r == 0 then regs else regs[r := v]
  }

  /** The value an instruction computes for its destination register, or a branch's outcome. */
  function Produced(c: Core, s: State): Result<u32, Fault> {
    var i := Fetch(c, s.pc);
    if ReadsMem(i) then c.load(i.func, s.mem, Address(i, s.regs))
    else
      match c.alu(i.func, Eval(Src1(s.pc, i), s.regs), Eval(Src2(i), s.regs))
      case Some(v) => Ok(v)
      case None => Err(DivideFault)
  }

  /** The word a store or an atomic writes, given the value an atomic reads. */
  function Stored(c: Core, i: Inst, regs: Regs, word: u32): u32 {
    if ReadsMem(i) then c.amo(i.func, word, regs[Rs2(i)]) else regs[Rs2(i)]
  }

  /** The successor of the instruction at `pc`, a branch having outcome `taken`. */
  function Successor(i: Inst, pc: u32, regs: Regs, taken: u32): u32 {
    match i.opcode
    case Jal => Wrap(pc + Imm(i))
    case Jalr => Address(i, regs)
    case Branch => if taken == 1 then Wrap(pc + Imm(i)) else Wrap(pc + WORD_SIZE)
    case _ => Wrap(pc + WORD_SIZE)
  }

  /** Execute one instruction. */
  function Step(c: Core, s: State): Result<State, Fault> {
    var i := Fetch(c, s.pc);
    if IsEcall(i) then
      match c.syscall(s.regs, s.mem)
      case Err(e) => Err(Trap(e))
      case Ok((a0, m)) => Ok(State(Wrap(s.pc + WORD_SIZE), s.regs[10 := a0], m))
    else if i.opcode.Store? then
      match c.store(i.func, s.mem, Address(i, s.regs), s.regs[Rs2(i)])
      case Err(e) => Err(e)
      case Ok(m) => Ok(State(Wrap(s.pc + WORD_SIZE), s.regs, m))
    else
      match Produced(c, s)
      case Err(e) => Err(e)
      case Ok(v) =>
        var next := State(Successor(i, s.pc, s.regs, v), SetReg(s.regs, Rd(i), v), s.mem);
        if !WritesMem(i) then Ok(next)
        else
          match c.store(i.func, s.mem, Address(i, s.regs), Stored(c, i, s.regs, v))
          case Err(e) => Err(e)
          case Ok(m) => Ok(next.(mem := m))
  }

  /** The state after `n` instructions, or the fault met on the way. */
  function Run(c: Core, s: State, n: nat): Result<State, Fault>
    decreases n
  {
    if n == 0 then Ok(s)
    else
      match Step(c, s)
      case Err(e) => Err(e)
      case Ok(s') => Run(c, s', n - 1)
  }

  lemma {:induction false} RunSnoc(c: Core, s: State, n: nat)
    ensures Run(c, s, n + 1) == match Run(c, s, n) case Err(e) => Err(e) case Ok(t) => Step(c, t)
    decreases n
  {
    if n > 0 && Step(c, s).Ok? {
      RunSnoc(c, Step(c, s).value, n - 1);
    }
  }

  lemma {:induction false} RunPlus(c: Core, s: State, m: nat, n: nat)
    requires Run(c, s, m).Ok?
    ensures Run(c, s, m + n) == Run(c, Run(c, s, m).value, n)
    decreases m
  {
    if m > 0 {
      RunPlus(c, Step(c, s).value, m - 1, n);
    }
  }

  lemma RunSplit(c: Core, s: State, m: nat, n: nat, k: nat)
    requires Run(c, s, m).Ok? && k == m + n
    ensures Run(c, s, k) == Run(c, Run(c, s, m).value, n)
  {
    RunPlus(c, s, m, n);
  }

  /** Once a run faults it stays faulted. */
  lemma {:induction false} RunPrefix(c: Core, s: State, m: nat, n: nat)
    requires m <= n
    requires Run(c, s, n).Ok?
    ensures Run(c, s, m).Ok?
    decreases n - m
  {
    if m < n {
      RunPrefix(c, s, m + 1, n);
      RunSnoc(c, s, m);
    }
  }

  // ---- What the refinement assumes ----

  /** Laws of the functional units. The concrete ones obey them. */
  ghost predicate Sound(c: Core) {
    && (forall f, a, b {:trigger c.alu(f, a, b)} :: IsBranch(f) && c.alu(f, a, b).Some? ==> c.alu(f, a, b).value <= 1)
    && (forall f, a, b {:trigger c.alu(f, a, b)} :: c.alu(f, a, b).None? ==> IsDivision(f))
    && (forall f, g, m, a, b, v {:trigger StoreThenLoad(c, f, g, m, a, b, v)} :: StoreThenLoad(c, f, g, m, a, b, v))
    && (forall f, m, a, v {:trigger TrapsAgree(c, f, m, a, v)} :: TrapsAgree(c, f, m, a, v))
    && (forall f, m, a {:trigger c.load(f, m, a)} :: c.load(f, m, a) != Err(DivideFault))
  }

  /** A store leaves every disjoint load unchanged. */
  ghost predicate StoreThenLoad(c: Core, f: Function, g: Function, m: Mem, a: u32, b: u32, v: u32) {
    c.store(f, m, b, v).Ok? && Disjoint(a, Width(g), b, Width(f)) ==>
      c.load(g, c.store(f, m, b, v).value, a) == c.load(g, m, a)
  }

  /** Where an atomic's read traps, its write would trap the same way. */
  ghost predicate TrapsAgree(c: Core, f: Function, m: Mem, a: u32, v: u32) {
    c.load(f, m, a).Err? && c.load(f, m, a).error.Trap? ==> c.store(f, m, a, v) == Err(c.load(f, m, a).error)
  }

  /** ECALL is encoded with rd = x0; the decoder accepts other values. */
  ghost predicate EcallsPlain(c: Core) {
    forall pc: u32 {:trigger c.program(pc)} :: IsEcall(c.program(pc)) ==> Rd(c.program(pc)) == 0
  }

  /** The next instruction is not a JALR to address 0 (unless it is at address 0 itself). */
  ghost predicate TargetOk(c: Core, s: State) {
    var i := Fetch(c, s.pc);
    i.opcode.Jalr? ==> Address(i, s.regs) != 0 || s.pc == 0
  }

  /** What `s` is about to write overlaps what `t` is about to read. */
  ghost predicate Overlaps(c: Core, s: State, t: State) {
    var i, j := Fetch(c, s.pc), Fetch(c, t.pc);
    WritesMem(i) && ReadsMem(j) && !Disjoint(Address(j, t.regs), Width(j.func), Address(i, s.regs), Width(i.func))
  }

  /** A memory access, if the next instruction is one, is of an aligned word. */
  ghost predicate WordAccess(c: Core, s: State) {
    var i := Fetch(c, s.pc);
    ReadsMem(i) || WritesMem(i) ==> Width(i.func) == 4 && Address(i, s.regs) % 4 == 0
  }

  /** Aligned words overlap only where they are equal. */
  lemma AlignedWords(c: Core, s: State, t: State)
    requires WordAccess(c, s) && WordAccess(c, t) && Overlaps(c, s, t)
    ensures Address(Fetch(c, s.pc), s.regs) == Address(Fetch(c, t.pc), t.regs)
  {
  }

  /** None of the next `n` instructions is a JALR to 0. */
  ghost predicate JumpsOk(c: Core, s: State, n: nat) {
    forall k: nat {:trigger Run(c, s, k)} :: k < n && Run(c, s, k).Ok? ==> TargetOk(c, Run(c, s, k).value)
  }

  lemma JumpsLater(c: Core, s: State, m: nat, n: nat)
    requires JumpsOk(c, s, m + n) && Run(c, s, m).Ok?
    ensures JumpsOk(c, Run(c, s, m).value, n)
  {
    forall k: nat {:trigger Run(c, Run(c, s, m).value, k)} | k < n && Run(c, Run(c, s, m).value, k).Ok?
      ensures TargetOk(c, Run(c, Run(c, s, m).value, k).value)
    {
      RunPlus(c, s, m, k);
    }
  }
}
