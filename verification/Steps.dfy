/** What each instruction does to the architectural state, opcode by opcode and straight from its fields:
    the sequential machine on the real functional units does that and nothing else. */
module Steps {
  import opened Words
  import opened Instructions
  import opened ByteMemory
  import opened Isa
  import opened Operations
  import opened Accesses
  import opened Hardware
  import Alu

  // ---- The meaning of the instructions ----

  /** Nothing but the program counter and register `rd` changes; x0 never does. */
  ghost predicate OnlyRegister(s: State, t: State, rd: Reg) {
    t.mem == s.mem && forall r: Reg :: r == 0 || r != rd ==> t.regs[r] == s.regs[r]
  }

  /** The branch is taken, its operands being `a` and `b`. */
  predicate Taken(f: Function, a: u32, b: u32) {
    match f
    case Beq => a == b
    case Bne => a != b
    case Blt => Signed(a) < Signed(b)
    case Bge => Signed(a) >= Signed(b)
    case Bltu => a < b
    case Bgeu => a >= b
    case _ => false
  }

  /** The next pc is `x`, modulo 2^32. */
  ghost predicate GoesTo(t: State, x: int) {
    Congruent(t.pc, x)
  }

  /** rd, unless it is x0, holds `x` modulo 2^32. */
  ghost predicate Holds(t: State, rd: Reg, x: int) {
    rd != 0 ==> Congruent(t.regs[rd], x)
  }

  /** From `s` to `t` by an operation of the arithmetic unit on the words `a` and `b`. */
  ghost predicate Operates(f: Function, rd: Reg, a: u32, b: u32, s: State, t: State) {
    !NoResult(f, a, b) && (rd != 0 ==> Gives(f, a, b, t.regs[rd])) && OnlyRegister(s, t, rd) && GoesTo(t, s.pc + 4)
  }

  /** From `s` to `t` by loading from `a`. */
  ghost predicate Loads(f: Function, rd: Reg, a: u32, s: State, t: State) {
    var b := ReadBytes(s.mem, a, Size(f));
    b.Ok? && (rd != 0 ==> Loaded(f, b.value, t.regs[rd])) && OnlyRegister(s, t, rd) && GoesTo(t, s.pc + 4)
  }

  /** From `s` to `t` by storing `v` at `a`. */
  ghost predicate Stores(f: Function, a: u32, v: u32, s: State, t: State) {
    WriteBytes(s.mem, a, BytesOf(f, v)) == Ok(t.mem) && t.regs == s.regs && GoesTo(t, s.pc + 4)
  }

  /** Having read the bytes `b`, which make `word`, the atomic stores `r`. */
  ghost predicate Exchanged(f: Function, b: seq<u8>, x: u32, word: u32, r: u32) {
    Loaded(f, b, word) && Combined(f, word, x, r)
  }

  /** The same, `o` being how that ends. */
  ghost predicate Exchanges(f: Function, b: seq<u8>, x: u32, m: Mem, a: u32, o: Result<Mem, Fault>) {
    exists word, r: u32 :: Exchanged(f, b, x, word, r) && o == WriteBytes(m, a, BytesOf(f, r))
  }

  /** From `s` to `t` by an atomic on the word at `a`: LR only reads, SC only writes and always succeeds, and
      the others do both. */
  ghost predicate Updates(f: Function, rd: Reg, a: u32, x: u32, s: State, t: State) {
    if f.Lrw? then Loads(f, rd, a, s, t)
    else if f.Scw? then
      && WriteBytes(s.mem, a, BytesOf(f, x)) == Ok(t.mem) && Holds(t, rd, 0)
      && OnlyRegister(s, t.(mem := s.mem), rd) && GoesTo(t, s.pc + 4)
    else
      var b := ReadBytes(s.mem, a, 4);
      b.Ok? && Loads(f, rd, a, s, t.(mem := s.mem)) && Exchanges(f, b.value, x, s.mem, a, Ok(t.mem))
  }

  /** From `s` to `t` by a system call, which sees all registers and memory and returns in a0. */
  ghost predicate Calls(syscall: Syscalls, s: State, t: State) {
    var o := syscall(s.regs, s.mem);
    && o.Ok? && t.mem == o.value.1 && t.regs[10] == o.value.0 && GoesTo(t, s.pc + 4)
    && forall r: Reg :: r != 10 ==> t.regs[r] == s.regs[r]
  }

  /** `i` takes state `s` to state `t`. Floating-point instructions do nothing. */
  ghost predicate Executes(i: Inst, syscall: Syscalls, s: State, t: State) {
    var f := i.fields;
    match i.opcode
    case Lui => Holds(t, f.rd.value, f.imm.value) && OnlyRegister(s, t, f.rd.value) && GoesTo(t, s.pc + 4)
    case AuiPc => Holds(t, f.rd.value, s.pc + f.imm.value) && OnlyRegister(s, t, f.rd.value) && GoesTo(t, s.pc + 4)
    case Jal => Holds(t, f.rd.value, s.pc + 4) && OnlyRegister(s, t, f.rd.value) && GoesTo(t, s.pc + f.imm.value)
    case Jalr =>
      && Holds(t, f.rd.value, s.pc + 4) && OnlyRegister(s, t, f.rd.value)
      && GoesTo(t, s.regs[f.rs1.value] + f.imm.value)
    case Branch =>
      && t.regs == s.regs && t.mem == s.mem
      && GoesTo(t, s.pc + if Taken(i.func, s.regs[f.rs1.value], s.regs[f.rs2.value]) then f.imm.value else 4)
    case Load => Loads(i.func, f.rd.value, Wrap(s.regs[f.rs1.value] + f.imm.value), s, t)
    case Store => Stores(i.func, Wrap(s.regs[f.rs1.value] + f.imm.value), s.regs[f.rs2.value], s, t)
    case Op => Operates(i.func, f.rd.value, s.regs[f.rs1.value], s.regs[f.rs2.value], s, t)
    case OpImm => Operates(i.func, f.rd.value, s.regs[f.rs1.value], f.imm.value, s, t)
    case Amo => Updates(i.func, f.rd.value, s.regs[f.rs1.value], s.regs[f.rs2.value], s, t)
    case System =>
      if i.func.Ecall? then Calls(syscall, s, t)
      else Holds(t, f.rd.value, 0) && OnlyRegister(s, t, f.rd.value) && GoesTo(t, s.pc + 4)
    case MiscMem => Holds(t, f.rd.value, 0) && OnlyRegister(s, t, f.rd.value) && GoesTo(t, s.pc + 4)
    case _ => t.regs == s.regs && t.mem == s.mem && GoesTo(t, s.pc + 4)
  }

  /** `i` stops the machine in state `s`: a division without a result, a failed access, a failed call. */
  ghost predicate Stops(i: Inst, syscall: Syscalls, s: State, e: Fault) {
    var f := i.fields;
    match i.opcode
    case Op => NoResult(i.func, s.regs[f.rs1.value], s.regs[f.rs2.value]) && e == DivideFault
    case Load => ReadBytes(s.mem, Wrap(s.regs[f.rs1.value] + f.imm.value), Size(i.func)) == Err(e)
    case Store =>
      WriteBytes(s.mem, Wrap(s.regs[f.rs1.value] + f.imm.value), BytesOf(i.func, s.regs[f.rs2.value])) == Err(e)
    case Amo =>
      var a, x := s.regs[f.rs1.value], s.regs[f.rs2.value];
      if i.func.Lrw? then ReadBytes(s.mem, a, 4) == Err(e)
      else if i.func.Scw? then WriteBytes(s.mem, a, BytesOf(i.func, x)) == Err(e)
      else
        var b := ReadBytes(s.mem, a, 4);
        b == Err(e) || (b.Ok? && Exchanges(i.func, b.value, x, s.mem, a, Err(e)))
    case System => i.func.Ecall? && syscall(s.regs, s.mem).Err? && e == Trap(syscall(s.regs, s.mem).error)
    case _ => false
  }

  /** What executing `i` in state `s` may lead to. */
  ghost predicate Obeys(i: Inst, syscall: Syscalls, s: State, o: Result<State, Fault>) {
    if o.Ok? then Executes(i, syscall, s, o.value) else Stops(i, syscall, s, o.error)
  }

  // ---- The sequential machine obeys ----

  lemma SetKeeps(s: State, rd: Reg, v: u32, t: State)
    requires t.regs == SetReg(s.regs, rd, v) && t.mem == s.mem
    ensures OnlyRegister(s, t, rd) && (rd != 0 ==> t.regs[rd] == v)
  {
  }

  /** The instruction at the program counter gets its result from the arithmetic unit, its operands being
      `a` and `b`, and does not write to memory. */
  ghost predicate Computes(p: Program, syscall: Syscalls, s: State, i: Inst, a: u32, b: u32) {
    && i == Fetch(RealCore(p, syscall), s.pc)
    && UsesAlu(i) && !WritesMem(i) && !IsEcall(i)
    && a == Isa.Eval(Src1(s.pc, i), s.regs) && b == Isa.Eval(Src2(i), s.regs)
  }

  lemma AluStep(p: Program, syscall: Syscalls, s: State, i: Inst, a: u32, b: u32)
    requires Computes(p, syscall, s, i, a, b)
    ensures Step(RealCore(p, syscall), s) ==
      var v := Alu.Eval(i.func, a, b);
      if v.None? then Err(DivideFault)
      else Ok(State(Successor(i, s.pc, s.regs, v.value), SetReg(s.regs, Rd(i), v.value), s.mem))
  {
  }

  /** What the step then does. */
  ghost predicate Computed(i: Inst, a: u32, b: u32, s: State, o: Result<State, Fault>) {
    if o.Ok? then
      && !NoResult(i.func, a, b) && OnlyRegister(s, o.value, Rd(i))
      && (Rd(i) != 0 ==> Gives(i.func, a, b, o.value.regs[Rd(i)]))
      && exists v: u32 :: Gives(i.func, a, b, v) && o.value.pc == Successor(i, s.pc, s.regs, v)
    else NoResult(i.func, a, b) && o.error == DivideFault
  }

  lemma AluComputes(p: Program, syscall: Syscalls, s: State, i: Inst, a: u32, b: u32)
    requires Computes(p, syscall, s, i, a, b)
    ensures Computed(i, a, b, s, Step(RealCore(p, syscall), s))
  {
    AluStep(p, syscall, s, i, a, b);
    EvalMeets(i.func, a, b);
    var v := Alu.Eval(i.func, a, b);
    if v.Some? {
      SetKeeps(s, Rd(i), v.value, Step(RealCore(p, syscall), s).value);
    }
  }

  /** The next instruction, where the successor does not depend on the result. */
  lemma NextCongruent(i: Inst, pc: u32, regs: Regs, v: u32)
    ensures i.opcode.Jal? ==> Congruent(Successor(i, pc, regs, v), pc + i.fields.imm.value)
    ensures i.opcode.Jalr? ==> Congruent(Successor(i, pc, regs, v), regs[i.fields.rs1.value] + i.fields.imm.value)
    ensures i.opcode.Branch? ==> Congruent(Successor(i, pc, regs, v), pc + if v == 1 then i.fields.imm.value else 4)
    ensures !i.opcode.Jal? && !i.opcode.Jalr? && !i.opcode.Branch? ==> Congruent(Successor(i, pc, regs, v), pc + 4)
  {
    Wrapped(pc + Imm(i));
    Wrapped(pc + 4);
    Wrapped(regs[Rs1(i)] + Imm(i));
  }

  /** The instruction at the program counter is `i`, a mnemonic of its opcode. */
  ghost predicate Fetched(p: Program, s: State, i: Inst) {
    i == p(s.pc) && Belongs(i.func, i.opcode)
  }

  lemma UpperObeys(p: Program, syscall: Syscalls, s: State, i: Inst)
    requires Fetched(p, s, i) && (i.opcode.Lui? || i.opcode.AuiPc?)
    ensures Obeys(i, syscall, s, Step(RealCore(p, syscall), s))
  {
    AluComputes(p, syscall, s, i, if i.opcode.Lui? then 0 else s.pc, i.fields.imm.value);
    forall v: u32 { NextCongruent(i, s.pc, s.regs, v); }
  }

  lemma JumpObeys(p: Program, syscall: Syscalls, s: State, i: Inst)
    requires Fetched(p, s, i) && (i.opcode.Jal? || i.opcode.Jalr?)
    ensures Obeys(i, syscall, s, Step(RealCore(p, syscall), s))
  {
    AluComputes(p, syscall, s, i, s.pc, 4);
    forall v: u32 { NextCongruent(i, s.pc, s.regs, v); }
  }

  lemma BranchObeys(p: Program, syscall: Syscalls, s: State, i: Inst)
    requires Fetched(p, s, i) && i.opcode.Branch?
    ensures Obeys(i, syscall, s, Step(RealCore(p, syscall), s))
  {
    AluComputes(p, syscall, s, i, s.regs[i.fields.rs1.value], s.regs[i.fields.rs2.value]);
    forall v: u32 { NextCongruent(i, s.pc, s.regs, v); }
  }

  lemma RegisterObeys(p: Program, syscall: Syscalls, s: State, i: Inst)
    requires Fetched(p, s, i) && i.opcode.Op?
    ensures Obeys(i, syscall, s, Step(RealCore(p, syscall), s))
  {
    AluComputes(p, syscall, s, i, s.regs[i.fields.rs1.value], s.regs[i.fields.rs2.value]);
    forall v: u32 { NextCongruent(i, s.pc, s.regs, v); }
  }

  lemma ImmediateObeys(p: Program, syscall: Syscalls, s: State, i: Inst)
    requires Fetched(p, s, i) && i.opcode.OpImm?
    ensures Obeys(i, syscall, s, Step(RealCore(p, syscall), s))
  {
    AluComputes(p, syscall, s, i, s.regs[i.fields.rs1.value], i.fields.imm.value);
    forall v: u32 { NextCongruent(i, s.pc, s.regs, v); }
  }

  lemma FenceObeys(p: Program, syscall: Syscalls, s: State, i: Inst)
    requires Fetched(p, s, i) && i.opcode.MiscMem?
    ensures Obeys(i, syscall, s, Step(RealCore(p, syscall), s))
  {
    AluComputes(p, syscall, s, i, s.regs[i.fields.rs1.value], i.fields.imm.value);
    forall v: u32 { NextCongruent(i, s.pc, s.regs, v); }
  }

  lemma BreakObeys(p: Program, syscall: Syscalls, s: State, i: Inst)
    requires Fetched(p, s, i) && i.opcode.System? && i.func.Ebreak?
    ensures Obeys(i, syscall, s, Step(RealCore(p, syscall), s))
  {
    AluComputes(p, syscall, s, i, s.regs[i.fields.rs1.value], i.fields.imm.value);
    forall v: u32 { NextCongruent(i, s.pc, s.regs, v); }
  }

  lemma FloatObeys(p: Program, syscall: Syscalls, s: State, i: Inst)
    requires Fetched(p, s, i) && IsFloat(i.opcode)
    ensures Obeys(i, syscall, s, Step(RealCore(p, syscall), s))
  {
    AluComputes(p, syscall, s, NOP, s.regs[0], 0);
    forall v: u32 { NextCongruent(NOP, s.pc, s.regs, v); }
  }

  // ---- Memory ----

  /** Where a load or an atomic finds its word. */
  lemma AddressIs(i: Inst, regs: Regs)
    ensures i.opcode.Amo? ==> Address(i, regs) == regs[i.fields.rs1.value]
    ensures i.opcode.Load? || i.opcode.Store? ==> Address(i, regs) == Wrap(regs[i.fields.rs1.value] + i.fields.imm.value)
  {
  }

  /** Loads and LR. */
  lemma LoadStep(p: Program, syscall: Syscalls, s: State, i: Inst)
    requires i == Fetch(RealCore(p, syscall), s.pc) && ReadsMem(i) && !WritesMem(i)
    ensures Step(RealCore(p, syscall), s) ==
      var v := LoadFrom(i.func, s.mem, Address(i, s.regs));
      if v.Err? then Err(v.error) else Ok(State(Wrap(s.pc + 4), SetReg(s.regs, Rd(i), v.value), s.mem))
  {
  }

  lemma LoadsObey(p: Program, syscall: Syscalls, s: State, i: Inst)
    requires Fetched(p, s, i) && ReadsMem(i) && !WritesMem(i)
    ensures Obeys(i, syscall, s, Step(RealCore(p, syscall), s))
  {
    LoadStep(p, syscall, s, i);
    AddressIs(i, s.regs);
    LoadMeets(i.func, s.mem, Address(i, s.regs));
    var v := LoadFrom(i.func, s.mem, Address(i, s.regs));
    if v.Ok? {
      SetKeeps(s, i.fields.rd.value, v.value, Step(RealCore(p, syscall), s).value);
      Wrapped(s.pc + 4);
    }
  }

  lemma StoreStep(p: Program, syscall: Syscalls, s: State, i: Inst)
    requires i == Fetch(RealCore(p, syscall), s.pc) && i.opcode.Store?
    ensures Step(RealCore(p, syscall), s) ==
      var m := StoreTo(i.func, s.mem, Address(i, s.regs), s.regs[Rs2(i)]);
      if m.Err? then Err(m.error) else Ok(State(Wrap(s.pc + 4), s.regs, m.value))
  {
  }

  lemma StoresObey(p: Program, syscall: Syscalls, s: State, i: Inst)
    requires Fetched(p, s, i) && i.opcode.Store?
    ensures Obeys(i, syscall, s, Step(RealCore(p, syscall), s))
  {
    StoreStep(p, syscall, s, i);
    AddressIs(i, s.regs);
    StoreMeets(i.func, s.mem, Address(i, s.regs), s.regs[i.fields.rs2.value]);
    Wrapped(s.pc + 4);
  }

  lemma ConditionalStep(p: Program, syscall: Syscalls, s: State, i: Inst)
    requires i == Fetch(RealCore(p, syscall), s.pc) && i.opcode.Amo? && i.func.Scw?
    ensures Step(RealCore(p, syscall), s) ==
      var m := StoreTo(i.func, s.mem, Address(i, s.regs), s.regs[Rs2(i)]);
      if m.Err? then Err(m.error) else Ok(State(Wrap(s.pc + 4), SetReg(s.regs, Rd(i), 0), m.value))
  {
  }

  lemma ConditionalsObey(p: Program, syscall: Syscalls, s: State, i: Inst)
    requires Fetched(p, s, i) && i.opcode.Amo? && i.func.Scw?
    ensures Obeys(i, syscall, s, Step(RealCore(p, syscall), s))
  {
    ConditionalStep(p, syscall, s, i);
    AddressIs(i, s.regs);
    StoreMeets(i.func, s.mem, Address(i, s.regs), s.regs[i.fields.rs2.value]);
    Wrapped(s.pc + 4);
    var o := Step(RealCore(p, syscall), s);
    if o.Ok? { SetKeeps(s, i.fields.rd.value, 0, o.value.(mem := s.mem)); }
  }

  lemma AtomicStep(p: Program, syscall: Syscalls, s: State, i: Inst)
    requires i == Fetch(RealCore(p, syscall), s.pc) && ReadsMem(i) && WritesMem(i)
    ensures Step(RealCore(p, syscall), s) ==
      var a := Address(i, s.regs);
      var v := LoadFrom(i.func, s.mem, a);
      if v.Err? then Err(v.error)
      else
        var m := StoreTo(i.func, s.mem, a, Alu.AmoResult(i.func, v.value, s.regs[Rs2(i)]));
        if m.Err? then Err(m.error) else Ok(State(Wrap(s.pc + 4), SetReg(s.regs, Rd(i), v.value), m.value))
  {
  }

  lemma AmoSize(f: Function)
    requires IsAmo(f)
    ensures Size(f) == 4 && !IsStore(f) && !IsLoad(f)
  {
  }

  lemma ExchangeIs(f: Function, b: seq<u8>, x: u32, m: Mem, a: u32, word: u32, r: u32)
    requires Exchanged(f, b, x, word, r)
    ensures Exchanges(f, b, x, m, a, WriteBytes(m, a, BytesOf(f, r)))
  {
  }

  /** An atomic's write is of a word combined from the one its bytes make and rs2. */
  lemma ExchangeMeets(f: Function, m: Mem, a: u32, x: u32)
    requires IsAmo(f) && LoadFrom(f, m, a).Ok?
    ensures ReadBytes(m, a, 4).Ok?
    ensures var word := LoadFrom(f, m, a).value;
      Exchanges(f, ReadBytes(m, a, 4).value, x, m, a, StoreTo(f, m, a, Alu.AmoResult(f, word, x)))
  {
    AmoSize(f);
    LoadMeets(f, m, a);
    var b, word := ReadBytes(m, a, 4).value, LoadFrom(f, m, a).value;
    var r := Alu.AmoResult(f, word, x);
    assert Exchanged(f, b, x, word, r) by { AmoMeets(f, word, x); }
    StoreMeets(f, m, a, r);
    ExchangeIs(f, b, x, m, a, word, r);
  }

  lemma AtomicsObey(p: Program, syscall: Syscalls, s: State, i: Inst)
    requires Fetched(p, s, i) && ReadsMem(i) && WritesMem(i)
    ensures Obeys(i, syscall, s, Step(RealCore(p, syscall), s))
  {
    AtomicStep(p, syscall, s, i);
    AddressIs(i, s.regs);
    var a := Address(i, s.regs);
    LoadMeets(i.func, s.mem, a);
    Wrapped(s.pc + 4);
    if LoadFrom(i.func, s.mem, a).Ok? {
      ExchangeMeets(i.func, s.mem, a, s.regs[i.fields.rs2.value]);
      var o := Step(RealCore(p, syscall), s);
      if o.Ok? { SetKeeps(s, i.fields.rd.value, LoadFrom(i.func, s.mem, a).value, o.value.(mem := s.mem)); }
    }
  }

  lemma CallsObey(p: Program, syscall: Syscalls, s: State, i: Inst)
    requires Fetched(p, s, i) && i.func.Ecall?
    ensures Obeys(i, syscall, s, Step(RealCore(p, syscall), s))
  {
    Wrapped(s.pc + 4);
  }

  // ---- Together ----

  /** Every step of the sequential machine on the real functional units is what the instruction at the
      program counter means, and it stops exactly as that says. */
  lemma StepObeys(p: Program, syscall: Syscalls, s: State)
    requires Belongs(p(s.pc).func, p(s.pc).opcode)
    ensures Obeys(p(s.pc), syscall, s, Step(RealCore(p, syscall), s))
  {
    var i := p(s.pc);
    match i.opcode
    case Lui | AuiPc => UpperObeys(p, syscall, s, i);
    case Jal | Jalr => JumpObeys(p, syscall, s, i);
    case Branch => BranchObeys(p, syscall, s, i);
    case Op => RegisterObeys(p, syscall, s, i);
    case OpImm => ImmediateObeys(p, syscall, s, i);
    case Load => LoadsObey(p, syscall, s, i);
    case Store => StoresObey(p, syscall, s, i);
    case Amo =>
      if i.func.Lrw? { LoadsObey(p, syscall, s, i); }
      else if i.func.Scw? { ConditionalsObey(p, syscall, s, i); }
      else { AtomicsObey(p, syscall, s, i); }
    case System => if i.func.Ecall? { CallsObey(p, syscall, s, i); } else { BreakObeys(p, syscall, s, i); }
    case MiscMem => FenceObeys(p, syscall, s, i);
    case _ => FloatObeys(p, syscall, s, i);
  }

  // ---- The meanings leave no choice ----

  lemma OneNext(s: State, t: State, u: State, x: int)
    requires GoesTo(t, x) && GoesTo(u, x)
    ensures t.pc == u.pc
  {
    OneWord(x, t.pc, u.pc);
  }

  lemma OneState(s: State, t: State, u: State, rd: Reg, x: int)
    requires OnlyRegister(s, t, rd) && OnlyRegister(s, u, rd) && GoesTo(t, x) && GoesTo(u, x)
    requires rd != 0 ==> t.regs[rd] == u.regs[rd]
    ensures t == u
  {
    OneNext(s, t, u, x);
    assert forall r: Reg :: t.regs[r] == u.regs[r];
    assert t.regs == u.regs;
  }

  lemma OneHeld(s: State, t: State, u: State, rd: Reg, v: int, x: int)
    requires OnlyRegister(s, t, rd) && OnlyRegister(s, u, rd) && GoesTo(t, x) && GoesTo(u, x)
    requires Holds(t, rd, v) && Holds(u, rd, v)
    ensures t == u
  {
    if rd != 0 { OneWord(v, t.regs[rd], u.regs[rd]); }
    OneState(s, t, u, rd, x);
  }

  lemma OneOperation(f: Function, rd: Reg, a: u32, b: u32, s: State, t: State, u: State)
    requires Operates(f, rd, a, b, s, t) && Operates(f, rd, a, b, s, u)
    ensures t == u
  {
    if rd != 0 { GivesOne(f, a, b, t.regs[rd], u.regs[rd]); }
    OneState(s, t, u, rd, s.pc + 4);
  }

  lemma OneLoad(f: Function, rd: Reg, a: u32, s: State, t: State, u: State)
    requires Loads(f, rd, a, s, t) && Loads(f, rd, a, s, u)
    ensures t == u
  {
    if rd != 0 { LoadedOne(f, ReadBytes(s.mem, a, Size(f)).value, t.regs[rd], u.regs[rd]); }
    OneState(s, t, u, rd, s.pc + 4);
  }

  lemma OneExchanged(f: Function, b: seq<u8>, x: u32, word: u32, r: u32, word': u32, r': u32)
    requires IsAmo(f) && !f.Lrw? && !f.Scw? && Exchanged(f, b, x, word, r) && Exchanged(f, b, x, word', r')
    ensures r == r'
  {
    LoadedOne(f, b, word, word');
    CombinedOne(f, word, x, r, r');
  }

  lemma OneExchange(f: Function, b: seq<u8>, x: u32, m: Mem, a: u32, o: Result<Mem, Fault>, q: Result<Mem, Fault>)
    requires IsAmo(f) && !f.Lrw? && !f.Scw? && Exchanges(f, b, x, m, a, o) && Exchanges(f, b, x, m, a, q)
    ensures o == q
  {
    var word: u32, r: u32 :| Exchanged(f, b, x, word, r) && o == WriteBytes(m, a, BytesOf(f, r));
    var word': u32, r': u32 :| Exchanged(f, b, x, word', r') && q == WriteBytes(m, a, BytesOf(f, r'));
    OneExchanged(f, b, x, word, r, word', r');
  }

  lemma OneUpdate(f: Function, rd: Reg, a: u32, x: u32, s: State, t: State, u: State)
    requires IsAmo(f) && Updates(f, rd, a, x, s, t) && Updates(f, rd, a, x, s, u)
    ensures t == u
  {
    if f.Lrw? {
      OneLoad(f, rd, a, s, t, u);
    } else if f.Scw? {
      OneHeld(s, t.(mem := s.mem), u.(mem := s.mem), rd, 0, s.pc + 4);
    } else {
      OneLoad(f, rd, a, s, t.(mem := s.mem), u.(mem := s.mem));
      OneExchange(f, ReadBytes(s.mem, a, 4).value, x, s.mem, a, Ok(t.mem), Ok(u.mem));
    }
  }

  lemma OneCall(syscall: Syscalls, s: State, t: State, u: State)
    requires Calls(syscall, s, t) && Calls(syscall, s, u)
    ensures t == u
  {
    OneNext(s, t, u, s.pc + 4);
    assert forall r: Reg :: t.regs[r] == u.regs[r];
    assert t.regs == u.regs;
  }

  lemma ExecutesOne(i: Inst, syscall: Syscalls, s: State, t: State, u: State)
    requires Belongs(i.func, i.opcode) && Executes(i, syscall, s, t) && Executes(i, syscall, s, u)
    ensures t == u
  {
    var f := i.fields;
    match i.opcode
    case Lui => OneHeld(s, t, u, f.rd.value, f.imm.value, s.pc + 4);
    case AuiPc => OneHeld(s, t, u, f.rd.value, s.pc + f.imm.value, s.pc + 4);
    case Jal => OneHeld(s, t, u, f.rd.value, s.pc + 4, s.pc + f.imm.value);
    case Jalr => OneHeld(s, t, u, f.rd.value, s.pc + 4, s.regs[f.rs1.value] + f.imm.value);
    case Branch =>
      OneNext(s, t, u, s.pc + if Taken(i.func, s.regs[f.rs1.value], s.regs[f.rs2.value]) then f.imm.value else 4);
    case Load => OneLoad(i.func, f.rd.value, Wrap(s.regs[f.rs1.value] + f.imm.value), s, t, u);
    case Op => OneOperation(i.func, f.rd.value, s.regs[f.rs1.value], s.regs[f.rs2.value], s, t, u);
    case OpImm => OneOperation(i.func, f.rd.value, s.regs[f.rs1.value], f.imm.value, s, t, u);
    case Amo => OneUpdate(i.func, f.rd.value, s.regs[f.rs1.value], s.regs[f.rs2.value], s, t, u);
    case System =>
      if i.func.Ecall? { OneCall(syscall, s, t, u); } else { OneHeld(s, t, u, f.rd.value, 0, s.pc + 4); }
    case MiscMem => OneHeld(s, t, u, f.rd.value, 0, s.pc + 4);
    case _ => OneNext(s, t, u, s.pc + 4);
  }

  /** An atomic that has stopped has not stored anything, and stops in one way. */
  lemma OneStop(f: Function, rd: Reg, a: u32, x: u32, s: State, e: Fault, t: State, d: Fault)
    requires IsAmo(f) && !f.Lrw? && !f.Scw?
    requires var b := ReadBytes(s.mem, a, 4); b == Err(e) || (b.Ok? && Exchanges(f, b.value, x, s.mem, a, Err(e)))
    ensures !Updates(f, rd, a, x, s, t)
    ensures (var b := ReadBytes(s.mem, a, 4); b == Err(d) || (b.Ok? && Exchanges(f, b.value, x, s.mem, a, Err(d)))) ==> d == e
  {
    var b := ReadBytes(s.mem, a, 4);
    if b.Ok? {
      if Exchanges(f, b.value, x, s.mem, a, Err(d)) { OneExchange(f, b.value, x, s.mem, a, Err(e), Err(d)); }
      if Exchanges(f, b.value, x, s.mem, a, Ok(t.mem)) { OneExchange(f, b.value, x, s.mem, a, Err(e), Ok(t.mem)); }
    }
  }

  /** No instruction both executes and stops, or stops in two ways. */
  lemma StopsOne(i: Inst, syscall: Syscalls, s: State, e: Fault, t: State, d: Fault)
    requires Belongs(i.func, i.opcode) && Stops(i, syscall, s, e)
    ensures !Executes(i, syscall, s, t) && (Stops(i, syscall, s, d) ==> d == e)
  {
    if i.opcode.Amo? && !i.func.Lrw? && !i.func.Scw? {
      OneStop(i.func, i.fields.rd.value, s.regs[i.fields.rs1.value], s.regs[i.fields.rs2.value], s, e, t, d);
    }
  }

  lemma ObeysOne(i: Inst, syscall: Syscalls, s: State, o: Result<State, Fault>, q: Result<State, Fault>)
    requires Belongs(i.func, i.opcode) && Obeys(i, syscall, s, o) && Obeys(i, syscall, s, q)
    ensures o == q
  {
    match (o, q)
    case (Ok(t), Ok(u)) => ExecutesOne(i, syscall, s, t, u);
    case (Err(e), Ok(t)) => StopsOne(i, syscall, s, e, t, e);
    case (Ok(t), Err(e)) => StopsOne(i, syscall, s, e, t, e);
    case (Err(e), Err(d)) => StopsOne(i, syscall, s, e, s, d);
  }

  /** Executing an instruction leads to `o` exactly when that is what the instruction means. */
  lemma StepExactly(p: Program, syscall: Syscalls, s: State, o: Result<State, Fault>)
    requires Belongs(p(s.pc).func, p(s.pc).opcode)
    ensures Step(RealCore(p, syscall), s) == o <==> Obeys(p(s.pc), syscall, s, o)
  {
    StepObeys(p, syscall, s);
    if Obeys(p(s.pc), syscall, s, o) { ObeysOne(p(s.pc), syscall, s, o, Step(RealCore(p, syscall), s)); }
  }
}
