/** Every instruction word of the standard decodes to its mnemonic, registers and immediate. */
module Encodings {
  import opened Words
  import opened Instructions
  import opened Decoder

  // ---- The encoder ----

  // The instruction formats of section 2.2 and the listings of chapter 24 of the RISC-V Unprivileged ISA
  // (20191213): RV32I, Zifencei, RV32M and RV32A.

  /** The constant fields of an instruction; funct7 of an atomic is funct5 with aq and rl clear. */
  datatype Code = Code(opcode: nat, funct3: nat, funct7: nat)

  function CodeOf(f: Function): Code {
    match f
    case Lui => Code(0x37, 0, 0)
    case AuiPc => Code(0x17, 0, 0)
    case Jal => Code(0x6f, 0, 0)
    case Jalr => Code(0x67, 0, 0)
    case Beq => Code(0x63, 0, 0)
    case Bne => Code(0x63, 1, 0)
    case Blt => Code(0x63, 4, 0)
    case Bge => Code(0x63, 5, 0)
    case Bltu => Code(0x63, 6, 0)
    case Bgeu => Code(0x63, 7, 0)
    case Lb => Code(0x03, 0, 0)
    case Lh => Code(0x03, 1, 0)
    case Lw => Code(0x03, 2, 0)
    case Lbu => Code(0x03, 4, 0)
    case Lhu => Code(0x03, 5, 0)
    case Sb => Code(0x23, 0, 0)
    case Sh => Code(0x23, 1, 0)
    case Sw => Code(0x23, 2, 0)
    case Addi => Code(0x13, 0, 0)
    case Slti => Code(0x13, 2, 0)
    case Sltiu => Code(0x13, 3, 0)
    case Xori => Code(0x13, 4, 0)
    case Ori => Code(0x13, 6, 0)
    case Andi => Code(0x13, 7, 0)
    case Slli => Code(0x13, 1, 0x00)
    case Srli => Code(0x13, 5, 0x00)
    case Srai => Code(0x13, 5, 0x20)
    case Add => Code(0x33, 0, 0x00)
    case Sub => Code(0x33, 0, 0x20)
    case Sll => Code(0x33, 1, 0x00)
    case Slt => Code(0x33, 2, 0x00)
    case Sltu => Code(0x33, 3, 0x00)
    case Xor => Code(0x33, 4, 0x00)
    case Srl => Code(0x33, 5, 0x00)
    case Sra => Code(0x33, 5, 0x20)
    case Or => Code(0x33, 6, 0x00)
    case And => Code(0x33, 7, 0x00)
    case Fence => Code(0x0f, 0, 0)
    case Fencei => Code(0x0f, 1, 0)
    case Ecall | Ebreak => Code(0x73, 0, 0)
    case Mul => Code(0x33, 0, 0x01)
    case Mulh => Code(0x33, 1, 0x01)
    case Mulhsu => Code(0x33, 2, 0x01)
    case Mulhu => Code(0x33, 3, 0x01)
    case Div => Code(0x33, 4, 0x01)
    case Divu => Code(0x33, 5, 0x01)
    case Rem => Code(0x33, 6, 0x01)
    case Remu => Code(0x33, 7, 0x01)
    case Lrw => Code(0x2f, 2, 0x02 * 4)
    case Scw => Code(0x2f, 2, 0x03 * 4)
    case Amoswapw => Code(0x2f, 2, 0x01 * 4)
    case Amoaddw => Code(0x2f, 2, 0x00 * 4)
    case Amoxorw => Code(0x2f, 2, 0x04 * 4)
    case Amoandw => Code(0x2f, 2, 0x0c * 4)
    case Amoorw => Code(0x2f, 2, 0x08 * 4)
    case Amominw => Code(0x2f, 2, 0x10 * 4)
    case Amomaxw => Code(0x2f, 2, 0x14 * 4)
    case Amominuw => Code(0x2f, 2, 0x18 * 4)
    case Amomaxuw => Code(0x2f, 2, 0x1c * 4)
    case FloatingPoint => Code(0x53, 0, 0)
  }

  /** Format R, with all of its fields. */
  function EncodeR(funct7: nat, x: Others): int {
    funct7 * 0x200_0000 + x.rs2 * 0x10_0000 + x.rs1 * 0x8000 + x.funct3 * 0x1000 + x.rd * 0x80 + x.opcode
  }

  /** The operands of an instruction in assembler: registers, immediate, and the aq and rl bits of an atomic. */
  datatype Operands = Operands(rd: Reg, rs1: Reg, rs2: Reg, imm: u32, aqrl: nat)

  predicate IsShiftImmediate(f: Function) { f.Slli? || f.Srli? || f.Srai? }

  /** The immediate is one the format has room for. */
  predicate Encodable(f: Function, o: Opcode, x: Operands) {
    match o
    case Lui | AuiPc => x.imm % 0x1000 == 0
    case Jal => Fits(x.imm, 0x10_0000) && x.imm % 2 == 0
    case Branch => Fits(x.imm, 0x1000) && x.imm % 2 == 0
    case OpImm => if IsShiftImmediate(f) then x.imm < 32 else Fits(x.imm, 0x800)
    case System => x.imm == if f.Ebreak? then 1 else 0
    case Amo => x.aqrl < 4
    case _ => Fits(x.imm, 0x800)
  }

  /** The word of instruction `f`, of opcode `o`. */
  function Encode(f: Function, o: Opcode, x: Operands): int {
    var c := CodeOf(f);
    var others := Others(c.opcode, x.rd, c.funct3, x.rs1, x.rs2);
    match o
    case Lui | AuiPc => EncodeU(x.imm, others)
    case Jal => EncodeJ(x.imm, others)
    case Branch => EncodeB(x.imm, others)
    case Store => EncodeS(x.imm, others)
    case Op => EncodeR(c.funct7, others)
    case Amo => EncodeR(c.funct7 + x.aqrl, others)
    case OpImm => if IsShiftImmediate(f) then EncodeR(c.funct7, others.(rs2 := x.imm)) else EncodeI(x.imm, others)
    case _ => EncodeI(x.imm, others)
  }

  /** The fields its format has. */
  function FieldsFor(o: Opcode, x: Operands): Fields {
    match o
    case Lui | AuiPc | Jal => Fields(None, None, Some(x.rd), Some(x.imm))
    case Branch | Store => Fields(Some(x.rs1), Some(x.rs2), None, Some(x.imm))
    case Op | Amo => Fields(Some(x.rs1), Some(x.rs2), Some(x.rd), None)
    case _ => Fields(Some(x.rs1), None, Some(x.rd), Some(x.imm))
  }

  // ---- The fields of a word ----

  /** Where the decoder finds the fields that all formats but U and J have in one place. */
  ghost predicate HasFields(w: u32, funct7: nat, rs2: nat, rs1: nat, funct3: nat, rd: nat, opcode: nat) {
    && w % 0x80 == opcode && w / 0x80 % 0x20 == rd && Funct3(w) == funct3 && w / 0x8000 % 0x20 == rs1
    && w / 0x10_0000 % 0x20 == rs2 && Funct7(w) == funct7 && Funct5(w) == funct7 / 4
    && w / 0x10_0000 == funct7 * 0x20 + rs2
  }

  lemma FieldsOfWord(funct7: nat, x: Others)
    requires InRange(x) && funct7 < 0x80
    ensures 0 <= EncodeR(funct7, x) < TWO_TO_THE_32
    ensures HasFields(EncodeR(funct7, x), funct7, x.rs2, x.rs1, x.funct3, x.rd, x.opcode)
  {
    var w := EncodeR(funct7, x);
    assert w / 0x80 == funct7 * 0x4_0000 + x.rs2 * 0x2000 + x.rs1 * 0x100 + x.funct3 * 0x20 + x.rd;
    assert w / 0x1000 == funct7 * 0x2000 + x.rs2 * 0x100 + x.rs1 * 8 + x.funct3;
    assert w / 0x8000 == funct7 * 0x400 + x.rs2 * 0x20 + x.rs1;
    assert w / 0x10_0000 == funct7 * 0x20 + x.rs2;
  }

  lemma LowTwelve(v: u32)
    ensures v % 0x1000 == v % 0x1000 / 0x20 * 0x20 + v % 0x20
  {
    var q, r := v / 0x1000, v % 0x1000;
    assert v == 0x20 * (0x80 * q + r / 0x20) + r % 0x20;
  }

  lemma FieldsOfI(v: u32, x: Others)
    requires InRange(x)
    ensures 0 <= EncodeI(v, x) < TWO_TO_THE_32
    ensures HasFields(EncodeI(v, x), v % 0x1000 / 0x20, v % 0x20, x.rs1, x.funct3, x.rd, x.opcode)
  {
    LowTwelve(v);
    FieldsOfWord(v % 0x1000 / 0x20, x.(rs2 := v % 0x20));
  }

  lemma FieldsOfS(v: u32, x: Others)
    requires InRange(x)
    ensures 0 <= EncodeS(v, x) < TWO_TO_THE_32
    ensures HasFields(EncodeS(v, x), v / 0x20 % 0x80, x.rs2, x.rs1, x.funct3, v % 0x20, x.opcode)
  {
    FieldsOfWord(v / 0x20 % 0x80, x.(rd := v % 0x20));
  }

  lemma FieldsOfB(v: u32, x: Others)
    requires InRange(x)
    ensures 0 <= EncodeB(v, x) < TWO_TO_THE_32
    ensures HasFields(EncodeB(v, x), Bits(v, 0x1000, 2) * 0x40 + Bits(v, 0x20, 0x40), x.rs2, x.rs1, x.funct3,
                      Bits(v, 2, 0x10) * 2 + Bits(v, 0x800, 2), x.opcode)
  {
    FieldsOfWord(Bits(v, 0x1000, 2) * 0x40 + Bits(v, 0x20, 0x40), x.(rd := Bits(v, 2, 0x10) * 2 + Bits(v, 0x800, 2)));
  }

  /** A word of format U or J is its upper 20 bits, rd and the opcode. */
  lemma FieldsOfUpper(h: nat, rd: nat, opcode: nat)
    requires h < 0x10_0000 && rd < 0x20 && opcode < 0x80
    ensures var w := h * 0x1000 + rd * 0x80 + opcode;
      w < TWO_TO_THE_32 && w % 0x80 == opcode && w / 0x80 % 0x20 == rd
  {
    var w := h * 0x1000 + rd * 0x80 + opcode;
    assert w / 0x80 == h * 0x20 + rd;
  }

  // ---- Decoding what was encoded ----

  /** Word `w` decodes to `f` and the operands `x`. */
  ghost predicate Decodes(w: int, f: Function, o: Opcode, x: Operands) {
    0 <= w < TWO_TO_THE_32 && Decode(w) == Some(Instruction(o, FieldsFor(o, x), f))
  }

  /** The parts of a decoding. The words for which the decoder has NOPs are of opcode SYSTEM with a funct3
      other than 0. */
  lemma DecodesBy(w: u32, f: Function, o: Opcode, x: Operands)
    requires OpcodeOf(w) == Some(o) && FunctionOf(w, o) == Some(f) && FieldsOf(w, o) == FieldsFor(o, x)
    requires w % 0x80 != 0x73 || Funct3(w) == 0
    ensures Decodes(w, f, o, x)
  {
  }

  // The table, opcode by opcode.

  lemma BranchCode(f: Function)
    requires IsBranch(f)
    ensures CodeOf(f).opcode == 0x63 && CodeOf(f).funct3 < 8 && BranchFunction(CodeOf(f).funct3) == Some(f)
  {
  }

  lemma StoreCode(f: Function)
    requires IsStore(f)
    ensures CodeOf(f).opcode == 0x23 && CodeOf(f).funct3 < 8 && StoreFunction(CodeOf(f).funct3) == Some(f)
  {
  }

  lemma LoadCode(f: Function)
    requires IsLoad(f)
    ensures CodeOf(f).opcode == 0x03 && CodeOf(f).funct3 < 8 && LoadFunction(CodeOf(f).funct3) == Some(f)
  {
  }

  lemma MultiplyCode(f: Function)
    requires f.Mul? || f.Mulh? || f.Mulhsu? || f.Mulhu? || IsDivision(f)
    ensures CodeOf(f).opcode == 0x33 && CodeOf(f).funct3 < 8 && CodeOf(f).funct7 == 1
    ensures RegisterFunction(CodeOf(f).funct3, 1) == Some(f)
  {
  }

  lemma BaseCode(f: Function)
    requires f.Add? || f.Sub? || f.Sll? || f.Slt? || f.Sltu? || f.Xor? || f.Srl? || f.Sra? || f.Or? || f.And?
    ensures CodeOf(f).opcode == 0x33 && CodeOf(f).funct3 < 8 && CodeOf(f).funct7 <= 0x20
    ensures RegisterFunction(CodeOf(f).funct3, CodeOf(f).funct7) == Some(f)
  {
  }

  lemma RegisterCode(f: Function)
    requires Belongs(f, Opcode.Op)
    ensures CodeOf(f).opcode == 0x33 && CodeOf(f).funct3 < 8 && CodeOf(f).funct7 < 0x80
    ensures RegisterFunction(CodeOf(f).funct3, CodeOf(f).funct7) == Some(f)
  {
    if f.Mul? || f.Mulh? || f.Mulhsu? || f.Mulhu? || IsDivision(f) { MultiplyCode(f); } else { BaseCode(f); }
  }

  /** The upper bits of an atomic are funct5. */
  ghost predicate IsAtomicCode(f: Function, c: Code) {
    c.opcode == 0x2f && c.funct3 == 2 && c.funct7 <= 0x7c && c.funct7 % 4 == 0 && AtomicFunction(2, c.funct7 / 4) == Some(f)
  }

  lemma MinMaxCode(f: Function)
    requires f.Amominw? || f.Amomaxw? || f.Amominuw? || f.Amomaxuw?
    ensures IsAtomicCode(f, CodeOf(f))
  {
  }

  lemma AtomicCode(f: Function)
    requires IsAmo(f)
    ensures IsAtomicCode(f, CodeOf(f))
  {
    if f.Amominw? || f.Amomaxw? || f.Amominuw? || f.Amomaxuw? { MinMaxCode(f); }
  }

  lemma ShiftCode(f: Function)
    requires IsShiftImmediate(f)
    ensures CodeOf(f).opcode == 0x13 && (CodeOf(f).funct3 == 1 || CodeOf(f).funct3 == 5) && CodeOf(f).funct7 < 0x80
    ensures ImmediateFunction(CodeOf(f).funct3, CodeOf(f).funct7) == Some(f)
  {
  }

  lemma ImmediateCode(f: Function)
    requires Belongs(f, Opcode.OpImm) && !IsShiftImmediate(f)
    ensures CodeOf(f).opcode == 0x13 && CodeOf(f).funct3 < 8 && CodeOf(f).funct3 != 1 && CodeOf(f).funct3 != 5
    ensures forall n: nat :: ImmediateFunction(CodeOf(f).funct3, n) == Some(f)
  {
  }

  lemma FenceCode(f: Function)
    requires Belongs(f, Opcode.MiscMem)
    ensures CodeOf(f) == Code(0x0f, if f.Fence? then 0 else 1, 0)
  {
  }

  lemma SystemCode(f: Function)
    requires Belongs(f, Opcode.System)
    ensures CodeOf(f) == Code(0x73, 0, 0)
  {
  }

  // The words, opcode by opcode.

  function OthersOf(c: Code, x: Operands): Others { Others(c.opcode, x.rd, c.funct3, x.rs1, x.rs2) }

  lemma UpperDecodes(f: Function, o: Opcode, x: Operands)
    requires (o.Lui? || o.AuiPc?) && Belongs(f, o) && Encodable(f, o, x)
    ensures Decodes(Encode(f, o, x), f, o, x)
  {
    ImmediateU(x.imm, OthersOf(CodeOf(f), x), o);
    FieldsOfUpper(Bits(x.imm, 0x1000, 0x10_0000), x.rd, CodeOf(f).opcode);
    DecodesBy(Encode(f, o, x), f, o, x);
  }

  lemma JumpDecodes(f: Function, o: Opcode, x: Operands)
    requires o.Jal? && Belongs(f, o) && Encodable(f, o, x)
    ensures Decodes(Encode(f, o, x), f, o, x)
  {
    var v := x.imm;
    ImmediateJ(v, Others(0x6f, x.rd, 0, x.rs1, x.rs2));
    FieldsOfUpper(Bits(v, 0x10_0000, 2) * 0x8_0000 + Bits(v, 2, 0x400) * 0x200 + Bits(v, 0x800, 2) * 0x100
                  + Bits(v, 0x1000, 0x100), x.rd, 0x6f);
    DecodesBy(Encode(f, o, x), f, o, x);
  }

  lemma BranchWord(f: Function, c: Code, x: Operands)
    requires c.opcode == 0x63 && c.funct3 < 8 && BranchFunction(c.funct3) == Some(f)
    requires Fits(x.imm, 0x1000) && x.imm % 2 == 0
    ensures Decodes(EncodeB(x.imm, OthersOf(c, x)), f, Opcode.Branch, x)
  {
    ImmediateB(x.imm, OthersOf(c, x));
    FieldsOfB(x.imm, OthersOf(c, x));
    DecodesBy(EncodeB(x.imm, OthersOf(c, x)), f, Opcode.Branch, x);
  }

  lemma StoreWord(f: Function, c: Code, x: Operands)
    requires c.opcode == 0x23 && c.funct3 < 8 && StoreFunction(c.funct3) == Some(f) && Fits(x.imm, 0x800)
    ensures Decodes(EncodeS(x.imm, OthersOf(c, x)), f, Opcode.Store, x)
  {
    ImmediateS(x.imm, OthersOf(c, x));
    FieldsOfS(x.imm, OthersOf(c, x));
    DecodesBy(EncodeS(x.imm, OthersOf(c, x)), f, Opcode.Store, x);
  }

  lemma RegisterWord(f: Function, c: Code, x: Operands)
    requires c.opcode == 0x33 && c.funct3 < 8 && c.funct7 < 0x80 && RegisterFunction(c.funct3, c.funct7) == Some(f)
    ensures Decodes(EncodeR(c.funct7, OthersOf(c, x)), f, Opcode.Op, x)
  {
    FieldsOfWord(c.funct7, OthersOf(c, x));
    DecodesBy(EncodeR(c.funct7, OthersOf(c, x)), f, Opcode.Op, x);
  }

  lemma AboveTwo(n: nat, k: nat)
    requires n % 4 == 0 && k < 4
    ensures (n + k) / 4 == n / 4
  {
  }

  lemma AtomicWord(f: Function, c: Code, x: Operands)
    requires IsAtomicCode(f, c) && x.aqrl < 4
    ensures Decodes(EncodeR(c.funct7 + x.aqrl, OthersOf(c, x)), f, Opcode.Amo, x)
  {
    AboveTwo(c.funct7, x.aqrl);
    FieldsOfWord(c.funct7 + x.aqrl, OthersOf(c, x));
    assert FunctionOf(EncodeR(c.funct7 + x.aqrl, OthersOf(c, x)), Opcode.Amo) == AtomicFunction(2, c.funct7 / 4);
    DecodesBy(EncodeR(c.funct7 + x.aqrl, OthersOf(c, x)), f, Opcode.Amo, x);
  }

  lemma ShiftAmount(w: u32)
    requires Funct3(w) == 1 || Funct3(w) == 5
    ensures ImmOf(w, Opcode.OpImm) == w / 0x10_0000 % 0x20
  {
  }

  lemma ShiftWord(f: Function, c: Code, x: Operands)
    requires c.opcode == 0x13 && (c.funct3 == 1 || c.funct3 == 5) && c.funct7 < 0x80 && x.imm < 32
    requires ImmediateFunction(c.funct3, c.funct7) == Some(f)
    ensures Decodes(EncodeR(c.funct7, OthersOf(c, x).(rs2 := x.imm)), f, Opcode.OpImm, x)
  {
    var w := EncodeR(c.funct7, OthersOf(c, x).(rs2 := x.imm));
    FieldsOfWord(c.funct7, OthersOf(c, x).(rs2 := x.imm));
    ShiftAmount(w);
    DecodesBy(w, f, Opcode.OpImm, x);
  }

  lemma ImmediateWord(f: Function, c: Code, x: Operands)
    requires c.opcode == 0x13 && c.funct3 < 8 && c.funct3 != 1 && c.funct3 != 5 && Fits(x.imm, 0x800)
    requires ImmediateFunction(c.funct3, x.imm % 0x1000 / 0x20) == Some(f)
    ensures Decodes(EncodeI(x.imm, OthersOf(c, x)), f, Opcode.OpImm, x)
  {
    ImmediateI(x.imm, OthersOf(c, x), Opcode.OpImm);
    FieldsOfI(x.imm, OthersOf(c, x));
    DecodesBy(EncodeI(x.imm, OthersOf(c, x)), f, Opcode.OpImm, x);
  }

  lemma LoadWord(f: Function, c: Code, x: Operands)
    requires c.opcode == 0x03 && c.funct3 < 8 && LoadFunction(c.funct3) == Some(f) && Fits(x.imm, 0x800)
    ensures Decodes(EncodeI(x.imm, OthersOf(c, x)), f, Opcode.Load, x)
  {
    ImmediateI(x.imm, OthersOf(c, x), Opcode.Load);
    FieldsOfI(x.imm, OthersOf(c, x));
    DecodesBy(EncodeI(x.imm, OthersOf(c, x)), f, Opcode.Load, x);
  }

  lemma JumpRegisterWord(c: Code, x: Operands)
    requires c == Code(0x67, 0, 0) && Fits(x.imm, 0x800)
    ensures Decodes(EncodeI(x.imm, OthersOf(c, x)), Function.Jalr, Opcode.Jalr, x)
  {
    ImmediateI(x.imm, OthersOf(c, x), Opcode.Jalr);
    FieldsOfI(x.imm, OthersOf(c, x));
    DecodesBy(EncodeI(x.imm, OthersOf(c, x)), Function.Jalr, Opcode.Jalr, x);
  }

  lemma FenceWord(f: Function, c: Code, x: Operands)
    requires (f.Fence? && c == Code(0x0f, 0, 0)) || (f.Fencei? && c == Code(0x0f, 1, 0))
    requires Fits(x.imm, 0x800)
    ensures Decodes(EncodeI(x.imm, OthersOf(c, x)), f, Opcode.MiscMem, x)
  {
    ImmediateI(x.imm, OthersOf(c, x), Opcode.MiscMem);
    FieldsOfI(x.imm, OthersOf(c, x));
    DecodesBy(EncodeI(x.imm, OthersOf(c, x)), f, Opcode.MiscMem, x);
  }

  lemma SystemWord(f: Function, c: Code, x: Operands)
    requires c == Code(0x73, 0, 0) && ((f.Ecall? && x.imm == 0) || (f.Ebreak? && x.imm == 1))
    ensures Decodes(EncodeI(x.imm, OthersOf(c, x)), f, Opcode.System, x)
  {
    ImmediateI(x.imm, OthersOf(c, x), Opcode.System);
    FieldsOfI(x.imm, OthersOf(c, x));
    DecodesBy(EncodeI(x.imm, OthersOf(c, x)), f, Opcode.System, x);
  }

  lemma BranchDecodes(f: Function, x: Operands)
    requires IsBranch(f) && Encodable(f, Opcode.Branch, x)
    ensures Decodes(Encode(f, Opcode.Branch, x), f, Opcode.Branch, x)
  {
    BranchCode(f);
    BranchWord(f, CodeOf(f), x);
  }

  lemma StoreDecodes(f: Function, x: Operands)
    requires IsStore(f) && Encodable(f, Opcode.Store, x)
    ensures Decodes(Encode(f, Opcode.Store, x), f, Opcode.Store, x)
  {
    StoreCode(f);
    StoreWord(f, CodeOf(f), x);
  }

  lemma LoadDecodes(f: Function, x: Operands)
    requires IsLoad(f) && Encodable(f, Opcode.Load, x)
    ensures Decodes(Encode(f, Opcode.Load, x), f, Opcode.Load, x)
  {
    LoadCode(f);
    LoadWord(f, CodeOf(f), x);
  }

  lemma RegisterDecodes(f: Function, x: Operands)
    requires Belongs(f, Opcode.Op)
    ensures Decodes(Encode(f, Opcode.Op, x), f, Opcode.Op, x)
  {
    RegisterCode(f);
    RegisterWord(f, CodeOf(f), x);
  }

  lemma AtomicDecodes(f: Function, x: Operands)
    requires IsAmo(f) && Encodable(f, Opcode.Amo, x)
    ensures Decodes(Encode(f, Opcode.Amo, x), f, Opcode.Amo, x)
  {
    AtomicCode(f);
    AtomicWord(f, CodeOf(f), x);
  }

  lemma ImmediateDecodes(f: Function, x: Operands)
    requires Belongs(f, Opcode.OpImm) && Encodable(f, Opcode.OpImm, x)
    ensures Decodes(Encode(f, Opcode.OpImm, x), f, Opcode.OpImm, x)
  {
    if IsShiftImmediate(f) {
      ShiftCode(f);
      ShiftWord(f, CodeOf(f), x);
    } else {
      ImmediateCode(f);
      ImmediateWord(f, CodeOf(f), x);
    }
  }

  lemma OtherDecodes(f: Function, o: Opcode, x: Operands)
    requires (o.Jalr? || o.MiscMem? || o.System?) && Belongs(f, o) && Encodable(f, o, x)
    ensures Decodes(Encode(f, o, x), f, o, x)
  {
    if o.Jalr? { JumpRegisterWord(CodeOf(f), x); }
    if o.MiscMem? {
      FenceCode(f);
      FenceWord(f, CodeOf(f), x);
    }
    if o.System? {
      SystemCode(f);
      SystemWord(f, CodeOf(f), x);
    }
  }

  /** Decoding inverts encoding, for every mnemonic but the floating-point ones, all registers and every
      immediate the instruction can hold. */
  lemma DecodeEncode(f: Function, o: Opcode, x: Operands)
    requires Belongs(f, o) && !f.FloatingPoint? && Encodable(f, o, x)
    ensures Decodes(Encode(f, o, x), f, o, x)
  {
    if o.Jal? { JumpDecodes(f, o, x); }
    else if o.Branch? { BranchDecodes(f, x); }
    else if o.Store? { StoreDecodes(f, x); }
    else if o.Load? { LoadDecodes(f, x); }
    else if o.Op? { RegisterDecodes(f, x); }
    else if o.Amo? { AtomicDecodes(f, x); }
    else if o.OpImm? { ImmediateDecodes(f, x); }
    else if o.Lui? || o.AuiPc? { UpperDecodes(f, o, x); }
    else { OtherDecodes(f, o, x); }
  }

  // ---- Encoding what was decoded ----

  /** The operands of a word, where opcode `o` has them. */
  function OperandsOf(w: u32, o: Opcode): Operands {
    Operands(w / 0x80 % 0x20, w / 0x8000 % 0x20, w / 0x10_0000 % 0x20,
             if o.OpImm? && (Funct3(w) == 1 || Funct3(w) == 5) then w / 0x10_0000 % 0x20 else ImmOf(w, o), Funct7(w) % 4)
  }

  /** The word is the encoding of `f` and its own operands. */
  ghost predicate Encodes(w: u32, f: Function, o: Opcode) {
    Encodable(f, o, OperandsOf(w, o)) && Encode(f, o, OperandsOf(w, o)) == w
  }

  lemma FieldsKept(w: u32, o: Opcode)
    ensures !IsFloat(o) ==> FieldsOf(w, o) == FieldsFor(o, OperandsOf(w, o))
  {
    if o.OpImm? && (Funct3(w) == 1 || Funct3(w) == 5) { ShiftAmount(w); }
  }

  /** A word is the sum of its fields. */
  lemma Parts(w: u32)
    ensures w == Funct7(w) * 0x200_0000 + w / 0x10_0000 % 0x20 * 0x10_0000 + w / 0x8000 % 0x20 * 0x8000
                 + Funct3(w) * 0x1000 + w / 0x80 % 0x20 * 0x80 + w % 0x80
    ensures Funct7(w) == Funct5(w) * 4 + Funct7(w) % 4 && w / 0x10_0000 == Funct7(w) * 0x20 + w / 0x10_0000 % 0x20
  {
    assert w / 0x1000 == w / 0x80 / 0x20 && w / 0x8000 == w / 0x1000 / 8;
    assert w / 0x10_0000 == w / 0x8000 / 0x20 && w / 0x200_0000 == w / 0x10_0000 / 0x20 && w / 0x800_0000 == w / 0x200_0000 / 4;
  }

  // The table, read backwards.

  lemma BranchBack(f3: nat)
    ensures BranchFunction(f3).Some? ==> CodeOf(BranchFunction(f3).value) == Code(0x63, f3, 0)
  {
  }

  lemma StoreBack(f3: nat)
    ensures StoreFunction(f3).Some? ==> CodeOf(StoreFunction(f3).value) == Code(0x23, f3, 0)
  {
  }

  lemma LoadBack(f3: nat)
    ensures LoadFunction(f3).Some? ==> CodeOf(LoadFunction(f3).value) == Code(0x03, f3, 0)
  {
  }

  lemma RegisterBack(f3: nat, f7: nat)
    requires f3 < 8
    ensures RegisterFunction(f3, f7).Some? ==> CodeOf(RegisterFunction(f3, f7).value) == Code(0x33, f3, f7)
  {
  }

  lemma AtomicBackLow(f5: nat)
    requires f5 < 0x08
    ensures AtomicFunction(2, f5).Some? ==> CodeOf(AtomicFunction(2, f5).value) == Code(0x2f, 2, f5 * 4)
  {
  }

  lemma AtomicBackHigh(f5: nat)
    requires f5 >= 0x08
    ensures AtomicFunction(2, f5).Some? ==> CodeOf(AtomicFunction(2, f5).value) == Code(0x2f, 2, f5 * 4)
  {
  }

  lemma AtomicBack(f3: nat, f5: nat)
    ensures AtomicFunction(f3, f5).Some? ==> f3 == 2 && CodeOf(AtomicFunction(f3, f5).value) == Code(0x2f, 2, f5 * 4)
  {
    if f3 == 2 {
      if f5 < 0x08 { AtomicBackLow(f5); } else { AtomicBackHigh(f5); }
    }
  }

  lemma ImmediateBack(f3: nat, f7: nat)
    requires f3 < 8
    ensures ImmediateFunction(f3, f7).Some? ==>
      var f := ImmediateFunction(f3, f7).value;
      && CodeOf(f).opcode == 0x13 && CodeOf(f).funct3 == f3 && (IsShiftImmediate(f) <==> f3 == 1 || f3 == 5)
      && (f3 == 5 ==> CodeOf(f).funct7 == f7) && (f3 == 1 ==> CodeOf(f).funct7 == 0)
  {
  }

  // The immediates.

  lemma BackI(b: nat)
    requires b < 0x1000
    ensures Fits(SignExtend(b, 0x800), 0x800) && SignExtend(b, 0x800) % 0x1000 == b
  {
  }

  lemma BackB(b: nat)
    requires b < 0x2000
    ensures Fits(SignExtend(b, 0x1000), 0x1000) && SignExtend(b, 0x1000) % 0x2000 == b
    ensures b % 2 == 0 ==> SignExtend(b, 0x1000) % 2 == 0
  {
  }

  lemma BackJ(b: nat)
    requires b < 0x20_0000
    ensures Fits(SignExtend(b, 0x10_0000), 0x10_0000) && SignExtend(b, 0x10_0000) % 0x20_0000 == b
    ensures b % 2 == 0 ==> SignExtend(b, 0x10_0000) % 2 == 0
  {
  }

  /** The digits of a number are unique. */
  lemma OneSplit(h: int, l: nat, h': int, l': nat, n: nat)
    requires l < n && l' < n && h * n + l == h' * n + l'
    ensures h == h' && l == l'
  {
    if h < h' { assert (h' - h) * n >= n by { Times(h' - h, n); } }
    if h > h' { assert (h - h') * n >= n by { Times(h - h', n); } }
  }

  lemma Times(k: int, n: nat)
    requires k >= 1
    ensures k * n >= n
  {
  }

  // The words, format by format.

  function OthersFrom(w: u32): Others {
    Others(w % 0x80, w / 0x80 % 0x20, Funct3(w), w / 0x8000 % 0x20, w / 0x10_0000 % 0x20)
  }

  lemma WordR(w: u32)
    ensures EncodeR(Funct7(w), OthersFrom(w)) == w
  {
    Parts(w);
  }

  lemma WordU(w: u32, o: Opcode)
    requires o.Lui? || o.AuiPc?
    ensures EncodeU(ImmOf(w, o), OthersFrom(w)) == w && ImmOf(w, o) % 0x1000 == 0
  {
    assert ImmOf(w, o) == w / 0x1000 * 0x1000 by { UpperBits(w); }
    UpperBits(w);
    PartsU(w);
  }

  lemma UpperBits(w: u32)
    ensures w / 0x1000 < 0x10_0000 && 0 <= w / 0x1000 * 0x1000 < TWO_TO_THE_32
    ensures w / 0x1000 * 0x1000 / 0x1000 % 0x10_0000 == w / 0x1000 && w / 0x1000 * 0x1000 % 0x1000 == 0
  {
  }

  lemma PartsU(w: u32)
    ensures w == w / 0x1000 * 0x1000 + w / 0x80 % 0x20 * 0x80 + w % 0x80
  {
    assert w / 0x1000 == w / 0x80 / 0x20;
  }

  lemma WordI(w: u32, o: Opcode)
    requires FormatOf(o).I? && !(o.OpImm? && (Funct3(w) == 1 || Funct3(w) == 5))
    ensures EncodeI(ImmOf(w, o), OthersFrom(w)) == w && Fits(ImmOf(w, o), 0x800)
  {
    assert ImmOf(w, o) == SignExtend(w / 0x10_0000, 0x800);
    BackI(w / 0x10_0000);
    Parts(w);
  }

  lemma WordS(w: u32)
    ensures EncodeS(ImmOf(w, Opcode.Store), OthersFrom(w)) == w && Fits(ImmOf(w, Opcode.Store), 0x800)
  {
    var v, rd := ImmOf(w, Opcode.Store), w / 0x80 % 0x20;
    assert v == SignExtend(Funct7(w) * 0x20 + rd, 0x800);
    BackI(Funct7(w) * 0x20 + rd);
    BitsOfS(v);
    OneSplit(Bits(v, 0x20, 0x80), v % 0x20, Funct7(w), rd, 0x20);
    Parts(w);
  }

  /** The digits of a B immediate. */
  lemma DigitsB(a: nat, b: nat, c: nat, d: nat, a': nat, b': nat, c': nat, d': nat)
    requires a < 2 && b < 2 && c < 0x40 && d < 0x10 && a' < 2 && b' < 2 && c' < 0x40 && d' < 0x10
    requires a * 0x1000 + b * 0x800 + c * 0x20 + d * 2 == a' * 0x1000 + b' * 0x800 + c' * 0x20 + d' * 2
    ensures a == a' && b == b' && c == c' && d == d'
  {
  }

  lemma WordB(w: u32)
    ensures EncodeB(ImmOf(w, Opcode.Branch), OthersFrom(w)) == w
    ensures Fits(ImmOf(w, Opcode.Branch), 0x1000) && ImmOf(w, Opcode.Branch) % 2 == 0
  {
    var v := ImmOf(w, Opcode.Branch);
    var a, b, c, d := w / 0x8000_0000, w / 0x80 % 2, w / 0x200_0000 % 0x40, w / 0x100 % 0x10;
    assert v == SignExtend(a * 0x1000 + b * 0x800 + c * 0x20 + d * 2, 0x1000);
    ExtendedB(a, b, c, d, v);
    PartsB(w);
  }

  lemma ExtendedB(a: nat, b: nat, c: nat, d: nat, v: u32)
    requires a < 2 && b < 2 && c < 0x40 && d < 0x10
    requires v == SignExtend(a * 0x1000 + b * 0x800 + c * 0x20 + d * 2, 0x1000)
    ensures Fits(v, 0x1000) && v % 2 == 0
    ensures Bits(v, 0x1000, 2) == a && Bits(v, 0x800, 2) == b && Bits(v, 0x20, 0x40) == c && Bits(v, 2, 0x10) == d
  {
    BackB(a * 0x1000 + b * 0x800 + c * 0x20 + d * 2);
    BitsOfB(v);
    DigitsB(Bits(v, 0x1000, 2), Bits(v, 0x800, 2), Bits(v, 0x20, 0x40), Bits(v, 2, 0x10), a, b, c, d);
  }

  lemma LowFive(w: u32)
    ensures w / 0x80 % 0x20 == w / 0x100 % 0x10 * 2 + w / 0x80 % 2
  {
    var h := w / 0x80;
    assert w / 0x100 == h / 2;
    assert h == h / 0x20 * 0x20 + h % 0x20;
  }

  lemma PartsB(w: u32)
    ensures w == w / 0x8000_0000 * 0x8000_0000 + w / 0x200_0000 % 0x40 * 0x200_0000 + w / 0x10_0000 % 0x20 * 0x10_0000
      + w / 0x8000 % 0x20 * 0x8000 + Funct3(w) * 0x1000 + w / 0x100 % 0x10 * 0x100 + w / 0x80 % 2 * 0x80 + w % 0x80
  {
    Parts(w);
    assert Funct7(w) == w / 0x8000_0000 * 0x40 + w / 0x200_0000 % 0x40 by { assert w / 0x8000_0000 == w / 0x200_0000 / 0x40; }
    assert w / 0x80 % 0x20 == w / 0x100 % 0x10 * 2 + w / 0x80 % 2 by { LowFive(w); }
  }

  /** The digits of a J immediate. */
  lemma DigitsJ(a: nat, b: nat, c: nat, d: nat, a': nat, b': nat, c': nat, d': nat)
    requires a < 2 && b < 0x100 && c < 2 && d < 0x400 && a' < 2 && b' < 0x100 && c' < 2 && d' < 0x400
    requires a * 0x10_0000 + b * 0x1000 + c * 0x800 + d * 2 == a' * 0x10_0000 + b' * 0x1000 + c' * 0x800 + d' * 2
    ensures a == a' && b == b' && c == c' && d == d'
  {
  }

  lemma WordJ(w: u32)
    ensures EncodeJ(ImmOf(w, Opcode.Jal), OthersFrom(w)) == w
    ensures Fits(ImmOf(w, Opcode.Jal), 0x10_0000) && ImmOf(w, Opcode.Jal) % 2 == 0
  {
    var v := ImmOf(w, Opcode.Jal);
    var a, b, c, d := w / 0x8000_0000, w / 0x1000 % 0x100, w / 0x10_0000 % 2, w / 0x20_0000 % 0x400;
    assert v == SignExtend(a * 0x10_0000 + b * 0x1000 + c * 0x800 + d * 2, 0x10_0000);
    ExtendedJ(a, b, c, d, v);
    PartsJ(w);
  }

  lemma ExtendedJ(a: nat, b: nat, c: nat, d: nat, v: u32)
    requires a < 2 && b < 0x100 && c < 2 && d < 0x400
    requires v == SignExtend(a * 0x10_0000 + b * 0x1000 + c * 0x800 + d * 2, 0x10_0000)
    ensures Fits(v, 0x10_0000) && v % 2 == 0
    ensures Bits(v, 0x10_0000, 2) == a && Bits(v, 0x1000, 0x100) == b && Bits(v, 0x800, 2) == c && Bits(v, 2, 0x400) == d
  {
    BackJ(a * 0x10_0000 + b * 0x1000 + c * 0x800 + d * 2);
    BitsOfJ(v);
    DigitsJ(Bits(v, 0x10_0000, 2), Bits(v, 0x1000, 0x100), Bits(v, 0x800, 2), Bits(v, 2, 0x400), a, b, c, d);
  }

  lemma PartsJ(w: u32)
    ensures w == w / 0x8000_0000 * 0x8000_0000 + w / 0x20_0000 % 0x400 * 0x20_0000 + w / 0x10_0000 % 2 * 0x10_0000
      + w / 0x1000 % 0x100 * 0x1000 + w / 0x80 % 0x20 * 0x80 + w % 0x80
  {
    assert w / 0x1000 == w / 0x80 / 0x20 && w / 0x10_0000 == w / 0x1000 / 0x100;
    assert w / 0x20_0000 == w / 0x10_0000 / 2 && w / 0x8000_0000 == w / 0x20_0000 / 0x400;
  }

  // The words, opcode by opcode.

  /** Opcode and mnemonic of word `w`. */
  ghost predicate Names(w: u32, f: Function, o: Opcode) {
    OpcodeOf(w) == Some(o) && FunctionOf(w, o) == Some(f)
  }

  lemma UpperEncodes(w: u32, f: Function, o: Opcode)
    requires Names(w, f, o) && (o.Lui? || o.AuiPc?)
    ensures Encodes(w, f, o)
  {
    WordU(w, o);
  }

  lemma JumpEncodes(w: u32, f: Function)
    requires Names(w, f, Opcode.Jal)
    ensures Encodes(w, f, Opcode.Jal)
  {
    WordJ(w);
  }

  lemma BranchEncodes(w: u32, f: Function)
    requires Names(w, f, Opcode.Branch)
    ensures Encodes(w, f, Opcode.Branch)
  {
    BranchBack(Funct3(w));
    WordB(w);
  }

  lemma StoreEncodes(w: u32, f: Function)
    requires Names(w, f, Opcode.Store)
    ensures Encodes(w, f, Opcode.Store)
  {
    StoreBack(Funct3(w));
    WordS(w);
  }

  lemma LoadEncodes(w: u32, f: Function)
    requires Names(w, f, Opcode.Load)
    ensures Encodes(w, f, Opcode.Load)
  {
    LoadBack(Funct3(w));
    WordI(w, Opcode.Load);
  }

  lemma RegisterEncodes(w: u32, f: Function)
    requires Names(w, f, Opcode.Op)
    ensures Encodes(w, f, Opcode.Op)
  {
    RegisterBack(Funct3(w), Funct7(w));
    WordR(w);
  }

  lemma AboveRest(w: u32)
    ensures Funct7(w) == Funct5(w) * 4 + Funct7(w) % 4
  {
    Parts(w);
  }

  lemma AtomicEncodes(w: u32, f: Function)
    requires Names(w, f, Opcode.Amo)
    ensures Encodes(w, f, Opcode.Amo)
  {
    AtomicBack(Funct3(w), Funct5(w));
    AboveRest(w);
    WordR(w);
  }

  lemma ImmediateEncodes(w: u32, f: Function)
    requires Names(w, f, Opcode.OpImm) && (Funct3(w) == 1 ==> Funct7(w) == 0)
    ensures Encodes(w, f, Opcode.OpImm)
  {
    ImmediateBack(Funct3(w), Funct7(w));
    if IsShiftImmediate(f) { WordR(w); } else { WordI(w, Opcode.OpImm); }
  }

  lemma FenceEncodes(w: u32, f: Function)
    requires Names(w, f, Opcode.MiscMem)
    ensures Encodes(w, f, Opcode.MiscMem)
  {
    WordI(w, Opcode.MiscMem);
  }

  lemma JumpRegisterEncodes(w: u32, f: Function)
    requires Names(w, f, Opcode.Jalr) && Funct3(w) == 0
    ensures Encodes(w, f, Opcode.Jalr)
  {
    WordI(w, Opcode.Jalr);
  }

  lemma SystemName(w: u32, f: Function)
    requires Names(w, f, Opcode.System) && w / 0x10_0000 <= 1
    ensures w % 0x80 == 0x73 && Funct3(w) == 0 && (if w / 0x10_0000 == 1 then f.Ebreak? else f.Ecall?)
  {
    SmallImmediate(w);
  }

  lemma SystemEncodes(w: u32, f: Function)
    requires Names(w, f, Opcode.System) && w / 0x10_0000 <= 1
    ensures Encodes(w, f, Opcode.System)
  {
    SystemName(w, f);
    SystemIs(w, f);
  }

  lemma SystemIs(w: u32, f: Function)
    requires w % 0x80 == 0x73 && Funct3(w) == 0 && w / 0x10_0000 <= 1
    requires if w / 0x10_0000 == 1 then f.Ebreak? else f.Ecall?
    ensures Encodes(w, f, Opcode.System)
  {
    WordI(w, Opcode.System);
    SmallImmediate(w);
    SystemCode(f);
  }

  lemma SmallImmediate(w: u32)
    requires w / 0x10_0000 <= 1
    ensures ImmOf(w, Opcode.System) == w / 0x10_0000
  {
  }

  /** What the decoder accepts although the standard reserves it: a JALR whose funct3 is not 0, an SLLI with
      upper bits, an ECALL whose upper bits say something else, and two words that become NOPs. */
  predicate Lenient(w: u32) {
    || (w % 0x80 == 0x67 && Funct3(w) != 0)
    || (w % 0x80 == 0x13 && Funct3(w) == 1 && Funct7(w) != 0)
    || (w % 0x80 == 0x73 && Funct3(w) == 0 && w / 0x10_0000 > 1)
    || w == 0x0030_27f3 || w == 0x0035_1073
  }

  /** Any other word that decodes is the encoding of what it decodes to. */
  lemma EncodeDecode(w: u32)
    requires Decode(w).Some? && !Decode(w).value.func.FloatingPoint? && !Lenient(w)
    ensures var i := Decode(w).value;
      Encodes(w, i.func, i.opcode) && i.fields == FieldsFor(i.opcode, OperandsOf(w, i.opcode)) && Belongs(i.func, i.opcode)
  {
    var i := Decode(w).value;
    var f, o := i.func, i.opcode;
    assert Names(w, f, o);
    DecodeBelongs(w);
    FieldsKept(w, o);
    if o.Jal? { JumpEncodes(w, f); }
    else if o.Branch? { BranchEncodes(w, f); }
    else if o.Store? { StoreEncodes(w, f); }
    else if o.Load? { LoadEncodes(w, f); }
    else if o.Op? { RegisterEncodes(w, f); }
    else if o.Amo? { AtomicEncodes(w, f); }
    else if o.OpImm? { ImmediateEncodes(w, f); }
    else if o.Lui? || o.AuiPc? { UpperEncodes(w, f, o); }
    else if o.Jalr? { JumpRegisterEncodes(w, f); }
    else if o.MiscMem? { FenceEncodes(w, f); }
    else if o.System? { SystemEncodes(w, f); }
  }

  /** Apart from floating point and the lenient words, a word decodes to an instruction exactly when it is its
      encoding, for some operands. */
  lemma DecodeExactly(w: u32, i: Instruction)
    requires !i.func.FloatingPoint? && !Lenient(w)
    ensures Decode(w) == Some(i) <==>
      Belongs(i.func, i.opcode) && exists x :: Encodable(i.func, i.opcode, x) && Encode(i.func, i.opcode, x) == w
                                              && i.fields == FieldsFor(i.opcode, x)
  {
    if Decode(w) == Some(i) { EncodeDecode(w); }
    forall x | Belongs(i.func, i.opcode) && Encodable(i.func, i.opcode, x) { DecodeEncode(i.func, i.opcode, x); }
  }

  // What the lenient words decode to.

  /** Words of opcode JALR, and of a shift with funct3 1, that agree where the decoder looks. */
  lemma SameJump(v: u32, w: u32)
    requires v % 0x80 == 0x67 == w % 0x80 && v / 0x80 % 0x20 == w / 0x80 % 0x20 && v / 0x8000 == w / 0x8000
    ensures Decode(v) == Decode(w)
  {
    assert v / 0x10_0000 == w / 0x10_0000 by { Parts(v); Parts(w); assert v / 0x8000 / 0x20 == w / 0x8000 / 0x20; }
    assert ImmOf(v, Opcode.Jalr) == ImmOf(w, Opcode.Jalr);
    assert FieldsOf(v, Opcode.Jalr) == FieldsOf(w, Opcode.Jalr);
  }

  lemma SameShift(v: u32, w: u32)
    requires v % 0x80 == 0x13 == w % 0x80 && Funct3(v) == 1 == Funct3(w)
    requires v / 0x80 % 0x20 == w / 0x80 % 0x20 && v / 0x8000 % 0x20 == w / 0x8000 % 0x20
    requires v / 0x10_0000 % 0x20 == w / 0x10_0000 % 0x20
    ensures Decode(v) == Decode(w)
  {
    ShiftAmount(v);
    ShiftAmount(w);
    assert FieldsOf(v, Opcode.OpImm) == FieldsOf(w, Opcode.OpImm);
  }

  /** The same word with the bits of funct3 or funct7 clear. */
  lemma Cleared(w: u32)
    ensures 0 <= w - Funct3(w) * 0x1000 && 0 <= w - Funct7(w) * 0x200_0000
    ensures w - Funct3(w) * 0x1000 == EncodeR(Funct7(w), OthersFrom(w).(funct3 := 0))
    ensures w - Funct7(w) * 0x200_0000 == EncodeR(0, OthersFrom(w))
  {
    WordR(w);
  }

  /** A JALR decodes whatever its funct3, which is to be 0. */
  lemma LenientJump(w: u32)
    requires w % 0x80 == 0x67
    ensures 0 <= w - Funct3(w) * 0x1000 && Decode(w) == Decode(w - Funct3(w) * 0x1000)
  {
    Cleared(w);
    FieldsOfWord(Funct7(w), OthersFrom(w).(funct3 := 0));
    Above(w);
    SameJump(w - Funct3(w) * 0x1000, w);
  }

  lemma Above(w: u32)
    requires 0 <= w - Funct3(w) * 0x1000
    ensures (w - Funct3(w) * 0x1000) / 0x8000 == w / 0x8000
  {
    var h := w / 0x1000;
    assert w / 0x8000 == h / 8;
    assert w == 0x8000 * (h / 8) + 0x1000 * (h % 8) + w % 0x1000;
  }

  /** An SLLI decodes whatever its upper seven bits, which are to be 0. */
  lemma LenientShift(w: u32)
    requires w % 0x80 == 0x13 && Funct3(w) == 1
    ensures 0 <= w - Funct7(w) * 0x200_0000 && Decode(w) == Decode(w - Funct7(w) * 0x200_0000)
  {
    Cleared(w);
    FieldsOfWord(0, OthersFrom(w));
    SameShift(w - Funct7(w) * 0x200_0000, w);
  }

  /** A SYSTEM word with funct3 0 that is no EBREAK is an ECALL whatever its upper bits, which are to be 0. */
  lemma LenientCall(w: u32)
    requires w % 0x80 == 0x73 && Funct3(w) == 0 && w / 0x10_0000 != 1
    ensures Decode(w) == Some(Instruction(Opcode.System, FieldsFor(Opcode.System, OperandsOf(w, Opcode.System)), Ecall))
  {
    FieldsKept(w, Opcode.System);
    assert ImmOf(w, Opcode.System) == SignExtend(w / 0x10_0000, 0x800);
    BackI(w / 0x10_0000);
  }
}
