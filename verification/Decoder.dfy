/** The instruction decoder (src/instruction.rs): from a 32-bit word to fields and mnemonic. The
    source masks and shifts; here a bit field is a quotient and a remainder by powers of two. */
module Decoder {
  import opened Words
  import opened Instructions

  datatype Format = R | R4 | I | S | B | U | J

  function OpcodeOf(w: u32): Option<Opcode> {
    match w % 0x80
    case 0x37 => Some(Opcode.Lui)
    case 0x17 => Some(Opcode.AuiPc)
    case 0x6f => Some(Opcode.Jal)
    case 0x67 => Some(Opcode.Jalr)
    case 0x63 => Some(Opcode.Branch)
    case 0x03 => Some(Opcode.Load)
    case 0x23 => Some(Opcode.Store)
    case 0x33 => Some(Opcode.Op)
    case 0x13 => Some(Opcode.OpImm)
    case 0x0f => Some(Opcode.MiscMem)
    case 0x73 => Some(Opcode.System)
    case 0x2f => Some(Opcode.Amo)
    case 0x07 => Some(Opcode.LoadFp)
    case 0x27 => Some(Opcode.StoreFp)
    case 0x43 => Some(Opcode.Fmadd)
    case 0x47 => Some(Opcode.Fmsub)
    case 0x4b => Some(Opcode.Fnmsub)
    case 0x4f => Some(Opcode.Fnmadd)
    case 0x53 => Some(Opcode.OpFp)
    case _ => None
  }

  function FormatOf(o: Opcode): Format {
    match o
    case Lui | AuiPc => U
    case Jal => J
    case Branch => B
    case Store | StoreFp => S
    case Op | OpFp => R
    case Jalr | Load | LoadFp | OpImm | MiscMem | System => I
    case Fmadd | Fmsub | Fnmadd | Fnmsub | Amo => R4
  }

  function Funct3(w: u32): nat { w / 0x1000 % 8 }
  function Funct7(w: u32): nat { w / 0x200_0000 }
  function Funct5(w: u32): nat { w / 0x800_0000 }

  /** The immediate's bits, before sign extension. */
  function RawImm(w: u32, o: Opcode): nat {
    match FormatOf(o)
    case I =>
      if o.OpImm? && (Funct3(w) == 1 || Funct3(w) == 5) then w / 0x10_0000 % 0x20
      else w / 0x10_0000
    case S => w / 0x200_0000 * 0x20 + w / 0x80 % 0x20
    case B => w / 0x8000_0000 * 0x1000 + w / 0x80 % 2 * 0x800 + w / 0x200_0000 % 0x40 * 0x20 + w / 0x100 % 0x10 * 2
    case U => w / 0x1000 * 0x1000
    case J => w / 0x8000_0000 * 0x10_0000 + w / 0x1000 % 0x100 * 0x1000 + w / 0x10_0000 % 2 * 0x800 + w / 0x20_0000 % 0x400 * 2
    case _ => 0
  }

  /** Sign extension of a number whose sign bit is worth `sign`: `((x as i32) << n) >> n`. */
  function SignExtend(x: nat, sign: nat): u32 {
    Wrap(if x < sign then x else x - 2 * sign)
  }

  function ImmOf(w: u32, o: Opcode): u32 {
    match o
    case Lui | AuiPc => Wrap(RawImm(w, o))
    case Jal => SignExtend(RawImm(w, o), 0x10_0000)
    case Branch => SignExtend(RawImm(w, o), 0x1000)
    case _ => SignExtend(RawImm(w, o), 0x800)
  }

  function FieldsOf(w: u32, o: Opcode): Fields {
    var rs1, rs2, rd, imm := Some(w / 0x8000 % 0x20), Some(w / 0x10_0000 % 0x20), Some(w / 0x80 % 0x20), Some(ImmOf(w, o));
    match FormatOf(o)
    case R | R4 => Fields(rs1, rs2, rd, None)
    case I => Fields(rs1, None, rd, imm)
    case S | B => Fields(rs1, rs2, None, imm)
    case J | U => Fields(None, None, rd, imm)
  }

  /** A mnemonic that no opcode other than OP and OP-IMM has. */
  predicate Ordinary(f: Function) {
    !IsBranch(f) && !IsLoad(f) && !IsStore(f) && !IsAmo(f) && !f.Jal? && !f.Jalr? && !f.Ecall?
  }

  function BranchFunction(f3: nat): (r: Option<Function>)
    ensures r.Some? ==> IsBranch(r.value)
  {
    match f3
    case 0 => Some(Beq) case 1 => Some(Bne) case 4 => Some(Blt)
    case 5 => Some(Bge) case 6 => Some(Bltu) case 7 => Some(Bgeu)
    case _ => None
  }

  function LoadFunction(f3: nat): (r: Option<Function>)
    ensures r.Some? ==> IsLoad(r.value)
  {
    match f3
    case 0 => Some(Lb) case 1 => Some(Lh) case 2 => Some(Lw) case 4 => Some(Lbu) case 5 => Some(Lhu)
    case _ => None
  }

  function StoreFunction(f3: nat): (r: Option<Function>)
    ensures r.Some? ==> IsStore(r.value)
  {
    match f3
    case 0 => Some(Sb) case 1 => Some(Sh) case 2 => Some(Sw)
    case _ => None
  }

  function ImmediateFunction(f3: nat, f7: nat): (r: Option<Function>)
    ensures r.Some? ==> Ordinary(r.value)
  {
    match f3
    case 0 => Some(Addi) case 2 => Some(Slti) case 3 => Some(Sltiu) case 4 => Some(Xori)
    case 6 => Some(Ori) case 7 => Some(Andi) case 1 => Some(Slli)
    case _ => if f7 == 0 then Some(Srli) else if f7 == 0x20 then Some(Srai) else None
  }

  function RegisterFunction(f3: nat, f7: nat): (r: Option<Function>)
    ensures r.Some? ==> Ordinary(r.value)
  {
    if f7 == 1 then
      match f3
      case 0 => Some(Mul) case 1 => Some(Mulh) case 2 => Some(Mulhsu) case 3 => Some(Mulhu)
      case 4 => Some(Div) case 5 => Some(Divu) case 6 => Some(Rem) case _ => Some(Remu)
    else if f7 == 0 then
      match f3
      case 0 => Some(Add) case 1 => Some(Sll) case 2 => Some(Slt) case 3 => Some(Sltu)
      case 4 => Some(Xor) case 5 => Some(Srl) case 6 => Some(Or) case _ => Some(And)
    else if f7 == 0x20 && f3 == 0 then Some(Sub)
    else if f7 == 0x20 && f3 == 5 then Some(Sra)
    else None
  }

  function AtomicFunction(f3: nat, f5: nat): (r: Option<Function>)
    ensures r.Some? ==> IsAmo(r.value)
  {
    if f3 != 2 then None
    else
      match f5
      case 0x02 => Some(Lrw) case 0x03 => Some(Scw) case 0x01 => Some(Amoswapw) case 0x00 => Some(Amoaddw)
      case 0x04 => Some(Amoxorw) case 0x0c => Some(Amoandw) case 0x08 => Some(Amoorw)
      case 0x10 => Some(Amominw) case 0x14 => Some(Amomaxw) case 0x18 => Some(Amominuw) case 0x1c => Some(Amomaxuw)
      case _ => None
  }

  /** The operations of opcode OP-FP, by funct3, funct7 and rs2. */
  predicate IsFloatOperation(f3: nat, f7: nat, rs2: nat) {
    || f7 in {0x00, 0x04, 0x08, 0x0c, 0x60, 0x68}
    || (f7 in {0x10, 0x50} && f3 <= 2) || (f7 == 0x14 && f3 <= 1)
    || (f7 == 0x2c && rs2 == 0) || (f7 == 0x70 && f3 <= 1 && rs2 == 0) || (f7 == 0x78 && f3 == 0 && rs2 == 0)
  }

  /** `Function::new`; `None` where the source panics. */
  function FunctionOf(w: u32, o: Opcode): Option<Function> {
    match o
    case Lui => Some(Function.Lui)
    case AuiPc => Some(Function.AuiPc)
    case Jal => Some(Function.Jal)
    case Jalr => Some(Function.Jalr)
    case Branch => BranchFunction(Funct3(w))
    case Load => LoadFunction(Funct3(w))
    case Store => StoreFunction(Funct3(w))
    case OpImm => ImmediateFunction(Funct3(w), Funct7(w))
    case Op => RegisterFunction(Funct3(w), Funct7(w))
    case Amo => AtomicFunction(Funct3(w), Funct5(w))
    case MiscMem => if Funct3(w) == 0 then Some(Fence) else if Funct3(w) == 1 then Some(Fencei) else None
    case System =>
      if Funct3(w) != 0 then None else if ImmOf(w, o) == 1 then Some(Ebreak) else Some(Ecall)
    case OpFp => if IsFloatOperation(Funct3(w), Funct7(w), w / 0x10_0000 % 0x20) then Some(FloatingPoint) else None
    case _ => Some(FloatingPoint)
  }

  /** `Instruction::new`. */
  function Decode(w: u32): Option<Instruction> {
    if w == 0x0030_27f3 || w == 0x0035_1073 then Some(NOP)
    else
      match OpcodeOf(w)
      case None => None
      case Some(o) =>
        match FunctionOf(w, o)
        case None => None
        case Some(f) => Some(Instruction(o, FieldsOf(w, o), f))
  }

  /** Everything decoded has the fields its opcode's format has and a mnemonic of its opcode. */
  lemma DecodeWellFormed(w: u32)
    ensures Decode(w).Some? ==> WellFormed(Decode(w).value)
  {
    if Decode(w).Some? && Decode(w).value != NOP {
      var o := OpcodeOf(w).value;
      FieldsShape(w, o);
      FunctionClass(w, o);
    }
  }

  lemma FieldsShape(w: u32, o: Opcode)
    ensures var f := FieldsOf(w, o);
      && (f.rs1.Some? <==> !(FormatOf(o) in {J, U}))
      && (f.rs2.Some? <==> FormatOf(o) in {R, R4, S, B})
      && (f.rd.Some? <==> !(FormatOf(o) in {S, B}))
      && (f.imm.Some? <==> !(FormatOf(o) in {R, R4}))
  {
  }

  lemma FunctionClass(w: u32, o: Opcode)
    requires FunctionOf(w, o).Some?
    ensures var f := FunctionOf(w, o).value;
      && (IsBranch(f) <==> o.Branch?) && (IsLoad(f) <==> o.Load?) && (IsStore(f) <==> o.Store?)
      && (IsAmo(f) <==> o.Amo?) && (f.Jal? <==> o.Jal?) && (f.Jalr? <==> o.Jalr?) && (f.Ecall? ==> o.System?)
  {
    match o
    case Branch => assert IsBranch(BranchFunction(Funct3(w)).value);
    case Load => assert IsLoad(LoadFunction(Funct3(w)).value);
    case Store => assert IsStore(StoreFunction(Funct3(w)).value);
    case Amo => assert IsAmo(AtomicFunction(Funct3(w), Funct5(w)).value);
    case OpImm => assert Ordinary(ImmediateFunction(Funct3(w), Funct7(w)).value);
    case Op => assert Ordinary(RegisterFunction(Funct3(w), Funct7(w)).value);
    case _ =>
  }

  lemma RegisterBelongs(f3: nat, f7: nat)
    ensures RegisterFunction(f3, f7).Some? ==> Belongs(RegisterFunction(f3, f7).value, Opcode.Op)
  {
  }

  lemma ImmediateBelongs(f3: nat, f7: nat)
    ensures ImmediateFunction(f3, f7).Some? ==> Belongs(ImmediateFunction(f3, f7).value, Opcode.OpImm)
  {
  }

  lemma OpcodeBelongs(w: u32, o: Opcode)
    requires FunctionOf(w, o).Some?
    ensures Belongs(FunctionOf(w, o).value, o)
  {
    match o
    case Branch => assert IsBranch(BranchFunction(Funct3(w)).value);
    case Load => assert IsLoad(LoadFunction(Funct3(w)).value);
    case Store => assert IsStore(StoreFunction(Funct3(w)).value);
    case Amo => assert IsAmo(AtomicFunction(Funct3(w), Funct5(w)).value);
    case OpImm => ImmediateBelongs(Funct3(w), Funct7(w));
    case Op => RegisterBelongs(Funct3(w), Funct7(w));
    case _ =>
  }

  /** A decoded mnemonic is one of its opcode. */
  lemma DecodeBelongs(w: u32)
    ensures Decode(w).Some? ==> Belongs(Decode(w).value.func, Decode(w).value.opcode)
  {
    if Decode(w).Some? && Decode(w).value != NOP {
      OpcodeBelongs(w, OpcodeOf(w).value);
    }
  }

  // ---- Immediates ----

  // The encodings of section 2.3 of the RISC-V Unprivileged ISA (20191213): where each format puts
  // the bits of an immediate `v`, a two's complement number, around the other fields of the word.

  datatype Others = Others(opcode: nat, rd: nat, funct3: nat, rs1: nat, rs2: nat)

  predicate InRange(x: Others) {
    x.opcode < 0x80 && x.rd < 0x20 && x.funct3 < 8 && x.rs1 < 0x20 && x.rs2 < 0x20
  }

  /** Bits `lo` to `lo + n - 1` of `v`, given 2^lo and 2^n. */
  function Bits(v: u32, lo: nat, n: nat): nat
    requires lo > 0 && n > 0
  {
    v / lo % n
  }

  function EncodeI(v: u32, x: Others): int {
    Bits(v, 1, 0x1000) * 0x10_0000 + x.rs1 * 0x8000 + x.funct3 * 0x1000 + x.rd * 0x80 + x.opcode
  }

  function EncodeS(v: u32, x: Others): int {
    Bits(v, 0x20, 0x80) * 0x200_0000 + x.rs2 * 0x10_0000 + x.rs1 * 0x8000 + x.funct3 * 0x1000
    + Bits(v, 1, 0x20) * 0x80 + x.opcode
  }

  function EncodeB(v: u32, x: Others): int {
    Bits(v, 0x1000, 2) * 0x8000_0000 + Bits(v, 0x20, 0x40) * 0x200_0000 + x.rs2 * 0x10_0000 + x.rs1 * 0x8000
    + x.funct3 * 0x1000 + Bits(v, 2, 0x10) * 0x100 + Bits(v, 0x800, 2) * 0x80 + x.opcode
  }

  function EncodeU(v: u32, x: Others): int {
    Bits(v, 0x1000, 0x10_0000) * 0x1000 + x.rd * 0x80 + x.opcode
  }

  function EncodeJ(v: u32, x: Others): int {
    Bits(v, 0x10_0000, 2) * 0x8000_0000 + Bits(v, 2, 0x400) * 0x20_0000 + Bits(v, 0x800, 2) * 0x10_0000
    + Bits(v, 0x1000, 0x100) * 0x1000 + x.rd * 0x80 + x.opcode
  }

  /** The words that are sign-extended numbers with sign bit worth `sign`. */
  predicate Fits(v: u32, sign: nat) {
    Signed(v) + sign >= 0 && Signed(v) < sign
  }

  /** Decoding inverts every immediate encoding, for every immediate the format can hold and
      whatever the other fields are. */
  lemma ImmediateI(v: u32, x: Others, o: Opcode)
    requires InRange(x) && FormatOf(o).I? && Fits(v, 0x800)
    requires !(o.OpImm? && (x.funct3 == 1 || x.funct3 == 5))
    ensures 0 <= EncodeI(v, x) < TWO_TO_THE_32 && ImmOf(EncodeI(v, x), o) == v
  {
    assert RawImm(EncodeI(v, x), o) == v % 0x1000 by { SlicesI(Bits(v, 1, 0x1000), x); }
    assert 0 <= EncodeI(v, x) < TWO_TO_THE_32 by { SlicesI(Bits(v, 1, 0x1000), x); }
    SignI(v);
  }

  lemma SignI(v: u32)
    requires Fits(v, 0x800)
    ensures SignExtend(v % 0x1000, 0x800) == v
  {
  }

  lemma SlicesI(b: nat, x: Others)
    requires InRange(x) && b < 0x1000
    ensures var w := b * 0x10_0000 + x.rs1 * 0x8000 + x.funct3 * 0x1000 + x.rd * 0x80 + x.opcode;
      w < TWO_TO_THE_32 && w / 0x10_0000 == b && w / 0x1000 % 8 == x.funct3
  {
    var w := b * 0x10_0000 + x.rs1 * 0x8000 + x.funct3 * 0x1000 + x.rd * 0x80 + x.opcode;
    assert w / 0x1000 == b * 0x100 + x.rs1 * 8 + x.funct3;
  }

  lemma ImmediateS(v: u32, x: Others)
    requires InRange(x) && Fits(v, 0x800)
    ensures 0 <= EncodeS(v, x) < TWO_TO_THE_32 && ImmOf(EncodeS(v, x), Opcode.Store) == v
  {
    SlicesS(Bits(v, 0x20, 0x80), Bits(v, 1, 0x20), x);
    assert RawImm(EncodeS(v, x), Opcode.Store) == v % 0x1000 by { BitsOfS(v); }
    SignI(v);
  }

  lemma BitsOfS(v: u32)
    ensures v / 0x20 % 0x80 * 0x20 + v / 1 % 0x20 == v % 0x1000
  {
    assert v == 0x1000 * (v / 0x20 / 0x80) + v / 0x20 % 0x80 * 0x20 + v % 0x20;
  }

  lemma SlicesS(b: nat, c: nat, x: Others)
    requires InRange(x) && b < 0x80 && c < 0x20
    ensures var w := b * 0x200_0000 + x.rs2 * 0x10_0000 + x.rs1 * 0x8000 + x.funct3 * 0x1000 + c * 0x80 + x.opcode;
      w < TWO_TO_THE_32 && w / 0x200_0000 == b && w / 0x80 % 0x20 == c
  {
    var w := b * 0x200_0000 + x.rs2 * 0x10_0000 + x.rs1 * 0x8000 + x.funct3 * 0x1000 + c * 0x80 + x.opcode;
    assert w / 0x80 == b * 0x4_0000 + x.rs2 * 0x2000 + x.rs1 * 0x100 + x.funct3 * 0x20 + c;
  }

  lemma ImmediateB(v: u32, x: Others)
    requires InRange(x) && Fits(v, 0x1000) && v % 2 == 0
    ensures 0 <= EncodeB(v, x) < TWO_TO_THE_32 && ImmOf(EncodeB(v, x), Opcode.Branch) == v
  {
    SlicesB(Bits(v, 0x1000, 2), Bits(v, 0x20, 0x40), Bits(v, 2, 0x10), Bits(v, 0x800, 2), x);
    assert RawImm(EncodeB(v, x), Opcode.Branch) == v % 0x2000 by { BitsOfB(v); }
    SignB(v);
  }

  lemma SignB(v: u32)
    requires Fits(v, 0x1000)
    ensures SignExtend(v % 0x2000, 0x1000) == v
  {
  }

  lemma BitsOfB(v: u32)
    requires v % 2 == 0
    ensures Bits(v, 0x1000, 2) * 0x1000 + Bits(v, 0x800, 2) * 0x800 + Bits(v, 0x20, 0x40) * 0x20 + Bits(v, 2, 0x10) * 2
         == v % 0x2000
  {
    LowBitsB(v);
    HighBitsB(v);
  }

  lemma LowBitsB(v: u32)
    requires v % 2 == 0
    ensures v / 0x20 % 0x40 * 0x20 + v / 2 % 0x10 * 2 == v % 0x800
  {
    var h := v / 2;
    assert v / 0x20 == h / 0x10;
    assert h % 0x400 == h / 0x10 % 0x40 * 0x10 + h % 0x10;
  }

  lemma HighBitsB(v: u32)
    ensures v / 0x1000 % 2 * 0x1000 + v / 0x800 % 2 * 0x800 + v % 0x800 == v % 0x2000
  {
  }

  lemma SlicesB(b: nat, c: nat, d: nat, e: nat, x: Others)
    requires InRange(x) && b < 2 && c < 0x40 && d < 0x10 && e < 2
    ensures var w := b * 0x8000_0000 + c * 0x200_0000 + x.rs2 * 0x10_0000 + x.rs1 * 0x8000 + x.funct3 * 0x1000
                     + d * 0x100 + e * 0x80 + x.opcode;
      w < TWO_TO_THE_32 && w / 0x8000_0000 == b && w / 0x80 % 2 == e && w / 0x200_0000 % 0x40 == c && w / 0x100 % 0x10 == d
  {
    var w := b * 0x8000_0000 + c * 0x200_0000 + x.rs2 * 0x10_0000 + x.rs1 * 0x8000 + x.funct3 * 0x1000
             + d * 0x100 + e * 0x80 + x.opcode;
    var low := x.rs2 * 0x10_0000 + x.rs1 * 0x8000 + x.funct3 * 0x1000 + d * 0x100 + e * 0x80 + x.opcode;
    assert low < 0x200_0000;
    assert w / 0x200_0000 == b * 0x40 + c;
    var mid := b * 0x8_0000 + c * 0x2000 + x.rs2 * 0x100 + x.rs1 * 8 + x.funct3;
    assert w == mid * 0x1000 + d * 0x100 + e * 0x80 + x.opcode;
    assert w / 0x100 == mid * 0x10 + d;
    assert w / 0x80 == mid * 0x20 + d * 2 + e;
  }

  lemma ImmediateU(v: u32, x: Others, o: Opcode)
    requires InRange(x) && FormatOf(o).U? && v % 0x1000 == 0
    ensures 0 <= EncodeU(v, x) < TWO_TO_THE_32 && ImmOf(EncodeU(v, x), o) == v
  {
  }

  lemma ImmediateJ(v: u32, x: Others)
    requires InRange(x) && Fits(v, 0x10_0000) && v % 2 == 0
    ensures 0 <= EncodeJ(v, x) < TWO_TO_THE_32 && ImmOf(EncodeJ(v, x), Opcode.Jal) == v
  {
    SlicesJ(Bits(v, 0x10_0000, 2), Bits(v, 2, 0x400), Bits(v, 0x800, 2), Bits(v, 0x1000, 0x100), x);
    assert RawImm(EncodeJ(v, x), Opcode.Jal) == v % 0x20_0000 by { BitsOfJ(v); }
    SignJ(v);
  }

  lemma SignJ(v: u32)
    requires Fits(v, 0x10_0000)
    ensures SignExtend(v % 0x20_0000, 0x10_0000) == v
  {
  }

  lemma BitsOfJ(v: u32)
    requires v % 2 == 0
    ensures Bits(v, 0x10_0000, 2) * 0x10_0000 + Bits(v, 0x1000, 0x100) * 0x1000 + Bits(v, 0x800, 2) * 0x800
            + Bits(v, 2, 0x400) * 2 == v % 0x20_0000
  {
    LowBitsJ(v);
    HighBitsJ(v);
  }

  lemma LowBitsJ(v: u32)
    requires v % 2 == 0
    ensures v / 0x800 % 2 * 0x800 + v / 2 % 0x400 * 2 == v % 0x1000
  {
    var h := v / 2;
    assert v / 0x800 == h / 0x400;
    assert h % 0x800 == h / 0x400 % 2 * 0x400 + h % 0x400;
  }

  lemma HighBitsJ(v: u32)
    ensures v / 0x10_0000 % 2 * 0x10_0000 + v / 0x1000 % 0x100 * 0x1000 + v % 0x1000 == v % 0x20_0000
  {
    var h := v / 0x1000;
    assert v / 0x10_0000 == h / 0x100;
    assert h % 0x200 == h / 0x100 % 2 * 0x100 + h % 0x100;
    assert v == 0x20_0000 * (h / 0x200) + 0x1000 * (h % 0x200) + v % 0x1000;
  }

  lemma SlicesJ(b: nat, c: nat, d: nat, e: nat, x: Others)
    requires InRange(x) && b < 2 && c < 0x400 && d < 2 && e < 0x100
    ensures var w := b * 0x8000_0000 + c * 0x20_0000 + d * 0x10_0000 + e * 0x1000 + x.rd * 0x80 + x.opcode;
      w < TWO_TO_THE_32 && w / 0x8000_0000 == b && w / 0x1000 % 0x100 == e && w / 0x10_0000 % 2 == d && w / 0x20_0000 % 0x400 == c
  {
    var w := b * 0x8000_0000 + c * 0x20_0000 + d * 0x10_0000 + e * 0x1000 + x.rd * 0x80 + x.opcode;
    assert w / 0x1000 == b * 0x8_0000 + c * 0x200 + d * 0x100 + e;
    assert w / 0x10_0000 == b * 0x800 + c * 2 + d;
    assert w / 0x20_0000 == b * 0x400 + c;
  }

  /** Shift immediates are below 32, as the arithmetic unit needs. */
  lemma ShiftAmounts(w: u32)
    requires Decode(w).Some? && Decode(w).value.func in {Slli, Srli, Srai}
    ensures Imm(Decode(w).value) < 32
  {
    FunctionClass(w, OpcodeOf(w).value);
    assert OpcodeOf(w).value.OpImm?;
  }

  /** ECALL itself decodes with rd = x0, but so do words that name another register: the refinement
      needs them out of the program. */
  lemma EcallWords()
    ensures Decode(0x73).Some? && Decode(0x73).value.func.Ecall? && Rd(Decode(0x73).value) == 0
    ensures Decode(0xf3).Some? && Decode(0xf3).value.func.Ecall? && Rd(Decode(0xf3).value) == 1
  {
  }
}
