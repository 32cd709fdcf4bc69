/** Decoded instructions (src/instruction.rs). */
module Instructions {
  import opened Words

  datatype Opcode =
    | Lui | AuiPc | Jal | Jalr | Branch | Load | Store | Op | OpImm | MiscMem | System | Amo
    | LoadFp | StoreFp | OpFp | Fmadd | Fmsub | Fnmadd | Fnmsub

  /** Mnemonics. The floating-point ones share a single name: they never reach a functional unit. */
  datatype Function =
    | Lui | AuiPc | Jal | Jalr
    | Beq | Bne | Blt | Bge | Bltu | Bgeu
    | Lb | Lh | Lw | Lbu | Lhu
    | Sb | Sh | Sw
    | Addi | Slti | Sltiu | Xori | Ori | Andi | Slli | Srli | Srai
    | Add | Sub | Sll | Slt | Sltu | Xor | Srl | Sra | Or | And
    | Fence | Fencei | Ecall | Ebreak
    | Mul | Mulh | Mulhsu | Mulhu | Div | Divu | Rem | Remu
    | Lrw | Scw | Amoswapw | Amoaddw | Amoxorw | Amoandw | Amoorw
    | Amominw | Amomaxw | Amominuw | Amomaxuw
    | FloatingPoint

  datatype Fields = Fields(rs1: Option<Reg>, rs2: Option<Reg>, rd: Option<Reg>, imm: Option<u32>)

  datatype Instruction = Instruction(opcode: Opcode, fields: Fields, func: Function)

  predicate IsFloat(o: Opcode) {
    o in {Opcode.LoadFp, Opcode.StoreFp, Opcode.OpFp, Opcode.Fmadd, Opcode.Fmsub, Opcode.Fnmadd, Opcode.Fnmsub}
  }

  predicate IsBranch(f: Function) {
    f.Beq? || f.Bne? || f.Blt? || f.Bge? || f.Bltu? || f.Bgeu?
  }

  /** The only computations that can fail. */
  predicate IsDivision(f: Function) {
    f.Div? || f.Divu? || f.Rem? || f.Remu?
  }

  predicate IsLoad(f: Function) {
    f.Lb? || f.Lh? || f.Lw? || f.Lbu? || f.Lhu?
  }

  predicate IsStore(f: Function) {
    f.Sb? || f.Sh? || f.Sw?
  }

  predicate IsAmo(f: Function) {
    f.Lrw? || f.Scw? || f.Amoswapw? || f.Amoaddw? || f.Amoxorw? || f.Amoandw? || f.Amoorw?
    || f.Amominw? || f.Amomaxw? || f.Amominuw? || f.Amomaxuw?
  }

  /** Which fields each opcode's format carries, and which mnemonics go with it. Everything the
      decoder returns satisfies this, so no `unwrap` of a field in the pipeline can fail. */
  predicate WellFormed(i: Instruction) {
    var f := i.fields;
    && (match i.opcode
        case Store | Branch => f.rs1.Some? && f.rs2.Some? && f.rd.None? && f.imm.Some?
        case Load | Jalr | OpImm | MiscMem | System => f.rs1.Some? && f.rs2.None? && f.rd.Some? && f.imm.Some?
        case Op | Amo => f.rs1.Some? && f.rs2.Some? && f.rd.Some? && f.imm.None?
        case Jal | Lui | AuiPc => f.rs1.None? && f.rs2.None? && f.rd.Some? && f.imm.Some?
        case _ => true)
    && (i.opcode.Branch? <==> IsBranch(i.func))
    && (i.opcode.Load? <==> IsLoad(i.func))
    && (i.opcode.Store? <==> IsStore(i.func))
    && (i.opcode.Amo? <==> IsAmo(i.func))
    && (i.opcode.Jal? <==> i.func.Jal?)
    && (i.opcode.Jalr? <==> i.func.Jalr?)
    && (i.func.Ecall? ==> i.opcode.System?)
  }

  /** Mnemonic `f` is one that opcode `o` has. */
  predicate Belongs(f: Function, o: Opcode) {
    match o
    case Lui => f.Lui?
    case AuiPc => f.AuiPc?
    case Jal => f.Jal?
    case Jalr => f.Jalr?
    case Branch => IsBranch(f)
    case Load => IsLoad(f)
    case Store => IsStore(f)
    case Op =>
      || f.Add? || f.Sub? || f.Sll? || f.Slt? || f.Sltu? || f.Xor? || f.Srl? || f.Sra? || f.Or? || f.And?
      || f.Mul? || f.Mulh? || f.Mulhsu? || f.Mulhu? || IsDivision(f)
    case OpImm => f.Addi? || f.Slti? || f.Sltiu? || f.Xori? || f.Ori? || f.Andi? || f.Slli? || f.Srli? || f.Srai?
    case MiscMem => f.Fence? || f.Fencei?
    case System => f.Ecall? || f.Ebreak?
    case Amo => IsAmo(f)
    case _ => f.FloatingPoint?
  }

  /** ADDI x0, x0, 0. */
  const NOP := Instruction(Opcode.OpImm, Fields(Some(0), None, Some(0), Some(0)), Addi)

  type Inst = i: Instruction | WellFormed(i) witness NOP

  function Rs1(i: Instruction): Reg { i.fields.rs1.GetOr(0) }
  function Rs2(i: Instruction): Reg { i.fields.rs2.GetOr(0) }
  function Rd(i: Instruction): Reg { i.fields.rd.GetOr(0) }
  function Imm(i: Instruction): u32 { i.fields.imm.GetOr(0) }
}
