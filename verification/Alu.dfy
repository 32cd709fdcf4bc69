/** The arithmetic unit (src/alu.rs) and the operations of the atomics (src/pipeline/functional_units/memory.rs). */
module Alu {
  import opened Words
  import opened Instructions

  const TWO_TO_THE_64: int := 0x1_0000_0000_0000_0000
  const INT_MIN: u32 := 0x8000_0000

  function Bit(b: bool): u32 { if b then 1 else 0 }

  /** A bitwise operation on the lowest `n` bits. */
  function Bitwise(op: (bool, bool) -> bool, a: nat, b: nat, n: nat): (r: nat)
    ensures r < Pow2(n)
    decreases n, a, b
  {
    if n == 0 then 0
    else Bit(op(a % 2 == 1, b % 2 == 1)) + 2 * Bitwise(op, a / 2, b / 2, n - 1)
  }

  lemma Pow2Word()
    ensures Pow2(32) == TWO_TO_THE_32
  {
    assert Pow2(8) == 0x100;
    assert Pow2(16) == 0x1_0000;
    assert Pow2(24) == 0x100_0000;
  }

  function BitwiseWord(op: (bool, bool) -> bool, a: u32, b: u32): u32 {
    Pow2Word();
    Bitwise(op, a, b, 32)
  }

  function BitAnd(a: u32, b: u32): u32 { BitwiseWord((x, y) => x && y, a, b) }
  function BitOr(a: u32, b: u32): u32 { BitwiseWord((x, y) => x || y, a, b) }
  function BitXor(a: u32, b: u32): u32 { BitwiseWord((x, y) => x != y, a, b) }

  /** Shift amounts are taken modulo 32, as release builds of the source do. */
  function ShiftLeft(a: u32, n: u32): u32 { Wrap(a * Pow2(n % 32)) }

  function ShiftRight(a: u32, n: u32): (r: u32)
    ensures r <= a
  {
    DivBounds(a, Pow2(n % 32));
    a / Pow2(n % 32)
  }

  function ShiftRightArithmetic(a: u32, n: u32): u32 { Wrap(Signed(a) / Pow2(n % 32)) }

  lemma MulNonNegative(x: int, y: int)
    requires x >= 0 && y >= 0
    ensures x * y >= 0
  {
  }

  /** Division with remainder, for a solver that does not multiply well. */
  lemma DivMod(a: nat, d: nat)
    requires d > 0
    ensures a == a / d * d + a % d && a % d < d && a / d >= 0
  {
  }

  lemma DivBounds(a: nat, d: nat)
    requires d > 0
    ensures 0 <= a / d <= a
    ensures d > 1 && a > 0 ==> 2 * (a / d) <= a
  {
    DivMod(a, d);
    var q := a / d;
    MulNonNegative(q, d - 1);
    assert q * d == q * (d - 1) + q;
    if d > 1 {
      MulNonNegative(q, d - 2);
      assert q * d == q * (d - 2) + 2 * q;
    }
  }

  function Abs(x: int): nat { if x < 0 then -x else x }

  /** Signed division rounds towards zero. */
  function Quotient(a: int, b: int): int
    requires b != 0
  {
    if (a < 0) == (b < 0) then Abs(a) / Abs(b) else -(Abs(a) / Abs(b))
  }

  /** The remainder has the sign of the dividend. */
  function Remainder(a: int, b: int): int
    requires b != 0
  {
    if a < 0 then -(Abs(a) % Abs(b)) else Abs(a) % Abs(b)
  }

  /** `as u64` of a signed word: the sign is extended, also for the unsigned multiplications. */
  function Extended(a: u32): nat { Signed(a) % TWO_TO_THE_64 }

  /** Division by zero, and the one signed quotient that does not fit, panic. */
  predicate Divides(a: u32, b: u32) {
    b != 0 && !(a == INT_MIN && b == 0xffff_ffff)
  }

  function Eval(f: Function, a: u32, b: u32): Option<u32> {
    match f
    case Add | Addi | AuiPc | Jal | Jalr => Some(Wrap(a + b))
    case Sub => Some(Wrap(a - b))
    case Slt | Slti => Some(Bit(Signed(a) < Signed(b)))
    case Sltu | Sltiu => Some(Bit(a < b))
    case And | Andi => Some(BitAnd(a, b))
    case Or | Ori => Some(BitOr(a, b))
    case Xor | Xori => Some(BitXor(a, b))
    case Sll | Slli => Some(ShiftLeft(a, b))
    case Srl | Srli => Some(ShiftRight(a, b))
    case Sra | Srai => Some(ShiftRightArithmetic(a, b))
    case Lui => Some(b)
    case Beq => Some(Bit(a == b))
    case Bne => Some(Bit(a != b))
    case Blt => Some(Bit(Signed(a) < Signed(b)))
    case Bltu => Some(Bit(a < b))
    case Bge => Some(Bit(Signed(a) >= Signed(b)))
    case Bgeu => Some(Bit(a >= b))
    case Lb | Lbu | Lh | Lhu | Lw | Sb | Sh | Sw => Some(Wrap(a + b))
    case Mul => Some(Wrap(Signed(a) * Signed(b)))
    case Mulh => Some(Signed(a) * Signed(b) % TWO_TO_THE_64 / TWO_TO_THE_32)
    case Mulhu | Mulhsu => Some(Extended(a) * Extended(b) % TWO_TO_THE_64 / TWO_TO_THE_32)
    case Div => if Divides(a, b) then Some(Wrap(Quotient(Signed(a), Signed(b)))) else None
    case Divu => if b != 0 then Some(Wrap(a / b)) else None
    case Rem => if Divides(a, b) then Some(Wrap(Remainder(Signed(a), Signed(b)))) else None
    case Remu => if b != 0 then Some(Wrap(a % b)) else None
    case _ => Some(0)
  }

  /** The word an atomic stores, from the word it read and the word in rs2. */
  function AmoResult(f: Function, word: u32, x: u32): u32 {
    match f
    case Amoaddw => Wrap(word + x)
    case Amoandw => BitAnd(word, x)
    case Amoorw => BitOr(word, x)
    case Amoxorw => BitXor(word, x)
    case Amomaxuw => if word < x then x else word
    case Amomaxw => if Signed(word) < Signed(x) then x else word
    case Amominuw => if word < x then word else x
    case Amominw => if Signed(word) < Signed(x) then word else x
    case Amoswapw => x
    case _ => 0
  }

  // ---- Properties ----

  lemma ProductBounds(x: int, y: int)
    requires -0x8000_0000 <= x <= 0x8000_0000 && -0x8000_0000 <= y <= 0x8000_0000
    ensures -0x4000_0000_0000_0000 <= x * y <= 0x4000_0000_0000_0000
  {
    if x >= 0 {
      MulNonNegative(x, 0x8000_0000 - y);
      MulNonNegative(x, 0x8000_0000 + y);
      assert x * (0x8000_0000 - y) == x * 0x8000_0000 - x * y;
      assert x * (0x8000_0000 + y) == x * 0x8000_0000 + x * y;
    } else {
      MulNonNegative(-x, 0x8000_0000 - y);
      MulNonNegative(-x, 0x8000_0000 + y);
      assert -x * (0x8000_0000 - y) == -x * 0x8000_0000 + x * y;
      assert -x * (0x8000_0000 + y) == -x * 0x8000_0000 - x * y;
    }
  }

  /** The two 32-bit halves of a signed 64-bit number. */
  lemma Halves(p: int)
    requires -0x4000_0000_0000_0000 <= p <= 0x4000_0000_0000_0000
    ensures 0 <= p % TWO_TO_THE_64 / TWO_TO_THE_32 < TWO_TO_THE_32
    ensures Signed(p % TWO_TO_THE_64 / TWO_TO_THE_32) * TWO_TO_THE_32 + Wrap(p) == p
  {
    var m := p % TWO_TO_THE_64;
    assert m == p || m == p + TWO_TO_THE_64;
    assert m == m / TWO_TO_THE_32 * TWO_TO_THE_32 + m % TWO_TO_THE_32;
    assert m % TWO_TO_THE_32 == p % TWO_TO_THE_32;
  }

  /** MULH and MUL are the two halves of the full signed product. */
  lemma FullProduct(a: u32, b: u32)
    ensures Eval(Mulh, a, b).Some? && Eval(Mul, a, b).Some?
    ensures Signed(Eval(Mulh, a, b).value) * TWO_TO_THE_32 + Eval(Mul, a, b).value == Signed(a) * Signed(b)
  {
    ProductBounds(Signed(a), Signed(b));
    Halves(Signed(a) * Signed(b));
  }

  lemma TruncatedDivision(a: int, b: int)
    requires b != 0
    ensures Divided(a, b, Quotient(a, b), Remainder(a, b))
  {
    QuotientRemainder(a, b);
  }

  lemma DivisionFits(a: u32, b: u32)
    requires Divides(a, b)
    ensures Signed(Wrap(Quotient(Signed(a), Signed(b)))) == Quotient(Signed(a), Signed(b))
    ensures Signed(Wrap(Remainder(Signed(a), Signed(b)))) == Remainder(Signed(a), Signed(b))
  {
    QuotientBounds(Signed(a), Signed(b));
    SignedWrap(Quotient(Signed(a), Signed(b)));
    SignedWrap(Remainder(Signed(a), Signed(b)));
  }

  /** DIV and REM divide with a remainder that has the sign of the dividend and is smaller than
      the divisor: exactly when they do not panic. */
  lemma DivRem(a: u32, b: u32)
    ensures Eval(Div, a, b).Some? <==> b != 0 && !(Signed(a) == -0x8000_0000 && Signed(b) == -1)
    ensures Eval(Rem, a, b).Some? <==> Eval(Div, a, b).Some?
    ensures Eval(Div, a, b).Some? ==>
      Divided(Signed(a), Signed(b), Signed(Eval(Div, a, b).value), Signed(Eval(Rem, a, b).value))
  {
    if Divides(a, b) {
      TruncatedDivision(Signed(a), Signed(b));
      DivisionFits(a, b);
    }
  }

  lemma QuotientRemainder(a: int, b: int)
    requires b != 0
    ensures a == Quotient(a, b) * b + Remainder(a, b)
    ensures Abs(Remainder(a, b)) < Abs(b)
  {
    DivMod(Abs(a), Abs(b));
    var q := Abs(a) / Abs(b);
    assert -q * b == -(q * b) && q * -b == -(q * b) && -q * -b == q * b;
  }

  lemma QuotientBounds(a: int, b: int)
    requires b != 0 && -0x8000_0000 <= a < 0x8000_0000 && -0x8000_0000 <= b < 0x8000_0000
    requires !(a == -0x8000_0000 && b == -1)
    ensures -0x8000_0000 <= Quotient(a, b) < 0x8000_0000
    ensures -0x8000_0000 < Remainder(a, b) < 0x8000_0000
  {
    DivBounds(Abs(a), Abs(b));
    DivMod(Abs(a), Abs(b));
  }

  /** The unsigned pair. */
  lemma DivuRemu(a: u32, b: u32)
    ensures Eval(Divu, a, b).Some? <==> b != 0
    ensures Eval(Remu, a, b).Some? <==> b != 0
    ensures b != 0 ==>
      && a == Eval(Divu, a, b).value * b + Eval(Remu, a, b).value
      && Eval(Remu, a, b).value < b
  {
    if b != 0 {
      DivBounds(a, b);
      DivMod(a, b);
    }
  }

  lemma ModShift(p: int, k: int)
    ensures (p + TWO_TO_THE_64 * k) % TWO_TO_THE_64 == p % TWO_TO_THE_64
  {
  }

  /** The upper word of a 64-bit product. */
  function High(p: int): int { p % TWO_TO_THE_64 / TWO_TO_THE_32 }

  /** Adding 2^64 to a factor does not change a product modulo 2^64. */
  lemma ExtendFactor(x: int, y: int)
    ensures (x + TWO_TO_THE_64) * y % TWO_TO_THE_64 == x * y % TWO_TO_THE_64
  {
    assert (x + TWO_TO_THE_64) * y == x * y + TWO_TO_THE_64 * y;
    ModShift(x * y, y);
  }

  lemma ExtendedProduct(a: u32, b: u32)
    ensures Extended(a) * Extended(b) % TWO_TO_THE_64 == Signed(a) * Signed(b) % TWO_TO_THE_64
  {
    ExtendLeft(a, Extended(b));
    ExtendLeft(b, Signed(a));
    MulCommutes(Signed(a), Extended(b));
    MulCommutes(Signed(a), Signed(b));
  }

  lemma ExtendLeft(a: u32, y: int)
    ensures Extended(a) * y % TWO_TO_THE_64 == Signed(a) * y % TWO_TO_THE_64
  {
    if Signed(a) < 0 {
      assert Extended(a) == Signed(a) + TWO_TO_THE_64;
      ExtendFactor(Signed(a), y);
    } else {
      assert Extended(a) == Signed(a);
    }
  }

  lemma MulCommutes(x: int, y: int)
    ensures x * y == y * x
  {
  }

  /** Sign extension of both factors makes the unsigned high products the signed one. */
  lemma HighProductsAgree(a: u32, b: u32)
    ensures Eval(Mulhu, a, b) == Eval(Mulh, a, b)
    ensures Eval(Mulhsu, a, b) == Eval(Mulh, a, b)
  {
    ExtendedProduct(a, b);
  }

  /** The upper words of p and of p - 2^32 * d agree exactly when 2^32 divides d. */
  lemma HighDiffers(p: int, d: int)
    ensures High(p) == High(p - TWO_TO_THE_32 * d) <==> Wrap(d) == 0
  {
    var w, e := d % TWO_TO_THE_32, d / TWO_TO_THE_32;
    var m := p % TWO_TO_THE_64;
    var h, l := m / TWO_TO_THE_32, m % TWO_TO_THE_32;
    ModShift(p - TWO_TO_THE_32 * w, -e);
    var n := (p - TWO_TO_THE_32 * w) % TWO_TO_THE_64;
    assert n == (p - TWO_TO_THE_32 * d) % TWO_TO_THE_64;
    assert m == h * TWO_TO_THE_32 + l;
    if w <= h {
      assert n == (h - w) * TWO_TO_THE_32 + l;
    } else {
      assert n == (h - w + TWO_TO_THE_32) * TWO_TO_THE_32 + l;
    }
  }

  /** MULHU is not always the upper word of the unsigned product: it is exactly when the
      corrections the two sign extensions call for cancel. */
  lemma MulhuExact(a: u32, b: u32)
    ensures Eval(Mulhu, a, b) == Some(High(a * b)) <==>
      Wrap((if Signed(a) < 0 then b else 0) + (if Signed(b) < 0 then a else 0)) == 0
  {
    var x, y := Signed(a), Signed(b);
    var d := (if x < 0 then b else 0) + (if y < 0 then a else 0) - (if x < 0 && y < 0 then TWO_TO_THE_32 else 0);
    MulhuHigh(a, b);
    SignedProduct(a, b);
    HighDiffers(a * b, d);
    WrapKept((if x < 0 then b else 0) + (if y < 0 then a else 0));
  }

  lemma MulhuHigh(a: u32, b: u32)
    ensures Eval(Mulhu, a, b) == Some(High(Signed(a) * Signed(b))) == Eval(Mulhsu, a, b)
  {
    HighProductsAgree(a, b);
  }

  lemma WrapKept(d: int)
    ensures Wrap(d - TWO_TO_THE_32) == Wrap(d)
  {
  }

  lemma SignedProduct(a: u32, b: u32)
    ensures var x, y := Signed(a), Signed(b);
      x * y == a * b - TWO_TO_THE_32 *
        ((if x < 0 then b else 0) + (if y < 0 then a else 0) - (if x < 0 && y < 0 then TWO_TO_THE_32 else 0))
  {
    var x, y := Signed(a), Signed(b);
    var p := TWO_TO_THE_32;
    if x < 0 && y < 0 {
      assert (a - p) * (b - p) == a * b - p * b - p * a + p * p;
    } else if x < 0 {
      assert (a - p) * b == a * b - p * b;
    } else if y < 0 {
      assert a * (b - p) == a * b - p * a;
    }
  }

  lemma MulSub(x: int, b: int, y: int)
    requires y == b - TWO_TO_THE_32
    ensures x * y == x * b - TWO_TO_THE_32 * x
  {
  }

  /** The upper words of x * y and x * b, for a signed factor y and the same word b unsigned. */
  lemma HighFactor(x: int, b: u32)
    ensures High(x * Signed(b)) == High(x * b) <==> Signed(b) >= 0 || Wrap(x) == 0
  {
    if Signed(b) < 0 {
      MulSub(x, b, Signed(b));
      HighDiffers(x * b, x);
    }
  }

  lemma WrapSigned(a: u32)
    ensures Wrap(Signed(a)) == a
  {
  }

  /** MULHSU is the upper word of signed a times unsigned b exactly when b has its top bit clear or
      a is 0. */
  lemma MulhsuExact(a: u32, b: u32)
    ensures Eval(Mulhsu, a, b) == Some(High(Signed(a) * b)) <==> Signed(b) >= 0 || a == 0
  {
    MulhuHigh(a, b);
    HighFactor(Signed(a), b);
    WrapSigned(a);
  }

  /** Concretely, MULHU(2^32 - 1, 1) and MULHSU(1, 2^32 - 1) should be 0 and are 2^32 - 1. */
  lemma UnsignedHighFails()
    ensures High(0xffff_ffff * 1) == 0 && Eval(Mulhu, 0xffff_ffff, 1) == Some(0xffff_ffff)
    ensures High(1 * 0xffff_ffff) == 0 && Eval(Mulhsu, 1, 0xffff_ffff) == Some(0xffff_ffff)
  {
    MulhuHigh(0xffff_ffff, 1);
    MulhuHigh(1, 0xffff_ffff);
  }
}
