/** What the operations of the instructions mean, as relations between operands and results: told apart
    from the functions by which the functional units compute them, which are proved to meet them. */
module Operations {
  import opened Words
  import opened Instructions
  import opened Alu

  // ---- Arithmetic ----

  /** Bit by bit. */
  predicate IsAnd(r: u32, a: u32, b: u32) {
    forall k :: 0 <= k < 32 ==> (BitAt(r, k) <==> BitAt(a, k) && BitAt(b, k))
  }

  predicate IsOr(r: u32, a: u32, b: u32) {
    forall k :: 0 <= k < 32 ==> (BitAt(r, k) <==> BitAt(a, k) || BitAt(b, k))
  }

  predicate IsXor(r: u32, a: u32, b: u32) {
    forall k :: 0 <= k < 32 ==> (BitAt(r, k) <==> BitAt(a, k) != BitAt(b, k))
  }

  /** `r` is the result of `f` on the words `a` and `b`. MULHU and MULHSU are as they are computed, which is
      not as the standard has them: see MulhuExact and MulhsuExact in Alu.dfy. */
  ghost predicate Gives(f: Function, a: u32, b: u32, r: u32) {
    match f
    case Add | Addi | AuiPc | Jal | Jalr => Congruent(r, a + b)
    case Sub => Congruent(r, a - b)
    case Slt | Slti | Blt => r == if Signed(a) < Signed(b) then 1 else 0
    case Sltu | Sltiu | Bltu => r == if a < b then 1 else 0
    case Bge => r == if Signed(a) >= Signed(b) then 1 else 0
    case Bgeu => r == if a >= b then 1 else 0
    case Beq => r == if a == b then 1 else 0
    case Bne => r == if a != b then 1 else 0
    case And | Andi => IsAnd(r, a, b)
    case Or | Ori => IsOr(r, a, b)
    case Xor | Xori => IsXor(r, a, b)
    case Sll | Slli => Congruent(r, a * Pow2(b % 32))
    case Srl | Srli => Floors(r, a, Pow2(b % 32))
    case Sra | Srai => Floors(Signed(r), Signed(a), Pow2(b % 32))
    case Lui => r == b
    case Mul => Congruent(r, Signed(a) * Signed(b))
    case Mulh | Mulhu | Mulhsu => Floors(Signed(r), Signed(a) * Signed(b), TWO_TO_THE_32)
    case Div => exists m :: Divided(Signed(a), Signed(b), Signed(r), m)
    case Rem => exists q :: Divided(Signed(a), Signed(b), q, Signed(r))
    case Divu => exists m :: Divided(a, b, r, m)
    case Remu => exists q :: Divided(a, b, q, r)
    case Lb | Lbu | Lh | Lhu | Lw | Sb | Sh | Sw => Congruent(r, a + b)
    case _ => r == 0
  }

  /** The operation has no result: a division by zero, or the signed quotient that does not fit. */
  predicate NoResult(f: Function, a: u32, b: u32) {
    || (f in {Div, Rem, Divu, Remu} && b == 0)
    || (f in {Div, Rem} && Signed(a) == -0x8000_0000 && Signed(b) == -1)
  }

  /** A quotient is the only number that leaves a remainder below the divisor. */
  lemma Division(x: int, d: nat, q: int, r: int)
    requires d > 0 && x == q * d + r && 0 <= r < d
    ensures x / d == q && x % d == r
  {
    var p, s := x / d, x % d;
    assert x == p * d + s;
    if p < q { assert (q - p) * d >= d by { assert q - p >= 1; MulNonNegative(q - p - 1, d); } }
    if p > q { assert (p - q) * d >= d by { MulNonNegative(p - q - 1, d); } }
  }

  lemma Remaining(x: int, d: nat)
    requires d > 0
    ensures x == x / d * d + x % d && 0 <= x % d < d
  {
  }

  lemma HalfThenRest(x: nat, p: nat)
    requires p > 0
    ensures x / (2 * p) == x / 2 / p
  {
    var q, r := x / 2 / p, x / 2 % p;
    Remaining(x / 2, p);
    assert x == q * (2 * p) + (2 * r + x % 2);
    Division(x, 2 * p, q, 2 * r + x % 2);
  }

  /** A bit is that of the quotient by a power of two. */
  lemma {:induction false} BitAtIs(x: nat, k: nat)
    ensures BitAt(x, k) <==> x / Pow2(k) % 2 == 1
    decreases k
  {
    if k > 0 {
      BitAtIs(x / 2, k - 1);
      HalfThenRest(x, Pow2(k - 1));
    } else {
      assert Pow2(0) == 1;
    }
  }

  /** Bits of a bitwise operation. */
  lemma {:induction false} BitwiseBit(op: (bool, bool) -> bool, a: nat, b: nat, n: nat, k: nat)
    requires k < n
    ensures BitAt(Bitwise(op, a, b, n), k) <==> op(BitAt(a, k), BitAt(b, k))
    decreases n
  {
    if k > 0 {
      BitwiseBit(op, a / 2, b / 2, n - 1, k - 1);
      assert Bitwise(op, a, b, n) / 2 == Bitwise(op, a / 2, b / 2, n - 1);
    }
  }

  lemma BitwiseBits(a: u32, b: u32)
    ensures IsAnd(BitAnd(a, b), a, b) && IsOr(BitOr(a, b), a, b) && IsXor(BitXor(a, b), a, b)
  {
    forall k | 0 <= k < 32
      ensures BitAt(BitAnd(a, b), k) <==> BitAt(a, k) && BitAt(b, k)
      ensures BitAt(BitOr(a, b), k) <==> BitAt(a, k) || BitAt(b, k)
      ensures BitAt(BitXor(a, b), k) <==> BitAt(a, k) != BitAt(b, k)
    {
      BitwiseBit((x, y) => x && y, a, b, 32, k);
      BitwiseBit((x, y) => x || y, a, b, 32, k);
      BitwiseBit((x, y) => x != y, a, b, 32, k);
    }
  }

  lemma LeftShift(a: u32, n: u32)
    ensures Congruent(ShiftLeft(a, n), a * Pow2(n % 32))
  {
    var x := a * Pow2(n % 32);
    assert x == TWO_TO_THE_32 * (x / TWO_TO_THE_32) + Wrap(x);
  }

  lemma RightShift(a: u32, n: u32)
    ensures Floors(ShiftRight(a, n), a, Pow2(n % 32))
  {
    Remaining(a, Pow2(n % 32));
  }

  lemma ArithmeticShift(a: u32, n: u32)
    ensures Floors(Signed(ShiftRightArithmetic(a, n)), Signed(a), Pow2(n % 32))
  {
    Remaining(Signed(a), Pow2(n % 32));
    FloorFits(Signed(a), Pow2(n % 32));
    SignedWrap(Signed(a) / Pow2(n % 32));
  }

  /** Flooring a signed word by a positive number gives a signed word. */
  lemma FloorFits(x: int, d: nat)
    requires d > 0 && -0x8000_0000 <= x < 0x8000_0000
    ensures -0x8000_0000 <= x / d < 0x8000_0000
  {
    var q := x / d;
    Remaining(x, d);
    if q >= 0 {
      MulNonNegative(q, d - 1);
      assert q * d == q * (d - 1) + q;
    } else {
      MulNonNegative(-1 - q, d - 1);
      var k: int := d;
      assert (-1 - q) * (k - 1) == -k + 1 - q * k + q;
    }
  }

  lemma LowHalf(a: u32, b: u32)
    ensures Eval(Mul, a, b).Some? && Congruent(Eval(Mul, a, b).value, Signed(a) * Signed(b))
  {
    var p := Signed(a) * Signed(b);
    assert p == TWO_TO_THE_32 * (p / TWO_TO_THE_32) + Wrap(p);
  }

  lemma HighHalf(a: u32, b: u32)
    ensures Eval(Mulh, a, b).Some? && Floors(Signed(Eval(Mulh, a, b).value), Signed(a) * Signed(b), TWO_TO_THE_32)
    ensures Eval(Mulhu, a, b) == Eval(Mulhsu, a, b) == Eval(Mulh, a, b)
  {
    FullProduct(a, b);
    HighProductsAgree(a, b);
  }

  lemma UnsignedDivision(a: u32, b: u32)
    ensures Eval(Divu, a, b).Some? <==> b != 0
    ensures Eval(Remu, a, b).Some? <==> b != 0
    ensures b != 0 ==> Divided(a, b, Eval(Divu, a, b).value, Eval(Remu, a, b).value)
  {
    DivuRemu(a, b);
  }

  predicate IsMultiplication(f: Function) { f.Mul? || f.Mulh? || f.Mulhu? || f.Mulhsu? }
  predicate IsShift(f: Function) { f.Sll? || f.Slli? || f.Srl? || f.Srli? || f.Sra? || f.Srai? }
  predicate IsBitwise(f: Function) { f.And? || f.Andi? || f.Or? || f.Ori? || f.Xor? || f.Xori? }

  /** The arithmetic unit computes what `f` means on `a` and `b`, and panics if that is nothing. */
  ghost predicate Meets(f: Function, a: u32, b: u32) {
    && (Eval(f, a, b).None? <==> NoResult(f, a, b))
    && (Eval(f, a, b).Some? ==> Gives(f, a, b, Eval(f, a, b).value))
  }

  lemma ShiftMeets(f: Function, a: u32, b: u32)
    requires IsShift(f)
    ensures Meets(f, a, b)
  {
    LeftShift(a, b);
    RightShift(a, b);
    ArithmeticShift(a, b);
  }

  lemma ProductMeets(f: Function, a: u32, b: u32)
    requires IsMultiplication(f)
    ensures Meets(f, a, b)
  {
    LowHalf(a, b);
    HighHalf(a, b);
  }

  lemma DivisionMeets(f: Function, a: u32, b: u32)
    requires f.Div? || f.Rem?
    ensures Meets(f, a, b)
  {
    DivRem(a, b);
    if f.Div? { assert Eval(Div, a, b).Some? ==> Gives(Div, a, b, Eval(Div, a, b).value); }
    if f.Rem? { assert Eval(Rem, a, b).Some? ==> Gives(Rem, a, b, Eval(Rem, a, b).value); }
  }

  lemma UnsignedMeets(f: Function, a: u32, b: u32)
    requires f.Divu? || f.Remu?
    ensures Meets(f, a, b)
  {
    UnsignedDivision(a, b);
  }

  lemma AndMeets(f: Function, a: u32, b: u32)
    requires f.And? || f.Andi?
    ensures Meets(f, a, b)
  {
    BitwiseBits(a, b);
  }

  lemma OrMeets(f: Function, a: u32, b: u32)
    requires f.Or? || f.Ori?
    ensures Meets(f, a, b)
  {
    BitwiseBits(a, b);
  }

  lemma XorMeets(f: Function, a: u32, b: u32)
    requires f.Xor? || f.Xori?
    ensures Meets(f, a, b)
  {
    BitwiseBits(a, b);
  }

  predicate IsAddition(f: Function) { f.Add? || f.Addi? || f.AuiPc? || f.Jal? || f.Jalr? }

  /** The operations that add, and the accesses, whose sum nobody reads. */
  predicate IsSum(f: Function) { IsAddition(f) || f.Sub? || IsLoad(f) || IsStore(f) }

  lemma Wrapped(x: int)
    ensures Congruent(Wrap(x), x)
  {
  }

  lemma AdditionMeets(f: Function, a: u32, b: u32)
    requires IsAddition(f) || f.Sub?
    ensures Meets(f, a, b)
  {
    Wrapped(if f.Sub? then a - b else a + b);
  }

  lemma AccessMeets(f: Function, a: u32, b: u32)
    requires IsLoad(f) || IsStore(f)
    ensures Meets(f, a, b)
  {
    Wrapped(a + b);
  }

  lemma BranchMeets(f: Function, a: u32, b: u32)
    requires IsBranch(f)
    ensures Meets(f, a, b)
  {
  }

  lemma SimpleMeets(f: Function, a: u32, b: u32)
    requires !IsShift(f) && !IsMultiplication(f) && !IsDivision(f) && !IsBitwise(f) && !IsSum(f) && !IsBranch(f)
    ensures Meets(f, a, b)
  {
  }

  /** The arithmetic unit computes what the operations mean, and panics exactly where one has no result. */
  lemma EvalMeets(f: Function, a: u32, b: u32)
    ensures Meets(f, a, b)
  {
    if f.And? || f.Andi? { AndMeets(f, a, b); }
    else if f.Or? || f.Ori? { OrMeets(f, a, b); }
    else if f.Xor? || f.Xori? { XorMeets(f, a, b); }
    else if IsShift(f) { ShiftMeets(f, a, b); }
    else if IsMultiplication(f) { ProductMeets(f, a, b); }
    else if f.Div? || f.Rem? { DivisionMeets(f, a, b); }
    else if f.Divu? || f.Remu? { UnsignedMeets(f, a, b); }
    else if IsAddition(f) || f.Sub? { AdditionMeets(f, a, b); }
    else if IsLoad(f) || IsStore(f) { AccessMeets(f, a, b); }
    else if IsBranch(f) { BranchMeets(f, a, b); }
    else { SimpleMeets(f, a, b); }
  }

  // ---- Atomics ----

  /** `r` is the word that atomic `f` stores, having read `word`, rs2 being `x`. */
  ghost predicate Combined(f: Function, word: u32, x: u32, r: u32) {
    match f
    case Amoswapw => r == x
    case Amoaddw => Congruent(r, word + x)
    case Amoandw => IsAnd(r, word, x)
    case Amoorw => IsOr(r, word, x)
    case Amoxorw => IsXor(r, word, x)
    case Amomaxw => (r == word || r == x) && Signed(r) >= Signed(word) && Signed(r) >= Signed(x)
    case Amominw => (r == word || r == x) && Signed(r) <= Signed(word) && Signed(r) <= Signed(x)
    case Amomaxuw => (r == word || r == x) && r >= word && r >= x
    case Amominuw => (r == word || r == x) && r <= word && r <= x
    case _ => true
  }

  /** What an atomic stores is what its name says. */
  lemma AmoMeets(f: Function, word: u32, x: u32)
    ensures Combined(f, word, x, AmoResult(f, word, x))
  {
    if f.Amoandw? { BitwiseBits(word, x); }
    if f.Amoorw? { BitwiseBits(word, x); }
    if f.Amoxorw? { BitwiseBits(word, x); }
  }

  // ---- The meanings leave no choice ----

  /** A word is determined modulo 2^32. */
  lemma OneWord(x: int, r: u32, q: u32)
    requires Congruent(r, x) && Congruent(q, x)
    ensures r == q
  {
    assert r == Wrap(x) && q == Wrap(x);
  }

  /** A number is determined by its bits. */
  lemma {:induction false} OneNumber(r: nat, q: nat, n: nat)
    requires r < Pow2(n) && q < Pow2(n)
    requires forall k :: 0 <= k < n ==> (BitAt(r, k) <==> BitAt(q, k))
    ensures r == q
    decreases n
  {
    if n > 0 {
      assert BitAt(r, 0) <==> BitAt(q, 0);
      forall k | 0 <= k < n - 1 ensures BitAt(r / 2, k) <==> BitAt(q / 2, k) {
        assert BitAt(r, k + 1) <==> BitAt(q, k + 1);
      }
      OneNumber(r / 2, q / 2, n - 1);
    }
  }

  predicate SameBits(r: u32, q: u32) {
    forall k :: 0 <= k < 32 ==> (BitAt(r, k) <==> BitAt(q, k))
  }

  lemma OneOfBits(r: u32, q: u32)
    requires SameBits(r, q)
    ensures r == q
  {
    Pow2Word();
    OneNumber(r, q, 32);
  }

  lemma OneBitwise(a: u32, b: u32, r: u32, q: u32)
    requires (IsAnd(r, a, b) && IsAnd(q, a, b)) || (IsOr(r, a, b) && IsOr(q, a, b)) || (IsXor(r, a, b) && IsXor(q, a, b))
    ensures r == q
  {
    OneOfBits(r, q);
  }

  /** A floor is unique. */
  lemma OneFloor(x: int, p: nat, r: int, q: int)
    requires p > 0 && Floors(r, x, p) && Floors(q, x, p)
    ensures r == q
  {
    if r < q { MulNonNegative(q - r - 1, p); }
    if q < r { MulNonNegative(r - q - 1, p); }
  }

  lemma OneSigned(r: u32, q: u32)
    requires Signed(r) == Signed(q)
    ensures r == q
  {
  }

  /** A multiple other than 0 is as large as the number. */
  lemma Multiple(d: int, b: int)
    requires d != 0 && b != 0
    ensures Abs(d * b) >= Abs(b)
  {
    MulNonNegative(Abs(d) - 1, Abs(b));
    assert (Abs(d) - 1) * Abs(b) == Abs(d) * Abs(b) - Abs(b);
    assert d * b == Abs(d) * Abs(b) || d * b == -(Abs(d) * Abs(b));
  }

  /** Quotient and remainder are unique. */
  lemma OneDivision(a: int, b: int, r: int, m: int, q: int, n: int)
    requires b != 0 && Divided(a, b, r, m) && Divided(a, b, q, n)
    ensures r == q && m == n
  {
    assert (r - q) * b == n - m;
    if r != q { Multiple(r - q, b); }
  }

  lemma OneSignedDivision(f: Function, a: u32, b: u32, r: u32, q: u32)
    requires (f.Div? || f.Rem?) && b != 0 && Gives(f, a, b, r) && Gives(f, a, b, q)
    ensures r == q
  {
    if f.Div? {
      var m: int :| Divided(Signed(a), Signed(b), Signed(r), m);
      var n: int :| Divided(Signed(a), Signed(b), Signed(q), n);
      OneDivision(Signed(a), Signed(b), Signed(r), m, Signed(q), n);
    } else {
      var m: int :| Divided(Signed(a), Signed(b), m, Signed(r));
      var n: int :| Divided(Signed(a), Signed(b), n, Signed(q));
      OneDivision(Signed(a), Signed(b), m, Signed(r), n, Signed(q));
    }
    OneSigned(r, q);
  }

  lemma OneUnsignedDivision(f: Function, a: u32, b: u32, r: u32, q: u32)
    requires (f.Divu? || f.Remu?) && b != 0 && Gives(f, a, b, r) && Gives(f, a, b, q)
    ensures r == q
  {
    if f.Divu? {
      var m: int :| Divided(a, b, r, m);
      var n: int :| Divided(a, b, q, n);
      OneDivision(a, b, r, m, q, n);
    } else {
      var m: int :| Divided(a, b, m, r);
      var n: int :| Divided(a, b, n, q);
      OneDivision(a, b, m, r, n, q);
    }
  }

  lemma OneProduct(f: Function, a: u32, b: u32, r: u32, q: u32)
    requires IsMultiplication(f) && Gives(f, a, b, r) && Gives(f, a, b, q)
    ensures r == q
  {
    var p := Signed(a) * Signed(b);
    if f.Mul? {
      OneWord(p, r, q);
    } else {
      OneFloor(p, TWO_TO_THE_32, Signed(r), Signed(q));
      OneSigned(r, q);
    }
  }

  lemma OneShift(f: Function, a: u32, b: u32, r: u32, q: u32)
    requires IsShift(f) && Gives(f, a, b, r) && Gives(f, a, b, q)
    ensures r == q
  {
    var p := Pow2(b % 32);
    if f.Sll? || f.Slli? {
      OneWord(a * p, r, q);
    } else if f.Srl? || f.Srli? {
      OneFloor(a, p, r, q);
    } else {
      OneFloor(Signed(a), p, Signed(r), Signed(q));
      OneSigned(r, q);
    }
  }

  lemma OneSum(f: Function, a: u32, b: u32, r: u32, q: u32)
    requires IsSum(f) && Gives(f, a, b, r) && Gives(f, a, b, q)
    ensures r == q
  {
    OneWord(if f.Sub? then a - b else a + b, r, q);
  }

  lemma OneSimple(f: Function, a: u32, b: u32, r: u32, q: u32)
    requires !IsShift(f) && !IsMultiplication(f) && !IsDivision(f) && !IsBitwise(f) && !IsSum(f)
    requires Gives(f, a, b, r) && Gives(f, a, b, q)
    ensures r == q
  {
  }

  /** The result of an operation, if it has one, is unique. */
  lemma GivesOne(f: Function, a: u32, b: u32, r: u32, q: u32)
    requires Gives(f, a, b, r) && Gives(f, a, b, q) && !NoResult(f, a, b)
    ensures r == q
  {
    if IsBitwise(f) { OneBitwise(a, b, r, q); }
    else if IsShift(f) { OneShift(f, a, b, r, q); }
    else if IsMultiplication(f) { OneProduct(f, a, b, r, q); }
    else if f.Div? || f.Rem? { OneSignedDivision(f, a, b, r, q); }
    else if f.Divu? || f.Remu? { OneUnsignedDivision(f, a, b, r, q); }
    else if IsSum(f) { OneSum(f, a, b, r, q); }
    else { OneSimple(f, a, b, r, q); }
  }

  /** So is what an atomic stores. */
  lemma CombinedOne(f: Function, word: u32, x: u32, r: u32, q: u32)
    requires IsAmo(f) && !f.Lrw? && !f.Scw? && Combined(f, word, x, r) && Combined(f, word, x, q)
    ensures r == q
  {
    if f.Amoandw? || f.Amoorw? || f.Amoxorw? { OneBitwise(word, x, r, q); }
  }
}
