/** Machine words, and the option, result and fault types every other module uses. */
module Words {

  const TWO_TO_THE_32: int := 0x1_0000_0000
  const WORD_SIZE: u32 := 4

  type u8 = x: int | 0 <= x < 0x100
  type u32 = x: int | 0 <= x < TWO_TO_THE_32

  /** An index into the register file. */
  type Reg = r: int | 0 <= r < 32

  /** The contents of the 32 general purpose registers. */
  type Regs = s: seq<u32> | |s| == 32 witness seq(32, _ => 0)

  datatype Option<+T> = None | Some(value: T) {
    function GetOr(default: T): T {
      if Some? then value else default
    }
  }

  datatype Result<+T, +E> = Ok(value: T) | Err(error: E)

  datatype Exception =
    | WritingToInvalidMemory(address: u32)
    | WritingToReadOnlyMemory(address: u32)
    | SyscallNotImpl(number: u32)
    | FailCallingSyscall(number: u32)

  /** Why a computation stops: an exception the source reports in a `Result`, a slice index
      out of bounds, or a division the host language refuses. */
  datatype Fault = Trap(exception: Exception) | SliceIndex | DivideFault

  /** Reduction modulo 2^32: what `wrapping_add` and a truncating cast keep. */
  function Wrap(x: int): u32 {
    x % TWO_TO_THE_32
  }

  /** A word read as a two's complement number (`as i32`). */
  function Signed(x: u32): int {
    if x < 0x8000_0000 then x else x - TWO_TO_THE_32
  }

  /** Equal modulo 2^32. */
  predicate Congruent(x: int, y: int) {
    (x - y) % TWO_TO_THE_32 == 0
  }

  /** 2^n */
  function Pow2(n: nat): (p: nat)
    ensures p > 0
  {
    if n == 0 then 1 else 2 * Pow2(n - 1)
  }

  /** Bit `k` of a number. */
  predicate BitAt(x: nat, k: nat)
    decreases k
  {
    if k == 0 then x % 2 == 1 else BitAt(x / 2, k - 1)
  }

  /** The two's complement number of a word is the one congruent to it in the signed range. */
  lemma SignedExactly(x: u32, v: int)
    ensures v == Signed(x) <==> -0x8000_0000 <= v < 0x8000_0000 && Congruent(v, x)
  {
  }

  lemma SignedWrap(v: int)
    requires -0x8000_0000 <= v < 0x8000_0000
    ensures Signed(Wrap(v)) == v
  {
  }

  /** `q` is x / p rounded down. */
  ghost predicate Floors(q: int, x: int, p: nat) {
    q * p <= x < (q + 1) * p
  }

  /** `q` is a / b rounded towards zero, and `r` the remainder. */
  ghost predicate Divided(a: int, b: int, q: int, r: int) {
    a == q * b + r && (if r < 0 then -r else r) < (if b < 0 then -b else b) && (r != 0 ==> (r < 0) == (a < 0))
  }
}
