/** What loads, stores and atomics exchange with memory, byte by byte and without the conversions by which
    the functional units do it. */
module Accesses {
  import opened Words
  import opened Instructions
  import opened ByteMemory

  /** How many bytes an access reads or writes. */
  function Size(f: Function): nat {
    match f
    case Lb | Lbu | Sb => 1
    case Lh | Lhu | Sh => 2
    case _ => 4
  }

  function Number2(b0: int, b1: int): int { b0 + 0x100 * b1 }

  function Number4(b0: int, b1: int, b2: int, b3: int): int {
    b0 + 0x100 * b1 + 0x1_0000 * b2 + 0x100_0000 * b3
  }

  /** `r` is what `f` loads when it reads the bytes `b`, the first at the lowest address: LB and LH extend the
      sign, LBU and LHU zeros, and everything else reads a word. */
  ghost predicate Loaded(f: Function, b: seq<u8>, r: u32) {
    match f
    case Lb => |b| == 1 && -0x80 <= Signed(r) < 0x80 && (Signed(r) - b[0]) % 0x100 == 0
    case Lbu => |b| == 1 && r == b[0]
    case Lh => |b| == 2 && -0x8000 <= Signed(r) < 0x8000 && (Signed(r) - Number2(b[0], b[1])) % 0x1_0000 == 0
    case Lhu => |b| == 2 && r == Number2(b[0], b[1])
    case _ => |b| == 4 && r == Number4(b[0], b[1], b[2], b[3])
  }

  /** The bytes `f` stores of `v`: the lowest 1, 2 or 4, the lowest first. */
  function BytesOf(f: Function, v: u32): seq<u8> {
    match f
    case Sb => [v % 0x100]
    case Sh => [v % 0x100, v / 0x100 % 0x100]
    case _ => [v % 0x100, v / 0x100 % 0x100, v / 0x1_0000 % 0x100, v / 0x100_0000]
  }

  lemma WidthIs(f: Function)
    ensures Width(f) == Size(f)
    ensures Size(f) == if IsByte(f) || f.Sb? then 1 else if IsHalf(f) || f.Sh? then 2 else 4
  {
  }

  lemma FromByte(b: seq<u8>)
    requires |b| == 1
    ensures FromBytes(b) == b[0]
  {
    assert b[1..] == [];
  }

  lemma FromTwo(b: seq<u8>)
    requires |b| == 2
    ensures FromBytes(b) == Number2(b[0], b[1])
  {
    FromByte(b[1..]);
  }

  lemma FromFour(b: seq<u8>)
    requires |b| == 4
    ensures FromBytes(b) == Number4(b[0], b[1], b[2], b[3])
  {
    FromTwo(b[2..]);
    assert b[1..][1..] == b[2..];
    assert FromBytes(b[1..]) == b[1] + 0x100 * FromBytes(b[2..]);
  }

  predicate IsByte(f: Function) { f.Lb? || f.Lbu? }
  predicate IsHalf(f: Function) { f.Lh? || f.Lhu? }

  lemma LoadedByte(f: Function, b: seq<u8>)
    requires |b| == 1 && IsByte(f)
    ensures Loaded(f, b, Extend(f, FromBytes(b)))
  {
    FromByte(b);
  }

  lemma LoadedHalf(f: Function, b: seq<u8>)
    requires |b| == 2 && IsHalf(f)
    ensures Loaded(f, b, Extend(f, FromBytes(b)))
  {
    FromTwo(b);
  }

  lemma WordFits(b: seq<u8>)
    requires |b| == 4
    ensures FromBytes(b) == Number4(b[0], b[1], b[2], b[3]) == Wrap(FromBytes(b))
  {
    FromFour(b);
  }

  lemma ExtendWord(f: Function, v: int)
    requires !IsByte(f) && !IsHalf(f)
    ensures Extend(f, v) == Wrap(v)
  {
  }

  lemma LoadedIsWord(f: Function, b: seq<u8>, r: u32)
    requires !IsByte(f) && !IsHalf(f) && |b| == 4 && r == Number4(b[0], b[1], b[2], b[3])
    ensures Loaded(f, b, r)
  {
  }

  lemma LoadedWord(f: Function, b: seq<u8>)
    requires !IsByte(f) && !IsHalf(f) && |b| == 4
    ensures Loaded(f, b, Extend(f, FromBytes(b)))
  {
    WordFits(b);
    ExtendWord(f, FromBytes(b));
    LoadedIsWord(f, b, FromBytes(b));
  }

  /** A load reads the bytes of its size and returns their number, extended as its name says. */
  lemma LoadMeets(f: Function, m: Mem, a: u32)
    requires !IsStore(f)
    ensures LoadFrom(f, m, a).Err? <==> ReadBytes(m, a, Size(f)).Err?
    ensures LoadFrom(f, m, a).Err? ==> LoadFrom(f, m, a).error == ReadBytes(m, a, Size(f)).error
    ensures LoadFrom(f, m, a).Ok? ==> Loaded(f, ReadBytes(m, a, Size(f)).value, LoadFrom(f, m, a).value)
  {
    WidthIs(f);
    if ReadBytes(m, a, Size(f)).Ok? {
      var b := ReadBytes(m, a, Size(f)).value;
      if IsByte(f) { LoadedByte(f, b); } else if IsHalf(f) { LoadedHalf(f, b); } else { LoadedWord(f, b); }
    }
  }

  lemma ToOne(v: int)
    ensures ToBytes(v, 1) == [v % 0x100]
  {
    assert ToBytes(v / 0x100, 0) == [];
  }

  lemma ToTwo(v: int)
    ensures ToBytes(v, 2) == [v % 0x100, v / 0x100 % 0x100]
  {
    ToOne(v / 0x100);
  }

  lemma Shifted(v: u32)
    ensures v / 0x100 / 0x100 == v / 0x1_0000 && v / 0x1_0000 / 0x100 == v / 0x100_0000
    ensures v / 0x100_0000 % 0x100 == v / 0x100_0000
  {
  }

  lemma ToFour(v: u32)
    ensures ToBytes(v, 4) == [v % 0x100, v / 0x100 % 0x100, v / 0x1_0000 % 0x100, v / 0x100_0000]
  {
    Shifted(v);
    ToTwo(v / 0x1_0000);
    var k := 3;
    assert ToBytes(v / 0x100, k) == [v / 0x100 % 0x100] + ToBytes(v / 0x1_0000, 2);
  }

  /** A store writes the lowest bytes of its word, the lowest at the lowest address. */
  lemma StoreMeets(f: Function, m: Mem, a: u32, v: u32)
    requires !IsLoad(f)
    ensures StoreTo(f, m, a, v) == WriteBytes(m, a, BytesOf(f, v))
  {
    WidthIs(f);
    ToOne(v);
    ToTwo(v);
    ToFour(v);
  }

  /** What a load returns is determined by the bytes it reads. */
  lemma LoadedOne(f: Function, b: seq<u8>, r: u32, q: u32)
    requires Loaded(f, b, r) && Loaded(f, b, q)
    ensures r == q
  {
    if IsByte(f) { assert Signed(r) == Signed(q); }
    else if IsHalf(f) { assert Signed(r) == Signed(q); }
    else { assert r == Number4(b[0], b[1], b[2], b[3]); }
  }
}
