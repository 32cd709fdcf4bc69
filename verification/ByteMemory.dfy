/** The process memory (src/memory/mod.rs): a data segment and a stack, each a byte vector. */
module ByteMemory {
  import opened Words
  import opened Instructions

  /** `vRange`, `readOnly` and `stackLo` are the source's `v_address_range`, `read_only_range` and
      `stack_range.0`; the upper end of the stack range is address 0 and is never read. */
  datatype Mem = Mem(vRange: (u32, u32), readOnly: (u32, u32), stackLo: u32, data: seq<u8>, stack: seq<u8>)

  function CheckAddress(m: Mem, a: u32): Option<Exception> {
    if a < m.vRange.0 || (a >= m.vRange.1 && a < m.stackLo)
    then Some(WritingToInvalidMemory(a))
    else None
  }

  function CheckWrite(m: Mem, a: u32): Option<Exception> {
    if m.readOnly.0 <= a < m.readOnly.1 then Some(WritingToReadOnlyMemory(a)) else None
  }

  function Buffer(m: Mem, a: u32): seq<u8> {
    if a < m.stackLo then m.data else m.stack
  }

  function Offset(m: Mem, a: u32): int {
    if a < m.stackLo then a - m.vRange.0 else a - m.stackLo
  }

  function ReadBytes(m: Mem, a: u32, size: nat): (r: Result<seq<u8>, Fault>)
    ensures r.Ok? ==> |r.value| == size
  {
    match CheckAddress(m, a)
    case Some(e) => Err(Trap(e))
    case None =>
      var o := Offset(m, a);
      if o + size <= |Buffer(m, a)| then Ok(Buffer(m, a)[o..o + size]) else Err(SliceIndex)
  }

  function Splice(b: seq<u8>, o: nat, bytes: seq<u8>): (r: seq<u8>)
    requires o + |bytes| <= |b|
    ensures |r| == |b|
    ensures forall k :: 0 <= k < |b| ==> r[k] == if o <= k < o + |bytes| then bytes[k - o] else b[k]
  {
    b[..o] + bytes + b[o + |bytes|..]
  }

  function WriteBytes(m: Mem, a: u32, bytes: seq<u8>): Result<Mem, Fault> {
    match CheckAddress(m, a)
    case Some(e) => Err(Trap(e))
    case None =>
      match CheckWrite(m, a)
      case Some(e) => Err(Trap(e))
      case None =>
        var o := Offset(m, a);
        if o + |bytes| > |Buffer(m, a)| then Err(SliceIndex)
        else if a < m.stackLo then Ok(m.(data := Splice(m.data, o, bytes)))
        else Ok(m.(stack := Splice(m.stack, o, bytes)))
  }

  // ---- Values in memory: little-endian, as on the hosts the program supports ----

  function ToBytes(v: int, n: nat): (r: seq<u8>)
    ensures |r| == n
    decreases n
  {
    if n == 0 then [] else [v % 0x100] + ToBytes(v / 0x100, n - 1)
  }

  function FromBytes(b: seq<u8>): nat {
    if b == [] then 0 else b[0] + 0x100 * FromBytes(b[1..])
  }

  /** The number of bytes a load, store or atomic accesses. */
  function Width(f: Function): (w: nat)
    ensures 1 <= w <= 4
  {
    match f
    case Lb | Lbu | Sb => 1
    case Lh | Lhu | Sh => 2
    case _ => 4
  }

  /** `as u32` of the value a load reads: the signed narrow loads extend the sign. */
  function Extend(f: Function, v: int): u32 {
    match f
    case Lb => if v % 0x100 < 0x80 then v % 0x100 else v % 0x100 + 0xffff_ff00
    case Lh => if v % 0x1_0000 < 0x8000 then v % 0x1_0000 else v % 0x1_0000 + 0xffff_0000
    case _ => Wrap(v)
  }

  /** What `MemoryUnit::execute` reads for a load or an atomic. */
  function LoadFrom(f: Function, m: Mem, a: u32): Result<u32, Fault> {
    match ReadBytes(m, a, Width(f))
    case Err(e) => Err(e)
    case Ok(b) => Ok(Extend(f, FromBytes(b)))
  }

  /** What `MemoryUnit::execute_store` writes for a store or an atomic. */
  function StoreTo(f: Function, m: Mem, a: u32, v: u32): Result<Mem, Fault> {
    WriteBytes(m, a, ToBytes(v, Width(f)))
  }

  ghost predicate Disjoint(a: u32, w: nat, b: u32, v: nat) {
    a + w <= b || b + v <= a
  }

  // ---- Properties ----

  /** Reading bytes that a write does not touch gives what was there, in either segment. */
  lemma ReadOtherBytes(m: Mem, b: u32, bytes: seq<u8>, a: u32, size: nat)
    requires WriteBytes(m, b, bytes).Ok? && Disjoint(a, size, b, |bytes|)
    ensures ReadBytes(WriteBytes(m, b, bytes).value, a, size) == ReadBytes(m, a, size)
  {
    var m' := WriteBytes(m, b, bytes).value;
    assert CheckAddress(m', a) == CheckAddress(m, a) && Offset(m', a) == Offset(m, a);
    if ReadBytes(m, a, size).Ok? {
      var o := Offset(m, a);
      assert Buffer(m', a)[o..o + size] == Buffer(m, a)[o..o + size];
    }
  }

  /** Reading the bytes just written gives them back. */
  lemma ReadBack(m: Mem, a: u32, bytes: seq<u8>)
    requires WriteBytes(m, a, bytes).Ok?
    ensures ReadBytes(WriteBytes(m, a, bytes).value, a, |bytes|) == Ok(bytes)
  {
    var m' := WriteBytes(m, a, bytes).value;
    var o := Offset(m, a);
    assert Buffer(m', a)[o..o + |bytes|] == bytes;
  }

  /** The addresses of `n` bytes from `a` on are mapped, and belong to one segment. */
  ghost predicate OneSegment(m: Mem, a: u32, n: nat) {
    && a + n <= TWO_TO_THE_32
    && forall x: u32 :: a <= x < a + n ==> CheckAddress(m, x).None? && (x < m.stackLo <==> a < m.stackLo)
  }

  /** The bytes of a read are those at the addresses from `a` upwards. */
  lemma ReadByByte(m: Mem, a: u32, n: nat, k: nat)
    requires OneSegment(m, a, n) && k < n && ReadBytes(m, a, n).Ok?
    ensures ReadBytes(m, a + k, 1) == Ok([ReadBytes(m, a, n).value[k]])
  {
    var o, x := Offset(m, a), a + k;
    assert CheckAddress(m, x).None? && CheckAddress(m, a).None?;
    assert Offset(m, x) == o + k && Buffer(m, x) == Buffer(m, a);
    assert Buffer(m, a)[o + k..o + k + 1] == [Buffer(m, a)[o..o + n][k]];
  }

  /** Each byte of a write goes to its address. */
  lemma WriteByByte(m: Mem, a: u32, bytes: seq<u8>, k: nat)
    requires OneSegment(m, a, |bytes|) && k < |bytes| && WriteBytes(m, a, bytes).Ok?
    ensures ReadBytes(WriteBytes(m, a, bytes).value, a + k, 1) == Ok([bytes[k]])
  {
    var m' := WriteBytes(m, a, bytes).value;
    ReadBack(m, a, bytes);
    forall x: u32 | a <= x < a + |bytes|
      ensures CheckAddress(m', x).None? && (x < m'.stackLo <==> a < m'.stackLo)
    {
      assert CheckAddress(m, x).None?;
    }
    ReadByByte(m', a, |bytes|, k);
  }

  /** A read succeeds exactly when its address is mapped and its bytes stay in the segment. */
  lemma ReadOutcome(m: Mem, a: u32, n: nat)
    ensures ReadBytes(m, a, n).Ok? <==>
      (m.vRange.0 <= a < m.vRange.1 || (a >= m.stackLo && a >= m.vRange.0)) && Offset(m, a) + n <= |Buffer(m, a)|
    ensures ReadBytes(m, a, n).Err? ==>
      ReadBytes(m, a, n).error == if m.vRange.0 <= a < m.vRange.1 || (a >= m.stackLo && a >= m.vRange.0) then SliceIndex
                                  else Trap(WritingToInvalidMemory(a))
  {
  }

  /** A write is accepted exactly when its address is mapped and writable and its bytes stay in
      the segment; the failure says which check failed. */
  lemma WriteOutcome(m: Mem, a: u32, bytes: seq<u8>)
    ensures WriteBytes(m, a, bytes).Ok? <==>
      && (m.vRange.0 <= a < m.vRange.1 || (a >= m.stackLo && a >= m.vRange.0))
      && !(m.readOnly.0 <= a < m.readOnly.1)
      && Offset(m, a) + |bytes| <= |Buffer(m, a)|
    ensures ReadBytes(m, a, |bytes|).Ok? && CheckWrite(m, a).None? ==> WriteBytes(m, a, bytes).Ok?
    ensures WriteBytes(m, a, bytes) == Err(Trap(WritingToReadOnlyMemory(a))) ==> CheckAddress(m, a).None?
  {
  }

  /** 256^n */
  function Base(n: nat): (b: nat)
    ensures b > 0
  {
    if n == 0 then 1 else 0x100 * Base(n - 1)
  }

  lemma {:induction false} BytesRoundTrip(v: int, n: nat)
    requires n <= 4
    ensures FromBytes(ToBytes(v, n)) == v % Base(n)
    decreases n
  {
    if n > 0 {
      BytesRoundTrip(v / 0x100, n - 1);
      SplitByte(v, n - 1);
    }
  }

  lemma SplitByte(v: int, n: nat)
    requires n <= 3
    ensures v % (0x100 * Base(n)) == v % 0x100 + 0x100 * (v / 0x100 % Base(n))
  {
    assert Base(0) == 1 && Base(1) == 0x100 && Base(2) == 0x1_0000 && Base(3) == 0x100_0000;
    if n == 1 { Split1(v); }
    if n == 2 { Split2(v); }
    if n == 3 { Split3(v); }
  }

  lemma Split1(v: int)
    ensures v % 0x1_0000 == v % 0x100 + 0x100 * (v / 0x100 % 0x100)
  {
    assert v == 0x1_0000 * (v / 0x100 / 0x100) + v % 0x100 + 0x100 * (v / 0x100 % 0x100);
  }

  lemma Split2(v: int)
    ensures v % 0x100_0000 == v % 0x100 + 0x100 * (v / 0x100 % 0x1_0000)
  {
    assert v == 0x100_0000 * (v / 0x100 / 0x1_0000) + v % 0x100 + 0x100 * (v / 0x100 % 0x1_0000);
  }

  lemma Split3(v: int)
    ensures v % 0x1_0000_0000 == v % 0x100 + 0x100 * (v / 0x100 % 0x100_0000)
  {
    assert v == 0x1_0000_0000 * (v / 0x100 / 0x100_0000) + v % 0x100 + 0x100 * (v / 0x100 % 0x100_0000);
  }

  /** A load at the address of a store of the same width reads the stored value, narrowed to the
      width and extended as the load says. */
  lemma StoreLoad(f: Function, g: Function, m: Mem, a: u32, v: u32)
    requires StoreTo(f, m, a, v).Ok? && Width(f) == Width(g)
    ensures LoadFrom(g, StoreTo(f, m, a, v).value, a) == Ok(Extend(g, v % Base(Width(g))))
  {
    ReadBack(m, a, ToBytes(v, Width(f)));
    BytesRoundTrip(v, Width(f));
  }

  /** A load from other addresses is not affected by a store. */
  lemma StoreOtherLoad(f: Function, g: Function, m: Mem, a: u32, b: u32, v: u32)
    requires StoreTo(f, m, b, v).Ok? && Disjoint(a, Width(g), b, Width(f))
    ensures LoadFrom(g, StoreTo(f, m, b, v).value, a) == LoadFrom(g, m, a)
  {
    ReadOtherBytes(m, b, ToBytes(v, Width(f)), a, Width(g));
  }
}
