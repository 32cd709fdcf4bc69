/** The process memory as an object: written in place, and filled from the program headers. */
module MemoryImage {
  import opened Words
  import opened ByteMemory

  /** A PT_LOAD program header: `memsz` bytes from address `start`, the first `filesz` of them from
      position `offset` of the file. */
  datatype Header = Header(start: nat, memsz: nat, filesz: nat, offset: nat, writable: bool) {
    function End(): nat { start + memsz }
  }

  class ProcessMemory {
    var vRange: (u32, u32)
    var readOnly: (u32, u32)
    var stackLo: u32
    var data: seq<u8>
    var stack: seq<u8>

    function View(): Mem
      reads this
    {
      Mem(vRange, readOnly, stackLo, data, stack)
    }

    /** `ProcessMemory::default`. */
    constructor ()
      ensures View() == Mem((0, 0), (0, 0), 0, [], [])
    {
      vRange, readOnly, stackLo, data, stack := (0, 0), (0, 0), 0, [], [];
    }

    /** Write the bytes, or change nothing and say why. */
    method WriteSlice(a: u32, bytes: seq<u8>) returns (fault: Option<Fault>)
      modifies this
      ensures match WriteBytes(old(View()), a, bytes)
        case Ok(m) => fault == None && View() == m
        case Err(f) => fault == Some(f) && View() == old(View())
    {
      var e := CheckAddress(View(), a);
      if e.Some? { return Some(Trap(e.value)); }
      e := CheckWrite(View(), a);
      if e.Some? { return Some(Trap(e.value)); }
      if a < stackLo {
        var o := a - vRange.0;
        if o + |bytes| > |data| { return Some(SliceIndex); }
        data := data[..o] + bytes + data[o + |bytes|..];
        assert data == Splice(old(data), o, bytes);
      } else {
        var o := a - stackLo;
        if o + |bytes| > |stack| { return Some(SliceIndex); }
        stack := stack[..o] + bytes + stack[o + |bytes|..];
        assert stack == Splice(old(stack), o, bytes);
      }
      fault := None;
    }

    /** What a system call leaves in memory. */
    method Replace(m: Mem)
      modifies this
      ensures View() == m
    {
      vRange, readOnly, stackLo, data, stack := m.vRange, m.readOnly, m.stackLo, m.data, m.stack;
    }

    /** The body of the fold in `new`: map one segment behind the ones before it. */
    method MapSegment(h: Header, file: seq<u8>)
      requires vRange.0 == 0 && |data| == vRange.1 <= h.start && h.End() < TWO_TO_THE_32
      requires h.filesz <= h.memsz && h.offset + h.filesz <= |file|
      modifies this
      ensures stack == old(stack) && stackLo == old(stackLo)
      ensures vRange == (0, h.End())
      ensures data == WithSegment(old(data), h, file)
      ensures readOnly == ReadOnlyWith(old(readOnly), h)
    {
      if !h.writable {
        if readOnly.0 == readOnly.1 {
          readOnly := (Wrap(h.start), Wrap(h.End()));
        } else {
          readOnly := (readOnly.0, Wrap(h.End()));
        }
      }
      if vRange.0 == vRange.1 {
        data := Resized(data, h.start);
      } else if vRange.1 < h.start {
        data := Resized(data, |data| + (h.start - vRange.1));
      }
      vRange := (vRange.0, Wrap(h.End()));
      var oldSize := |data|;
      assert data == Resized(old(data), h.start);
      data := Resized(data, oldSize + h.memsz);
      data := Splice(data, oldSize, file[h.offset..h.offset + h.filesz]);
    }

    /** The fold of `new` over the PT_LOAD headers of a file. The data vector is indexed by virtual
        address: when the segments ascend without overlap, as an ELF file must list them, every
        file image lies at its address, every other byte is zero, the vector ends with the last
        segment, and no byte of a segment that is not writable can be written. */
    method LoadSegments(headers: seq<Header>, file: seq<u8>)
      requires vRange == (0, 0) && readOnly == (0, 0) && data == []
      requires Ascending(headers) && InFile(headers, file)
      modifies this
      ensures stack == old(stack) && stackLo == old(stackLo)
      ensures |data| == vRange.1 && vRange.0 == 0
      ensures headers != [] ==> vRange.1 == headers[|headers| - 1].End()
      ensures Imaged(headers, file, data)
      ensures forall h, a: u32 :: h in headers && !h.writable && h.start <= a < h.End() ==> CheckWrite(View(), a).Some?
    {
      for i := 0 to |headers|
        invariant stack == old(stack) && stackLo == old(stackLo)
        invariant |data| == vRange.1 && vRange.0 == 0
        invariant vRange.1 == if i == 0 then 0 else headers[i - 1].End()
        invariant Imaged(headers[..i], file, data)
        invariant Protects(headers[..i], readOnly)
      {
        ImagedMore(headers, i, file, data);
        ProtectsMore(headers, i, readOnly);
        MapSegment(headers[i], file);
      }
      assert headers[..|headers|] == headers;
    }
  }

  /** The read-only range, widened to a segment that is not writable. */
  function ReadOnlyWith(range: (u32, u32), h: Header): (u32, u32) {
    if h.writable then range
    else if range.0 == range.1 then (Wrap(h.start), Wrap(h.End()))
    else (range.0, Wrap(h.End()))
  }

  /** `Vec::resize(n, 0)`. */
  function Resized(b: seq<u8>, n: nat): (r: seq<u8>)
    ensures |r| == n
    ensures forall k :: 0 <= k < n ==> r[k] == if k < |b| then b[k] else 0
  {
    if n <= |b| then b[..n] else b + seq(n - |b|, _ => 0)
  }

  ghost predicate Ascending(headers: seq<Header>) {
    && (forall i :: 0 <= i < |headers| ==> headers[i].End() < TWO_TO_THE_32)
    && (forall i :: 0 <= i < |headers| - 1 ==> headers[i].End() <= headers[i + 1].start)
  }

  ghost predicate InFile(headers: seq<Header>, file: seq<u8>) {
    forall h :: h in headers ==> h.filesz <= h.memsz && h.offset + h.filesz <= |file|
  }

  /** The byte that belongs at address `a`: from the header whose file image covers it, else 0. */
  ghost predicate ByteOf(headers: seq<Header>, file: seq<u8>, a: nat, b: u8) {
    && (forall h :: h in headers && h.start <= a < h.start + h.filesz && h.offset + h.filesz <= |file| ==>
          b == file[h.offset + (a - h.start)])
    && ((forall h :: h in headers ==> !(h.start <= a < h.start + h.filesz)) ==> b == 0)
  }

  ghost predicate Imaged(headers: seq<Header>, file: seq<u8>, data: seq<u8>) {
    && (forall h :: h in headers ==> h.End() <= |data|)
    && forall a :: 0 <= a < |data| ==> ByteOf(headers, file, a, data[a])
  }

  /** Every non-writable segment that is not empty lies in the range. */
  ghost predicate Protects(headers: seq<Header>, range: (u32, u32)) {
    && range.0 <= range.1
    && (headers == [] ==> range == (0, 0))
    && (headers != [] ==> range.1 <= headers[|headers| - 1].End())
    && forall h :: h in headers && !h.writable && h.memsz > 0 ==> range.0 <= h.start && h.End() <= range.1
  }

  lemma {:induction false} EndsAscend(headers: seq<Header>, i: nat)
    requires Ascending(headers) && i < |headers|
    ensures forall h :: h in headers[..i] ==> h.End() <= headers[i].start
  {
    if i > 0 {
      EndsAscend(headers, i - 1);
      forall h | h in headers[..i] ensures h.End() <= headers[i].start {
        if h != headers[i - 1] { assert h in headers[..i - 1]; }
      }
    }
  }

  lemma ProtectsMore(headers: seq<Header>, i: nat, range: (u32, u32))
    requires Ascending(headers) && i < |headers| && Protects(headers[..i], range)
    ensures Protects(headers[..i + 1], ReadOnlyWith(range, headers[i]))
  {
    EndsAscend(headers, i);
    var h, more := headers[i], headers[..i + 1];
    var range' := ReadOnlyWith(range, h);
    assert more == headers[..i] + [h];
    if i > 0 {
      assert headers[i - 1] in headers[..i];
      assert range.1 <= headers[i - 1].End() <= h.start;
    }
    assert Wrap(h.start) == h.start && Wrap(h.End()) == h.End();
    forall g | g in more && !g.writable && g.memsz > 0 ensures range'.0 <= g.start && g.End() <= range'.1 {
      if g in headers[..i] {
        assert range.0 <= g.start && g.End() <= range.1 && g.End() <= h.start;
      } else {
        assert g == h && range.1 <= h.start;
      }
    }
  }

  /** The data vector after one more segment. */
  function WithSegment(data: seq<u8>, h: Header, file: seq<u8>): seq<u8>
    requires h.filesz <= h.memsz && h.offset + h.filesz <= |file|
  {
    Splice(Resized(Resized(data, h.start), h.End()), h.start, file[h.offset..h.offset + h.filesz])
  }

  lemma ImagedMore(headers: seq<Header>, i: nat, file: seq<u8>, data: seq<u8>)
    requires Ascending(headers) && InFile(headers, file) && i < |headers|
    requires |data| <= headers[i].start && Imaged(headers[..i], file, data)
    ensures Imaged(headers[..i + 1], file, WithSegment(data, headers[i], file))
  {
    var h := headers[i];
    var data' := WithSegment(data, h, file);
    EndsAscend(headers, i);
    assert headers[..i + 1] == headers[..i] + [h];
    forall a | 0 <= a < |data'| ensures ByteOf(headers[..i + 1], file, a, data'[a]) {
      if a < |data| { assert ByteOf(headers[..i], file, a, data[a]); }
    }
  }
}
