/** Little-endian fixed-width integers over byte strings, read and written the way
    Python's `struct` module does it, together with Python's slicing rules (a negative
    index counts from the end of the string, every bound is clamped to the string). */
module ByteCodec {

  type Byte = b: int | 0 <= b < 256

  datatype Option<+T> = None | Some(value: T)

  const INT32_MIN: int := -0x8000_0000
  const INT32_MAX: int := 0x7FFF_FFFF
  const INT64_MIN: int := -0x8000_0000_0000_0000
  const INT64_MAX: int := 0x7FFF_FFFF_FFFF_FFFF
  const TWO_32: int := 0x1_0000_0000
  const TWO_64: int := 0x1_0000_0000_0000_0000

  predicate IsInt32(v: int) { INT32_MIN <= v <= INT32_MAX }
  predicate IsInt64(v: int) { INT64_MIN <= v <= INT64_MAX }

  function Min(a: int, b: int): (r: int) { if a <= b then a else b }
  function Max(a: int, b: int): (r: int) { if a <= b then b else a }

  function Pow256(n: nat): (r: nat)
    ensures r >= 1
  {
    if n == 0 then 1 else 256 * Pow256(n - 1)
  }

  lemma {:induction false} Pow256Widths()
    ensures Pow256(1) == 0x100 && Pow256(4) == TWO_32 && Pow256(8) == TWO_64
  {
    assert Pow256(2) == 0x1_0000;
    assert Pow256(4) == 0x1_0000 * 0x1_0000 by { assert Pow256(3) == 0x100_0000; }
    assert Pow256(6) == 0x1_0000_0000_0000 by { assert Pow256(5) == 0x100_0000_0000; }
    assert Pow256(8) == 0x1_0000_0000_0000_0000 by { assert Pow256(7) == 0x100_0000_0000_0000; }
  }

  // ---------------------------------------------------------------------------
  // Python slicing

  /** A slice bound as Python normalises it for a string of length `n`. */
  function SliceBound(i: int, n: nat): (r: nat)
    ensures r <= n
    ensures 0 <= i ==> r == Min(i, n)
  {
    if i < 0 then (if i + n < 0 then 0 else i + n) else if i > n then n else i
  }

  /** `s[lo:hi]`: never fails, may be shorter than `hi - lo`. */
  function Slice(s: seq<Byte>, lo: int, hi: int): (r: seq<Byte>)
    ensures |r| <= |s|
    ensures 0 <= lo <= hi ==> r == s[Min(lo, |s|)..Min(hi, |s|)]
  {
    var a, b := SliceBound(lo, |s|), SliceBound(hi, |s|);
    if a < b then s[a..b] else []
  }

  /** `s[at:at] = ins`: the bytes of `ins` are inserted before position `at`. */
  function Splice(s: seq<Byte>, at: int, ins: seq<Byte>): (r: seq<Byte>)
    ensures |r| == |s| + |ins|
    ensures 0 <= at <= |s| ==> r == s[..at] + ins + s[at..]
  {
    var p := SliceBound(at, |s|);
    s[..p] + ins + s[p..]
  }

  // ---------------------------------------------------------------------------
  // Unsigned little-endian values

  function LeValue(s: seq<Byte>): nat
  {
    if s == [] then 0 else s[0] + 256 * LeValue(s[1..])
  }

  /** `n` bytes hold a value below 256^n. */
  lemma {:induction false} LeValueBound(s: seq<Byte>)
    ensures LeValue(s) < Pow256(|s|)
  {
    if s != [] {
      LeValueBound(s[1..]);
    }
  }

  function LeBytes(v: nat, n: nat): (s: seq<Byte>)
    ensures |s| == n
  {
    if n == 0 then [] else [v % 256] + LeBytes(v / 256, n - 1)
  }

  /** Encoding a value that fits in `n` bytes and decoding it gives the value back. */
  lemma {:induction false} LeValueOfBytes(v: nat, n: nat)
    requires v < Pow256(n)
    ensures LeValue(LeBytes(v, n)) == v
  {
    if n > 0 {
      assert v / 256 < Pow256(n - 1);
      LeValueOfBytes(v / 256, n - 1);
      assert LeBytes(v, n)[1..] == LeBytes(v / 256, n - 1);
    }
  }

  /** Decoding `n` bytes and encoding the value in `n` bytes gives the bytes back. */
  lemma {:induction false} LeBytesOfValue(s: seq<Byte>)
    ensures LeBytes(LeValue(s), |s|) == s
  {
    if s != [] {
      LeBytesOfValue(s[1..]);
      DigitOf(s[0], LeValue(s[1..]));
      assert LeBytes(LeValue(s), |s|) == [s[0]] + s[1..];
    }
  }

  /** The low byte and the rest of `lo + 256 * hi`. */
  lemma {:induction false} DigitOf(lo: Byte, hi: nat)
    ensures (lo + 256 * hi) % 256 == lo && (lo + 256 * hi) / 256 == hi
  {
  }

  // ---------------------------------------------------------------------------
  // struct.unpack on a slice: fails (struct.error) unless the slice has the exact width

  /** `struct.unpack` of `width` bytes taken as `data[off:off + width]`: a negative
      offset counts from the end; the read fails unless all `width` bytes are there. */
  function ReadUnsigned(data: seq<Byte>, off: int, width: nat): (r: Option<nat>)
  {
    if width == 0 then Some(0)
    else if 0 <= off && off + width <= |data| then Some(LeValue(data[off..off + width]))
    else if off + width < 0 && 0 <= off + |data| then Some(LeValue(data[off + |data|..off + |data| + width]))
    else None
  }

  lemma {:induction false} ReadBound(data: seq<Byte>, off: int, width: nat)
    ensures ReadUnsigned(data, off, width).Some? ==> ReadUnsigned(data, off, width).value < Pow256(width)
  {
    if width > 0 && 0 <= off && off + width <= |data| {
      LeValueBound(data[off..off + width]);
    } else if width > 0 && off + width < 0 && 0 <= off + |data| {
      LeValueBound(data[off + |data|..off + |data| + width]);
    }
  }

  /** The read is `struct.unpack` of the slice: it fails unless the slice has the full width. */
  lemma {:induction false} ReadAsSlice(data: seq<Byte>, off: int, width: nat)
    ensures ReadUnsigned(data, off, width).Some? <==> |Slice(data, off, off + width)| == width
    ensures ReadUnsigned(data, off, width).Some? ==>
      ReadUnsigned(data, off, width).value == LeValue(Slice(data, off, off + width))
  {
  }

  /** '<B' */
  function ReadU8(data: seq<Byte>, off: int): Option<nat> { ReadUnsigned(data, off, 1) }

  /** '<b' */
  function ReadI8(data: seq<Byte>, off: int): Option<int>
  {
    match ReadUnsigned(data, off, 1)
    case None => None
    case Some(u) => Some(if u >= 0x80 then u - 0x100 else u)
  }

  /** '<I' */
  function ReadU32(data: seq<Byte>, off: int): Option<nat> { ReadUnsigned(data, off, 4) }

  /** '<i' */
  function ReadI32(data: seq<Byte>, off: int): Option<int>
  {
    match ReadUnsigned(data, off, 4)
    case None => None
    case Some(u) => Some(if u >= 0x8000_0000 then u - TWO_32 else u)
  }

  /** '<Q' */
  function ReadU64(data: seq<Byte>, off: int): Option<nat> { ReadUnsigned(data, off, 8) }

  /** '<q' */
  function ReadI64(data: seq<Byte>, off: int): Option<int>
  {
    match ReadUnsigned(data, off, 8)
    case None => None
    case Some(u) => Some(if u >= 0x8000_0000_0000_0000 then u - TWO_64 else u)
  }

  lemma {:induction false} ReadI32Range(data: seq<Byte>, off: int)
    ensures ReadI32(data, off).Some? ==> IsInt32(ReadI32(data, off).value)
  {
    Pow256Widths();
    ReadBound(data, off, 4);
  }

  /** A read succeeds exactly when the whole field lies inside the string. */
  lemma {:induction false} ReadInside(data: seq<Byte>, off: int, width: nat)
    requires 0 <= off && 0 < width
    ensures ReadUnsigned(data, off, width).Some? <==> off + width <= |data|
    ensures off + width <= |data| ==> ReadUnsigned(data, off, width) == Some(LeValue(data[off..off + width]))
  {
    if off + width <= |data| {
    }
  }

  // ---------------------------------------------------------------------------
  // struct.pack; the source's callers only pack values of the format's range

  /** '<I' */
  function PackU32(v: int): (s: seq<Byte>)
    requires 0 <= v < TWO_32
    ensures |s| == 4
  {
    LeBytes(v, 4)
  }

  /** '<i' */
  function PackI32(v: int): (s: seq<Byte>)
    requires IsInt32(v)
    ensures |s| == 4
  {
    LeBytes(if v < 0 then v + TWO_32 else v, 4)
  }

  /** '<q' */
  function PackI64(v: int): (s: seq<Byte>)
    requires IsInt64(v)
    ensures |s| == 8
  {
    LeBytes(if v < 0 then v + TWO_64 else v, 8)
  }

  /** `data[off:off + 4] = struct.pack('<i', v)` on a string that holds the field. */
  function WriteI32(data: seq<Byte>, off: nat, v: int): (r: seq<Byte>)
    requires off + 4 <= |data| && IsInt32(v)
    ensures |r| == |data|
  {
    data[..off] + PackI32(v) + data[off + 4..]
  }

  // ---------------------------------------------------------------------------
  // Round trips: what is packed reads back

  /** A field whose bytes are known reads as their value. */
  lemma {:induction false} ReadField(d: seq<Byte>, off: nat, field: seq<Byte>)
    requires off + |field| <= |d| && d[off..off + |field|] == field
    ensures ReadUnsigned(d, off, |field|) == Some(LeValue(field))
  {
  }

  lemma {:induction false} ReadPacked(pre: seq<Byte>, field: seq<Byte>, post: seq<Byte>)
    ensures ReadUnsigned(pre + field + post, |pre|, |field|) == Some(LeValue(field))
  {
    var d := pre + field + post;
    assert d[|pre|..|pre| + |field|] == field;
    ReadField(d, |pre|, field);
  }

  /** What follows a field is sliced back out unchanged. */
  lemma {:induction false} SliceAfter(pre: seq<Byte>, field: seq<Byte>, post: seq<Byte>)
    ensures Slice(pre + field + post, |pre| + |field|, |pre| + |field| + |post|) == post
  {
    var d := pre + field + post;
    assert d[|pre| + |field|..] == post;
  }

  lemma {:induction false} ReadU32OfPack(pre: seq<Byte>, v: int, post: seq<Byte>)
    requires 0 <= v < TWO_32
    ensures ReadU32(pre + PackU32(v) + post, |pre|) == Some(v)
  {
    Pow256Widths();
    ReadPacked(pre, PackU32(v), post);
    LeValueOfBytes(v, 4);
  }

  lemma {:induction false} ReadI32OfPack(pre: seq<Byte>, v: int, post: seq<Byte>)
    requires IsInt32(v)
    ensures ReadI32(pre + PackI32(v) + post, |pre|) == Some(v)
  {
    Pow256Widths();
    ReadPacked(pre, PackI32(v), post);
    LeValueOfBytes(if v < 0 then v + TWO_32 else v, 4);
  }

  lemma {:induction false} ReadI64OfPack(pre: seq<Byte>, v: int, post: seq<Byte>)
    requires IsInt64(v)
    ensures ReadI64(pre + PackI64(v) + post, |pre|) == Some(v)
  {
    Pow256Widths();
    ReadPacked(pre, PackI64(v), post);
    LeValueOfBytes(if v < 0 then v + TWO_64 else v, 8);
  }

  /** A written field reads back. */
  lemma {:induction false} ReadI32OfWrite(data: seq<Byte>, off: nat, v: int)
    requires off + 4 <= |data| && IsInt32(v)
    ensures ReadI32(WriteI32(data, off, v), off) == Some(v)
  {
    ReadI32OfPack(data[..off], v, data[off + 4..]);
  }

  /** A write leaves every byte outside its four untouched. */
  lemma {:induction false} WriteI32Elsewhere(data: seq<Byte>, off: nat, v: int, k: int)
    requires off + 4 <= |data| && IsInt32(v)
    requires 0 <= k < |data| && (k < off || off + 4 <= k)
    ensures WriteI32(data, off, v)[k] == data[k]
  {
  }

  /** A read of bytes that lie in a range where two strings agree gives the same value. */
  lemma {:induction false} ReadSameBytes(d1: seq<Byte>, d2: seq<Byte>, off: int, width: nat)
    requires 0 <= off && off + width <= |d1| && off + width <= |d2|
    requires d1[off..off + width] == d2[off..off + width]
    ensures ReadUnsigned(d1, off, width) == ReadUnsigned(d2, off, width)
  {
  }

  /** A write leaves every field that does not overlap its four bytes reading as before. */
  lemma {:induction false} WriteKeepsRead(data: seq<Byte>, off: nat, v: int, at: int, width: nat)
    requires off + 4 <= |data| && IsInt32(v)
    requires 0 <= at && at + width <= |data| && (at + width <= off || off + 4 <= at)
    ensures ReadUnsigned(WriteI32(data, off, v), at, width) == ReadUnsigned(data, at, width)
  {
    var d := WriteI32(data, off, v);
    forall k | at <= k < at + width
      ensures d[k] == data[k]
    {
      WriteI32Elsewhere(data, off, v, k);
    }
    assert d[at..at + width] == data[at..at + width];
    ReadSameBytes(d, data, at, width);
  }

  /** A packed `'<I'` field reads back wherever it sits in a buffer. */
  lemma {:induction false} ReadU32At(d: seq<Byte>, off: nat, v: int)
    requires 0 <= v < TWO_32 && off + 4 <= |d| && d[off..off + 4] == PackU32(v)
    ensures ReadU32(d, off) == Some(v)
  {
    assert d == d[..off] + PackU32(v) + d[off + 4..];
    ReadU32OfPack(d[..off], v, d[off + 4..]);
  }

  /** A packed `'<i'` field reads back wherever it sits in a buffer. */
  lemma {:induction false} ReadI32At(d: seq<Byte>, off: nat, v: int)
    requires IsInt32(v) && off + 4 <= |d| && d[off..off + 4] == PackI32(v)
    ensures ReadI32(d, off) == Some(v)
  {
    assert d == d[..off] + PackI32(v) + d[off + 4..];
    ReadI32OfPack(d[..off], v, d[off + 4..]);
  }

  /** A packed `'<q'` field reads back wherever it sits in a buffer. */
  lemma {:induction false} ReadI64At(d: seq<Byte>, off: nat, v: int)
    requires IsInt64(v) && off + 8 <= |d| && d[off..off + 8] == PackI64(v)
    ensures ReadI64(d, off) == Some(v)
  {
    assert d == d[..off] + PackI64(v) + d[off + 8..];
    ReadI64OfPack(d[..off], v, d[off + 8..]);
  }

  // ---------------------------------------------------------------------------
  // bytes.find, repeated from one past each match

  /** `pattern` occurs in `data` starting at `i`. */
  predicate MatchesAt(data: seq<Byte>, pattern: seq<Byte>, i: int)
  {
    0 <= i && i + |pattern| <= |data| && data[i..i + |pattern|] == pattern
  }

  /** `data.find(pattern, start)` for `0 <= start`: the first occurrence at or after
      `start`, or -1. */
  function Find(data: seq<Byte>, pattern: seq<Byte>, start: nat): (r: int)
    ensures r == -1 || (start <= r && MatchesAt(data, pattern, r))
    ensures forall i :: start <= i && (r == -1 || i < r) ==> !MatchesAt(data, pattern, i)
    decreases |data| + 1 - start
  {
    if start + |pattern| > |data| then -1
    else if data[start..start + |pattern|] == pattern then start
    else Find(data, pattern, start + 1)
  }

  function Increasing(s: seq<int>): bool
  {
    forall i, j :: 0 <= i < j < |s| ==> s[i] < s[j]
  }

  /** The search loop of `find_bytes_pattern` and `find_string_in_binary`: every
      start of `pattern` in `data`, overlapping ones included, in increasing order. */
  method FindAll(data: seq<Byte>, pattern: seq<Byte>) returns (results: seq<int>)
    ensures Increasing(results)
    ensures forall i :: i in results <==> MatchesAt(data, pattern, i)
  {
    results := [];
    var start := 0;
    while true
      invariant 0 <= start <= |data| + 1
      invariant Increasing(results)
      invariant forall k :: 0 <= k < |results| ==> results[k] < start
      invariant forall i :: i in results <==> (i < start && MatchesAt(data, pattern, i))
      decreases |data| + 1 - start
    {
      var pos := Find(data, pattern, start);
      if pos == -1 {
        break;
      }
      results := results + [pos];
      start := pos + 1;
    }
  }
}
