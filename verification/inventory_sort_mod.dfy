/** The sort mod's binary helpers: a cursor over a growable byte string that reads
    little-endian fields at the cursor and appends written fields at the end, and a
    pattern search with an optional byte mask. */
module InventorySortMod {
  import opened ByteCodec
  import opened NameText

  // ---------------------------------------------------------------------------
  // ByteBuffer

  /** The result of `read_fstring`: the decoded text and where the cursor ends. */
  datatype FStringRead = FStringRead(text: Name, next: int)

  /** `read_fstring` on `data` with the cursor at `pos`: the int32 length, then
      nothing for 0, 2|n| bytes of 16-bit text for a negative n, n bytes of 8-bit
      text otherwise, trailing NULs removed. None: the length does not unpack. */
  function FStringAt(data: seq<Byte>, pos: int): (r: Option<FStringRead>)
    ensures r.Some? <==> ReadI32(data, pos).Some?
  {
    match ReadI32(data, pos)
    case None => None
    case Some(n) =>
      if n == 0 then Some(FStringRead([], pos + 4))
      else if n < 0 then Some(FStringRead(DecodeText(Slice(data, pos + 4, pos + 4 + -n * 2), true), pos + 4 + -n * 2))
      else Some(FStringRead(DecodeText(Slice(data, pos + 4, pos + 4 + n), false), pos + 4 + n))
  }

  /** A cursor over a byte string. A read that cannot unpack its field fails and
      leaves the cursor where it was; every write appends at the end whatever the
      cursor, and leaves the cursor alone. */
  class ByteBuffer {
    var data: seq<Byte>
    var pos: int

    constructor (initial: seq<Byte>)
      ensures data == initial && pos == 0
    {
      data := initial;
      pos := 0;
    }

    method ReadInt8() returns (r: Option<int>)
      modifies this
      ensures r == ReadI8(old(data), old(pos)) && data == old(data)
      ensures pos == if r.Some? then old(pos) + 1 else old(pos)
    {
      r := ReadI8(data, pos);
      if r.Some? {
        pos := pos + 1;
      }
    }

    method ReadUInt8() returns (r: Option<nat>)
      modifies this
      ensures r == ReadU8(old(data), old(pos)) && data == old(data)
      ensures pos == if r.Some? then old(pos) + 1 else old(pos)
    {
      r := ReadU8(data, pos);
      if r.Some? {
        pos := pos + 1;
      }
    }

    method ReadInt32() returns (r: Option<int>)
      modifies this
      ensures r == ReadI32(old(data), old(pos)) && data == old(data)
      ensures pos == if r.Some? then old(pos) + 4 else old(pos)
    {
      r := ReadI32(data, pos);
      if r.Some? {
        pos := pos + 4;
      }
    }

    method ReadUInt32() returns (r: Option<nat>)
      modifies this
      ensures r == ReadU32(old(data), old(pos)) && data == old(data)
      ensures pos == if r.Some? then old(pos) + 4 else old(pos)
    {
      r := ReadU32(data, pos);
      if r.Some? {
        pos := pos + 4;
      }
    }

    method ReadInt64() returns (r: Option<int>)
      modifies this
      ensures r == ReadI64(old(data), old(pos)) && data == old(data)
      ensures pos == if r.Some? then old(pos) + 8 else old(pos)
    {
      r := ReadI64(data, pos);
      if r.Some? {
        pos := pos + 8;
      }
    }

    method ReadUInt64() returns (r: Option<nat>)
      modifies this
      ensures r == ReadU64(old(data), old(pos)) && data == old(data)
      ensures pos == if r.Some? then old(pos) + 8 else old(pos)
    {
      r := ReadU64(data, pos);
      if r.Some? {
        pos := pos + 8;
      }
    }

    /** The bytes at the cursor, fewer near the end; the cursor moves by `count`
        all the same. */
    method ReadBytes(count: int) returns (r: seq<Byte>)
      modifies this
      ensures r == Slice(old(data), old(pos), old(pos) + count) && data == old(data)
      ensures pos == old(pos) + count
    {
      r := Slice(data, pos, pos + count);
      pos := pos + count;
    }

    method ReadFString() returns (r: Option<Name>)
      modifies this
      ensures data == old(data)
      ensures FStringAt(old(data), old(pos)).None? ==> r.None? && pos == old(pos)
      ensures FStringAt(old(data), old(pos)).Some? ==>
        r == Some(FStringAt(old(data), old(pos)).value.text) && pos == FStringAt(old(data), old(pos)).value.next
    {
      var length := ReadInt32();
      if length.None? {
        return None;
      }
      var n := length.value;
      if n == 0 {
        return Some([]);
      }
      var isUtf16 := n < 0;
      if isUtf16 {
        n := -n;
        var text := ReadBytes(n * 2);
        return Some(DecodeText(text, true));
      } else {
        var text := ReadBytes(n);
        return Some(DecodeText(text, false));
      }
    }

    /** `write_int32`; false where `struct.pack` raises, and then nothing changes. */
    method WriteInt32(v: int) returns (ok: bool)
      modifies this
      ensures ok <==> IsInt32(v)
      ensures ok ==> data == old(data) + PackI32(v)
      ensures !ok ==> data == old(data)
      ensures pos == old(pos)
    {
      if !IsInt32(v) {
        return false;
      }
      data := data + PackI32(v);
      return true;
    }

    /** `write_uint32`; false where `struct.pack` raises, and then nothing changes. */
    method WriteUInt32(v: int) returns (ok: bool)
      modifies this
      ensures ok <==> 0 <= v < TWO_32
      ensures ok ==> data == old(data) + PackU32(v)
      ensures !ok ==> data == old(data)
      ensures pos == old(pos)
    {
      if !(0 <= v < TWO_32) {
        return false;
      }
      data := data + PackU32(v);
      return true;
    }

    /** `write_int64`; false where `struct.pack` raises, and then nothing changes. */
    method WriteInt64(v: int) returns (ok: bool)
      modifies this
      ensures ok <==> IsInt64(v)
      ensures ok ==> data == old(data) + PackI64(v)
      ensures !ok ==> data == old(data)
      ensures pos == old(pos)
    {
      if !IsInt64(v) {
        return false;
      }
      data := data + PackI64(v);
      return true;
    }

    method WriteBytes(bytes: seq<Byte>)
      modifies this
      ensures data == old(data) + bytes && pos == old(pos)
    {
      data := data + bytes;
    }

    method Seek(p: int)
      modifies this
      ensures pos == p && data == old(data)
    {
      pos := p;
    }

    method Tell() returns (p: int)
      ensures p == pos
    {
      p := pos;
    }
  }

  // ---------------------------------------------------------------------------
  // Properties of the buffer

  /** An appended `'<i'`, `'<I'` or `'<q'` field reads back from where the data
      ended before the write. */
  lemma {:induction false} AppendedReadsBack(d: seq<Byte>, v: int)
    ensures IsInt32(v) ==> ReadI32(d + PackI32(v), |d|) == Some(v)
    ensures 0 <= v < TWO_32 ==> ReadU32(d + PackU32(v), |d|) == Some(v)
    ensures IsInt64(v) ==> ReadI64(d + PackI64(v), |d|) == Some(v)
  {
    if IsInt32(v) {
      assert d + PackI32(v) == d + PackI32(v) + [];
      ReadI32OfPack(d, v, []);
    }
    if 0 <= v < TWO_32 {
      assert d + PackU32(v) == d + PackU32(v) + [];
      ReadU32OfPack(d, v, []);
    }
    if IsInt64(v) {
      assert d + PackI64(v) == d + PackI64(v) + [];
      ReadI64OfPack(d, v, []);
    }
  }

  /** Appending keeps every field that lay inside the data before. */
  lemma {:induction false} AppendKeepsReads(d: seq<Byte>, extra: seq<Byte>, off: int, width: nat)
    requires 0 <= off && off + width <= |d|
    ensures ReadUnsigned(d + extra, off, width) == ReadUnsigned(d, off, width)
  {
    assert (d + extra)[off..off + width] == d[off..off + width];
  }

  /** A length of 0 gives empty text and consumes only the four length bytes. */
  lemma {:induction false} FStringEmpty(data: seq<Byte>, pos: int)
    requires ReadI32(data, pos) == Some(0)
    ensures FStringAt(data, pos) == Some(FStringRead([], pos + 4))
  {
  }

  /** A length-prefixed 8-bit string (the text, a NUL, its length counting the
      NUL) reads back as the text when the text does not end in NUL, and the
      cursor ends just after it. */
  lemma {:induction false} FStringRoundTrip(d: seq<Byte>, text: seq<Byte>)
    requires |text| + 1 <= INT32_MAX && (text == [] || text[|text| - 1] != 0)
    ensures FStringAt(d + PackI32(|text| + 1) + (text + [0]), |d|) ==
      Some(FStringRead(text, |d| + 4 + |text| + 1))
  {
    var w := d + PackI32(|text| + 1) + (text + [0]);
    ReadI32OfPack(d, |text| + 1, text + [0]);
    assert Slice(w, |d| + 4, |d| + 4 + |text| + 1) == text + [0];
    StripTerminator(text);
  }

  /** A length-prefixed 16-bit string (the units, a NUL unit, the negated unit
      count) reads back as the units when they do not end in NUL. */
  lemma {:induction false} FStringRoundTrip16(d: seq<Byte>, units: seq<int>)
    requires |units| + 1 <= INT32_MAX && forall k :: 0 <= k < |units| ==> 0 <= units[k] < 0x1_0000
    requires units == [] || units[|units| - 1] != 0
    ensures FStringAt(d + PackI32(-(|units| + 1)) + Utf16Bytes(units + [0]), |d|) ==
      Some(FStringRead(units, |d| + 4 + 2 * (|units| + 1)))
  {
    Utf16Units(units + [0]);
    FStringBody16(d, units, Utf16Bytes(units + [0]));
  }

  /** The same, for any byte pairs that decode to the units and a NUL. */
  lemma {:induction false} FStringBody16(d: seq<Byte>, units: seq<int>, body: seq<Byte>)
    requires |units| + 1 <= INT32_MAX && (units == [] || units[|units| - 1] != 0)
    requires |body| == 2 * (|units| + 1) && Units16(body) == units + [0]
    ensures FStringAt(d + PackI32(-(|units| + 1)) + body, |d|) ==
      Some(FStringRead(units, |d| + 4 + 2 * (|units| + 1)))
  {
    ReadI32OfPack(d, -(|units| + 1), body);
    SliceAfter(d, PackI32(-(|units| + 1)), body);
    DecodeLastNul(body, units);
    FStringText16(d + PackI32(-(|units| + 1)) + body, |d|, |units| + 1, body, units);
  }

  /** 2m bytes after a length of -m that decode to `units` read back as `units`. */
  lemma {:induction false} FStringText16(w: seq<Byte>, p: int, m: int, body: seq<Byte>, units: Name)
    requires ReadI32(w, p) == Some(-m) && m > 0
    requires Slice(w, p + 4, p + 4 + 2 * m) == body && DecodeText(body, true) == units
    ensures FStringAt(w, p) == Some(FStringRead(units, p + 4 + 2 * m))
  {
    FStringNegative(w, p, m);
  }

  /** A negative length -m announces 2m bytes of 16-bit text. */
  lemma {:induction false} FStringNegative(data: seq<Byte>, pos: int, m: int)
    requires ReadI32(data, pos) == Some(-m) && m > 0
    ensures FStringAt(data, pos) ==
      Some(FStringRead(DecodeText(Slice(data, pos + 4, pos + 4 + 2 * m), true), pos + 4 + 2 * m))
  {
    assert -(-m) * 2 == 2 * m;
  }

  /** One NUL after text that does not end in NUL is stripped, and only it. */
  lemma {:induction false} StripLastNul(units: seq<int>)
    requires units == [] || units[|units| - 1] != 0
    ensures StripNul(units + [0]) == units
  {
    assert (units + [0])[..|units|] == units;
  }

  /** Byte pairs holding the units and a NUL unit decode to the units. */
  lemma {:induction false} DecodeLastNul(body: seq<Byte>, units: seq<int>)
    requires units == [] || units[|units| - 1] != 0
    requires Units16(body) == units + [0]
    ensures DecodeText(body, true) == units
  {
    StripLastNul(units);
  }

  /** 16-bit units as little-endian byte pairs. */
  function Utf16Bytes(units: seq<int>): (b: seq<Byte>)
    requires forall k :: 0 <= k < |units| ==> 0 <= units[k] < 0x1_0000
    ensures |b| == 2 * |units|
  {
    if units == [] then []
    else [units[0] % 256, units[0] / 256] + Utf16Bytes(units[1..])
  }

  /** Decoding the byte pairs gives the units back. */
  lemma {:induction false} Utf16Units(units: seq<int>)
    requires forall k :: 0 <= k < |units| ==> 0 <= units[k] < 0x1_0000
    ensures Units16(Utf16Bytes(units)) == units
  {
    var b := Utf16Bytes(units);
    forall k | 0 <= k < |units|
      ensures b[2 * k] as int + 256 * b[2 * k + 1] as int == units[k]
    {
      Utf16Pair(units, k);
    }
  }

  lemma {:induction false} Utf16Pair(units: seq<int>, k: nat)
    requires forall k :: 0 <= k < |units| ==> 0 <= units[k] < 0x1_0000
    requires k < |units|
    ensures Utf16Bytes(units)[2 * k] == units[k] % 256 && Utf16Bytes(units)[2 * k + 1] == units[k] / 256
    decreases k
  {
    if k > 0 {
      Utf16Pair(units[1..], k - 1);
      assert Utf16Bytes(units) == [units[0] % 256, units[0] / 256] + Utf16Bytes(units[1..]);
    }
  }

  // ---------------------------------------------------------------------------
  // find_pattern_in_binary

  /** The unmasked search: the starts `i` of `pattern` for `lo <= i < |data| - |pattern|`;
      the last possible start, `|data| - |pattern|`, is outside the range. */
  function UnmaskedFrom(data: seq<Byte>, pattern: seq<Byte>, lo: nat): (r: seq<int>)
    ensures forall k :: 0 <= k < |r| ==> lo <= r[k]
    ensures Increasing(r)
    ensures forall i :: i in r <==> lo <= i < |data| - |pattern| && MatchesAt(data, pattern, i)
    decreases |data| - lo
  {
    if lo >= |data| - |pattern| then []
    else
      var rest := UnmaskedFrom(data, pattern, lo + 1);
      if data[lo..lo + |pattern|] == pattern then [lo] + rest else rest
  }

  /** A start `i` the mask accepts: every position of both the pattern and the
      mask whose mask byte is 0xFF holds the pattern byte; other mask bytes, and
      pattern bytes beyond the mask, are wildcards. */
  predicate MaskedMatch(data: seq<Byte>, pattern: seq<Byte>, mask: seq<Byte>, i: nat)
    requires i + |pattern| <= |data|
  {
    forall j :: 0 <= j < Min(|pattern|, |mask|) && mask[j] == 0xFF ==> data[i + j] == pattern[j]
  }

  /** `find_pattern_in_binary`: without a mask the starts of the pattern before
      `|data| - |pattern|`; with one, the starts there that the mask accepts. */
  method FindPatternInBinary(data: seq<Byte>, pattern: seq<Byte>, mask: Option<seq<Byte>>) returns (results: seq<int>)
    ensures mask.None? ==> results == UnmaskedFrom(data, pattern, 0)
    ensures Increasing(results)
    ensures mask.Some? ==> forall i :: i in results <==>
      0 <= i < |data| - |pattern| && MaskedMatch(data, pattern, mask.value, i)
  {
    if mask.None? {
      return UnmaskedFrom(data, pattern, 0);
    }
    var m := mask.value;
    results := [];
    var i := 0;
    while i < |data| - |pattern|
      invariant 0 <= i && (i <= |data| - |pattern| || i == 0)
      invariant Increasing(results)
      invariant forall k :: 0 <= k < |results| ==> results[k] < i
      invariant forall x :: x in results <==> 0 <= x < i && MaskedMatch(data, pattern, m, x)
    {
      var matched := MaskAccepts(data, pattern, m, i);
      if matched {
        results := results + [i];
      }
      i := i + 1;
    }
  }

  /** The inner loop: walk the pattern and the mask together, stopping at the
      first 0xFF position whose data byte differs. */
  method MaskAccepts(data: seq<Byte>, pattern: seq<Byte>, mask: seq<Byte>, i: nat) returns (matched: bool)
    requires i + |pattern| < |data|
    ensures matched <==> MaskedMatch(data, pattern, mask, i)
  {
    matched := true;
    var j := 0;
    while j < Min(|pattern|, |mask|)
      invariant 0 <= j <= Min(|pattern|, |mask|)
      invariant forall k :: 0 <= k < j && mask[k] == 0xFF ==> data[i + k] == pattern[k]
    {
      if mask[j] == 0xFF && data[i + j] != pattern[j] {
        matched := false;
        break;
      }
      j := j + 1;
    }
  }

  /** With a mask of 0xFF over the whole pattern, the masked search finds what the
      unmasked one finds. */
  lemma {:induction false} FullMaskIsExact(data: seq<Byte>, pattern: seq<Byte>, mask: seq<Byte>, i: nat)
    requires |mask| >= |pattern| && forall j :: 0 <= j < |pattern| ==> mask[j] == 0xFF
    requires i + |pattern| <= |data|
    ensures MaskedMatch(data, pattern, mask, i) <==> MatchesAt(data, pattern, i)
  {
    if MaskedMatch(data, pattern, mask, i) {
      assert data[i..i + |pattern|] == pattern by {
        forall j | 0 <= j < |pattern|
          ensures data[i..i + |pattern|][j] == pattern[j]
        {
          assert mask[j] == 0xFF;
        }
      }
    }
  }

  /** A pattern that occurs only at the very end of the data is not found without
      a mask, while `bytes.find` finds it. */
  lemma {:induction false} UnmaskedMissesLastStart(data: seq<Byte>, pattern: seq<Byte>)
    requires |pattern| <= |data| && MatchesAt(data, pattern, |data| - |pattern|)
    ensures (|data| - |pattern|) !in UnmaskedFrom(data, pattern, 0)
    ensures Find(data, pattern, |data| - |pattern|) == |data| - |pattern|
  {
  }
}
