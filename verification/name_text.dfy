/** Name text as the package tools see it: stored 8-bit or 16-bit text with its
    trailing NULs removed, the name hash written for new names, and the 8-bit name
    entry `[length][text NUL][hash]` that both name writers produce. */
module NameText {
  import opened ByteCodec

  /** A decoded name: one code unit per character (bytes for 8-bit text,
      16-bit units for 16-bit text). */
  type Name = seq<int>

  const FNV_PRIME: int := 0x0100_0193

  /** `rstrip('\x00')` on code units. */
  function StripNul(s: seq<int>): seq<int>
  {
    if s == [] || s[|s| - 1] != 0 then s else StripNul(s[..|s| - 1])
  }

  /** Stripping keeps a prefix that does not end in NUL and drops only NULs. */
  lemma {:induction false} StripNulShape(s: seq<int>)
    ensures |StripNul(s)| <= |s| && StripNul(s) == s[..|StripNul(s)|]
    ensures StripNul(s) == [] || StripNul(s)[|StripNul(s)| - 1] != 0
    ensures forall k :: |StripNul(s)| <= k < |s| ==> s[k] == 0
  {
    if s != [] && s[|s| - 1] == 0 {
      StripNulShape(s[..|s| - 1]);
      assert s[..|s| - 1][..|StripNul(s)|] == s[..|StripNul(s)|];
    }
  }

  /** 16-bit little-endian code units of a byte string; a lone trailing byte is dropped. */
  function Units16(b: seq<Byte>): seq<int>
  {
    seq(|b| / 2, i requires 0 <= i < |b| / 2 => b[2 * i] as int + 256 * b[2 * i + 1] as int)
  }

  /** Stored text as the readers decode it: 16-bit units or bytes, trailing NULs removed. */
  function DecodeText(b: seq<Byte>, utf16: bool): Name
  {
    if utf16 then StripNul(Units16(b)) else StripNul(b)
  }

  // ---------------------------------------------------------------------------
  // The name hash: FNV-1a order (xor, then multiply by the 32-bit FNV prime) but
  // seeded with 0, over the lower-cased name

  function AsciiLower(c: Byte): Byte
  {
    if 'A' as int <= c <= 'Z' as int then c + 32 else c
  }

  function Lowered(s: seq<Byte>): (r: seq<Byte>)
    ensures |r| == |s|
    ensures forall i :: 0 <= i < |s| ==> r[i] == AsciiLower(s[i])
  {
    seq(|s|, i requires 0 <= i < |s| => AsciiLower(s[i]))
  }

  /** Bitwise exclusive or of two non-negative integers. */
  function Xor(a: nat, b: nat): nat
    decreases a + b
  {
    if a == 0 then b
    else if b == 0 then a
    else (if a % 2 == b % 2 then 0 else 1) + 2 * Xor(a / 2, b / 2)
  }

  function HashStep(h: nat, c: Byte): (r: nat)
    ensures r < TWO_32
  {
    (Xor(h, c) * FNV_PRIME) % TWO_32
  }

  function NameHash(name: seq<Byte>): (h: nat)
    ensures h < TWO_32
  {
    if name == [] then 0
    else HashStep(NameHash(name[..|name| - 1]), AsciiLower(name[|name| - 1]))
  }

  /** The hash sees a name only through its lower-cased form. */
  lemma {:induction false} NameHashIgnoresCase(a: seq<Byte>, b: seq<Byte>)
    requires Lowered(a) == Lowered(b)
    ensures NameHash(a) == NameHash(b)
  {
    if a != [] {
      var n := |a| - 1;
      assert Lowered(a[..n]) == Lowered(b[..n]) by {
        forall i | 0 <= i < n ensures Lowered(a[..n])[i] == Lowered(b[..n])[i] {
          assert Lowered(a)[i] == Lowered(b)[i];
        }
      }
      NameHashIgnoresCase(a[..n], b[..n]);
      assert Lowered(a)[n] == Lowered(b)[n];
    }
  }

  /** The hash loop of `add_name` and `patch_uasset_names`. */
  method ComputeHash(name: seq<Byte>) returns (h: nat)
    ensures h == NameHash(name)
    ensures h < TWO_32
  {
    h := 0;
    var i := 0;
    while i < |name|
      invariant 0 <= i <= |name|
      invariant h == NameHash(name[..i])
    {
      assert name[..i + 1][..i] == name[..i];
      h := HashStep(h, AsciiLower(name[i]));
      i := i + 1;
    }
    assert name[..i] == name;
  }

  // ---------------------------------------------------------------------------
  // The 8-bit name entry written for a new name

  function EntrySize(name: seq<Byte>): nat
  {
    4 + |name| + 1 + 4
  }

  /** `pack('<I', len(text) + 1) + text + NUL + pack('<I', hash)` for a given hash. */
  function EntryBytes(name: seq<Byte>, hash: nat): (e: seq<Byte>)
    requires |name| + 1 < TWO_32 && hash < TWO_32
    ensures |e| == EntrySize(name)
  {
    PackU32(|name| + 1) + (name + [0]) + PackU32(hash)
  }

  /** The entry `add_name` writes for a new name: its bytes and its hash. */
  function NameEntry(name: seq<Byte>): (e: seq<Byte>)
    requires |name| + 1 < TWO_32
    ensures |e| == EntrySize(name)
  {
    EntryBytes(name, NameHash(name))
  }

  /** An entry's fields read back wherever it sits: the signed length is the text
      length plus its NUL, the NUL-terminated text follows, and the hash ends it. */
  lemma {:induction false} NameEntryFields(d: seq<Byte>, p: nat, name: seq<Byte>, hash: nat)
    requires |name| + 1 <= INT32_MAX && hash < TWO_32
    requires p + EntrySize(name) <= |d| && d[p..p + EntrySize(name)] == EntryBytes(name, hash)
    ensures ReadI32(d, p) == Some(|name| + 1)
    ensures d[p + 4..p + 4 + |name| + 1] == name + [0]
    ensures ReadU32(d, p + 4 + |name| + 1) == Some(hash)
  {
    var len, text, tail := PackU32(|name| + 1), name + [0], PackU32(hash);
    var e, rest := d[p..p + EntrySize(name)], text + tail;
    assert e == len + rest;
    assert d[p..p + 4] == e[..4] == len;
    assert d[p + 4..p + 4 + |text|] == rest[..|text|] == text;
    assert d[p + 4 + |text|..p + 4 + |text| + 4] == rest[|text|..] == tail;
    assert len == PackI32(|name| + 1);
    ReadI32At(d, p, |name| + 1);
    ReadU32At(d, p + 4 + |text|, hash);
  }

  /** A name that does not end in NUL survives the 8-bit decoding of its entry text. */
  lemma {:induction false} StripTerminator(name: seq<Byte>)
    requires name == [] || name[|name| - 1] != 0
    ensures DecodeText(name + [0], false) == name
  {
    assert (name + [0])[..|name|] == name;
    assert StripNul(name + [0]) == StripNul(name);
  }
}
