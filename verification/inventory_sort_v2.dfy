/** The byte-level helpers of Tools/py/inventory_sort_v2.py: the name-table reader
    `read_name_table` with its own stop rules, the overlapping byte search
    `find_bytes_pattern`, and `patch_uasset_names`, which appends a batch of 8-bit
    name entries at the end of the name table and relocates five header fields.
    Each loop is a method proved equal to a function; the properties are lemmas
    about those functions. */
module InventorySortV2 {
  import opened ByteCodec
  import opened NameText

  const NAME_COUNT_AT: nat := 41
  const NAME_OFFSET_AT: nat := 45
  /** `read_name_table` reads at most this many names. */
  const READ_LIMIT: nat := 5000
  /** An 8-bit length must lie strictly between 0 and this bound. */
  const TEXT_LIMIT: int := 1000
  /** The header int32 fields `patch_uasset_names` relocates, in the order it visits them. */
  const RELOCATED: seq<nat> := [49, 53, 57, 61, 65]
  /** The end of the last relocated field. */
  const RELOCATED_END: nat := 69

  /** `range(n)` runs max(n, 0) times. */
  function Times(n: int): nat
  {
    if n < 0 then 0 else n
  }

  // ---------------------------------------------------------------------------
  // read_name_table

  datatype ReadStep = Stop | Took(name: Name, next: int)

  /** One pass of the `read_name_table` loop at `pos`: it stops four bytes short of
      the end; a negative length -n takes 2n bytes of 16-bit text, a length strictly
      between 0 and 1000 takes that many bytes of 8-bit text, any other length stops
      it, and a 4-byte hash follows the text. None: the length does not unpack. */
  function ReadStepAt(data: seq<Byte>, pos: int): Option<ReadStep>
  {
    if pos >= |data| - 4 then Some(Stop)
    else
      match ReadI32(data, pos)
      case None => None
      case Some(n) => Some(ReadStepWith(data, pos, n))
  }

  /** The rest of a pass once the length `n` at `pos` has been read. */
  function ReadStepWith(data: seq<Byte>, pos: int, n: int): ReadStep
  {
    if n < 0 then Took(DecodeText(Slice(data, pos + 4, pos + 4 + -n * 2), true), pos + 4 + -n * 2 + 4)
    else if 0 < n < TEXT_LIMIT then Took(DecodeText(Slice(data, pos + 4, pos + 4 + n), false), pos + 4 + n + 4)
    else Stop
  }

  /** The names the loop reads from `pos` with `remaining` passes left. */
  function ReadNamesFrom(data: seq<Byte>, pos: int, remaining: nat): (r: Option<seq<Name>>)
    ensures r.Some? ==> |r.value| <= remaining
    decreases remaining
  {
    if remaining == 0 then Some([])
    else
      match ReadStepAt(data, pos)
      case None => None
      case Some(Stop) => Some([])
      case Some(Took(name, next)) =>
        match ReadNamesFrom(data, next, remaining - 1)
        case None => None
        case Some(rest) => Some([name] + rest)
  }

  /** `read_name_table`: the count at 41 and the offset at 45, then at most
      min(count, 5000) names from the offset. None: a field does not unpack. */
  function ReadNameTableSpec(data: seq<Byte>): (r: Option<seq<Name>>)
    ensures r.Some? ==> ReadI32(data, NAME_COUNT_AT).Some?
    ensures r.Some? ==> |r.value| <= READ_LIMIT && |r.value| <= Times(ReadI32(data, NAME_COUNT_AT).value)
  {
    var count, offset := ReadI32(data, NAME_COUNT_AT), ReadI32(data, NAME_OFFSET_AT);
    if count.None? || offset.None? then None
    else ReadNamesFrom(data, offset.value, Times(Min(count.value, READ_LIMIT)))
  }

  function PrependNames(names: seq<Name>, r: Option<seq<Name>>): Option<seq<Name>>
  {
    match r
    case None => None
    case Some(rest) => Some(names + rest)
  }

  predicate ReadLoopInv(data: seq<Byte>, start: int, total: nat, names: seq<Name>, pos: int, i: nat)
  {
    i <= total &&
    ReadNamesFrom(data, start, total) == PrependNames(names, ReadNamesFrom(data, pos, total - i))
  }

  lemma {:induction false} ReadLoopStart(data: seq<Byte>, start: int, total: nat)
    ensures ReadLoopInv(data, start, total, [], start, 0)
  {
    var spec := ReadNamesFrom(data, start, total);
    assert spec.Some? ==> [] + spec.value == spec.value;
  }

  lemma {:induction false} ReadLoopStep(data: seq<Byte>, start: int, total: nat, names: seq<Name>, pos: int, i: nat)
    requires ReadLoopInv(data, start, total, names, pos, i) && i < total
    ensures ReadStepAt(data, pos).None? ==> ReadNamesFrom(data, start, total) == None
    ensures ReadStepAt(data, pos) == Some(Stop) ==> ReadNamesFrom(data, start, total) == Some(names)
    ensures ReadStepAt(data, pos).Some? && ReadStepAt(data, pos).value.Took? ==>
      ReadLoopInv(data, start, total, names + [ReadStepAt(data, pos).value.name], ReadStepAt(data, pos).value.next, i + 1)
  {
    match ReadStepAt(data, pos)
    case None =>
    case Some(Stop) =>
      assert names + [] == names;
    case Some(Took(name, next)) =>
      var rest := ReadNamesFrom(data, next, total - i - 1);
      assert ReadNamesFrom(data, pos, total - i) == PrependNames([name], rest);
      if rest.Some? {
        assert names + ([name] + rest.value) == (names + [name]) + rest.value;
      }
  }

  lemma {:induction false} ReadLoopEnd(data: seq<Byte>, start: int, total: nat, names: seq<Name>, pos: int, i: nat)
    requires ReadLoopInv(data, start, total, names, pos, i) && i == total
    ensures ReadNamesFrom(data, start, total) == Some(names)
  {
    assert names + [] == names;
  }

  /** The body of the `read_name_table` loop at `pos`. */
  method ReadOneName(data: seq<Byte>, pos: int) returns (step: Option<ReadStep>)
    ensures step == ReadStepAt(data, pos)
  {
    if pos >= |data| - 4 {
      return Some(Stop);
    }
    var strLen := ReadI32(data, pos);
    if strLen.None? {
      return None;
    }
    var s := TakeName(data, pos, strLen.value);
    return Some(s);
  }

  /** The body of the loop once the length `n` at `pos` has been read. */
  method TakeName(data: seq<Byte>, pos: int, n: int) returns (step: ReadStep)
    ensures step == ReadStepWith(data, pos, n)
  {
    var p := pos + 4;
    var name: Name;
    if n < 0 {
      var units := -n;
      name := DecodeText(Slice(data, p, p + units * 2), true);
      p := p + units * 2;
    } else if 0 < n < TEXT_LIMIT {
      name := DecodeText(Slice(data, p, p + n), false);
      p := p + n;
    } else {
      return Stop;
    }
    p := p + 4;
    step := Took(name, p);
  }

  /** `read_name_table` (the bytes it also returns are its input). */
  method ReadNameTable(data: seq<Byte>) returns (r: Option<seq<Name>>)
    ensures r == ReadNameTableSpec(data)
  {
    var nameCount := ReadI32(data, NAME_COUNT_AT);
    var nameOffset := ReadI32(data, NAME_OFFSET_AT);
    if nameCount.None? || nameOffset.None? {
      return None;
    }
    var total := Times(Min(nameCount.value, READ_LIMIT));
    var pos := nameOffset.value;
    var names: seq<Name> := [];
    var i := 0;
    ReadLoopStart(data, pos, total);
    while i < total
      invariant ReadLoopInv(data, nameOffset.value, total, names, pos, i)
    {
      ReadLoopStep(data, nameOffset.value, total, names, pos, i);
      var step := ReadOneName(data, pos);
      if step.None? {
        return None;
      }
      if step.value.Stop? {
        return Some(names);
      }
      names := names + [step.value.name];
      pos := step.value.next;
      i := i + 1;
    }
    ReadLoopEnd(data, nameOffset.value, total, names, pos, i);
    return Some(names);
  }

  // ---------------------------------------------------------------------------
  // patch_uasset_names: the end-of-table scan

  /** The bytes the scan skips for a length `n`: 2|n| for 16-bit text, n for 8-bit
      text, nothing for 0. No length is rejected. */
  function SkipWidth(n: int): nat
  {
    if n < 0 then -n * 2 else if n > 0 then n else 0
  }

  /** The scan for the end of the name table from `pos` with `remaining` passes left:
      it stops four bytes short of the end of the data. None: a length does not unpack. */
  function ScanEndFrom(data: seq<Byte>, pos: int, remaining: nat): (r: Option<int>)
    ensures r.Some? ==> pos <= r.value
    decreases remaining
  {
    if remaining == 0 || pos >= |data| - 4 then Some(pos)
    else
      match ReadI32(data, pos)
      case None => None
      case Some(n) => ScanEndFrom(data, pos + 4 + SkipWidth(n) + 4, remaining - 1)
  }

  /** The scan loop of `patch_uasset_names`. */
  method ScanNameTableEnd(data: seq<Byte>, nameOffset: int, nameCount: int) returns (r: Option<int>)
    ensures r == ScanEndFrom(data, nameOffset, Times(nameCount))
  {
    var total := Times(nameCount);
    var pos := nameOffset;
    var i := 0;
    while i < total
      invariant i <= total
      invariant ScanEndFrom(data, nameOffset, total) == ScanEndFrom(data, pos, total - i)
    {
      if pos >= |data| - 4 {
        break;
      }
      var strLen := ReadI32(data, pos);
      if strLen.None? {
        return None;
      }
      pos := pos + 4;
      if strLen.value < 0 {
        pos := pos + -strLen.value * 2;
      } else if strLen.value > 0 {
        pos := pos + strLen.value;
      }
      pos := pos + 4;
      i := i + 1;
    }
    return Some(pos);
  }

  // ---------------------------------------------------------------------------
  // patch_uasset_names: the new entries and their indices

  /** Every name's length field packs as `'<I'`. */
  predicate Packable(names: seq<seq<Byte>>)
  {
    forall i :: 0 <= i < |names| ==> |names[i]| + 1 < TWO_32
  }

  /** The pieces one after another. */
  function Concat(parts: seq<seq<Byte>>): seq<Byte>
    decreases |parts|
  {
    if parts == [] then [] else parts[0] + Concat(parts[1..])
  }

  /** One 8-bit entry per requested name, in order, duplicates included. */
  function EntryList(names: seq<seq<Byte>>): (es: seq<seq<Byte>>)
    requires Packable(names)
    ensures |es| == |names|
  {
    seq(|names|, i requires 0 <= i < |names| => NameEntry(names[i]))
  }

  /** The bytes `patch_uasset_names` splices in. */
  function NewEntries(names: seq<seq<Byte>>): seq<Byte>
    requires Packable(names)
  {
    Concat(EntryList(names))
  }

  /** The size of an entry per name, added up. */
  function EntriesSize(names: seq<seq<Byte>>): nat
  {
    if names == [] then 0 else EntrySize(names[0]) + EntriesSize(names[1..])
  }

  /** `new_indices` after the names so far: each name maps to the count before the
      call plus its position, a later occurrence overwriting an earlier one. */
  function NewIndices(names: seq<seq<Byte>>, nameCount: int): map<seq<Byte>, int>
  {
    if names == [] then map[]
    else NewIndices(names[..|names| - 1], nameCount)[names[|names| - 1] := nameCount + |names| - 1]
  }

  lemma {:induction false} ConcatAppend(parts: seq<seq<Byte>>, x: seq<Byte>)
    ensures Concat(parts + [x]) == Concat(parts) + x
    decreases |parts|
  {
    if parts == [] {
      assert [x][1..] == [];
    } else {
      assert (parts + [x])[1..] == parts[1..] + [x];
      ConcatAppend(parts[1..], x);
    }
  }

  /** One pass of the entry building loop, in terms of the prefix built so far. */
  lemma {:induction false} BuildStep(names: seq<seq<Byte>>, i: nat, nameCount: int)
    requires i < |names| && Packable(names[..i]) && |names[i]| + 1 < TWO_32
    ensures Packable(names[..i + 1])
    ensures NewEntries(names[..i + 1]) == NewEntries(names[..i]) + NameEntry(names[i])
    ensures NewIndices(names[..i + 1], nameCount) == NewIndices(names[..i], nameCount)[names[i] := nameCount + i]
  {
    var pre := names[..i + 1];
    assert pre == names[..i] + [names[i]];
    assert pre[..|pre| - 1] == names[..i];
    assert EntryList(pre) == EntryList(names[..i]) + [NameEntry(names[i])];
    ConcatAppend(EntryList(names[..i]), NameEntry(names[i]));
  }

  /** `pack('<I', len(name_bytes)) + name_bytes + pack('<I', hash_val)`. */
  method EntryOf(name: seq<Byte>) returns (entry: seq<Byte>)
    requires |name| + 1 < TWO_32
    ensures entry == NameEntry(name)
  {
    var nameBytes := name + [0];
    var hashVal := ComputeHash(name);
    entry := PackU32(|nameBytes|) + nameBytes + PackU32(hashVal);
  }

  /** The entry building loop: entries and indices for `names`, or None when a
      length field does not pack. */
  method BuildEntries(names: seq<seq<Byte>>, nameCount: int) returns (r: Option<(seq<Byte>, map<seq<Byte>, int>)>)
    ensures r.None? <==> !Packable(names)
    ensures r.Some? ==> Packable(names) && r.value.0 == NewEntries(names) && r.value.1 == NewIndices(names, nameCount)
  {
    var newData: seq<Byte> := [];
    var newIndices: map<seq<Byte>, int> := map[];
    var count := nameCount;
    var i := 0;
    while i < |names|
      invariant 0 <= i <= |names| && count == nameCount + i
      invariant Packable(names[..i])
      invariant newData == NewEntries(names[..i]) && newIndices == NewIndices(names[..i], nameCount)
    {
      var name := names[i];
      if |name| + 1 >= TWO_32 {
        return None;
      }
      var entry := EntryOf(name);
      BuildStep(names, i, nameCount);
      newData := newData + entry;
      newIndices := newIndices[name := count];
      count := count + 1;
      i := i + 1;
    }
    assert names[..i] == names;
    return Some((newData, newIndices));
  }

  // ---------------------------------------------------------------------------
  // patch_uasset_names: the header fields it relocates

  /** A relocated field's new value: a value pointing strictly past the old end of
      the name table grows by the size of the new entries. */
  function Moved(v: int, tableEnd: int, shift: nat): int
  {
    if v > tableEnd then v + shift else v
  }

  /** One entry of the relocation list: when the field lies inside the data, an int32
      stored there that points strictly past `tableEnd` grows by `shift`.
      None: the grown value does not pack as `'<i'`. */
  function RelocateField(d: seq<Byte>, off: nat, tableEnd: int, shift: nat): (r: Option<seq<Byte>>)
    ensures r.Some? ==> |r.value| == |d|
    ensures r.Some? ==> forall k :: 0 <= k < |d| && (k < off || off + 4 <= k) ==> r.value[k] == d[k]
  {
    if off + 4 <= |d| then
      ReadInside(d, off, 4);
      var v := ReadI32(d, off).value;
      if v <= tableEnd then Some(d)
      else if IsInt32(v + shift) then Some(WriteI32(d, off, v + shift))
      else None
    else Some(d)
  }

  /** `k` lies outside every field of `fields`. */
  predicate Outside(fields: seq<nat>, k: int)
  {
    forall j :: 0 <= j < |fields| ==> k < fields[j] || fields[j] + 4 <= k
  }

  /** The relocation loop over `fields`, in order; it stops at the first failure. */
  function RelocateFrom(d: seq<Byte>, tableEnd: int, shift: nat, fields: seq<nat>): (r: Option<seq<Byte>>)
    ensures r.Some? ==> |r.value| == |d|
    ensures r.Some? ==> forall k :: 0 <= k < |d| && Outside(fields, k) ==> r.value[k] == d[k]
    decreases |fields|
  {
    if fields == [] then Some(d)
    else
      match RelocateField(d, fields[0], tableEnd, shift)
      case None => None
      case Some(d1) => RelocateFrom(d1, tableEnd, shift, fields[1..])
  }

  /** One pass of the relocation loop. */
  method RelocateOne(d: seq<Byte>, offset: nat, nameTableEnd: int, shift: nat) returns (r: Option<seq<Byte>>)
    ensures r == RelocateField(d, offset, nameTableEnd, shift)
  {
    if offset + 4 <= |d| {
      ReadInside(d, offset, 4);
      var oldVal := ReadI32(d, offset).value;
      if oldVal > nameTableEnd {
        if !IsInt32(oldVal + shift) {
          return None;
        }
        return Some(WriteI32(d, offset, oldVal + shift));
      }
    }
    return Some(d);
  }

  /** The relocation loop of `patch_uasset_names`. */
  method RelocateFields(data: seq<Byte>, nameTableEnd: int, shift: nat) returns (r: Option<seq<Byte>>)
    ensures r == RelocateFrom(data, nameTableEnd, shift, RELOCATED)
  {
    var d := data;
    var i := 0;
    while i < |RELOCATED|
      invariant 0 <= i <= |RELOCATED|
      invariant RelocateFrom(data, nameTableEnd, shift, RELOCATED) == RelocateFrom(d, nameTableEnd, shift, RELOCATED[i..])
    {
      var rest := RELOCATED[i..];
      assert rest[0] == RELOCATED[i] && rest[1..] == RELOCATED[i + 1..];
      var step := RelocateOne(d, RELOCATED[i], nameTableEnd, shift);
      if step.None? {
        return None;
      }
      d := step.value;
      i := i + 1;
    }
    return Some(d);
  }

  // ---------------------------------------------------------------------------
  // patch_uasset_names

  /** `name_table_end`: the end of the existing table as the scan finds it.
      None: the count, the offset or a length on the way does not unpack. */
  function TableEnd(data: seq<Byte>): (r: Option<int>)
    ensures r.Some? ==> ReadI32(data, NAME_COUNT_AT).Some? && ReadI32(data, NAME_OFFSET_AT).Some?
    ensures r.Some? ==> ReadI32(data, NAME_OFFSET_AT).value <= r.value
  {
    var count, offset := ReadI32(data, NAME_COUNT_AT), ReadI32(data, NAME_OFFSET_AT);
    if count.None? || offset.None? then None
    else ScanEndFrom(data, offset.value, Times(count.value))
  }

  datatype Patched = Patched(data: seq<Byte>, newIndices: map<seq<Byte>, int>)

  /** The data once `entries` are spliced in at `tableEnd` and the count at 41 is
      set to `newCount`, before any relocation. */
  function Counted(data: seq<Byte>, tableEnd: int, entries: seq<Byte>, newCount: int): (r: seq<Byte>)
    requires NAME_COUNT_AT + 4 <= |data| && IsInt32(newCount)
    ensures |r| == |data| + |entries|
  {
    WriteI32(Splice(data, tableEnd, entries), NAME_COUNT_AT, newCount)
  }

  /** `patch_uasset_names`: the new entries spliced in at the end of the table, the
      count at 41 raised by the number of names, the five fields relocated, and each
      name's new index. None wherever the code raises `struct.error`. */
  function PatchSpec(data: seq<Byte>, names: seq<seq<Byte>>): Option<Patched>
  {
    match TableEnd(data)
    case None => None
    case Some(tableEnd) => PatchAt(data, names, tableEnd, ReadI32(data, NAME_COUNT_AT).value)
  }

  /** The rest of `patch_uasset_names` once the old end of the table and the old
      count are known. The length guard cannot fail once the count has been read. */
  function PatchAt(data: seq<Byte>, names: seq<seq<Byte>>, tableEnd: int, count: int): Option<Patched>
  {
    if !Packable(names) || !IsInt32(count + |names|) || |data| < NAME_COUNT_AT + 4 then None
    else
      match Relocated(data, tableEnd, NewEntries(names), count + |names|)
      case None => None
      case Some(d) => Some(Patched(d, NewIndices(names, count)))
  }

  /** `entries` spliced in at `tableEnd`, the count at 41 set to `newCount`, then the
      five fields relocated by the size of the entries. */
  function Relocated(data: seq<Byte>, tableEnd: int, entries: seq<Byte>, newCount: int): Option<seq<Byte>>
    requires NAME_COUNT_AT + 4 <= |data| && IsInt32(newCount)
  {
    RelocateFrom(Counted(data, tableEnd, entries, newCount), tableEnd, |entries|, RELOCATED)
  }

  method PatchUAssetNames(uassetData: seq<Byte>, namesToAdd: seq<seq<Byte>>) returns (r: Option<Patched>)
    ensures r == PatchSpec(uassetData, namesToAdd)
  {
    var data := uassetData;
    var nameCount := ReadI32(data, NAME_COUNT_AT);
    var nameOffset := ReadI32(data, NAME_OFFSET_AT);
    if nameCount.None? || nameOffset.None? {
      return None;
    }
    var tableEnd := ScanNameTableEnd(data, nameOffset.value, nameCount.value);
    assert tableEnd == TableEnd(uassetData);
    if tableEnd.None? {
      return None;
    }
    var nameTableEnd := tableEnd.value;
    var built := BuildEntries(namesToAdd, nameCount.value);
    if built.None? {
      return None;
    }
    var newData, newIndices := built.value.0, built.value.1;
    data := Splice(data, nameTableEnd, newData);
    var count := nameCount.value + |namesToAdd|;
    if !IsInt32(count) {
      return None;
    }
    ReadInside(uassetData, NAME_COUNT_AT, 4);
    data := WriteI32(data, NAME_COUNT_AT, count);
    var relocated := RelocateFields(data, nameTableEnd, |newData|);
    if relocated.None? {
      return None;
    }
    return Some(Patched(relocated.value, newIndices));
  }

  // ---------------------------------------------------------------------------
  // Properties of the new entries and indices

  /** The appended bytes are the entries' sizes added up. */
  lemma {:induction false} NewEntriesLength(names: seq<seq<Byte>>)
    requires Packable(names)
    ensures |NewEntries(names)| == EntriesSize(names)
    decreases |names|
  {
    if names != [] {
      assert EntryList(names)[1..] == EntryList(names[1..]);
      NewEntriesLength(names[1..]);
    }
  }

  /** Exactly the requested names receive an index. */
  lemma {:induction false} NewIndicesDomain(names: seq<seq<Byte>>, nameCount: int)
    ensures forall x :: x in NewIndices(names, nameCount) <==> x in names
    decreases |names|
  {
    if names != [] {
      var init := names[..|names| - 1];
      NewIndicesDomain(init, nameCount);
      assert names == init + [names[|names| - 1]];
    }
  }

  /** A name's index is the old count plus the position of its last occurrence:
      a duplicate keeps only the index of its last entry, although every
      occurrence gets an entry of its own. */
  lemma {:induction false} NewIndicesLastWins(names: seq<seq<Byte>>, nameCount: int, j: nat)
    requires j < |names|
    requires forall k :: j < k < |names| ==> names[k] != names[j]
    ensures names[j] in NewIndices(names, nameCount)
    ensures NewIndices(names, nameCount)[names[j]] == nameCount + j
    decreases |names|
  {
    var last := |names| - 1;
    if j < last {
      var init := names[..last];
      assert forall k :: j < k < |init| ==> init[k] == names[k];
      NewIndicesLastWins(init, nameCount, j);
      assert names[last] != names[j];
    }
  }

  /** Names the 8-bit reader takes back unchanged: text shorter than 999 bytes
      that does not end in NUL. */
  predicate Readable(names: seq<seq<Byte>>)
  {
    forall i :: 0 <= i < |names| ==> |names[i]| + 1 < TEXT_LIMIT && (names[i] == [] || names[i][|names[i]| - 1] != 0)
  }

  /** One entry read back by `read_name_table` and skipped by the scan. */
  lemma {:induction false} EntryReadBack(d: seq<Byte>, p: nat, name: seq<Byte>, hash: nat)
    requires |name| + 1 < TEXT_LIMIT && (name == [] || name[|name| - 1] != 0) && hash < TWO_32
    requires p + EntrySize(name) <= |d| && d[p..p + EntrySize(name)] == EntryBytes(name, hash)
    ensures ReadStepAt(d, p) == Some(Took(name, p + EntrySize(name)))
    ensures p < |d| - 4 && ReadI32(d, p) == Some(|name| + 1)
  {
    NameEntryFields(d, p, name, hash);
    StripTerminator(name);
    assert Slice(d, p + 4, p + 4 + |name| + 1) == name + [0];
  }

  /** Two pieces stored one after the other are each in place. */
  lemma {:induction false} SplitSlice(d: seq<Byte>, p: nat, a: seq<Byte>, b: seq<Byte>)
    requires p + |a| + |b| <= |d| && d[p..p + |a| + |b|] == a + b
    ensures d[p..p + |a|] == a && d[p + |a|..p + |a| + |b|] == b
  {
    assert d[p..p + |a|] == (a + b)[..|a|];
    assert d[p + |a|..p + |a| + |b|] == (a + b)[|a|..];
  }

  /** The pieces lie one after another from `p`. */
  predicate PartsAt(d: seq<Byte>, p: int, parts: seq<seq<Byte>>)
    decreases |parts|
  {
    parts == [] ||
    (0 <= p && p + |parts[0]| <= |d| && d[p..p + |parts[0]|] == parts[0] && PartsAt(d, p + |parts[0]|, parts[1..]))
  }

  /** Stored concatenated, the pieces lie one after another. */
  lemma {:induction false} ConcatPlaced(d: seq<Byte>, p: nat, parts: seq<seq<Byte>>)
    requires p + |Concat(parts)| <= |d| && d[p..p + |Concat(parts)|] == Concat(parts)
    ensures PartsAt(d, p, parts)
    decreases |parts|
  {
    if parts != [] {
      SplitSlice(d, p, parts[0], Concat(parts[1..]));
      ConcatPlaced(d, p + |parts[0]|, parts[1..]);
    }
  }

  /** One pass of `read_name_table` that takes a name. */
  lemma {:induction false} ReadNamesTook(d: seq<Byte>, p: int, remaining: nat, name: Name, next: int)
    requires remaining > 0 && ReadStepAt(d, p) == Some(Took(name, next))
    ensures ReadNamesFrom(d, p, remaining) == PrependNames([name], ReadNamesFrom(d, next, remaining - 1))
  {
  }

  /** One pass of the end-of-table scan over a length `n` at `p`. */
  lemma {:induction false} ScanStep(d: seq<Byte>, p: int, remaining: nat, n: int)
    requires remaining > 0 && p < |d| - 4 && ReadI32(d, p) == Some(n)
    ensures ScanEndFrom(d, p, remaining) == ScanEndFrom(d, p + 4 + SkipWidth(n) + 4, remaining - 1)
  {
  }

  /** A readable entry of `name` lies at `p`, with some hash. */
  predicate EntryAt(d: seq<Byte>, p: int, name: seq<Byte>)
  {
    |name| + 1 < TEXT_LIMIT && (name == [] || name[|name| - 1] != 0) &&
    0 <= p && p + EntrySize(name) <= |d| &&
    exists h: nat :: h < TWO_32 && d[p..p + EntrySize(name)] == EntryBytes(name, h)
  }

  /** Readable entries of `names` lie one after another from `p`. */
  predicate EntriesAt(d: seq<Byte>, p: int, names: seq<seq<Byte>>)
    decreases |names|
  {
    names == [] || (EntryAt(d, p, names[0]) && EntriesAt(d, p + EntrySize(names[0]), names[1..]))
  }

  /** A readable entry is taken back by one pass of the reader and of the scan. */
  lemma {:induction false} EntryTaken(d: seq<Byte>, p: int, name: seq<Byte>)
    requires EntryAt(d, p, name)
    ensures p < |d| - 4 && ReadI32(d, p) == Some(|name| + 1)
    ensures ReadStepAt(d, p) == Some(Took(name, p + EntrySize(name)))
  {
    var h: nat :| h < TWO_32 && d[p..p + EntrySize(name)] == EntryBytes(name, h);
    EntryReadBack(d, p, name, h);
  }

  /** The appended entries of readable names, in place, are readable entries. */
  lemma {:induction false} PartsAreEntries(d: seq<Byte>, p: int, names: seq<seq<Byte>>)
    requires Readable(names) && Packable(names) && PartsAt(d, p, EntryList(names))
    ensures EntriesAt(d, p, names)
    decreases |names|
  {
    if names != [] {
      var name := names[0];
      assert EntryList(names)[1..] == EntryList(names[1..]);
      assert EntryList(names)[0] == EntryBytes(name, NameHash(name));
      PartsAreEntries(d, p + EntrySize(name), names[1..]);
    }
  }

  /** Entries in place are what `read_name_table` returns from `p`. */
  lemma {:induction false} TakenNames(d: seq<Byte>, p: int, names: seq<seq<Byte>>)
    requires EntriesAt(d, p, names)
    ensures ReadNamesFrom(d, p, |names|) == Some(names)
    decreases |names|
  {
    if names != [] {
      var name, tail := names[0], names[1..];
      var q := p + EntrySize(name);
      TakenNames(d, q, tail);
      EntryTaken(d, p, name);
      ReadNamesTook(d, p, |names|, name, q);
      assert [name] + tail == names;
    }
  }

  /** The end-of-table scan steps over exactly the entries in place. */
  lemma {:induction false} TakenScan(d: seq<Byte>, p: int, names: seq<seq<Byte>>)
    requires EntriesAt(d, p, names)
    ensures ScanEndFrom(d, p, |names|) == Some(p + EntriesSize(names))
    decreases |names|
  {
    if names != [] {
      var name, tail := names[0], names[1..];
      var q := p + EntrySize(name);
      assert EntriesSize(names) == EntrySize(name) + EntriesSize(tail);
      TakenScan(d, q, tail);
      EntryTaken(d, p, name);
      ScanStep(d, p, |names|, |name| + 1);
      assert p + 4 + SkipWidth(|name| + 1) + 4 == q;
    }
  }

  /** The appended entries, wherever they sit, read back as the requested names,
      and the end-of-table scan steps over exactly them. */
  lemma {:induction false} EntriesReadBack(d: seq<Byte>, p: nat, names: seq<seq<Byte>>)
    requires Readable(names) && Packable(names)
    requires p + |NewEntries(names)| <= |d| && d[p..p + |NewEntries(names)|] == NewEntries(names)
    ensures EntriesAt(d, p, names)
    ensures ReadNamesFrom(d, p, |names|) == Some(names)
    ensures ScanEndFrom(d, p, |names|) == Some(p + EntriesSize(names))
  {
    NewEntriesLength(names);
    ConcatPlaced(d, p, EntryList(names));
    PartsAreEntries(d, p, names);
    TakenNames(d, p, names);
    TakenScan(d, p, names);
  }

  // ---------------------------------------------------------------------------
  // Properties of the relocation

  /** The int32 stored at `off`. */
  function FieldValue(d: seq<Byte>, off: nat): (v: int)
    requires off + 4 <= |d|
    ensures ReadI32(d, off) == Some(v)
  {
    ReadInside(d, off, 4);
    ReadI32(d, off).value
  }

  /** A value whose relocation packs. */
  predicate MoveFits(v: int, tableEnd: int, shift: nat)
  {
    v <= tableEnd || IsInt32(v + shift)
  }

  /** Fields in increasing order, four bytes apart or more, all inside `n` bytes. */
  predicate Spaced(fields: seq<nat>, n: nat)
  {
    (forall j :: 0 <= j < |fields| ==> fields[j] + 4 <= n) &&
    (forall i, j :: 0 <= i < j < |fields| ==> fields[i] + 4 <= fields[j])
  }

  lemma {:induction false} SameField(d1: seq<Byte>, d2: seq<Byte>, off: nat)
    requires off + 4 <= |d1| && off + 4 <= |d2|
    requires forall k :: off <= k < off + 4 ==> d1[k] == d2[k]
    ensures FieldValue(d1, off) == FieldValue(d2, off)
  {
    assert d1[off..off + 4] == d2[off..off + 4];
    ReadSameBytes(d1, d2, off, 4);
  }

  /** The relocation over separate fields succeeds exactly when every moved value
      packs, and then each field holds its moved value. */
  lemma {:induction false} RelocateEffect(d: seq<Byte>, tableEnd: int, shift: nat, fields: seq<nat>)
    requires Spaced(fields, |d|)
    ensures RelocateFrom(d, tableEnd, shift, fields).Some? <==>
      forall j :: 0 <= j < |fields| ==> MoveFits(FieldValue(d, fields[j]), tableEnd, shift)
    ensures RelocateFrom(d, tableEnd, shift, fields).Some? ==>
      forall j :: 0 <= j < |fields| ==>
        ReadI32(RelocateFrom(d, tableEnd, shift, fields).value, fields[j]) == Some(Moved(FieldValue(d, fields[j]), tableEnd, shift))
    decreases |fields|
  {
    if fields != [] {
      var f, tail := fields[0], fields[1..];
      var v := FieldValue(d, f);
      match RelocateField(d, f, tableEnd, shift)
      case None =>
        assert !MoveFits(FieldValue(d, fields[0]), tableEnd, shift);
      case Some(d1) =>
        assert Spaced(tail, |d1|);
        forall j | 0 <= j < |tail|
          ensures FieldValue(d1, tail[j]) == FieldValue(d, tail[j])
        {
          assert tail[j] == fields[j + 1];
          SameField(d1, d, tail[j]);
        }
        RelocateEffect(d1, tableEnd, shift, tail);
        assert FieldValue(d1, f) == Moved(v, tableEnd, shift) by {
          if v > tableEnd {
            ReadI32OfWrite(d, f, v + shift);
          }
        }
        assert MoveFits(v, tableEnd, shift);
        var r := RelocateFrom(d1, tableEnd, shift, tail);
        if r.Some? {
          assert forall k :: f <= k < f + 4 ==> Outside(tail, k);
          SameField(r.value, d1, f);
          forall j | 0 <= j < |fields|
            ensures ReadI32(r.value, fields[j]) == Some(Moved(FieldValue(d, fields[j]), tableEnd, shift))
          {
            if j > 0 {
              assert fields[j] == tail[j - 1];
            }
          }
        }
    }
  }

  // ---------------------------------------------------------------------------
  // Properties of patch_uasset_names

  /** The splice and the new count: the count reads back at 41 wherever the table
      ends; when it ends past the relocated fields and inside the data, the entries
      sit at its end, the rest of the data follows them, and the bytes before it are
      kept except the count. */
  lemma {:induction false} CountedShape(data: seq<Byte>, tableEnd: int, entries: seq<Byte>, newCount: int)
    requires NAME_COUNT_AT + 4 <= |data| && IsInt32(newCount)
    ensures ReadI32(Counted(data, tableEnd, entries, newCount), NAME_COUNT_AT) == Some(newCount)
    ensures RELOCATED_END <= tableEnd <= |data| ==>
      var r := Counted(data, tableEnd, entries, newCount);
      r[tableEnd..tableEnd + |entries|] == entries && r[tableEnd + |entries|..] == data[tableEnd..] &&
      forall k :: 0 <= k < tableEnd && (k < NAME_COUNT_AT || NAME_COUNT_AT + 4 <= k) ==> r[k] == data[k]
  {
    var inserted := Splice(data, tableEnd, entries);
    ReadI32OfWrite(inserted, NAME_COUNT_AT, newCount);
    if RELOCATED_END <= tableEnd <= |data| {
      var r := Counted(data, tableEnd, entries, newCount);
      assert inserted == data[..tableEnd] + (entries + data[tableEnd..]);
      forall k | 0 <= k < |r| && (k < NAME_COUNT_AT || NAME_COUNT_AT + 4 <= k)
        ensures r[k] == inserted[k]
      {
        WriteI32Elsewhere(inserted, NAME_COUNT_AT, newCount, k);
      }
      assert r[tableEnd..] == inserted[tableEnd..];
      assert r[tableEnd..] == entries + data[tableEnd..];
    }
  }

  /** Once the scan has found the old end of the table, the rest of the patch. */
  lemma {:induction false} PatchSpecAt(data: seq<Byte>, names: seq<seq<Byte>>, tableEnd: int)
    requires TableEnd(data) == Some(tableEnd)
    ensures NAME_COUNT_AT + 4 <= |data|
    ensures PatchSpec(data, names) == PatchAt(data, names, tableEnd, ReadI32(data, NAME_COUNT_AT).value)
  {
    ReadInside(data, NAME_COUNT_AT, 4);
  }

  /** A successful patch is the splice, count and relocation of the new entries. */
  lemma {:induction false} PatchSpecData(data: seq<Byte>, names: seq<seq<Byte>>, tableEnd: int)
    requires TableEnd(data) == Some(tableEnd) && PatchSpec(data, names).Some?
    ensures var count := ReadI32(data, NAME_COUNT_AT).value;
      Packable(names) && IsInt32(count + |names|) && NAME_COUNT_AT + 4 <= |data| &&
      Relocated(data, tableEnd, NewEntries(names), count + |names|).Some? &&
      PatchSpec(data, names).value.data == Relocated(data, tableEnd, NewEntries(names), count + |names|).value
  {
    PatchSpecAt(data, names, tableEnd);
  }

  /** Bytes kept from `from` on make the same suffix. */
  lemma {:induction false} SuffixKept(r: seq<Byte>, d: seq<Byte>, from: nat)
    requires |r| == |d| && from <= |d|
    requires forall k :: from <= k < |d| ==> r[k] == d[k]
    ensures r[from..] == d[from..]
  {
  }

  /** Equal suffixes from `p` on have equal pieces at and after `q`. */
  lemma {:induction false} SameSuffixSlices(x: seq<Byte>, y: seq<Byte>, p: nat, q: nat)
    requires p <= q <= |x| && p <= |y| && x[p..] == y[p..]
    ensures x[p..q] == y[p..q] && x[q..] == y[q..]
  {
    assert |x| == |y|;
    assert x[p..q] == x[p..][..q - p];
    assert y[p..q] == y[p..][..q - p];
    assert x[q..] == x[p..][q - p..];
    assert y[q..] == y[p..][q - p..];
  }

  /** A byte of the header fields `patch_uasset_names` rewrites: the count at 41
      and the five relocated fields at 49 to 69. */
  predicate InPatchedField(k: int)
  {
    NAME_COUNT_AT <= k < NAME_COUNT_AT + 4 || RELOCATED[0] <= k < RELOCATED_END
  }

  lemma {:induction false} RelocatedSpaced(n: nat)
    requires RELOCATED_END <= n
    ensures Spaced(RELOCATED, n)
    ensures forall k :: (k < RELOCATED[0] || RELOCATED_END <= k) ==> Outside(RELOCATED, k)
  {
  }

  /** Whenever splice, count and relocation succeed, the data grows by the entries
      and the new count reads back at 41. */
  lemma {:induction false} RelocatedResult(data: seq<Byte>, tableEnd: int, entries: seq<Byte>, newCount: int)
    requires NAME_COUNT_AT + 4 <= |data| && IsInt32(newCount)
    ensures Relocated(data, tableEnd, entries, newCount).Some? ==>
      var r := Relocated(data, tableEnd, entries, newCount).value;
      |r| == |data| + |entries| && ReadI32(r, NAME_COUNT_AT) == Some(newCount)
  {
    var counted := Counted(data, tableEnd, entries, newCount);
    CountedShape(data, tableEnd, entries, newCount);
    var r := RelocateFrom(counted, tableEnd, |entries|, RELOCATED);
    if r.Some? {
      assert forall k :: NAME_COUNT_AT <= k < NAME_COUNT_AT + 4 ==> Outside(RELOCATED, k);
      SameField(r.value, counted, NAME_COUNT_AT);
    }
  }

  /** With the old end of the table past the relocated fields and inside the data,
      the relocated fields still hold their old values before the relocation. */
  lemma {:induction false} CountedFields(data: seq<Byte>, tableEnd: int, entries: seq<Byte>, newCount: int)
    requires NAME_COUNT_AT + 4 <= |data| && IsInt32(newCount) && RELOCATED_END <= tableEnd <= |data|
    ensures Spaced(RELOCATED, |Counted(data, tableEnd, entries, newCount)|)
    ensures forall j :: 0 <= j < |RELOCATED| ==>
      FieldValue(Counted(data, tableEnd, entries, newCount), RELOCATED[j]) == FieldValue(data, RELOCATED[j])
  {
    var counted := Counted(data, tableEnd, entries, newCount);
    CountedShape(data, tableEnd, entries, newCount);
    RelocatedSpaced(|counted|);
    forall j | 0 <= j < |RELOCATED|
      ensures FieldValue(counted, RELOCATED[j]) == FieldValue(data, RELOCATED[j])
    {
      SameField(counted, data, RELOCATED[j]);
    }
  }

  /** With the old end of the table past the relocated fields and inside the data,
      the relocation fails exactly when a moved value does not pack. */
  lemma {:induction false} RelocatedFails(data: seq<Byte>, tableEnd: int, entries: seq<Byte>, newCount: int)
    requires NAME_COUNT_AT + 4 <= |data| && IsInt32(newCount) && RELOCATED_END <= tableEnd <= |data|
    ensures Relocated(data, tableEnd, entries, newCount).Some? <==>
      forall j :: 0 <= j < |RELOCATED| ==> MoveFits(FieldValue(data, RELOCATED[j]), tableEnd, |entries|)
  {
    CountedFields(data, tableEnd, entries, newCount);
    RelocateEffect(Counted(data, tableEnd, entries, newCount), tableEnd, |entries|, RELOCATED);
  }

  /** The layout of the patched data `r`: the entries sit at the old end of the
      table with the rest of the data after them, every byte before it outside the
      rewritten fields is kept, and each relocated field is moved by the size of
      the entries when it pointed strictly past the old end. */
  ghost predicate LaidOut(r: seq<Byte>, data: seq<Byte>, tableEnd: int, entries: seq<Byte>)
    requires RELOCATED_END <= tableEnd <= |data|
  {
    tableEnd + |entries| <= |r| &&
    r[tableEnd..tableEnd + |entries|] == entries && r[tableEnd + |entries|..] == data[tableEnd..] &&
    (forall k :: 0 <= k < tableEnd && !InPatchedField(k) ==> r[k] == data[k]) &&
    forall j :: 0 <= j < |RELOCATED| ==>
      ReadI32(r, RELOCATED[j]) == Some(Moved(FieldValue(data, RELOCATED[j]), tableEnd, |entries|))
  }

  /** With the old end of the table past the relocated fields and inside the data,
      a successful relocation leaves the entries at the old end of the table with
      the rest of the data after them, keeps every byte before it outside the
      rewritten fields, and moves each relocated field by the size of the entries
      when it pointed strictly past the old end. */
  lemma {:induction false} RelocatedLayout(data: seq<Byte>, tableEnd: int, entries: seq<Byte>, newCount: int)
    requires NAME_COUNT_AT + 4 <= |data| && IsInt32(newCount) && RELOCATED_END <= tableEnd <= |data|
    requires Relocated(data, tableEnd, entries, newCount).Some?
    ensures LaidOut(Relocated(data, tableEnd, entries, newCount).value, data, tableEnd, entries)
  {
    RelocatedBytes(data, tableEnd, entries, newCount);
    RelocatedPrefix(data, tableEnd, entries, newCount);
    RelocatedMoves(data, tableEnd, entries, newCount);
  }

  /** The bytes part of `RelocatedLayout`: entries and suffix after the old end. */
  lemma {:induction false} RelocatedBytes(data: seq<Byte>, tableEnd: int, entries: seq<Byte>, newCount: int)
    requires NAME_COUNT_AT + 4 <= |data| && IsInt32(newCount) && RELOCATED_END <= tableEnd <= |data|
    requires Relocated(data, tableEnd, entries, newCount).Some?
    ensures var r := Relocated(data, tableEnd, entries, newCount).value;
      tableEnd + |entries| <= |r| &&
      r[tableEnd..tableEnd + |entries|] == entries && r[tableEnd + |entries|..] == data[tableEnd..]
  {
    var counted := Counted(data, tableEnd, entries, newCount);
    CountedShape(data, tableEnd, entries, newCount);
    RelocateKeepsTail(counted, tableEnd, |entries|);
    var r := RelocateFrom(counted, tableEnd, |entries|, RELOCATED).value;
    SameSuffixSlices(r, counted, tableEnd, tableEnd + |entries|);
  }

  /** The relocation keeps every byte from the old end of the table on. */
  lemma {:induction false} RelocateKeepsTail(d: seq<Byte>, tableEnd: int, shift: nat)
    requires RELOCATED_END <= tableEnd <= |d| && RelocateFrom(d, tableEnd, shift, RELOCATED).Some?
    ensures RelocateFrom(d, tableEnd, shift, RELOCATED).value[tableEnd..] == d[tableEnd..]
  {
    RelocatedSpaced(|d|);
    RelocateEffect(d, tableEnd, shift, RELOCATED);
    SuffixKept(RelocateFrom(d, tableEnd, shift, RELOCATED).value, d, tableEnd);
  }

  /** The prefix part of `RelocatedLayout`: bytes outside the rewritten fields. */
  lemma {:induction false} RelocatedPrefix(data: seq<Byte>, tableEnd: int, entries: seq<Byte>, newCount: int)
    requires NAME_COUNT_AT + 4 <= |data| && IsInt32(newCount) && RELOCATED_END <= tableEnd <= |data|
    requires Relocated(data, tableEnd, entries, newCount).Some?
    ensures var r := Relocated(data, tableEnd, entries, newCount).value;
      forall k :: 0 <= k < tableEnd && !InPatchedField(k) ==> k < |r| && r[k] == data[k]
  {
    var counted := Counted(data, tableEnd, entries, newCount);
    CountedShape(data, tableEnd, entries, newCount);
    RelocatedSpaced(|counted|);
    RelocateEffect(counted, tableEnd, |entries|, RELOCATED);
  }

  /** The fields part of `RelocatedLayout`: each relocated field is moved. */
  lemma {:induction false} RelocatedMoves(data: seq<Byte>, tableEnd: int, entries: seq<Byte>, newCount: int)
    requires NAME_COUNT_AT + 4 <= |data| && IsInt32(newCount) && RELOCATED_END <= tableEnd <= |data|
    requires Relocated(data, tableEnd, entries, newCount).Some?
    ensures forall j :: 0 <= j < |RELOCATED| ==>
      ReadI32(Relocated(data, tableEnd, entries, newCount).value, RELOCATED[j]) ==
        Some(Moved(FieldValue(data, RELOCATED[j]), tableEnd, |entries|))
  {
    CountedFields(data, tableEnd, entries, newCount);
    RelocateEffect(Counted(data, tableEnd, entries, newCount), tableEnd, |entries|, RELOCATED);
  }

  /** `patch_uasset_names` succeeds only past a successful scan; then the data grows
      by one entry per name, the count at 41 is the old count plus the number of
      names, and the indices are the old count plus each name's last position. */
  lemma {:induction false} PatchResult(data: seq<Byte>, names: seq<seq<Byte>>)
    ensures PatchSpec(data, names).Some? ==> TableEnd(data).Some? && Packable(names)
    ensures PatchSpec(data, names).Some? ==>
      var count := ReadI32(data, NAME_COUNT_AT).value;
      var r := PatchSpec(data, names).value;
      |r.data| == |data| + EntriesSize(names) &&
      ReadI32(r.data, NAME_COUNT_AT) == Some(count + |names|) &&
      r.newIndices == NewIndices(names, count)
  {
    if TableEnd(data).Some? {
      var tableEnd, count := TableEnd(data).value, ReadI32(data, NAME_COUNT_AT).value;
      PatchSpecAt(data, names, tableEnd);
      if Packable(names) && IsInt32(count + |names|) {
        NewEntriesLength(names);
        RelocatedResult(data, tableEnd, NewEntries(names), count + |names|);
      }
    }
  }

  /** When the scan ends past the relocated fields and inside the data, the patch
      of packable names fails exactly when the new count or a relocated value does
      not pack. */
  lemma {:induction false} PatchFails(data: seq<Byte>, names: seq<seq<Byte>>, tableEnd: int)
    requires TableEnd(data) == Some(tableEnd) && RELOCATED_END <= tableEnd <= |data| && Packable(names)
    ensures var count := ReadI32(data, NAME_COUNT_AT).value;
      PatchSpec(data, names).Some? <==>
        IsInt32(count + |names|) &&
        forall j :: 0 <= j < |RELOCATED| ==> MoveFits(FieldValue(data, RELOCATED[j]), tableEnd, |NewEntries(names)|)
  {
    var count := ReadI32(data, NAME_COUNT_AT).value;
    PatchSpecAt(data, names, tableEnd);
    if IsInt32(count + |names|) {
      RelocatedFails(data, tableEnd, NewEntries(names), count + |names|);
    }
  }

  /** When the scan ends past the relocated fields and inside the data, a
      successful patch lays the new entries out as `LaidOut` states. */
  lemma {:induction false} PatchLayout(data: seq<Byte>, names: seq<seq<Byte>>, tableEnd: int)
    requires TableEnd(data) == Some(tableEnd) && RELOCATED_END <= tableEnd <= |data|
    requires PatchSpec(data, names).Some?
    ensures LaidOut(PatchSpec(data, names).value.data, data, tableEnd, NewEntries(names))
  {
    var count := ReadI32(data, NAME_COUNT_AT).value;
    PatchSpecData(data, names, tableEnd);
    RelocatedLayout(data, tableEnd, NewEntries(names), count + |names|);
  }

  /** When the scan ends past the relocated fields and inside the data, the names
      added (8-bit text shorter than 999 bytes without a trailing NUL) are what
      `read_name_table` reads from the old end of the table, and the end-of-table
      scan steps over exactly the new entries. */
  lemma {:induction false} PatchReadsBack(data: seq<Byte>, names: seq<seq<Byte>>, tableEnd: int)
    requires TableEnd(data) == Some(tableEnd) && RELOCATED_END <= tableEnd <= |data|
    requires Readable(names) && PatchSpec(data, names).Some?
    ensures ReadNamesFrom(PatchSpec(data, names).value.data, tableEnd, |names|) == Some(names)
    ensures ScanEndFrom(PatchSpec(data, names).value.data, tableEnd, |names|) == Some(tableEnd + EntriesSize(names))
  {
    PatchLayout(data, names, tableEnd);
    EntriesReadBack(PatchSpec(data, names).value.data, tableEnd, names);
  }

  /** The added names lie as readable entries at the old end of the table. */
  lemma {:induction false} PatchedEntries(data: seq<Byte>, names: seq<seq<Byte>>, tableEnd: int)
    requires TableEnd(data) == Some(tableEnd) && RELOCATED_END <= tableEnd <= |data|
    requires Readable(names) && PatchSpec(data, names).Some?
    ensures EntriesAt(PatchSpec(data, names).value.data, tableEnd, names)
  {
    PatchLayout(data, names, tableEnd);
    EntriesReadBack(PatchSpec(data, names).value.data, tableEnd, names);
  }
}
