/** The read-only helpers of the inventory sort patcher: a name-table reader with
    its own sanity bounds, an import-table reader that resolves name indices for
    display, and the stub that declines to patch the inventory HUD. */
module PatchInventorySort {
  import opened ByteCodec
  import opened NameText
  import UAssetTables
  import InventorySortV2

  const PACKAGE_MAGIC: nat := 0x9E2A_83C1
  /** Buffers shorter than this are not parsed at all. */
  const MIN_SIZE: nat := 100
  const NAME_COUNT_AT: nat := 41
  const NAME_OFFSET_AT: nat := 45
  /** At most this many names are read, and no stored length may exceed it. */
  const NAME_LIMIT: nat := 1000
  const IMPORT_COUNT_AT: nat := 57
  const IMPORT_OFFSET_AT: nat := 61
  const IMPORT_LIMIT: nat := 500
  const IMPORT_STRIDE: nat := 28

  // ---------------------------------------------------------------------------
  // find_name_table

  datatype Found = Found(name: seq<Byte>, next: nat)

  /** One pass of the name loop at `pos`: the unsigned length must lie in
      1..1000 and the text must fit; the name is the text without its last byte,
      and the cursor moves past the length, the text and the hash. A length with
      the high bit set is above 1000, so the 16-bit branch of the source never
      runs. */
  function FindStepAt(data: seq<Byte>, pos: nat): (r: Option<Found>)
    ensures r.Some? ==> pos + 4 + |r.value.name| + 1 <= |data| && r.value.next == pos + 4 + |r.value.name| + 1 + 4
    ensures r.Some? ==> |r.value.name| < NAME_LIMIT && ReadU32(data, pos) == Some(|r.value.name| + 1)
    ensures r.Some? ==> r.value.name == data[pos + 4..pos + 4 + |r.value.name|]
  {
    if pos >= |data| - 4 then None
    else
      ReadInside(data, pos, 4);
      var len := ReadU32(data, pos).value;
      if len > NAME_LIMIT || len == 0 then None
      else if pos + 4 + len > |data| then None
      else Some(Found(data[pos + 4..pos + 4 + len - 1], pos + 4 + len + 4))
  }

  /** The name loop from `pos` with `remaining` passes left. */
  function FindNamesFrom(data: seq<Byte>, pos: nat, remaining: nat): seq<seq<Byte>>
    decreases remaining
  {
    if remaining == 0 then []
    else match FindStepAt(data, pos)
      case None => []
      case Some(f) => [f.name] + FindNamesFrom(data, f.next, remaining - 1)
  }

  /** `find_name_table`: nothing for a short buffer or a wrong magic; otherwise
      the names from the unsigned name offset, at most min(count, 1000) of them. */
  function FindNameTableSpec(data: seq<Byte>): seq<seq<Byte>>
  {
    if |data| < MIN_SIZE then []
    else match (ReadU32(data, 0), ReadU32(data, NAME_COUNT_AT), ReadU32(data, NAME_OFFSET_AT))
      case (Some(magic), Some(count), Some(offset)) =>
        if magic != PACKAGE_MAGIC then [] else FindNamesFrom(data, offset, Min(count, NAME_LIMIT))
      case _ => []
  }

  method FindNameTable(data: seq<Byte>) returns (names: seq<seq<Byte>>)
    ensures names == FindNameTableSpec(data)
  {
    if |data| < MIN_SIZE {
      return [];
    }
    ReadInside(data, 0, 4);
    ReadInside(data, NAME_COUNT_AT, 4);
    ReadInside(data, NAME_OFFSET_AT, 4);
    var magic := ReadU32(data, 0).value;
    if magic != PACKAGE_MAGIC {
      return [];
    }
    var nameCount := ReadU32(data, NAME_COUNT_AT).value;
    var nameOffset := ReadU32(data, NAME_OFFSET_AT).value;
    names := [];
    var pos: nat := nameOffset;
    var limit := Min(nameCount, NAME_LIMIT);
    assert FindNameTableSpec(data) == FindNamesFrom(data, nameOffset, limit);
    var i := 0;
    while i < limit
      invariant 0 <= i <= limit
      invariant FindNamesFrom(data, nameOffset, limit) == names + FindNamesFrom(data, pos, limit - i)
    {
      var step := FindNameStep(data, pos);
      FindNamesNext(data, pos, limit - i);
      if step.None? {
        break;
      }
      names := names + [step.value.name];
      pos := step.value.next;
      i := i + 1;
    }
    assert FindNamesFrom(data, pos, limit - i) == [];
  }

  /** The name loop after one pass at `pos`: nothing when the pass fails,
      otherwise the name found and the names after it. */
  lemma {:induction false} FindNamesNext(data: seq<Byte>, pos: nat, remaining: nat)
    requires 0 < remaining
    ensures FindStepAt(data, pos).None? ==> FindNamesFrom(data, pos, remaining) == []
    ensures FindStepAt(data, pos).Some? ==>
      FindNamesFrom(data, pos, remaining) ==
        [FindStepAt(data, pos).value.name] + FindNamesFrom(data, FindStepAt(data, pos).value.next, remaining - 1)
  {
  }

  /** The body of the name loop, with its three ways out. */
  method FindNameStep(data: seq<Byte>, pos: nat) returns (r: Option<Found>)
    ensures r == FindStepAt(data, pos)
  {
    if pos >= |data| - 4 {
      return None;
    }
    ReadInside(data, pos, 4);
    var strLen := ReadU32(data, pos).value;
    var p := pos + 4;
    if strLen > NAME_LIMIT || strLen == 0 {
      return None;
    }
    if p + strLen > |data| {
      return None;
    }
    var name := data[p..p + strLen - 1];
    p := p + strLen;
    p := p + 4;
    return Some(Found(name, p));
  }

  /** The name loop stops at the first pass that fails and never returns more
      names than passes, each of them shorter than 1000 bytes. */
  lemma {:induction false} FindNamesBound(data: seq<Byte>, pos: nat, remaining: nat)
    ensures |FindNamesFrom(data, pos, remaining)| <= remaining
    ensures forall k :: 0 <= k < |FindNamesFrom(data, pos, remaining)| ==>
      |FindNamesFrom(data, pos, remaining)[k]| < NAME_LIMIT
    decreases remaining
  {
    if remaining > 0 && FindStepAt(data, pos).Some? {
      var f := FindStepAt(data, pos).value;
      FindNamesBound(data, f.next, remaining - 1);
      var tail := FindNamesFrom(data, f.next, remaining - 1);
      assert FindNamesFrom(data, pos, remaining) == [f.name] + tail;
    }
  }

  /** `find_name_table` returns nothing for a buffer under 100 bytes or with the
      wrong magic, and otherwise at most min(count, 1000) names, each shorter than
      1000 bytes. */
  lemma {:induction false} FindNameTableBound(data: seq<Byte>)
    ensures |data| < MIN_SIZE || ReadU32(data, 0) != Some(PACKAGE_MAGIC) ==> FindNameTableSpec(data) == []
    ensures |data| >= MIN_SIZE ==>
      |FindNameTableSpec(data)| <= Min(ReadU32(data, NAME_COUNT_AT).value, NAME_LIMIT)
    ensures forall k :: 0 <= k < |FindNameTableSpec(data)| ==> |FindNameTableSpec(data)[k]| < NAME_LIMIT
  {
    if |data| >= MIN_SIZE {
      ReadInside(data, 0, 4);
      ReadInside(data, NAME_COUNT_AT, 4);
      ReadInside(data, NAME_OFFSET_AT, 4);
      var count, offset := ReadU32(data, NAME_COUNT_AT).value, ReadU32(data, NAME_OFFSET_AT).value;
      FindNamesBound(data, offset, Min(count, NAME_LIMIT));
    }
  }

  /** A pass fails exactly when fewer than five bytes are left, the length is 0 or
      above 1000 (which takes in every length with the high bit set), or the text
      would run past the end. */
  lemma {:induction false} FindStepStops(data: seq<Byte>, pos: nat)
    ensures FindStepAt(data, pos).None? <==>
      pos + 4 >= |data| ||
      ReadU32(data, pos).value == 0 || ReadU32(data, pos).value > NAME_LIMIT ||
      pos + 4 + ReadU32(data, pos).value > |data|
    ensures pos + 4 < |data| && ReadU32(data, pos).value >= 0x8000_0000 ==> FindStepAt(data, pos).None?
  {
    if pos + 4 < |data| {
      ReadInside(data, pos, 4);
    }
  }

  /** Readable name entries in place (such as the ones `patch_uasset_names` adds)
      are exactly what the name loop returns from their first byte. */
  lemma {:induction false} FindsEntries(d: seq<Byte>, p: nat, names: seq<seq<Byte>>)
    requires InventorySortV2.EntriesAt(d, p, names)
    ensures FindNamesFrom(d, p, |names|) == names
    decreases |names|
  {
    if names != [] {
      var name := names[0];
      FoundEntry(d, p, name);
      FindsEntries(d, p + EntrySize(name), names[1..]);
      assert names == [name] + names[1..];
    }
  }

  /** One readable entry is one pass of the name loop. */
  lemma {:induction false} FoundEntry(d: seq<Byte>, p: nat, name: seq<Byte>)
    requires InventorySortV2.EntryAt(d, p, name)
    ensures FindStepAt(d, p) == Some(Found(name, p + EntrySize(name)))
  {
    var h: nat :| h < TWO_32 && d[p..p + EntrySize(name)] == EntryBytes(name, h);
    NameEntryFields(d, p, name, h);
    ReadInside(d, p, 4);
    ReadBound(d, p, 4);
    Pow256Widths();
    assert ReadU32(d, p) == Some(|name| + 1);
    assert d[p + 4..p + 4 + |name|] == d[p + 4..p + 4 + |name| + 1][..|name|] == (name + [0])[..|name|];
  }

  /** The names `patch_uasset_names` adds are found by this reader at the old end
      of the table, as they are by `read_name_table`. */
  lemma {:induction false} FindsPatchedNames(data: seq<Byte>, names: seq<seq<Byte>>, tableEnd: int)
    requires InventorySortV2.TableEnd(data) == Some(tableEnd)
    requires InventorySortV2.RELOCATED_END <= tableEnd <= |data|
    requires InventorySortV2.Readable(names) && InventorySortV2.PatchSpec(data, names).Some?
    ensures FindNamesFrom(InventorySortV2.PatchSpec(data, names).value.data, tableEnd, |names|) == names
  {
    InventorySortV2.PatchedEntries(data, names, tableEnd);
    FindsEntries(InventorySortV2.PatchSpec(data, names).value.data, tableEnd, names);
  }

  // ---------------------------------------------------------------------------
  // analyze_imports

  /** One import as `analyze_imports` reports it: three names resolved for display
      and the raw outer index. */
  datatype ImportInfo = ImportInfo(
    classPackage: UAssetTables.Resolved, className: UAssetTables.Resolved,
    objectName: UAssetTables.Resolved, outerIndex: int)

  function InfoOf(f: UAssetTables.ImportFields, names: seq<seq<Byte>>): ImportInfo
  {
    ImportInfo(UAssetTables.Resolve(names, f.classPackageIdx), UAssetTables.Resolve(names, f.classNameIdx),
      UAssetTables.Resolve(names, f.objectNameIdx), f.outerIndex)
  }

  /** The import loop from `pos` with `remaining` passes left. */
  function ImportsFrom(data: seq<Byte>, names: seq<seq<Byte>>, pos: nat, remaining: nat): seq<ImportInfo>
    decreases remaining
  {
    if remaining == 0 || pos + IMPORT_STRIDE > |data| then []
    else RecordEntries(data, names, pos) + ImportsFrom(data, names, pos + IMPORT_STRIDE, remaining - 1)
  }

  /** What one pass appends: the record's entry, or nothing when its fields do
      not unpack. */
  function RecordEntries(data: seq<Byte>, names: seq<seq<Byte>>, pos: nat): seq<ImportInfo>
  {
    match UAssetTables.ImportFieldsAt(data, pos)
    case None => []
    case Some(f) => [InfoOf(f, names)]
  }

  /** `analyze_imports`: nothing when the count or the offset does not unpack;
      otherwise the records from the unsigned offset, at most min(count, 500). */
  function AnalyzeImportsSpec(data: seq<Byte>, names: seq<seq<Byte>>): seq<ImportInfo>
  {
    match (ReadU32(data, IMPORT_COUNT_AT), ReadU32(data, IMPORT_OFFSET_AT))
    case (Some(count), Some(offset)) => ImportsFrom(data, names, offset, Min(count, IMPORT_LIMIT))
    case _ => []
  }

  method AnalyzeImports(data: seq<Byte>, names: seq<seq<Byte>>) returns (imports: seq<ImportInfo>)
    ensures imports == AnalyzeImportsSpec(data, names)
  {
    var countField, offsetField := ReadU32(data, IMPORT_COUNT_AT), ReadU32(data, IMPORT_OFFSET_AT);
    if countField.None? || offsetField.None? {
      return [];
    }
    var importCount, importOffset := countField.value, offsetField.value;
    imports := [];
    var pos: nat := importOffset;
    var limit := Min(importCount, IMPORT_LIMIT);
    assert AnalyzeImportsSpec(data, names) == ImportsFrom(data, names, importOffset, limit);
    var i := 0;
    while i < limit
      invariant 0 <= i <= limit
      invariant ImportsFrom(data, names, importOffset, limit) == imports + ImportsFrom(data, names, pos, limit - i)
    {
      ImportsNext(data, names, pos, limit - i);
      if pos + IMPORT_STRIDE > |data| {
        break;
      }
      var entry := ImportRecord(data, names, pos);
      imports := imports + entry;
      pos := pos + IMPORT_STRIDE;
      i := i + 1;
    }
    assert ImportsFrom(data, names, pos, limit - i) == [];
  }

  /** The body of the import loop: the four fields of the record, resolved; a
      record that does not unpack adds nothing. */
  method ImportRecord(data: seq<Byte>, names: seq<seq<Byte>>, pos: nat) returns (entry: seq<ImportInfo>)
    ensures entry == RecordEntries(data, names, pos)
  {
    var fields := UAssetTables.ImportFieldsAt(data, pos);
    entry := [];
    if fields.Some? {
      entry := [InfoOf(fields.value, names)];
    }
  }

  /** The import loop after one pass at `pos`: nothing past the end of the data,
      otherwise what the record gives and the entries after it. */
  lemma {:induction false} ImportsNext(data: seq<Byte>, names: seq<seq<Byte>>, pos: nat, remaining: nat)
    requires 0 < remaining
    ensures pos + IMPORT_STRIDE > |data| ==> ImportsFrom(data, names, pos, remaining) == []
    ensures pos + IMPORT_STRIDE <= |data| ==>
      ImportsFrom(data, names, pos, remaining) ==
        RecordEntries(data, names, pos) + ImportsFrom(data, names, pos + IMPORT_STRIDE, remaining - 1)
  {
  }

  /** The number of whole records between `pos` and the end of the data. */
  function Fitting(size: nat, pos: nat): nat
  {
    if pos <= size then (size - pos) / IMPORT_STRIDE else 0
  }

  /** `info` is the entry reported for the record at `at`: its fields unpack and
      its name indices are resolved against `names`, out-of-range ones to `idx_<n>`. */
  predicate ReportsRecord(data: seq<Byte>, names: seq<seq<Byte>>, at: nat, info: ImportInfo)
  {
    RecordEntries(data, names, at) == [info]
  }

  /** The import loop reports one entry per record it reaches: as many as the
      passes allow and whole records fit. */
  lemma {:induction false} ImportsCount(data: seq<Byte>, names: seq<seq<Byte>>, pos: nat, remaining: nat)
    ensures |ImportsFrom(data, names, pos, remaining)| == Min(remaining, Fitting(|data|, pos))
    decreases remaining
  {
    if remaining > 0 && pos + IMPORT_STRIDE <= |data| {
      var next := pos + IMPORT_STRIDE;
      ImportsCount(data, names, next, remaining - 1);
      FieldsFit(data, names, pos);
      ImportsNext(data, names, pos, remaining);
      assert Fitting(|data|, pos) == Fitting(|data|, next) + 1;
    }
  }

  /** The k-th entry the import loop reports is read from `pos + 28 k`. */
  lemma {:induction false} ImportsRecords(data: seq<Byte>, names: seq<seq<Byte>>, pos: nat, remaining: nat)
    ensures forall k :: 0 <= k < |ImportsFrom(data, names, pos, remaining)| ==>
      ReportsRecord(data, names, pos + IMPORT_STRIDE * k, ImportsFrom(data, names, pos, remaining)[k])
    decreases remaining
  {
    if remaining > 0 && pos + IMPORT_STRIDE <= |data| {
      var next := pos + IMPORT_STRIDE;
      ImportsRecords(data, names, next, remaining - 1);
      FieldsFit(data, names, pos);
      ImportsNext(data, names, pos, remaining);
      RecordsShifted(data, names, pos, next, RecordEntries(data, names, pos), ImportsFrom(data, names, next, remaining - 1));
    }
  }

  /** Entries reported from `pos + 28` onwards, after the one of the record at
      `pos`, are reported from `pos` onwards. */
  lemma {:induction false} RecordsShifted(data: seq<Byte>, names: seq<seq<Byte>>, pos: nat, next: nat,
                                          first: seq<ImportInfo>, rest: seq<ImportInfo>)
    requires next == pos + IMPORT_STRIDE
    requires |first| == 1 && first == RecordEntries(data, names, pos)
    requires forall k :: 0 <= k < |rest| ==> ReportsRecord(data, names, next + IMPORT_STRIDE * k, rest[k])
    ensures forall k :: 0 <= k < |first + rest| ==> ReportsRecord(data, names, pos + IMPORT_STRIDE * k, (first + rest)[k])
  {
    var r := first + rest;
    assert [first[0]] == first;
    forall k | 0 <= k < |r|
      ensures ReportsRecord(data, names, pos + IMPORT_STRIDE * k, r[k])
    {
      if k > 0 {
        assert r[k] == rest[k - 1];
        assert pos + IMPORT_STRIDE * k == next + IMPORT_STRIDE * (k - 1);
      }
    }
  }

  /** A whole 28-byte record always unpacks. */
  lemma {:induction false} FieldsFit(data: seq<Byte>, names: seq<seq<Byte>>, pos: nat)
    requires pos + IMPORT_STRIDE <= |data|
    ensures |RecordEntries(data, names, pos)| == 1
  {
    ReadInside(data, pos, 8);
    ReadInside(data, pos + 8, 8);
    ReadInside(data, pos + 16, 4);
    ReadInside(data, pos + 20, 4);
  }

  /** `analyze_imports` reports nothing when the header fields do not unpack,
      which is when the data is shorter than 65 bytes. */
  lemma {:induction false} AnalyzeImportsShort(data: seq<Byte>, names: seq<seq<Byte>>)
    ensures |data| < IMPORT_OFFSET_AT + 4 <==> ReadU32(data, IMPORT_COUNT_AT).None? || ReadU32(data, IMPORT_OFFSET_AT).None?
    ensures |data| < IMPORT_OFFSET_AT + 4 ==> AnalyzeImportsSpec(data, names) == []
  {
    ReadInside(data, IMPORT_COUNT_AT, 4);
    ReadInside(data, IMPORT_OFFSET_AT, 4);
  }

  /** Otherwise it reports min(count, 500, whole records after the offset)
      entries, the k-th from the record at `offset + 28 k`. */
  lemma {:induction false} AnalyzeImportsShape(data: seq<Byte>, names: seq<seq<Byte>>, count: nat, offset: nat)
    requires ReadU32(data, IMPORT_COUNT_AT) == Some(count) && ReadU32(data, IMPORT_OFFSET_AT) == Some(offset)
    ensures |AnalyzeImportsSpec(data, names)| == Min(Min(count, IMPORT_LIMIT), Fitting(|data|, offset))
    ensures forall k :: 0 <= k < |AnalyzeImportsSpec(data, names)| ==>
      ReportsRecord(data, names, offset + IMPORT_STRIDE * k, AnalyzeImportsSpec(data, names)[k])
  {
    assert AnalyzeImportsSpec(data, names) == ImportsFrom(data, names, offset, Min(count, IMPORT_LIMIT));
    ImportsCount(data, names, offset, Min(count, IMPORT_LIMIT));
    ImportsRecords(data, names, offset, Min(count, IMPORT_LIMIT));
  }

  // ---------------------------------------------------------------------------
  // patch_add_sort_reference

  /** `patch_add_sort_reference` declines to patch: no new `.uasset`, no new `.uexp`. */
  function PatchAddSortReference(uassetData: seq<Byte>, uexpData: Option<seq<Byte>>): (r: (Option<seq<Byte>>, Option<seq<Byte>>))
    ensures r.0.None? && r.1.None?
  {
    (None, None)
  }
}
