/** The mutable side of `UAssetParser` (Tools/py/uasset_patcher.py): name lookup,
    name insertion with its header update, the simplified offset relocation, and
    import insertion. Each mutator is proved equal to a specification function on
    the `Asset` value; the properties of the tool are lemmas about those functions. */
module UAssetPatcher {
  import opened ByteCodec
  import opened NameText
  import opened UAssetTables

  /** `names.index(name)`, or -1 when the name is absent. */
  function IndexOf(names: seq<Name>, name: Name): (r: int)
    ensures -1 <= r < |names|
    ensures r == -1 <==> name !in names
    ensures 0 <= r ==> names[r] == name && forall k :: 0 <= k < r ==> names[k] != name
  {
    if names == [] then -1
    else if names[0] == name then 0
    else
      var r := IndexOf(names[1..], name);
      assert names == [names[0]] + names[1..];
      if r == -1 then -1 else r + 1
  }

  /** The result of an insertion: the new state and the index the call returns. */
  datatype Added = Added(asset: Asset, index: int)

  // ---------------------------------------------------------------------------
  // Relocation

  /** The relocated offsets still pack as `'<i'`. */
  predicate ShiftFits(a: Asset, position: int, amount: int)
  {
    && (a.exportOffset > position ==> IsInt32(a.exportOffset + amount))
    && (a.importOffset > position ==> IsInt32(a.importOffset + amount))
  }

  /** The header fields `_shift_offsets_after` may rewrite: the export and import offsets. */
  predicate InOffsetField(k: int)
  {
    || EXPORT_OFFSET_AT <= k < EXPORT_OFFSET_AT + 4
    || IMPORT_OFFSET_AT <= k < IMPORT_OFFSET_AT + 4
  }

  /** `_shift_offsets_after`: the export and import offsets move by `amount` when they
      lie strictly after `position`, and each moved value is written back to the header. */
  function ShiftSpec(a: Asset, position: int, amount: int): Asset
    requires HEADER_END <= |a.data| && ShiftFits(a, position, amount)
  {
    var a1 :=
      if a.exportOffset > position
      then a.(exportOffset := a.exportOffset + amount, data := WriteI32(a.data, EXPORT_OFFSET_AT, a.exportOffset + amount))
      else a;
    if a1.importOffset > position
    then a1.(importOffset := a1.importOffset + amount, data := WriteI32(a1.data, IMPORT_OFFSET_AT, a1.importOffset + amount))
    else a1
  }

  // ---------------------------------------------------------------------------
  // add_name

  /** What `add_name` needs to complete: a new name's entry, the new count and the
      relocated offsets must all pack. A name already present needs nothing. */
  predicate AddNameFits(a: Asset, name: seq<Byte>)
  {
    IndexOf(a.names, name) < 0 ==>
      && HEADER_END <= |a.data|
      && |name| + 1 < TWO_32
      && IsInt32(a.nameCount + 1)
      && ShiftFits(a, a.nameTableEnd, EntrySize(name))
  }

  /** The state after `add_name` has spliced a new entry in at `name_table_end`,
      appended the name and rewritten the count at 41, before the relocation. */
  function NameInserted(a: Asset, name: seq<Byte>): Asset
    requires HEADER_END <= |a.data| && |name| + 1 < TWO_32 && IsInt32(a.nameCount + 1)
  {
    var entry := NameEntry(name);
    var grown := a.(data := Splice(a.data, a.nameTableEnd, entry), names := a.names + [name],
                    nameCount := a.nameCount + 1, nameTableEnd := a.nameTableEnd + |entry|);
    grown.(data := WriteI32(grown.data, NAME_COUNT_AT, grown.nameCount))
  }

  /** `add_name`: a known name returns its index; a new one is spliced in as an 8-bit
      entry at `name_table_end`, the count at 41 is rewritten and the offsets after
      the insertion point are relocated. */
  function AddNameSpec(a: Asset, name: seq<Byte>): Added
    requires AddNameFits(a, name)
  {
    var existing := IndexOf(a.names, name);
    if existing >= 0 then Added(a, existing)
    else Added(ShiftSpec(NameInserted(a, name), a.nameTableEnd, EntrySize(name)), |a.names|)
  }

  /** `add_name` splices exactly one entry of 4 + len + 1 + 4 bytes for a new name,
      and nothing for a known one. */
  lemma {:induction false} AddNameLength(a: Asset, name: seq<Byte>)
    requires AddNameFits(a, name)
    ensures |AddNameSpec(a, name).asset.data| == |a.data| + (if IndexOf(a.names, name) < 0 then EntrySize(name) else 0)
  {
  }

  // ---------------------------------------------------------------------------
  // add_import

  /** The 28-byte import record `add_import` builds: two int64 indices, the outer
      index, the object name index and a zero int32. */
  function ImportRecord(classPackageIdx: int, classNameIdx: int, outerIndex: int, objectNameIdx: int): (e: seq<Byte>)
    requires IsInt64(classPackageIdx) && IsInt64(classNameIdx) && IsInt32(outerIndex) && IsInt32(objectNameIdx)
    ensures |e| == IMPORT_SIZE
  {
    PackI64(classPackageIdx) + (PackI64(classNameIdx) + (PackI32(outerIndex) + (PackI32(objectNameIdx) + PackI32(0))))
  }

  /** The state after `add_import`'s three `add_name` calls, with the indices they returned. */
  datatype NamesAdded = NamesAdded(asset: Asset, classPackageIdx: int, classNameIdx: int, objectNameIdx: int)

  /** The three name insertions can all complete. */
  predicate ImportNamesFit(a: Asset, classPackage: seq<Byte>, className: seq<Byte>, objectName: seq<Byte>)
  {
    && AddNameFits(a, classPackage)
    && var s1 := AddNameSpec(a, classPackage);
    && AddNameFits(s1.asset, className)
    && AddNameFits(AddNameSpec(s1.asset, className).asset, objectName)
  }

  /** The first half of `add_import`: the class package, class name and object name
      are added in that order, each seeing the names the previous call added. */
  function ImportNames(a: Asset, classPackage: seq<Byte>, className: seq<Byte>, objectName: seq<Byte>): NamesAdded
    requires ImportNamesFit(a, classPackage, className, objectName)
  {
    var s1 := AddNameSpec(a, classPackage);
    var s2 := AddNameSpec(s1.asset, className);
    var s3 := AddNameSpec(s2.asset, objectName);
    NamesAdded(s3.asset, s1.index, s2.index, s3.index)
  }

  /** What `add_import` needs to complete: the three name insertions, the record's
      fields and the new import count must all pack. */
  predicate AddImportFits(a: Asset, classPackage: seq<Byte>, className: seq<Byte>, objectName: seq<Byte>, outerIndex: int)
  {
    && ImportNamesFit(a, classPackage, className, objectName)
    && var n := ImportNames(a, classPackage, className, objectName);
    && HEADER_END <= |n.asset.data|
    && IsInt64(n.classPackageIdx) && IsInt64(n.classNameIdx) && IsInt32(n.objectNameIdx) && IsInt32(outerIndex)
    && IsInt32(n.asset.importCount + 1)
  }

  /** The state after `add_import` has spliced its record in at `import_table_end`,
      rewritten the count at 57 and appended the import, once the names are known. */
  function ImportInserted(b: Asset, classPackage: seq<Byte>, className: seq<Byte>, objectName: seq<Byte>,
                          classPackageIdx: int, classNameIdx: int, outerIndex: int, objectNameIdx: int): Asset
    requires HEADER_END <= |b.data| && IsInt32(b.importCount + 1)
    requires IsInt64(classPackageIdx) && IsInt64(classNameIdx) && IsInt32(outerIndex) && IsInt32(objectNameIdx)
  {
    var entry := ImportRecord(classPackageIdx, classNameIdx, outerIndex, objectNameIdx);
    var spliced := b.(data := Splice(b.data, b.importTableEnd, entry), importCount := b.importCount + 1);
    var counted := spliced.(data := WriteI32(spliced.data, IMPORT_COUNT_AT, spliced.importCount));
    var imp := ImportEntry(classPackageIdx, classNameIdx, outerIndex, objectNameIdx, b.importTableEnd,
                           Known(classPackage), Known(className), Known(objectName));
    counted.(imports := counted.imports + [imp], importTableEnd := counted.importTableEnd + |entry|)
  }

  /** `add_import`: the three names are added first, then the record is spliced in at
      `import_table_end`, the count at 57 is rewritten and the import is appended;
      the result is minus the new number of imports. */
  function AddImportSpec(a: Asset, classPackage: seq<Byte>, className: seq<Byte>, objectName: seq<Byte>, outerIndex: int): Added
    requires AddImportFits(a, classPackage, className, objectName, outerIndex)
  {
    var n := ImportNames(a, classPackage, className, objectName);
    Added(ImportInserted(n.asset, classPackage, className, objectName, n.classPackageIdx, n.classNameIdx, outerIndex, n.objectNameIdx),
          -(|n.asset.imports| + 1))
  }

  // ---------------------------------------------------------------------------
  // The parser object

  class UAssetParser {
    var data: seq<Byte>
    var names: seq<Name>
    var imports: seq<ImportEntry>
    var exports: seq<ExportEntry>
    var nameCount: int
    var nameOffset: int
    var exportCount: int
    var exportOffset: int
    var importCount: int
    var importOffset: int
    var nameTableEnd: int
    var importTableEnd: int

    function Model(): Asset
      reads this
    {
      Asset(data, names, imports, exports, nameCount, nameOffset, exportCount, exportOffset,
            importCount, importOffset, nameTableEnd, importTableEnd)
    }

    /** The buffer holds every header field the parser reads and writes. */
    predicate Valid()
      reads this
    {
      HEADER_END <= |data|
    }

    constructor FromAsset(a: Asset)
      requires HEADER_END <= |a.data|
      ensures Valid() && Model() == a
    {
      data, names, imports, exports := a.data, a.names, a.imports, a.exports;
      nameCount, nameOffset, exportCount, exportOffset := a.nameCount, a.nameOffset, a.exportCount, a.exportOffset;
      importCount, importOffset, nameTableEnd, importTableEnd := a.importCount, a.importOffset, a.nameTableEnd, a.importTableEnd;
    }

    /** `add_name` */
    method AddName(name: seq<Byte>) returns (idx: int)
      requires Valid() && AddNameFits(Model(), name)
      modifies this
      ensures Valid()
      ensures Model() == AddNameSpec(old(Model()), name).asset
      ensures idx == AddNameSpec(old(Model()), name).index
    {
      var existing := IndexOf(names, name);
      if existing >= 0 {
        return existing;
      }
      var insertPos := nameTableEnd;
      var shiftAmount := InsertNameEntry(name);
      ShiftOffsetsAfter(insertPos, shiftAmount);
      return |names| - 1;
    }

    /** The middle of `add_name` for a new name: the entry is built with its hash,
        spliced in at `name_table_end`, and the count is updated and written at 41. */
    method InsertNameEntry(name: seq<Byte>) returns (shiftAmount: int)
      requires Valid() && |name| + 1 < TWO_32 && IsInt32(nameCount + 1)
      modifies this
      ensures Valid() && Model() == NameInserted(old(Model()), name)
      ensures shiftAmount == EntrySize(name)
    {
      var nameBytes := name + [0];
      var nameLen := |nameBytes|;
      var hashVal := ComputeHash(name);
      var entry := PackU32(nameLen) + nameBytes + PackU32(hashVal);
      assert entry == NameEntry(name);
      var insertPos := nameTableEnd;
      data := Splice(data, insertPos, entry);
      names := names + [name];
      nameCount := nameCount + 1;
      nameTableEnd := nameTableEnd + |entry|;
      data := WriteI32(data, NAME_COUNT_AT, nameCount);
      shiftAmount := |entry|;
    }

    /** `_shift_offsets_after` */
    method ShiftOffsetsAfter(position: int, amount: int)
      requires Valid() && ShiftFits(Model(), position, amount)
      modifies this
      ensures Valid()
      ensures Model() == ShiftSpec(old(Model()), position, amount)
    {
      if exportOffset > position {
        exportOffset := exportOffset + amount;
        data := WriteI32(data, EXPORT_OFFSET_AT, exportOffset);
      }
      if importOffset > position {
        importOffset := importOffset + amount;
        data := WriteI32(data, IMPORT_OFFSET_AT, importOffset);
      }
    }

    /** `add_import` */
    method AddImport(classPackage: seq<Byte>, className: seq<Byte>, objectName: seq<Byte>, outerIndex: int) returns (idx: int)
      requires Valid() && AddImportFits(Model(), classPackage, className, objectName, outerIndex)
      modifies this
      ensures Valid()
      ensures Model() == AddImportSpec(old(Model()), classPackage, className, objectName, outerIndex).asset
      ensures idx == AddImportSpec(old(Model()), classPackage, className, objectName, outerIndex).index
    {
      var cpIdx := AddName(classPackage);
      var cnIdx := AddName(className);
      var onIdx := AddName(objectName);
      InsertImportEntry(classPackage, className, objectName, cpIdx, cnIdx, outerIndex, onIdx);
      return -|imports|;
    }

    /** The rest of `add_import` once the names are known: the record is built and
        spliced in at `import_table_end`, the count is written at 57 and the import
        is appended. */
    method InsertImportEntry(classPackage: seq<Byte>, className: seq<Byte>, objectName: seq<Byte>,
                             cpIdx: int, cnIdx: int, outerIndex: int, onIdx: int)
      requires Valid() && IsInt32(importCount + 1)
      requires IsInt64(cpIdx) && IsInt64(cnIdx) && IsInt32(outerIndex) && IsInt32(onIdx)
      modifies this
      ensures Valid()
      ensures Model() == ImportInserted(old(Model()), classPackage, className, objectName, cpIdx, cnIdx, outerIndex, onIdx)
    {
      var entry := PackI64(cpIdx) + PackI64(cnIdx) + PackI32(outerIndex) + PackI32(onIdx) + PackI32(0);
      assert entry == ImportRecord(cpIdx, cnIdx, outerIndex, onIdx);
      var insertPos := importTableEnd;
      data := Splice(data, insertPos, entry);
      importCount := importCount + 1;
      data := WriteI32(data, IMPORT_COUNT_AT, importCount);
      var newImport := ImportEntry(cpIdx, cnIdx, outerIndex, onIdx, insertPos,
                                   Known(classPackage), Known(className), Known(objectName));
      imports := imports + [newImport];
      importTableEnd := importTableEnd + |entry|;
    }
  }

  /** Opening a package: the parser is built from the loaded state, or loading fails
      with the error `_parse` raises. */
  method Load(b: seq<Byte>) returns (r: Result<UAssetParser>)
    ensures r.Failure? <==> LoadSpec(b).Failure?
    ensures r.Failure? ==> r.error == LoadSpec(b).error
    ensures r.Success? ==> fresh(r.value) && r.value.Valid() && r.value.Model() == LoadSpec(b).value
  {
    var loaded := ParseAsset(b);
    if loaded.Failure? {
      return Failure(loaded.error);
    }
    LoadedAsset(b);
    var parser := new UAssetParser.FromAsset(loaded.value);
    return Success(parser);
  }

  // ---------------------------------------------------------------------------
  // Relocation properties

  /** `_shift_offsets_after` moves the export and import offsets by `amount` exactly
      when they are strictly greater than `position`, writes each moved value back
      at 53 or 61, and changes nothing else. */
  lemma {:induction false} ShiftRule(a: Asset, position: int, amount: int)
    requires HEADER_END <= |a.data| && ShiftFits(a, position, amount)
    ensures var r := ShiftSpec(a, position, amount);
      && r.exportOffset == (if a.exportOffset > position then a.exportOffset + amount else a.exportOffset)
      && r.importOffset == (if a.importOffset > position then a.importOffset + amount else a.importOffset)
      && r == a.(data := r.data, exportOffset := r.exportOffset, importOffset := r.importOffset)
      && |r.data| == |a.data|
      && (a.exportOffset > position ==> ReadI32(r.data, EXPORT_OFFSET_AT) == Some(r.exportOffset))
      && (a.importOffset > position ==> ReadI32(r.data, IMPORT_OFFSET_AT) == Some(r.importOffset))
      && (forall k :: 0 <= k < |a.data| && !InOffsetField(k) ==> r.data[k] == a.data[k])
      && (a.exportOffset <= position && a.importOffset <= position ==> r == a)
  {
    var r := ShiftSpec(a, position, amount);
    var a1 :=
      if a.exportOffset > position
      then a.(exportOffset := a.exportOffset + amount, data := WriteI32(a.data, EXPORT_OFFSET_AT, a.exportOffset + amount))
      else a;
    if a.exportOffset > position {
      ReadI32OfWrite(a.data, EXPORT_OFFSET_AT, a1.exportOffset);
    }
    if a1.importOffset > position {
      ReadI32OfWrite(a1.data, IMPORT_OFFSET_AT, r.importOffset);
      WriteKeepsRead(a1.data, IMPORT_OFFSET_AT, r.importOffset, EXPORT_OFFSET_AT, 4);
    }
    forall k | 0 <= k < |a.data| && !InOffsetField(k)
      ensures r.data[k] == a.data[k]
    {
      if a.exportOffset > position {
        WriteI32Elsewhere(a.data, EXPORT_OFFSET_AT, a1.exportOffset, k);
      }
      if a1.importOffset > position {
        WriteI32Elsewhere(a1.data, IMPORT_OFFSET_AT, r.importOffset, k);
      }
    }
  }

  // ---------------------------------------------------------------------------
  // add_name properties

  /** `add_name` returns an index that names `name` and is what `find_name_index`
      reports afterwards; the list only grows, by `name`, when it was absent. */
  lemma {:induction false} AddNameNames(a: Asset, name: seq<Byte>)
    requires AddNameFits(a, name)
    ensures var s := AddNameSpec(a, name);
      && 0 <= s.index < |s.asset.names| && s.asset.names[s.index] == name
      && s.index == IndexOf(s.asset.names, name)
      && s.asset.names == (if name in a.names then a.names else a.names + [name])
      && s.asset.nameCount == (if name in a.names then a.nameCount else a.nameCount + 1)
  {
    if name !in a.names {
      var n := NameInserted(a, name);
      ShiftRule(n, a.nameTableEnd, EntrySize(name));
      assert (a.names + [name])[|a.names|] == name;
    }
  }

  /** Adding the same name twice: the second call finds it and changes nothing. */
  lemma {:induction false} AddNameIdempotent(a: Asset, name: seq<Byte>)
    requires AddNameFits(a, name)
    ensures var s := AddNameSpec(a, name);
      && AddNameFits(s.asset, name)
      && AddNameSpec(s.asset, name) == Added(s.asset, s.index)
  {
    AddNameNames(a, name);
  }

  /** A new name moves the end of the name table by the entry's size, rewrites the
      count at 41, relocates the export and import offsets only when they lie strictly
      after the old end, and leaves every other field as it was, including
      `import_table_end`. */
  lemma {:induction false} AddNameFresh(a: Asset, name: seq<Byte>)
    requires AddNameFits(a, name) && name !in a.names
    ensures var s := AddNameSpec(a, name); var r := s.asset;
      var p, e := a.nameTableEnd, EntrySize(name);
      && s.index == |a.names|
      && |r.data| == |a.data| + e
      && r.nameTableEnd == p + e
      && r.nameCount == a.nameCount + 1
      && ReadI32(r.data, NAME_COUNT_AT) == Some(a.nameCount + 1)
      && r.exportOffset == (if a.exportOffset > p then a.exportOffset + e else a.exportOffset)
      && r.importOffset == (if a.importOffset > p then a.importOffset + e else a.importOffset)
      && r.nameOffset == a.nameOffset && r.exportCount == a.exportCount
      && r.importCount == a.importCount && r.importTableEnd == a.importTableEnd
      && r.imports == a.imports && r.exports == a.exports
  {
    var p, e := a.nameTableEnd, EntrySize(name);
    var n := NameInserted(a, name);
    var grown := Splice(a.data, p, NameEntry(name));
    ReadI32OfWrite(grown, NAME_COUNT_AT, a.nameCount + 1);
    ShiftRule(n, p, e);
    var r := ShiftSpec(n, p, e);
    assert r.data[NAME_COUNT_AT..NAME_COUNT_AT + 4] == n.data[NAME_COUNT_AT..NAME_COUNT_AT + 4];
    ReadSameBytes(r.data, n.data, NAME_COUNT_AT, 4);
  }

  /** The header fields `add_name` may rewrite: the name count and the two offsets. */
  predicate InRewrittenField(k: int)
  {
    NAME_COUNT_AT <= k < NAME_COUNT_AT + 4 || InOffsetField(k)
  }

  /** Bytes of `d` with `ins` spliced in at `p`, where only the rewritten header
      fields may differ: the inserted bytes, the moved tail and the kept prefix. */
  lemma {:induction false} SplicedOutsideHeader(d: seq<Byte>, p: int, ins: seq<Byte>, r: seq<Byte>)
    requires HEADER_END <= p <= |d| && |r| == |d| + |ins|
    requires forall k :: 0 <= k < |r| && !InRewrittenField(k) ==> r[k] == Splice(d, p, ins)[k]
    ensures r[p..p + |ins|] == ins && r[p + |ins|..] == d[p..]
    ensures forall k :: 0 <= k < p && !InRewrittenField(k) ==> r[k] == d[k]
  {
    var g := Splice(d, p, ins);
    assert g == d[..p] + ins + d[p..];
    assert r[p..p + |ins|] == g[p..p + |ins|];
    assert r[p + |ins|..] == g[p + |ins|..];
  }

  /** After `add_name` inserts a new name, the buffer is the spliced one except in
      the rewritten header fields. */
  lemma {:induction false} AddNameData(a: Asset, name: seq<Byte>)
    requires AddNameFits(a, name) && name !in a.names
    ensures var r := AddNameSpec(a, name).asset.data;
      && |r| == |a.data| + EntrySize(name)
      && forall k :: 0 <= k < |r| && !InRewrittenField(k) ==> r[k] == Splice(a.data, a.nameTableEnd, NameEntry(name))[k]
  {
    var p, e := a.nameTableEnd, EntrySize(name);
    var n := NameInserted(a, name);
    var grown := Splice(a.data, p, NameEntry(name));
    ShiftRule(n, p, e);
    forall k | 0 <= k < |grown| && !InRewrittenField(k)
      ensures n.data[k] == grown[k]
    {
      WriteI32Elsewhere(grown, NAME_COUNT_AT, a.nameCount + 1, k);
    }
  }

  /** Where a new name's bytes go: the entry sits at the old `name_table_end`, what
      followed it is moved up by the entry's size, and what preceded it is unchanged
      except for the rewritten header fields. */
  lemma {:induction false} AddNameSplice(a: Asset, name: seq<Byte>)
    requires AddNameFits(a, name) && name !in a.names
    requires HEADER_END <= a.nameTableEnd <= |a.data|
    ensures var r := AddNameSpec(a, name).asset.data; var p := a.nameTableEnd;
      && r[p..p + EntrySize(name)] == NameEntry(name)
      && r[p + EntrySize(name)..] == a.data[p..]
      && forall k :: 0 <= k < p && !InRewrittenField(k) ==> r[k] == a.data[k]
  {
    AddNameData(a, name);
    SplicedOutsideHeader(a.data, a.nameTableEnd, NameEntry(name), AddNameSpec(a, name).asset.data);
  }

  /** An entry as `add_name` builds it, for a name within the loader's length limit
      and not ending in NUL, reads back through one step of the name loop. */
  lemma {:induction false} EntryReadsBack(d: seq<Byte>, p: nat, name: seq<Byte>, hash: nat)
    requires |name| + 1 <= MAX_NAME_LEN && hash < TWO_32
    requires p + EntrySize(name) <= |d| && d[p..p + EntrySize(name)] == EntryBytes(name, hash)
    requires name == [] || name[|name| - 1] != 0
    ensures NameStepAt(d, p) == Some(Entry(name, p + EntrySize(name)))
  {
    var n := |name| + 1;
    NameEntryFields(d, p, name, hash);
    assert NameStepAt(d, p) == Some(NameStepWith(d, p, n));
    assert Slice(d, p + 4, p + 4 + n) == name + [0];
    StripTerminator(name);
  }

  /** A new name that fits the loader's length limit and does not end in NUL reads
      back as a name-table entry at its own position: the same name, followed by the
      position after its hash, and the hash `add_name` computed. */
  lemma {:induction false} AddNameEntryReadsBack(a: Asset, name: seq<Byte>)
    requires AddNameFits(a, name) && name !in a.names
    requires HEADER_END <= a.nameTableEnd <= |a.data|
    requires |name| + 1 <= MAX_NAME_LEN && (name == [] || name[|name| - 1] != 0)
    ensures NameStepAt(AddNameSpec(a, name).asset.data, a.nameTableEnd) == Some(Entry(name, a.nameTableEnd + EntrySize(name)))
    ensures ReadU32(AddNameSpec(a, name).asset.data, a.nameTableEnd + 4 + |name| + 1) == Some(NameHash(name))
  {
    var r, p, h := AddNameSpec(a, name).asset.data, a.nameTableEnd, NameHash(name);
    assert p + EntrySize(name) <= |r| && r[p..p + EntrySize(name)] == EntryBytes(name, h) by {
      AddNameSplice(a, name);
      AddNameLength(a, name);
    }
    NameEntryFields(r, p, name, h);
    EntryReadsBack(r, p, name, h);
  }

  /** `add_name` leaves `import_table_end` where it was while the import table it
      marks the end of is moved: afterwards it no longer lies 28 bytes per import
      past `import_offset`. */
  lemma {:induction false} ImportTableEndGoesStale(a: Asset, name: seq<Byte>)
    requires AddNameFits(a, name) && name !in a.names
    requires a.importOffset > a.nameTableEnd
    ensures var r := AddNameSpec(a, name).asset;
      && r.importOffset == a.importOffset + EntrySize(name)
      && r.importTableEnd == a.importTableEnd
      && r.importTableEnd - r.importOffset == a.importTableEnd - a.importOffset - EntrySize(name)
  {
    AddNameFresh(a, name);
  }

  /** The relocation test is strict: an import table that starts exactly at the end
      of the name table keeps its offset, which now points at the new name entry. */
  lemma {:induction false} TableAtInsertionPointNotMoved(a: Asset, name: seq<Byte>)
    requires AddNameFits(a, name) && name !in a.names
    requires HEADER_END <= a.nameTableEnd <= |a.data| && a.importOffset == a.nameTableEnd
    requires |name| + 1 <= INT32_MAX
    ensures var r := AddNameSpec(a, name).asset;
      && r.importOffset == a.importOffset
      && ReadI32(r.data, r.importOffset) == Some(|name| + 1)
  {
    var r := AddNameSpec(a, name).asset.data;
    AddNameFresh(a, name);
    AddNameSplice(a, name);
    AddNameLength(a, name);
    NameEntryFields(r, a.nameTableEnd, name, NameHash(name));
  }

  // ---------------------------------------------------------------------------
  // add_import properties

  /** `add_name` leaves the import and export tables, their counts and
      `import_table_end` as they were, and only appends to the names. */
  lemma {:induction false} AddNameKeepsImports(a: Asset, name: seq<Byte>)
    requires AddNameFits(a, name)
    ensures var r := AddNameSpec(a, name).asset;
      && r.imports == a.imports && r.exports == a.exports
      && r.importCount == a.importCount && r.importTableEnd == a.importTableEnd
      && |a.names| <= |r.names| && r.names[..|a.names|] == a.names
      && |a.data| <= |r.data|
  {
    AddNameNames(a, name);
    AddNameLength(a, name);
    if name !in a.names {
      AddNameFresh(a, name);
    }
  }

  /** Prefixes compose. */
  lemma {:induction false} PrefixTrans(n1: seq<Name>, n2: seq<Name>, n3: seq<Name>)
    requires |n1| <= |n2| <= |n3| && n2[..|n1|] == n1 && n3[..|n2|] == n2
    ensures n3[..|n1|] == n1
  {
    assert n3[..|n1|] == n3[..|n2|][..|n1|];
  }

  /** After the three `add_name` calls of `add_import`, each returned index names the
      name it was returned for, the old names are a prefix of the new ones, and the
      import side of the state is untouched. */
  lemma {:induction false} ImportNamesResult(a: Asset, classPackage: seq<Byte>, className: seq<Byte>, objectName: seq<Byte>)
    requires ImportNamesFit(a, classPackage, className, objectName)
    ensures var n := ImportNames(a, classPackage, className, objectName); var r := n.asset;
      && 0 <= n.classPackageIdx < |r.names| && r.names[n.classPackageIdx] == classPackage
      && 0 <= n.classNameIdx < |r.names| && r.names[n.classNameIdx] == className
      && 0 <= n.objectNameIdx < |r.names| && r.names[n.objectNameIdx] == objectName
      && |a.names| <= |r.names| && r.names[..|a.names|] == a.names
      && r.imports == a.imports && r.exports == a.exports
      && r.importCount == a.importCount && r.importTableEnd == a.importTableEnd
      && |a.data| <= |r.data|
  {
    var s1 := AddNameSpec(a, classPackage);
    var s2 := AddNameSpec(s1.asset, className);
    var s3 := AddNameSpec(s2.asset, objectName);
    var n1, n2, n3 := s1.asset.names, s2.asset.names, s3.asset.names;
    assert 0 <= s1.index < |n1| && n1[s1.index] == classPackage by {
      AddNameNames(a, classPackage);
    }
    assert 0 <= s2.index < |n2| && n2[s2.index] == className by {
      AddNameNames(s1.asset, className);
    }
    assert 0 <= s3.index < |n3| && n3[s3.index] == objectName by {
      AddNameNames(s2.asset, objectName);
    }
    AddNameKeepsImports(a, classPackage);
    AddNameKeepsImports(s1.asset, className);
    AddNameKeepsImports(s2.asset, objectName);
    PrefixTrans(n1, n2, n3);
    PrefixTrans(a.names, n1, n3);
    assert n3[s1.index] == n3[..|n1|][s1.index];
    assert n3[s2.index] == n3[..|n2|][s2.index];
  }

  /** A 28-byte import record reads back as its four index fields. */
  lemma {:induction false} ImportRecordFields(d: seq<Byte>, p: nat, cp: int, cn: int, outer: int, on: int)
    requires IsInt64(cp) && IsInt64(cn) && IsInt32(outer) && IsInt32(on)
    requires p + IMPORT_SIZE <= |d| && d[p..p + IMPORT_SIZE] == ImportRecord(cp, cn, outer, on)
    ensures ImportFieldsAt(d, p) == Some(ImportFields(cp, cn, outer, on))
  {
    var t3 := PackI32(on) + PackI32(0);
    var t2 := PackI32(outer) + t3;
    var t1 := PackI64(cn) + t2;
    var e := d[p..p + IMPORT_SIZE];
    assert e == PackI64(cp) + t1;
    assert d[p..p + 8] == e[..8] == PackI64(cp);
    assert d[p + 8..p + 16] == t1[..8] == PackI64(cn);
    assert d[p + 16..p + 20] == t2[..4] == PackI32(outer);
    assert d[p + 20..p + 24] == t3[..4] == PackI32(on);
    ReadI64At(d, p, cp);
    ReadI64At(d, p + 8, cn);
    ReadI32At(d, p + 16, outer);
    ReadI32At(d, p + 20, on);
  }

  /** The record step of `add_import`: the record reads back at the old
      `import_table_end`, the bytes after it move up by 28, the count at 57 reads
      the new count, and neither the export nor the import offset is relocated. */
  lemma {:induction false} ImportInsertedLayout(b: Asset, classPackage: seq<Byte>, className: seq<Byte>, objectName: seq<Byte>,
                                                cp: int, cn: int, outer: int, on: int)
    requires HEADER_END <= b.importTableEnd <= |b.data| && IsInt32(b.importCount + 1)
    requires IsInt64(cp) && IsInt64(cn) && IsInt32(outer) && IsInt32(on)
    ensures var r := ImportInserted(b, classPackage, className, objectName, cp, cn, outer, on); var p := b.importTableEnd;
      && |r.data| == |b.data| + IMPORT_SIZE
      && ImportFieldsAt(r.data, p) == Some(ImportFields(cp, cn, outer, on))
      && r.data[p + IMPORT_SIZE..] == b.data[p..]
      && ReadI32(r.data, IMPORT_COUNT_AT) == Some(b.importCount + 1)
      && r.exportOffset == b.exportOffset && r.importOffset == b.importOffset
  {
    var p := b.importTableEnd;
    var entry := ImportRecord(cp, cn, outer, on);
    var spliced := Splice(b.data, p, entry);
    assert spliced == b.data[..p] + entry + b.data[p..];
    var r := ImportInserted(b, classPackage, className, objectName, cp, cn, outer, on).data;
    assert r == WriteI32(spliced, IMPORT_COUNT_AT, b.importCount + 1);
    ReadI32OfWrite(spliced, IMPORT_COUNT_AT, b.importCount + 1);
    forall k | p <= k < |r|
      ensures r[k] == spliced[k]
    {
      WriteI32Elsewhere(spliced, IMPORT_COUNT_AT, b.importCount + 1, k);
    }
    assert r[p..p + IMPORT_SIZE] == spliced[p..p + IMPORT_SIZE] == entry;
    assert r[p + IMPORT_SIZE..] == spliced[p + IMPORT_SIZE..] == b.data[p..];
    ImportRecordFields(r, p, cp, cn, outer, on);
  }

  /** `add_import` returns minus the new number of imports; the new import is
      appended, sits at the old `import_table_end`, and its three indices name the
      three names it was given, which are all in the name list afterwards. */
  lemma {:induction false} AddImportResult(a: Asset, classPackage: seq<Byte>, className: seq<Byte>, objectName: seq<Byte>, outerIndex: int)
    requires AddImportFits(a, classPackage, className, objectName, outerIndex)
    ensures var s := AddImportSpec(a, classPackage, className, objectName, outerIndex); var r := s.asset;
      && |r.imports| == |a.imports| + 1 && s.index == -|r.imports|
      && r.imports[..|a.imports|] == a.imports
      && r.importCount == a.importCount + 1
      && r.importTableEnd == a.importTableEnd + IMPORT_SIZE
      && |a.names| <= |r.names| && r.names[..|a.names|] == a.names
      && var imp := r.imports[|a.imports|];
      && imp.offset == a.importTableEnd && imp.outerIndex == outerIndex
      && imp.classPackage == Known(classPackage) && imp.className == Known(className) && imp.objectName == Known(objectName)
      && 0 <= imp.classPackageIdx < |r.names| && r.names[imp.classPackageIdx] == classPackage
      && 0 <= imp.classNameIdx < |r.names| && r.names[imp.classNameIdx] == className
      && 0 <= imp.objectNameIdx < |r.names| && r.names[imp.objectNameIdx] == objectName
  {
    ImportNamesResult(a, classPackage, className, objectName);
  }

  /** `add_import` writes its record where the import loop reads it back as the
      import it recorded and rewrites the count at 57, but relocates neither the
      export nor the import offset, though the bytes after its record move up by 28. */
  lemma {:induction false} AddImportReadsBack(a: Asset, classPackage: seq<Byte>, className: seq<Byte>, objectName: seq<Byte>, outerIndex: int)
    requires AddImportFits(a, classPackage, className, objectName, outerIndex)
    requires HEADER_END <= a.importTableEnd <= |a.data|
    ensures var r := AddImportSpec(a, classPackage, className, objectName, outerIndex).asset;
      var b := ImportNames(a, classPackage, className, objectName).asset;
      && |r.imports| == |a.imports| + 1
      && ImportAt(r.data, r.names, a.importTableEnd) == Some(r.imports[|a.imports|])
      && ReadI32(r.data, IMPORT_COUNT_AT) == Some(r.importCount)
      && |r.data| == |b.data| + IMPORT_SIZE && a.importTableEnd <= |b.data|
      && r.data[a.importTableEnd + IMPORT_SIZE..] == b.data[a.importTableEnd..]
      && r.exportOffset == b.exportOffset && r.importOffset == b.importOffset
  {
    var n := ImportNames(a, classPackage, className, objectName);
    ImportNamesResult(a, classPackage, className, objectName);
    ImportInsertedLayout(n.asset, classPackage, className, objectName, n.classPackageIdx, n.classNameIdx, outerIndex, n.objectNameIdx);
  }
}
