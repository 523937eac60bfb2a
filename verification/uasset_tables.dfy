/** Loading a package header (`UAssetParser._parse` and the three table parsers of
    Tools/py/uasset_patcher.py): the magic check, the six header fields, the name
    table, the 28-byte import records and the bounded 104-byte export scan. */
module UAssetTables {
  import opened ByteCodec
  import opened NameText

  const MAGIC: int := 0x9E2A83C1

  // Byte offsets of the header fields the parser reads
  const NAME_COUNT_AT: nat := 41
  const NAME_OFFSET_AT: nat := 45
  const EXPORT_COUNT_AT: nat := 49
  const EXPORT_OFFSET_AT: nat := 53
  const IMPORT_COUNT_AT: nat := 57
  const IMPORT_OFFSET_AT: nat := 61
  /** First byte after the last header field the parser reads. */
  const HEADER_END: nat := 65

  const MAX_NAME_LEN: int := 10000
  const IMPORT_SIZE: nat := 28
  const EXPORT_STRIDE: nat := 104
  const MAX_EXPORTS: int := 100

  /** A name index resolved for display: the name, or the `idx_<n>` placeholder. */
  datatype Resolved = Known(name: Name) | Placeholder(index: int)

  function Resolve(names: seq<Name>, idx: int): (r: Resolved)
    ensures r.Known? <==> 0 <= idx < |names|
    ensures r.Known? ==> r.name == names[idx]
    ensures r.Placeholder? ==> r.index == idx
  {
    if 0 <= idx < |names| then Known(names[idx]) else Placeholder(idx)
  }

  datatype ImportEntry = ImportEntry(
    classPackageIdx: int, classNameIdx: int, outerIndex: int, objectNameIdx: int,
    offset: int, classPackage: Resolved, className: Resolved, objectName: Resolved)

  datatype ExportEntry = ExportEntry(
    classIndex: int, superIndex: int, templateIndex: int, outerIndex: int,
    objectNameIdx: int, objectFlags: nat, serialSize: int, serialOffset: int,
    offset: int, objectName: Resolved)

  /** The fields of a parser after loading, in the source's names. */
  datatype Asset = Asset(
    data: seq<Byte>, names: seq<Name>, imports: seq<ImportEntry>, exports: seq<ExportEntry>,
    nameCount: int, nameOffset: int, exportCount: int, exportOffset: int,
    importCount: int, importOffset: int, nameTableEnd: int, importTableEnd: int)

  datatype LoadError = StructError | InvalidMagic(magic: nat)

  datatype Result<+T> = Success(value: T) | Failure(error: LoadError)

  // ---------------------------------------------------------------------------
  // Name table

  datatype NameStep = Entry(name: Name, next: int) | TooLong(end: int)

  /** The magnitude of a name's length field; a negative field marks 16-bit text. */
  function NameLength(n: int): nat
  {
    if n < 0 then -n else n
  }

  /** The bytes the text of a name occupies: two per unit for 16-bit text. */
  function TextWidth(n: int): nat
  {
    if n < 0 then NameLength(n) * 2 else NameLength(n)
  }

  /** One pass of the name loop at `pos`: None when the length field cannot be read. */
  function NameStepAt(data: seq<Byte>, pos: int): Option<NameStep>
  {
    match ReadI32(data, pos)
    case None => None
    case Some(n) => Some(NameStepWith(data, pos, n))
  }

  /** The rest of a pass once the length field `n` at `pos` has been read. */
  function NameStepWith(data: seq<Byte>, pos: int, n: int): NameStep
  {
    if NameLength(n) > MAX_NAME_LEN then TooLong(pos + 4)
    else Entry(DecodeText(Slice(data, pos + 4, pos + 4 + TextWidth(n)), n < 0), pos + 4 + TextWidth(n) + 4)
  }

  datatype NameTable = NameTable(names: seq<Name>, end: int)

  /** The name loop from `pos` with `remaining` iterations left. */
  function ParseNamesFrom(data: seq<Byte>, pos: int, remaining: nat): (r: Option<NameTable>)
    ensures r.Some? ==> |r.value.names| <= remaining && pos <= r.value.end
    decreases remaining
  {
    if remaining == 0 || pos >= |data| then Some(NameTable([], pos))
    else
      match NameStepAt(data, pos)
      case None => None
      case Some(TooLong(e)) => Some(NameTable([], e))
      case Some(Entry(name, next)) =>
        match ParseNamesFrom(data, next, remaining - 1)
        case None => None
        case Some(t) => Some(NameTable([name] + t.names, t.end))
  }

  function PrependNames(names: seq<Name>, r: Option<NameTable>): Option<NameTable>
  {
    match r
    case None => None
    case Some(t) => Some(NameTable(names + t.names, t.end))
  }

  predicate NamesLoopInv(data: seq<Byte>, start: int, total: nat, names: seq<Name>, pos: int, i: nat)
  {
    i <= total &&
    ParseNamesFrom(data, start, total) == PrependNames(names, ParseNamesFrom(data, pos, total - i))
  }

  lemma {:induction false} NamesLoopStart(data: seq<Byte>, start: int, total: nat)
    ensures NamesLoopInv(data, start, total, [], start, 0)
  {
    var spec := ParseNamesFrom(data, start, total);
    assert spec.Some? ==> [] + spec.value.names == spec.value.names;
  }

  /** One pass of the name loop: an entry is appended and the loop moves to the next
      one; an over-long length ends the table; an unreadable length fails the parse. */
  lemma {:induction false} NamesLoopStep(data: seq<Byte>, start: int, total: nat, names: seq<Name>, pos: int, i: nat)
    requires NamesLoopInv(data, start, total, names, pos, i)
    requires i < total && pos < |data|
    ensures NameStepAt(data, pos).None? ==> ParseNamesFrom(data, start, total) == None
    ensures NameStepAt(data, pos).Some? && NameStepAt(data, pos).value.TooLong? ==>
      ParseNamesFrom(data, start, total) == Some(NameTable(names, NameStepAt(data, pos).value.end))
    ensures NameStepAt(data, pos).Some? && NameStepAt(data, pos).value.Entry? ==>
      NamesLoopInv(data, start, total, names + [NameStepAt(data, pos).value.name], NameStepAt(data, pos).value.next, i + 1)
  {
    match NameStepAt(data, pos)
    case None =>
    case Some(TooLong(e)) =>
      assert ParseNamesFrom(data, pos, total - i) == Some(NameTable([], e));
      assert names + [] == names;
    case Some(Entry(name, next)) =>
      var rest := ParseNamesFrom(data, next, total - i - 1);
      assert ParseNamesFrom(data, pos, total - i) == PrependNames([name], rest);
      if rest.Some? {
        assert names + ([name] + rest.value.names) == (names + [name]) + rest.value.names;
      }
  }

  lemma {:induction false} NamesLoopEnd(data: seq<Byte>, start: int, total: nat, names: seq<Name>, pos: int, i: nat)
    requires NamesLoopInv(data, start, total, names, pos, i)
    requires i == total || pos >= |data|
    ensures ParseNamesFrom(data, start, total) == Some(NameTable(names, pos))
  {
    assert ParseNamesFrom(data, pos, total - i) == Some(NameTable([], pos));
    assert names + [] == names;
  }

  /** One pass of the body of the `_parse_names` loop at `pos`: the length field,
      the text it announces, and the position after the hash that follows the text. */
  method ReadNameEntry(data: seq<Byte>, pos: int) returns (step: Option<NameStep>)
    ensures step == NameStepAt(data, pos)
  {
    var strLen := ReadI32(data, pos);
    if strLen.None? {
      return None;
    }
    var n := strLen.value;
    var p := pos + 4;
    var isUtf16 := false;
    if n < 0 {
      isUtf16 := true;
      n := -n;
    }
    if n > MAX_NAME_LEN {
      return Some(TooLong(p));
    }
    var width := if isUtf16 then n * 2 else n;
    var name := DecodeText(Slice(data, p, p + width), isUtf16);
    p := p + width;
    p := p + 4;
    step := Some(Entry(name, p));
  }

  /** `_parse_names`: the names and the end position (`name_table_end`). */
  method ParseNames(data: seq<Byte>, nameOffset: int, nameCount: int) returns (r: Option<NameTable>)
    ensures r == ParseNamesFrom(data, nameOffset, Max(nameCount, 0))
  {
    var total: nat := Max(nameCount, 0);
    var names: seq<Name> := [];
    var pos := nameOffset;
    var i: nat := 0;
    NamesLoopStart(data, nameOffset, total);
    while i < total && pos < |data|
      invariant NamesLoopInv(data, nameOffset, total, names, pos, i)
    {
      NamesLoopStep(data, nameOffset, total, names, pos, i);
      var step := ReadNameEntry(data, pos);
      if step.None? {
        return None;
      }
      if step.value.TooLong? {
        return Some(NameTable(names, step.value.end));
      }
      names := names + [step.value.name];
      pos := step.value.next;
      i := i + 1;
    }
    NamesLoopEnd(data, nameOffset, total, names, pos, i);
    r := Some(NameTable(names, pos));
  }

  // ---------------------------------------------------------------------------
  // Import table

  datatype ImportFields = ImportFields(classPackageIdx: int, classNameIdx: int, outerIndex: int, objectNameIdx: int)

  /** The four index fields of the 28-byte import record at `pos`; the last four
      bytes of the record are not read. */
  function ImportFieldsAt(data: seq<Byte>, pos: int): Option<ImportFields>
  {
    var cp, cn := ReadI64(data, pos), ReadI64(data, pos + 8);
    var outer, on := ReadI32(data, pos + 16), ReadI32(data, pos + 20);
    if cp.Some? && cn.Some? && outer.Some? && on.Some?
    then Some(ImportFields(cp.value, cn.value, outer.value, on.value))
    else None
  }

  function ImportAt(data: seq<Byte>, names: seq<Name>, pos: int): Option<ImportEntry>
  {
    match ImportFieldsAt(data, pos)
    case None => None
    case Some(f) =>
      Some(ImportEntry(f.classPackageIdx, f.classNameIdx, f.outerIndex, f.objectNameIdx, pos,
        Resolve(names, f.classPackageIdx), Resolve(names, f.classNameIdx), Resolve(names, f.objectNameIdx)))
  }

  datatype ImportTable = ImportTable(imports: seq<ImportEntry>, end: int)

  /** The import loop from `pos` with `remaining` iterations left. */
  function ParseImportsFrom(data: seq<Byte>, names: seq<Name>, pos: int, remaining: nat): (r: Option<ImportTable>)
    ensures r.Some? ==> |r.value.imports| <= remaining
    ensures r.Some? ==> r.value.end == pos + 28 * |r.value.imports|
    decreases remaining
  {
    if remaining == 0 || pos + IMPORT_SIZE > |data| then Some(ImportTable([], pos))
    else
      match ImportAt(data, names, pos)
      case None => None
      case Some(e) =>
        match ParseImportsFrom(data, names, pos + IMPORT_SIZE, remaining - 1)
        case None => None
        case Some(t) => Some(ImportTable([e] + t.imports, t.end))
  }

  function PrependImports(imports: seq<ImportEntry>, r: Option<ImportTable>): Option<ImportTable>
  {
    match r
    case None => None
    case Some(t) => Some(ImportTable(imports + t.imports, t.end))
  }

  /** The loop invariant of `_parse_imports`: the records read so far followed by
      what the rest of the loop reads make up the whole table. */
  predicate ImportsLoopInv(data: seq<Byte>, names: seq<Name>, start: int, total: nat,
                           imports: seq<ImportEntry>, pos: int, i: nat)
  {
    i <= total &&
    ParseImportsFrom(data, names, start, total) == PrependImports(imports, ParseImportsFrom(data, names, pos, total - i))
  }

  lemma {:induction false} ImportsLoopStart(data: seq<Byte>, names: seq<Name>, start: int, total: nat)
    ensures ImportsLoopInv(data, names, start, total, [], start, 0)
  {
    var spec := ParseImportsFrom(data, names, start, total);
    assert spec.Some? ==> [] + spec.value.imports == spec.value.imports;
  }

  /** A record that reads is appended and the loop moves 28 bytes on. */
  lemma {:induction false} ImportsLoopNext(data: seq<Byte>, names: seq<Name>, start: int, total: nat,
                        imports: seq<ImportEntry>, pos: int, i: nat)
    requires ImportsLoopInv(data, names, start, total, imports, pos, i)
    requires i < total && pos + IMPORT_SIZE <= |data| && ImportAt(data, names, pos).Some?
    ensures ImportsLoopInv(data, names, start, total, imports + [ImportAt(data, names, pos).value], pos + IMPORT_SIZE, i + 1)
  {
    var e := ImportAt(data, names, pos).value;
    var rest := ParseImportsFrom(data, names, pos + IMPORT_SIZE, total - i - 1);
    assert ParseImportsFrom(data, names, pos, total - i) == PrependImports([e], rest);
    if rest.Some? {
      assert imports + ([e] + rest.value.imports) == (imports + [e]) + rest.value.imports;
    }
  }

  /** A record that does not read makes the whole parse fail. */
  lemma {:induction false} ImportsLoopFail(data: seq<Byte>, names: seq<Name>, start: int, total: nat,
                        imports: seq<ImportEntry>, pos: int, i: nat)
    requires ImportsLoopInv(data, names, start, total, imports, pos, i)
    requires i < total && pos + IMPORT_SIZE <= |data| && ImportAt(data, names, pos).None?
    ensures ParseImportsFrom(data, names, start, total) == None
  {
  }

  /** The loop ends after `total` records or when no whole record remains. */
  lemma {:induction false} ImportsLoopEnd(data: seq<Byte>, names: seq<Name>, start: int, total: nat,
                       imports: seq<ImportEntry>, pos: int, i: nat)
    requires ImportsLoopInv(data, names, start, total, imports, pos, i)
    requires i == total || pos + IMPORT_SIZE > |data|
    ensures ParseImportsFrom(data, names, start, total) == Some(ImportTable(imports, pos))
  {
    assert ParseImportsFrom(data, names, pos, total - i) == Some(ImportTable([], pos));
    assert imports + [] == imports;
  }

  /** `_parse_imports`: the records and the end position (`import_table_end`). */
  method ParseImports(data: seq<Byte>, names: seq<Name>, importOffset: int, importCount: int) returns (r: Option<ImportTable>)
    ensures r == ParseImportsFrom(data, names, importOffset, Max(importCount, 0))
  {
    var total := Max(importCount, 0);
    var imports: seq<ImportEntry> := [];
    var pos := importOffset;
    var i := 0;
    ImportsLoopStart(data, names, importOffset, total);
    while i < total && pos + IMPORT_SIZE <= |data|
      invariant ImportsLoopInv(data, names, importOffset, total, imports, pos, i)
    {
      var imp := ImportAt(data, names, pos);
      if imp.None? {
        ImportsLoopFail(data, names, importOffset, total, imports, pos, i);
        return None;
      }
      ImportsLoopNext(data, names, importOffset, total, imports, pos, i);
      imports := imports + [imp.value];
      pos := pos + IMPORT_SIZE;
      i := i + 1;
    }
    ImportsLoopEnd(data, names, importOffset, total, imports, pos, i);
    r := Some(ImportTable(imports, pos));
  }

  // ---------------------------------------------------------------------------
  // Export table (read-only, fixed stride)

  /** The export fields `_parse_exports` reads: class, super, template and outer
      indices, the object name index, the object flags, the serial size and offset. */
  function ExportAt(data: seq<Byte>, names: seq<Name>, pos: int): Option<ExportEntry>
  {
    var c, s, t, o := ReadI32(data, pos), ReadI32(data, pos + 4), ReadI32(data, pos + 8), ReadI32(data, pos + 12);
    var n, f, size, off := ReadI32(data, pos + 16), ReadU32(data, pos + 20), ReadI64(data, pos + 24), ReadI64(data, pos + 32);
    if c.Some? && s.Some? && t.Some? && o.Some? && n.Some? && f.Some? && size.Some? && off.Some?
    then Some(ExportEntry(c.value, s.value, t.value, o.value, n.value, f.value, size.value, off.value, pos,
                          Resolve(names, n.value)))
    else None
  }

  /** The export loop from `pos` with `remaining` iterations left. */
  function ParseExportsFrom(data: seq<Byte>, names: seq<Name>, pos: int, remaining: nat): (r: Option<seq<ExportEntry>>)
    ensures r.Some? ==> |r.value| <= remaining
    ensures r.Some? ==> forall k :: 0 <= k < |r.value| ==> r.value[k].offset == pos + 104 * k
    decreases remaining
  {
    if remaining == 0 || pos + EXPORT_STRIDE > |data| then Some([])
    else
      match ExportAt(data, names, pos)
      case None => None
      case Some(e) =>
        match ParseExportsFrom(data, names, pos + EXPORT_STRIDE, remaining - 1)
        case None => None
        case Some(t) => Some([e] + t)
  }

  function PrependExports(exports: seq<ExportEntry>, r: Option<seq<ExportEntry>>): Option<seq<ExportEntry>>
  {
    match r
    case None => None
    case Some(t) => Some(exports + t)
  }

  predicate ExportsLoopInv(data: seq<Byte>, names: seq<Name>, start: int, total: nat,
                           exports: seq<ExportEntry>, pos: int, i: nat)
  {
    i <= total &&
    ParseExportsFrom(data, names, start, total) == PrependExports(exports, ParseExportsFrom(data, names, pos, total - i))
  }

  lemma {:induction false} ExportsLoopStart(data: seq<Byte>, names: seq<Name>, start: int, total: nat)
    ensures ExportsLoopInv(data, names, start, total, [], start, 0)
  {
    var spec := ParseExportsFrom(data, names, start, total);
    assert spec.Some? ==> [] + spec.value == spec.value;
  }

  /** One pass of the export loop: a record that reads is appended and the loop moves
      104 bytes on; a record that does not read makes the whole parse fail. */
  lemma {:induction false} ExportsLoopStep(data: seq<Byte>, names: seq<Name>, start: int, total: nat,
                        exports: seq<ExportEntry>, pos: int, i: nat)
    requires ExportsLoopInv(data, names, start, total, exports, pos, i)
    requires i < total && pos + EXPORT_STRIDE <= |data|
    ensures ExportAt(data, names, pos).None? ==> ParseExportsFrom(data, names, start, total) == None
    ensures ExportAt(data, names, pos).Some? ==>
      ExportsLoopInv(data, names, start, total, exports + [ExportAt(data, names, pos).value], pos + EXPORT_STRIDE, i + 1)
  {
    if ExportAt(data, names, pos).Some? {
      var e := ExportAt(data, names, pos).value;
      var rest := ParseExportsFrom(data, names, pos + EXPORT_STRIDE, total - i - 1);
      assert ParseExportsFrom(data, names, pos, total - i) == PrependExports([e], rest);
      if rest.Some? {
        assert exports + ([e] + rest.value) == (exports + [e]) + rest.value;
      }
    }
  }

  lemma {:induction false} ExportsLoopEnd(data: seq<Byte>, names: seq<Name>, start: int, total: nat,
                       exports: seq<ExportEntry>, pos: int, i: nat)
    requires ExportsLoopInv(data, names, start, total, exports, pos, i)
    requires i == total || pos + EXPORT_STRIDE > |data|
    ensures ParseExportsFrom(data, names, start, total) == Some(exports)
  {
    assert ParseExportsFrom(data, names, pos, total - i) == Some([]);
    assert exports + [] == exports;
  }

  /** `_parse_exports`: at most `min(export_count, 100)` records on a 104-byte stride. */
  method ParseExports(data: seq<Byte>, names: seq<Name>, exportOffset: int, exportCount: int) returns (r: Option<seq<ExportEntry>>)
    ensures r == ParseExportsFrom(data, names, exportOffset, Max(Min(exportCount, MAX_EXPORTS), 0))
  {
    var total: nat := Max(Min(exportCount, MAX_EXPORTS), 0);
    var exports: seq<ExportEntry> := [];
    var pos := exportOffset;
    var i: nat := 0;
    ExportsLoopStart(data, names, exportOffset, total);
    while i < total && pos + EXPORT_STRIDE <= |data|
      invariant ExportsLoopInv(data, names, exportOffset, total, exports, pos, i)
    {
      ExportsLoopStep(data, names, exportOffset, total, exports, pos, i);
      var exp := ExportAt(data, names, pos);
      if exp.None? {
        return None;
      }
      exports := exports + [exp.value];
      pos := pos + EXPORT_STRIDE;
      i := i + 1;
    }
    ExportsLoopEnd(data, names, exportOffset, total, exports, pos, i);
    r := Some(exports);
  }

  // ---------------------------------------------------------------------------
  // Loading

  /** `UAssetParser._parse` on the bytes of a `.uasset` file. */
  function LoadSpec(b: seq<Byte>): Result<Asset>
  {
    match ReadU32(b, 0)
    case None => Failure(StructError)
    case Some(magic) =>
      if magic != MAGIC then Failure(InvalidMagic(magic))
      else
        var nc, no := ReadI32(b, NAME_COUNT_AT), ReadI32(b, NAME_OFFSET_AT);
        var ec, eo := ReadI32(b, EXPORT_COUNT_AT), ReadI32(b, EXPORT_OFFSET_AT);
        var ic, io := ReadI32(b, IMPORT_COUNT_AT), ReadI32(b, IMPORT_OFFSET_AT);
        if nc.None? || no.None? || ec.None? || eo.None? || ic.None? || io.None? then Failure(StructError)
        else
          match ParseNamesFrom(b, no.value, Max(nc.value, 0))
          case None => Failure(StructError)
          case Some(nt) =>
            match ParseImportsFrom(b, nt.names, io.value, Max(ic.value, 0))
            case None => Failure(StructError)
            case Some(it) =>
              match ParseExportsFrom(b, nt.names, eo.value, Max(Min(ec.value, MAX_EXPORTS), 0))
              case None => Failure(StructError)
              case Some(ex) =>
                Success(Asset(b, nt.names, it.imports, ex, nc.value, no.value, ec.value, eo.value,
                              ic.value, io.value, nt.end, it.end))
  }

  /** `_parse`, as a loop-based computation. */
  method ParseAsset(b: seq<Byte>) returns (r: Result<Asset>)
    ensures r == LoadSpec(b)
  {
    var magic := ReadU32(b, 0);
    if magic.None? {
      return Failure(StructError);
    }
    if magic.value != MAGIC {
      return Failure(InvalidMagic(magic.value));
    }
    var nc, no := ReadI32(b, NAME_COUNT_AT), ReadI32(b, NAME_OFFSET_AT);
    var ec, eo := ReadI32(b, EXPORT_COUNT_AT), ReadI32(b, EXPORT_OFFSET_AT);
    var ic, io := ReadI32(b, IMPORT_COUNT_AT), ReadI32(b, IMPORT_OFFSET_AT);
    if nc.None? || no.None? || ec.None? || eo.None? || ic.None? || io.None? {
      return Failure(StructError);
    }
    var nt := ParseNames(b, no.value, nc.value);
    if nt.None? {
      return Failure(StructError);
    }
    var it := ParseImports(b, nt.value.names, io.value, ic.value);
    if it.None? {
      return Failure(StructError);
    }
    var ex := ParseExports(b, nt.value.names, eo.value, ec.value);
    if ex.None? {
      return Failure(StructError);
    }
    r := Success(Asset(b, nt.value.names, it.value.imports, ex.value, nc.value, no.value, ec.value, eo.value,
                       ic.value, io.value, nt.value.end, it.value.end));
  }

  // ---------------------------------------------------------------------------
  // Properties of loading

  /** Loading fails unless the first four bytes hold the magic, and reports a wrong magic. */
  lemma {:induction false} LoadChecksMagic(b: seq<Byte>)
    ensures ReadU32(b, 0) != Some(MAGIC) ==> LoadSpec(b).Failure?
    ensures |b| < 4 ==> LoadSpec(b) == Failure(StructError)
    ensures forall m :: ReadU32(b, 0) == Some(m) && m != MAGIC ==> LoadSpec(b) == Failure(InvalidMagic(m))
    ensures |b| < HEADER_END ==> LoadSpec(b).Failure?
  {
    if |b| < HEADER_END {
      ReadInside(b, IMPORT_OFFSET_AT, 4);
    }
  }

  /** A loaded asset keeps the file's bytes, reads its header fields at 41..61, and
      its tables respect the loop bounds. */
  lemma {:induction false} LoadedAsset(b: seq<Byte>)
    requires LoadSpec(b).Success?
    ensures var a := LoadSpec(b).value;
      && a.data == b && HEADER_END <= |b|
      && ReadU32(b, 0) == Some(MAGIC)
      && ReadI32(b, NAME_COUNT_AT) == Some(a.nameCount) && ReadI32(b, NAME_OFFSET_AT) == Some(a.nameOffset)
      && ReadI32(b, EXPORT_COUNT_AT) == Some(a.exportCount) && ReadI32(b, EXPORT_OFFSET_AT) == Some(a.exportOffset)
      && ReadI32(b, IMPORT_COUNT_AT) == Some(a.importCount) && ReadI32(b, IMPORT_OFFSET_AT) == Some(a.importOffset)
      && ParseNamesFrom(b, a.nameOffset, Max(a.nameCount, 0)) == Some(NameTable(a.names, a.nameTableEnd))
      && |a.names| <= Max(a.nameCount, 0)
      && |a.imports| <= Max(a.importCount, 0)
      && a.importTableEnd == a.importOffset + 28 * |a.imports|
      && |a.exports| <= MAX_EXPORTS
  {
    ReadInside(b, IMPORT_OFFSET_AT, 4);
  }

  /** A stored length of -n takes 2n bytes of 16-bit text, a length of n takes n bytes,
      and four hash bytes follow either; 16-bit text gives one unit per byte pair. */
  lemma {:induction false} NameStepConsumes(data: seq<Byte>, pos: int, n: int)
    requires 0 <= pos && ReadI32(data, pos) == Some(n)
    requires NameLength(n) <= MAX_NAME_LEN
    ensures NameStepAt(data, pos).Some? && NameStepAt(data, pos).value.Entry?
    ensures NameStepAt(data, pos).value.next == pos + 4 + (if n < 0 then 2 * -n else n) + 4
    ensures n < 0 && pos + 4 + 2 * -n <= |data| ==>
      NameStepAt(data, pos).value.name == StripNul(Units16(data[pos + 4..pos + 4 + 2 * -n]))
      && |Units16(data[pos + 4..pos + 4 + 2 * -n])| == -n
    ensures 0 <= n && pos + 4 + n <= |data| ==>
      NameStepAt(data, pos).value.name == StripNul(data[pos + 4..pos + 4 + n])
  {
    var w := if n < 0 then 2 * -n else n;
    var text := Slice(data, pos + 4, pos + 4 + w);
    assert NameStepAt(data, pos) == Some(Entry(DecodeText(text, n < 0), pos + 4 + w + 4));
    if pos + 4 + w <= |data| {
      assert text == data[pos + 4..pos + 4 + w];
    }
  }
}
