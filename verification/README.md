# Unreal package header tools, modelled in Dafny

This project models the byte-level core of the inventory-sort modding tools for
Minecraft Dungeons. That core is the code that reads and patches Unreal Engine 4
package headers (`.uasset` files). The file contents are passed in as byte
sequences, and everything else in the scripts is left out. The modelled pieces are:

- **The package parser and its patcher** (`UAssetParser` in `Tools/py/uasset_patcher.py`).
  - Loading checks the magic `0x9E2A83C1`.
  - It then reads six little-endian int32 header fields at 41, 45, 49, 53, 57 and 61.
  - It parses three tables:
    - the name table: an int32 length, then 8-bit text, or 16-bit text when the length is negative, then a 4-byte hash;
    - 28-byte import records;
    - at most 100 export records on a fixed 104-byte stride.
  - It keeps `name_table_end` and `import_table_end`.
  - `add_name` splices a new 8-bit name entry in at `name_table_end`, with an FNV-style hash seeded with 0. It then rewrites the name count and relocates the export and import offsets that lie strictly after the insertion point.
  - `add_import` adds its three names, then splices a 28-byte record in at `import_table_end`.
  - The parser is a class (`UAssetPatcher.UAssetParser`) over the parser's fields. Each mutator is proved equal to a specification function on an `Asset` value, and the properties are lemmas about those functions.
- **The batch name patcher** (`patch_uasset_names` in `Tools/py/inventory_sort_v2.py`).
  - It scans to the end of the name table.
  - It appends one entry per requested name, with no deduplication.
  - It rewrites the count at 41.
  - It moves each of the int32 fields at 49, 53, 57, 61 and 65 by the inserted size when the field points past the old end.
  - The same file also holds the name reader `read_name_table` and the overlapping pattern search `find_bytes_pattern`.
- **The inventory-sort patcher's readers** (`Tools/py/patch_inventory_sort.py`).
  - `find_name_table` reads unsigned lengths, so its 16-bit branch is unreachable.
  - `analyze_imports` reads 28-byte records and falls back to an `idx_<n>` placeholder for indices that are out of range.
  - `find_string_in_binary` is a substring search.
  - `patch_add_sort_reference` declines to patch.
- **The sort mod's binary helpers** (`Tools/py/inventory_sort_mod.py`).
  - `ByteBuffer` is a cursor over a growable byte string.
  - Fixed-width reads advance the cursor by their width.
  - `read_fstring` reads length-prefixed 8-bit or 16-bit text.
  - Every write appends at the end and leaves the cursor where it was.
  - `find_pattern_in_binary` searches with or without a byte mask.

Conventions:

- Bytes are `ByteCodec.Byte` (0..255), and buffers are `seq<Byte>`.
- `struct.unpack` of a slice that is too short (Python's `struct.error`) becomes `None`.
- Python slicing becomes `ByteCodec.Slice`: negative indices count from the end, then clamp. It never fails.
- Decoded names are code-unit sequences, `NameText.Name`:
  - 8-bit text gives its bytes;
  - 16-bit text gives its little-endian 16-bit units;
  - trailing NULs are stripped in both cases.

The modules follow the scripts:

| file | module | source |
|---|---|---|
| byte_codec.dfy | `ByteCodec` | `struct` reads, writes and packs; Python slicing; `bytes.find` |
| name_text.dfy | `NameText` | name decoding, the name hash, the 8-bit name entry |
| uasset_tables.dfy | `UAssetTables` | `UAssetParser._parse` and the three table parsers |
| uasset_patcher.dfy | `UAssetPatcher` | `find_name_index`, `add_name`, `_shift_offsets_after`, `add_import` |
| inventory_sort_v2.dfy | `InventorySortV2` | `read_name_table`, `patch_uasset_names` |
| patch_inventory_sort.dfy | `PatchInventorySort` | `find_name_table`, `analyze_imports`, `patch_add_sort_reference` |
| inventory_sort_mod.dfy | `InventorySortMod` | `ByteBuffer`, `find_pattern_in_binary` |

The model follows the code where the code differs from what the tools' own
descriptions suggest:

- **Text decoding.**
  - The three `rstrip` readers strip every trailing NUL (`rstrip('\x00')`), not a single terminator. They are `_parse_names`, `read_name_table` and `read_fstring`.
  - In those three readers, a text slice that runs past the end of the buffer is silently truncated. Only their fixed-width `struct.unpack` reads fail.
  - `find_name_table` works differently: it drops exactly one final byte of the text and strips nothing. It stops the loop when the text would run past the end of the buffer.
- **Relocation covers only part of the header.**
  - `add_name` relocates only the export and import offsets.
  - `add_name` never updates `import_table_end`, so a later `add_import` uses a stale insertion point.
  - `add_import` relocates nothing for its own 28 bytes.
  - `patch_uasset_names` relocates the export count at 49 and the import count at 57 as if they were offsets.
  - These are proved as they are written, as lemmas. They are not corrected.
- **`find_name_table` reads lengths unsigned.** Every negative length is therefore larger than 1000 and stops the loop.
- **Both searches in `find_pattern_in_binary` skip the last start.** They scan `range(len(data) - len(pattern))`, so a match at the very end is never reported, while `bytes.find` reports it.

## Model

| member | source | states |
|---|---|---|
| `ByteCodec.Slice` | Tools/py/uasset_patcher.py:87-94 | a slice never exceeds the string; for 0 <= lo <= hi it is the clamped `s[lo:hi]` |
| `ByteCodec.LeValueBound` | Tools/py/uasset_patcher.py:87-94 | n little-endian bytes hold a value below 256^n |
| `ByteCodec.LeValueOfBytes` | Tools/py/uasset_patcher.py:96-100 | packing a value below 256^n into n bytes and unpacking gives it back |
| `ByteCodec.LeBytesOfValue` | Tools/py/uasset_patcher.py:87-94 | unpacking n bytes and packing the value into n bytes gives the bytes back |
| `ByteCodec.ReadBound` | Tools/py/uasset_patcher.py:87-94 | a successful unsigned read of width w is below 256^w |
| `ByteCodec.ReadAsSlice` | Tools/py/uasset_patcher.py:87-94 | a read succeeds exactly when the slice `data[off:off+w]` has all w bytes, and then it is that slice's little-endian value |
| `ByteCodec.ReadInside` | Tools/py/uasset_patcher.py:87-94 | for a non-negative offset the read succeeds exactly when the field lies inside the buffer |
| `ByteCodec.ReadI32Range` | Tools/py/uasset_patcher.py:87-88 | a `'<i'` read is always in the int32 range |
| `ByteCodec.ReadU32OfPack` | Tools/py/uasset_patcher.py:99-100 | a `'<I'` field packed anywhere between two byte strings reads back as its value |
| `ByteCodec.ReadI32OfPack` | Tools/py/uasset_patcher.py:96-97 | a `'<i'` field, negative values included, reads back as its value |
| `ByteCodec.ReadI64OfPack` | Tools/py/uasset_patcher.py:93-94 | a `'<q'` field reads back as its value |
| `ByteCodec.ReadU32At` | Tools/py/uasset_patcher.py:90-91 | four bytes equal to a `'<I'` packing read back as the value wherever they sit |
| `ByteCodec.ReadI32At` | Tools/py/uasset_patcher.py:87-88 | the same for `'<i'` |
| `ByteCodec.ReadI64At` | Tools/py/uasset_patcher.py:93-94 | the same for `'<q'` |
| `ByteCodec.ReadI32OfWrite` | Tools/py/uasset_patcher.py:96-97 | after `_write_int32(data, off, v)` the int32 at `off` reads as v |
| `ByteCodec.WriteI32Elsewhere` | Tools/py/uasset_patcher.py:96-97 | `_write_int32` changes no byte outside its four |
| `ByteCodec.WriteKeepsRead` | Tools/py/uasset_patcher.py:96-97 | every field not overlapping the written one reads as before |
| `ByteCodec.SliceAfter` | Tools/py/inventory_sort_mod.py:60-63 | the bytes after a field slice back out unchanged |
| `ByteCodec.Find` | Tools/py/inventory_sort_v2.py:55 | `data.find(pattern, start)` is -1 or a match at or after `start`, and no match lies between `start` and it |
| `ByteCodec.FindAll` | Tools/py/inventory_sort_v2.py:50-60 | `find_bytes_pattern`, and the same loop in `find_string_in_binary` (Tools/py/patch_inventory_sort.py:148-159): every start of the pattern, overlapping ones included, strictly increasing, and nothing else |
| `NameText.StripNulShape` | Tools/py/uasset_patcher.py:152-155 | `rstrip('\x00')` keeps a prefix that does not end in NUL and removes only NULs |
| `NameText.Lowered` | Tools/py/uasset_patcher.py:247 | `lower()` on each byte: the same length, with A-Z folded to a-z |
| `NameText.HashStep` | Tools/py/uasset_patcher.py:248 | one fold `((h xor c) * 0x01000193) & 0xFFFFFFFF` stays below 2^32 |
| `NameText.NameHash` | Tools/py/uasset_patcher.py:246-248 | the name hash, seeded with 0 over the lower-cased name, lies in [0, 2^32) |
| `NameText.NameHashIgnoresCase` | Tools/py/uasset_patcher.py:247-248 | names with the same lower-cased form have the same hash |
| `NameText.ComputeHash` | Tools/py/uasset_patcher.py:246-248 | the hash loop computes `NameHash` and stays below 2^32 |
| `NameText.EntryBytes` | Tools/py/uasset_patcher.py:251 | an entry `[len+1][text NUL][hash]` has 4 + len + 1 + 4 bytes |
| `NameText.NameEntry` | Tools/py/uasset_patcher.py:242-251 | the entry `add_name` builds has 4 + len + 1 + 4 bytes |
| `NameText.NameEntryFields` | Tools/py/uasset_patcher.py:251 | wherever an entry sits, its length field reads as len + 1, the text and a NUL follow, and the hash reads back after them |
| `NameText.StripTerminator` | Tools/py/uasset_patcher.py:155 | 8-bit text with its NUL decodes back to the text when the text does not end in NUL |
| `UAssetTables.Resolve` | Tools/py/uasset_patcher.py:188-190 | an index gives the name exactly when 0 <= idx < len(names), and otherwise the placeholder `idx_<idx>` |
| `UAssetTables.ParseNamesFrom` | Tools/py/uasset_patcher.py:133-164 | the name loop yields at most `remaining` names and ends at or after its start |
| `UAssetTables.NamesLoopStep` | Tools/py/uasset_patcher.py:133-162 | one pass: an unreadable length fails the parse, a length above 10000 ends the table there, and otherwise the name is appended and the loop continues after the hash |
| `UAssetTables.NamesLoopEnd` | Tools/py/uasset_patcher.py:133-135 | after `name_count` passes or once `pos >= len(data)`, the names so far and `pos` (the `name_table_end`) are the result |
| `UAssetTables.ReadNameEntry` | Tools/py/uasset_patcher.py:137-162 | the body of the name loop computes one pass of the name table |
| `UAssetTables.ParseNames` | Tools/py/uasset_patcher.py:128-164 | `_parse_names` is the name loop from `name_offset` run max(name_count, 0) times |
| `UAssetTables.NameStepConsumes` | Tools/py/uasset_patcher.py:138-162 | a length of -n consumes 2n bytes of 16-bit text, n consumes n bytes, 4 hash bytes follow, and the name is the text with trailing NULs stripped |
| `UAssetTables.ParseImportsFrom` | Tools/py/uasset_patcher.py:171-195 | the import loop yields at most `remaining` records and ends 28 bytes per record after its start |
| `UAssetTables.ImportsLoopNext` | Tools/py/uasset_patcher.py:172-193 | a whole record that reads is appended and the loop moves 28 bytes on |
| `UAssetTables.ImportsLoopFail` | Tools/py/uasset_patcher.py:175-181 | a record whose fields do not unpack fails the whole parse |
| `UAssetTables.ImportsLoopEnd` | Tools/py/uasset_patcher.py:171-173 | the loop ends after `import_count` records or when no whole record is left, at `import_table_end` |
| `UAssetTables.ParseImports` | Tools/py/uasset_patcher.py:166-195 | `_parse_imports` is the import loop from `import_offset` |
| `UAssetTables.ParseExportsFrom` | Tools/py/uasset_patcher.py:203-223 | the export scan yields at most `remaining` records, the k-th at `pos + 104 k` |
| `UAssetTables.ExportsLoopStep` | Tools/py/uasset_patcher.py:204-223 | one pass: a record that reads is appended and the scan moves 104 bytes on; one that does not fails the parse |
| `UAssetTables.ExportsLoopEnd` | Tools/py/uasset_patcher.py:203-205 | the scan ends after its count or when 104 bytes are no longer left |
| `UAssetTables.ParseExports` | Tools/py/uasset_patcher.py:197-223 | `_parse_exports` scans min(export_count, 100) records at most |
| `UAssetTables.ParseAsset` | Tools/py/uasset_patcher.py:102-126 | `_parse` computes the loaded state or its failure |
| `UAssetTables.LoadChecksMagic` | Tools/py/uasset_patcher.py:106-109 | loading fails unless bytes 0..4 hold `0x9E2A83C1`, reports a wrong magic as that magic, and fails on a buffer too short for the header |
| `UAssetTables.LoadedAsset` | Tools/py/uasset_patcher.py:111-126 | a loaded state keeps the bytes, holds the six header fields read at 41..61, has its name table as parsed and at most `name_count` names, at most `import_count` imports ending at `import_offset + 28 * len(imports)`, and at most 100 exports |
| `UAssetPatcher.IndexOf` | Tools/py/uasset_patcher.py:225-230 | `find_name_index`: -1 exactly when the name is absent, otherwise the first exact match |
| `UAssetPatcher.ImportRecord` | Tools/py/uasset_patcher.py:294-298 | the import record is 28 bytes |
| `UAssetPatcher.UAssetParser.FromAsset` | Tools/py/uasset_patcher.py:70-85 | a parser holds exactly the loaded state |
| `UAssetPatcher.UAssetParser.AddName` | Tools/py/uasset_patcher.py:232-270 | `add_name` moves the parser to `AddNameSpec` of its old state and returns that index |
| `UAssetPatcher.UAssetParser.InsertNameEntry` | Tools/py/uasset_patcher.py:241-264 | the splice, the append and the count rewrite of a new name, and the returned shift is the entry's size |
| `UAssetPatcher.UAssetParser.ShiftOffsetsAfter` | Tools/py/uasset_patcher.py:272-284 | `_shift_offsets_after` moves the parser to `ShiftSpec` of its old state |
| `UAssetPatcher.UAssetParser.AddImport` | Tools/py/uasset_patcher.py:286-323 | `add_import` moves the parser to `AddImportSpec` of its old state and returns that index |
| `UAssetPatcher.UAssetParser.InsertImportEntry` | Tools/py/uasset_patcher.py:293-320 | the record splice, the count rewrite at 57 and the appended import |
| `UAssetPatcher.Load` | Tools/py/uasset_patcher.py:70-85 | opening a package fails exactly when loading does, with its error, and otherwise gives a fresh parser over the loaded state |
| `UAssetPatcher.ShiftRule` | Tools/py/uasset_patcher.py:272-284 | the export and import offsets grow by `amount` exactly when strictly greater than `position`; each moved value is written at 53 or 61; no other field and no other byte changes |
| `UAssetPatcher.AddNameLength` | Tools/py/uasset_patcher.py:242-255 | the buffer grows by 4 + len + 1 + 4 bytes for a new name and not at all for a known one |
| `UAssetPatcher.AddNameNames` | Tools/py/uasset_patcher.py:232-261 | the returned index names `name` and is what `find_name_index` then reports; the names grow by `name` exactly when it was absent, and so does the count |
| `UAssetPatcher.AddNameIdempotent` | Tools/py/uasset_patcher.py:234-236 | a second `add_name` of the same name returns the same index and changes nothing |
| `UAssetPatcher.AddNameFresh` | Tools/py/uasset_patcher.py:242-270 | a new name gets the old `len(names)`; `name_table_end` grows by the entry; the count at 41 becomes `name_count + 1`; offsets move only when strictly after the old end; every other field is kept |
| `UAssetPatcher.AddNameData` | Tools/py/uasset_patcher.py:254-268 | the new buffer is the old one with the entry spliced in at `name_table_end`, except in the three rewritten header fields |
| `UAssetPatcher.AddNameSplice` | Tools/py/uasset_patcher.py:254-255 | the entry sits at the old `name_table_end`, the old rest follows it intact, and the bytes before it are kept outside the rewritten header fields |
| `UAssetPatcher.EntryReadsBack` | Tools/py/uasset_patcher.py:251 | an entry as `add_name` builds it parses back as its name through the name loop, ending just after its hash |
| `UAssetPatcher.AddNameEntryReadsBack` | Tools/py/uasset_patcher.py:242-255 | a new name parses back at the old `name_table_end`, and its hash reads back after it |
| `UAssetPatcher.ImportTableEndGoesStale` | Tools/py/uasset_patcher.py:272-284 | `add_name` moves an import table lying after the names but leaves `import_table_end` behind it |
| `UAssetPatcher.TableAtInsertionPointNotMoved` | Tools/py/uasset_patcher.py:282-284 | an import table starting exactly at `name_table_end` is not moved, and `import_offset` then points at the new name's length field |
| `UAssetPatcher.AddNameKeepsImports` | Tools/py/uasset_patcher.py:232-270 | `add_name` keeps the imports, exports, import count and `import_table_end`, and only appends to the names |
| `UAssetPatcher.ImportNamesResult` | Tools/py/uasset_patcher.py:289-291 | after the three `add_name` calls each index names its string, and the earlier names and tables are kept |
| `UAssetPatcher.ImportRecordFields` | Tools/py/uasset_patcher.py:294-298 | the 28-byte record reads back through the import layout as its four indices |
| `UAssetPatcher.ImportInsertedLayout` | Tools/py/uasset_patcher.py:300-306 | the record sits at `import_table_end`, the rest follows it intact, and the new count reads back at 57 |
| `UAssetPatcher.AddImportResult` | Tools/py/uasset_patcher.py:301-323 | `add_import` returns -len(imports); the new import is appended at the old `import_table_end` with the three names resolved; `import_count` and `import_table_end` grow by 1 and 28 |
| `UAssetPatcher.AddImportReadsBack` | Tools/py/uasset_patcher.py:300-306 | the new record reads back as the new import, the count reads back at 57, and neither offset is relocated although the later bytes moved by 28 |
| `InventorySortV2.ReadNamesFrom` | Tools/py/inventory_sort_v2.py:30-45 | the reader yields at most `remaining` names |
| `InventorySortV2.ReadNameTableSpec` | Tools/py/inventory_sort_v2.py:20-47 | `read_name_table` yields at most min(name_count, 5000) names |
| `InventorySortV2.ReadLoopStep` | Tools/py/inventory_sort_v2.py:31-45 | one pass: an unreadable length fails; a length of 0, 1000 or more, or fewer than five bytes left ends the loop; otherwise the name is appended |
| `InventorySortV2.ReadLoopEnd` | Tools/py/inventory_sort_v2.py:30 | after min(name_count, 5000) passes the names so far are the result |
| `InventorySortV2.ReadOneName` | Tools/py/inventory_sort_v2.py:31-45 | the loop body computes one pass of the reader |
| `InventorySortV2.TakeName` | Tools/py/inventory_sort_v2.py:35-45 | the rest of the body once the length is read |
| `InventorySortV2.ReadNameTable` | Tools/py/inventory_sort_v2.py:20-47 | the loop computes `ReadNameTableSpec` |
| `InventorySortV2.ScanEndFrom` | Tools/py/inventory_sort_v2.py:75-87 | the end-of-table scan never moves backwards |
| `InventorySortV2.ScanStep` | Tools/py/inventory_sort_v2.py:79-85 | one scan pass over a length n advances 4 + (2\|n\| for n < 0, n for n > 0, 0 for n = 0) + 4 bytes |
| `InventorySortV2.ScanNameTableEnd` | Tools/py/inventory_sort_v2.py:74-87 | the scan loop computes `ScanEndFrom` |
| `InventorySortV2.TableEnd` | Tools/py/inventory_sort_v2.py:71-87 | `name_table_end` needs both header fields and lies at or after `name_offset` |
| `InventorySortV2.EntryList` | Tools/py/inventory_sort_v2.py:93-103 | one entry per requested name, duplicates included |
| `InventorySortV2.EntryOf` | Tools/py/inventory_sort_v2.py:94-103 | the loop body builds the same entry as `add_name` |
| `InventorySortV2.BuildStep` | Tools/py/inventory_sort_v2.py:93-106 | one pass appends the name's entry and maps the name to the count plus its position |
| `InventorySortV2.BuildEntries` | Tools/py/inventory_sort_v2.py:90-106 | the building loop fails exactly when a length does not pack, and otherwise gives the entries and `new_indices` |
| `InventorySortV2.NewEntriesLength` | Tools/py/inventory_sort_v2.py:93-109 | the inserted bytes are 4 + len + 1 + 4 per requested name, added up |
| `InventorySortV2.NewIndicesDomain` | Tools/py/inventory_sort_v2.py:105 | exactly the requested names get an index |
| `InventorySortV2.NewIndicesLastWins` | Tools/py/inventory_sort_v2.py:105-106 | a name's index is the old count plus the position of its last occurrence |
| `InventorySortV2.RelocateField` | Tools/py/inventory_sort_v2.py:125-128 | one relocation changes no byte outside its field |
| `InventorySortV2.RelocateFrom` | Tools/py/inventory_sort_v2.py:124-128 | the relocation loop changes no byte outside the listed fields |
| `InventorySortV2.RelocateOne` | Tools/py/inventory_sort_v2.py:125-128 | the loop body computes one relocation |
| `InventorySortV2.RelocateFields` | Tools/py/inventory_sort_v2.py:123-128 | the loop over 49, 53, 57, 61 and 65 computes `RelocateFrom` |
| `InventorySortV2.RelocateEffect` | Tools/py/inventory_sort_v2.py:124-128 | over separate fields, relocation succeeds exactly when every moved value packs, and then each field holds its old value plus the shift when that value was past the end |
| `InventorySortV2.Counted` | Tools/py/inventory_sort_v2.py:109-112 | the splice grows the data by the entries |
| `InventorySortV2.CountedShape` | Tools/py/inventory_sort_v2.py:109-112 | the new count reads back at 41, the entries sit at the old end with the old rest after them, and other bytes before it are kept |
| `InventorySortV2.PatchUAssetNames` | Tools/py/inventory_sort_v2.py:63-130 | `patch_uasset_names` computes `PatchSpec` |
| `InventorySortV2.RelocatedResult` | Tools/py/inventory_sort_v2.py:109-128 | a successful splice, count and relocation grows the data by the entries, and the new count reads back at 41 |
| `InventorySortV2.RelocatedFails` | Tools/py/inventory_sort_v2.py:123-128 | past the header, relocation fails exactly when a moved value does not pack |
| `InventorySortV2.RelocatedLayout` | Tools/py/inventory_sort_v2.py:109-128 | past the header, the result has the entries at the old end with the old rest after them, keeps the other bytes before it, and moves each of the five fields exactly when it pointed strictly past the old end |
| `InventorySortV2.RelocatedMoves` | Tools/py/inventory_sort_v2.py:115-128 | each of 49, 53, 57, 61 and 65 holds its old value plus the inserted size exactly when that value was greater than `name_table_end` |
| `InventorySortV2.PatchResult` | Tools/py/inventory_sort_v2.py:101-112 | a successful patch grows the data by the entry sizes, sets the count at 41 to the old count plus `len(names_to_add)`, and returns `new_indices` |
| `InventorySortV2.PatchFails` | Tools/py/inventory_sort_v2.py:112-128 | past the header, the patch fails exactly when the new count or a moved value does not pack |
| `InventorySortV2.PatchLayout` | Tools/py/inventory_sort_v2.py:109-128 | the patched data is laid out as in `RelocatedLayout` with the new entries |
| `InventorySortV2.EntryReadBack` | Tools/py/inventory_sort_v2.py:33-45 | an 8-bit entry shorter than 1000 reads back as its name through one pass of `read_name_table` |
| `InventorySortV2.EntryTaken` | Tools/py/inventory_sort_v2.py:33-45 | an entry in place is one pass of the reader and its length reads as len + 1 |
| `InventorySortV2.TakenNames` | Tools/py/inventory_sort_v2.py:30-45 | entries in place read back as their names |
| `InventorySortV2.TakenScan` | Tools/py/inventory_sort_v2.py:76-86 | the scan steps over exactly the entries in place |
| `InventorySortV2.EntriesReadBack` | Tools/py/inventory_sort_v2.py:93-109 | the appended entries, wherever they sit, read back as the requested names and are scanned to their end |
| `InventorySortV2.PatchReadsBack` | Tools/py/inventory_sort_v2.py:109 | after a patch, `read_name_table`'s loop reads the added names back from the old end, and the scan steps over them |
| `InventorySortV2.PatchedEntries` | Tools/py/inventory_sort_v2.py:109 | after a patch, the added names lie as readable entries at the old end |
| `PatchInventorySort.FindStepAt` | Tools/py/patch_inventory_sort.py:77-103 | an accepted entry has an unsigned length len + 1 below 1001 inside the buffer; the name is its bytes minus the final one, and the cursor moves by the length plus 8 |
| `PatchInventorySort.FindNameStep` | Tools/py/patch_inventory_sort.py:77-103 | the loop body computes one pass |
| `PatchInventorySort.FindNamesNext` | Tools/py/patch_inventory_sort.py:76-105 | a failed pass ends the loop; an accepted one appends its name and continues |
| `PatchInventorySort.FindNameTable` | Tools/py/patch_inventory_sort.py:49-105 | `find_name_table` computes `FindNameTableSpec` |
| `PatchInventorySort.FindNamesBound` | Tools/py/patch_inventory_sort.py:76-92 | at most `remaining` names, each shorter than 1000 bytes |
| `PatchInventorySort.FindNameTableBound` | Tools/py/patch_inventory_sort.py:55-76 | nothing under 100 bytes or with a wrong magic; otherwise at most min(name_count, 1000) names, the count read unsigned |
| `PatchInventorySort.FindStepStops` | Tools/py/patch_inventory_sort.py:77-92 | a pass fails exactly when fewer than five bytes remain, the length is 0 or above 1000, or the text overruns; a length with the top bit set always fails, so the 16-bit branch is never reached |
| `PatchInventorySort.FoundEntry` | Tools/py/patch_inventory_sort.py:81-103 | an 8-bit entry as the patchers write it is one accepted pass |
| `PatchInventorySort.FindsEntries` | Tools/py/patch_inventory_sort.py:76-103 | entries in place are found as their names |
| `PatchInventorySort.FindsPatchedNames` | Tools/py/patch_inventory_sort.py:76-103 | the names `patch_uasset_names` adds are found by `find_name_table`'s loop at the old end of the table |
| `PatchInventorySort.ImportRecord` | Tools/py/patch_inventory_sort.py:124-142 | the loop body computes what one record adds |
| `PatchInventorySort.ImportsNext` | Tools/py/patch_inventory_sort.py:121-143 | the import loop stops before a record that would overrun, and otherwise adds the record's entry and moves 28 bytes on |
| `PatchInventorySort.AnalyzeImports` | Tools/py/patch_inventory_sort.py:108-145 | `analyze_imports` computes `AnalyzeImportsSpec` |
| `PatchInventorySort.FieldsFit` | Tools/py/patch_inventory_sort.py:124-142 | a whole 28-byte record always unpacks, so the `except` branch is never taken |
| `PatchInventorySort.ImportsCount` | Tools/py/patch_inventory_sort.py:121-123 | the loop reports min(passes, whole records left) entries |
| `PatchInventorySort.ImportsRecords` | Tools/py/patch_inventory_sort.py:120-143 | the k-th entry is the record at `pos + 28 k`, its indices resolved as names or `idx_<n>` placeholders |
| `PatchInventorySort.AnalyzeImportsShort` | Tools/py/patch_inventory_sort.py:112-116 | the header fields fail to unpack exactly when the buffer is shorter than 65 bytes, and then nothing is reported |
| `PatchInventorySort.AnalyzeImportsShape` | Tools/py/patch_inventory_sort.py:112-145 | min(import_count, 500, whole records after the offset) entries, the k-th from `import_offset + 28 k` |
| `PatchInventorySort.PatchAddSortReference` | Tools/py/patch_inventory_sort.py:162-175 | returns (None, None) whatever its inputs |
| `InventorySortMod.FStringAt` | Tools/py/inventory_sort_mod.py:65-78 | `read_fstring` fails exactly when its length does not unpack |
| `InventorySortMod.ByteBuffer.constructor` | Tools/py/inventory_sort_mod.py:26-28 | the buffer holds the given bytes with the cursor at 0 |
| `InventorySortMod.ByteBuffer.ReadInt8` | Tools/py/inventory_sort_mod.py:30-33 | `'<b'` at the cursor; the cursor moves by 1, or stays when the read fails |
| `InventorySortMod.ByteBuffer.ReadUInt8` | Tools/py/inventory_sort_mod.py:35-38 | `'<B'` at the cursor; moves by 1 |
| `InventorySortMod.ByteBuffer.ReadInt32` | Tools/py/inventory_sort_mod.py:40-43 | `'<i'` at the cursor; moves by 4 |
| `InventorySortMod.ByteBuffer.ReadUInt32` | Tools/py/inventory_sort_mod.py:45-48 | `'<I'` at the cursor; moves by 4 |
| `InventorySortMod.ByteBuffer.ReadInt64` | Tools/py/inventory_sort_mod.py:50-53 | `'<q'` at the cursor; moves by 8 |
| `InventorySortMod.ByteBuffer.ReadUInt64` | Tools/py/inventory_sort_mod.py:55-58 | `'<Q'` at the cursor; moves by 8 |
| `InventorySortMod.ByteBuffer.ReadBytes` | Tools/py/inventory_sort_mod.py:60-63 | `data[pos:pos+count]`, shorter near the end, and the cursor moves by `count` regardless |
| `InventorySortMod.ByteBuffer.ReadFString` | Tools/py/inventory_sort_mod.py:65-78 | the text and the new cursor of `FStringAt`; on failure nothing moves |
| `InventorySortMod.ByteBuffer.WriteInt32` | Tools/py/inventory_sort_mod.py:80-81 | appends `'<i'` at the end whatever the cursor; fails, changing nothing, exactly outside the int32 range |
| `InventorySortMod.ByteBuffer.WriteUInt32` | Tools/py/inventory_sort_mod.py:83-84 | the same for `'<I'` |
| `InventorySortMod.ByteBuffer.WriteInt64` | Tools/py/inventory_sort_mod.py:86-87 | the same for `'<q'` |
| `InventorySortMod.ByteBuffer.WriteBytes` | Tools/py/inventory_sort_mod.py:89-90 | appends the bytes; the cursor stays |
| `InventorySortMod.ByteBuffer.Seek` | Tools/py/inventory_sort_mod.py:92-93 | sets the cursor; the data stays |
| `InventorySortMod.ByteBuffer.Tell` | Tools/py/inventory_sort_mod.py:95-96 | returns the cursor and changes nothing |
| `InventorySortMod.AppendedReadsBack` | Tools/py/inventory_sort_mod.py:80-87 | a value written by `write_int32`, `write_uint32` or `write_int64` reads back with the matching read after seeking to the old end |
| `InventorySortMod.AppendKeepsReads` | Tools/py/inventory_sort_mod.py:80-90 | appending leaves every field that was already inside the data reading as before |
| `InventorySortMod.FStringEmpty` | Tools/py/inventory_sort_mod.py:67-69 | a length of 0 gives "" and consumes only the 4 length bytes |
| `InventorySortMod.FStringNegative` | Tools/py/inventory_sort_mod.py:71-75 | a length of -m reads 2m bytes as 16-bit text |
| `InventorySortMod.FStringRoundTrip` | Tools/py/inventory_sort_mod.py:76-78 | 8-bit text written with its NUL and its length reads back as the text, the cursor just after it |
| `InventorySortMod.FStringRoundTrip16` | Tools/py/inventory_sort_mod.py:71-75 | 16-bit units written with a NUL unit and the negated count read back as the units, the cursor just after them |
| `InventorySortMod.Utf16Units` | Tools/py/inventory_sort_mod.py:75 | 16-bit units written as little-endian pairs decode back to the units |
| `InventorySortMod.UnmaskedFrom` | Tools/py/inventory_sort_mod.py:111-112 | exactly the starts of the pattern in [lo, len(data) - len(pattern)), in increasing order |
| `InventorySortMod.MaskAccepts` | Tools/py/inventory_sort_mod.py:116-120 | the inner loop accepts exactly when every 0xFF mask position within both the pattern and the mask holds the pattern byte |
| `InventorySortMod.FindPatternInBinary` | Tools/py/inventory_sort_mod.py:109-123 | without a mask the unmasked starts; with one, exactly the starts i < len(data) - len(pattern) the mask accepts, in increasing order |
| `InventorySortMod.FullMaskIsExact` | Tools/py/inventory_sort_mod.py:114-123 | a mask of 0xFF over the whole pattern accepts exactly the exact matches |
| `InventorySortMod.UnmaskedMissesLastStart` | Tools/py/inventory_sort_mod.py:111-112 | a match at the last possible start is not reported, though `bytes.find` finds it |

## Left out

- File and directory I/O, printing, `main`, and the copy, report and orchestration functions of all four scripts. The buffers are parameters instead.
- `UAssetParser.save`, `print_summary` and the `.uexp` payload, which is passed through untouched. `_write_uint32` is never called and is not modelled.
- `extract_strings_from_uasset`: it is a regex call over a file read.
- UTF-8 and UTF-16 decoding with `errors='ignore'`.
  - Names are kept as their bytes (8-bit) or their 16-bit units.
  - Invalid sequences and surrogate pairs are not interpreted.
  - Names passed to `add_name`, `add_import` and `patch_uasset_names` are their UTF-8 bytes, and the hash folds one byte at a time.
- `UAssetPatcher.IndexOf` and `UAssetPatcher.UAssetParser.AddName`: lookup compares code-unit sequences, not Python strings.
  - A name parsed from a 16-bit entry is kept as its UTF-16 units, while the argument of `add_name` is its UTF-8 bytes.
  - So a stored 16-bit name with a non-ASCII character (such as "é", stored as `[0xE9]`, queried as `[0xC3, 0xA9]`) is never found.
  - There `add_name` appends a duplicate entry with a new index, where the program's `find_name_index` returns the existing index.
  - ASCII names, and names stored as valid UTF-8 in 8-bit entries, compare as the program compares them.
- `find_string_in_binary`'s `str.encode`: the search takes the encoded bytes.
- `NameText.Lowered`: folds only ASCII A-Z. Full Unicode `lower()` is not modelled.
- `UAssetPatcher.UAssetParser.AddName`: requires that the entry, the new count and the moved offsets all pack (`AddNameFits`). Where `struct.pack` raises part-way through, leaving a half-updated parser, is not modelled.
- `UAssetPatcher.UAssetParser.AddImport`: requires `AddImportFits`, for the same reason. A half-finished `add_import` is not modelled.
- `UAssetPatcher.UAssetParser.ShiftOffsetsAfter`: requires that the moved offsets still pack as int32 (`ShiftFits`).
- `InventorySortMod.ByteBuffer.WriteInt32`, `WriteUInt32` and `WriteInt64` report `struct.error` as a false result instead of an exception.
- No whole-table reparse after `add_name`. Only the new entry is shown to parse back at its own position (`UAssetPatcher.AddNameEntryReadsBack`). The same holds after `patch_uasset_names`: only the added entries are shown to read back at the old end of the table.
- The export records are modelled only as the fixed 104-byte stride that `_parse_exports` reads, not as the real record layout.
