# Star Wars Galaxies web client core, modelled in Dafny

The Star Wars Galaxies web client reads the original game's data files and shows the galaxy in a browser. This project models the parts of it that are logic and not rendering:

- **Asset decoding.** These readers take untrusted byte buffers:
  - The EA IFF 85 chunk readers. Each chunk is a 4-byte tag and a big-endian 32-bit size, and its payload is padded to an even length. `FORM`, `LIST` and `CAT ` are containers. There are four readers:
    - the flat reader of `parse_everything.py`;
    - the recursive tree reader of `IFFLoader.js`;
    - the cursor reader of `parse-swg-complete.cjs`, with its snapshot and heightmap readers;
    - the top-level snapshot walker of `extract-complete-world.cjs`.
  - The two TRE archive index readers. They disagree on the record layout.
  - The DTII datatable decoder, the TRN header check, and the YAML-like serialiser of `parse-assets.js`.
- **Name and stat helpers.** These derive a tier, a category, a cost, a display name and a level of detail. The three copies in the JavaScript and Python scripts differ in small ways, and those differences are stated.
- **In-memory game state.** This covers:
  - the 80-slot inventory and the 6×24 toolbar grid;
  - the help and travel menus, which are never open together, and the open-window set;
  - the crafting experiment counter and the galactic map's waypoints;
  - the terrain cells kept around the ship, its boost energy, and the crystal field;
  - the ship registry with its cyclic switch;
  - the on-foot player's boundary, ground and jump rules.

Decoders that work by moving a cursor are written as methods with loop invariants. Each is proved against a recursive function that states the decoding. The properties are proved as lemmas about those functions. State that the source updates in place is a class whose methods state the whole new state.

Byte buffers are `seq<byte>`. JavaScript arithmetic is written out where it matters:
- Truncating `%`.
- `parseInt`, including radix 16.
- Slice clamping and `splice` with a negative index.
- `||` defaults.
- The key order of a `Map`, which is the insertion order.

## Model

| member | source | states |
|---|---|---|
| Bytes.U32BE | parse-swg-complete.cjs:33-37 | a big-endian unsigned word is below 2³² |
| Bytes.U32LE | parse-swg-complete.cjs:39-43 | a little-endian unsigned word is below 2³² |
| Bytes.Signed32 | parse-swg-complete.cjs:45-49 | the signed reading lies in the 32-bit signed range and agrees with the unsigned one modulo 2³² |
| Bytes.U32BERoundTrip | parse-swg-complete.cjs:33-37 | a big-endian read at any offset gives back the word a big-endian writer put there |
| Bytes.U32LERoundTrip | parse-swg-complete.cjs:39-43 | a little-endian read gives back the word a little-endian writer put there |
| Bytes.I32BERoundTrip | src/loaders/SWGAssetParser.js:371-375 | `getInt32(o, false)` gives back a negative or positive signed word written in two's complement |
| Bytes.I16LE | parse-swg-complete.cjs:371 | a signed 16-bit read lies in [-32768, 32767] |
| Bytes.I16LERoundTrip | parse-swg-complete.cjs:371 | `readInt16LE` gives back a signed 16-bit value written little-endian |
| Bytes.WordsLEAt | parse-swg-complete.cjs:39-43 | word k of a run of little-endian words reads back at offset 4k |
| Bytes.BEIsReversedLE | parse-swg-complete.cjs:33-43 | the two byte orders read the same bytes in reverse |
| Bytes.Slice | src/loaders/IFFLoader.js:82-84 | `slice` clips both bounds to the buffer, is empty for an inverted range, and is the plain subsequence when the bounds fit |
| Bytes.AsciiNode | parse-swg-complete.cjs:28 | Node's ASCII decoding keeps the length and clears each byte's high bit |
| Bytes.AsciiAtDecodes | parse-swg-complete.cjs:27-31 | decoding `len` bytes from `start` is the ASCII decoding of the clipped slice |
| Bytes.TagIsDecoding | src/loaders/IFFLoader.js:72 | comparing a decoded four-byte tag with a four-letter string succeeds only when four bytes are present |
| Bytes.AsciiIgnore | parse_everything.py:38 | Python's `errors='ignore'` decoding is never longer than its input and yields only ASCII |
| Bytes.AsciiRoundTrip | parse_everything.py:38 | both decodings give back an ASCII string from its bytes |
| Bytes.AsciiAtBytes | parse-swg-complete.cjs:27-31 | decoding an ASCII string where it was written gives it back |
| Bytes.AsciiDecodingsAgreeOn7Bit | parse_everything.py:38 | the Python and Node decodings agree on 7-bit input |
| Bytes.AsciiIgnoreShorter | parse_everything.py:38 | a byte above 127 makes the Python decoding shorter than its input, which the Node decoding never is |
| Text.Lower | parse_swg_assets.py:309 | lower-casing keeps the length and maps each character on its own, only `A`–`Z` changing |
| Text.LowerIdempotent | parse_swg_assets.py:309 | lower-casing twice is lower-casing once |
| Text.LowerAppend | parse_swg_assets.py:309 | lower-casing distributes over concatenation |
| Text.ContainsIff | src/loaders/FlyingMountParser.js:127 | `includes` holds exactly when some window of the text equals the searched string |
| Text.ContainsTrivial | src/loaders/FlyingMountParser.js:127 | every text includes the empty string and itself |
| Text.ContainsPrefixOfSub | src/loaders/FlyingMountParser.js:127 | a text that includes `a + b` includes `a` |
| Text.RemoveAll | parse-swg-complete.cjs:30 | `replace(/\0/g, '')` leaves no NUL, never lengthens, and changes nothing when there is none |
| Text.RemoveAllIdempotent | parse-swg-complete.cjs:30 | removing the NULs a second time changes nothing |
| Text.Split | src/loaders/FlyingMountParser.js:274 | `split` yields at least one piece and no piece contains the separator |
| Text.JoinSplit | src/loaders/FlyingMountParser.js:274-276 | joining the pieces of a split with the same separator gives the string back |
| Text.JoinLength | src/loaders/FlyingMountParser.js:274-276 | pieces of the same lengths joined by separators of the same length give strings of the same length |
| Text.SplitJoin | src/loaders/FlyingMountParser.js:274-276 | splitting a join of separator-free pieces gives the pieces back |
| Text.SplitNoSep | src/loaders/FlyingMountParser.js:274 | a string without the separator is one piece |
| Text.Trim | src/ui/WorldMapSystem.js:1131 | `trim` is empty exactly for a blank string, and otherwise starts and ends with a non-space |
| Text.NatToString | parse-assets.js:156-182 | a number renders as a non-empty string of digits |
| Text.NatToStringRoundTrip | parse-assets.js:156-182 | reading back the decimal rendering of a number gives the number |
| Text.DigitPrefix | src/loaders/FlyingMountParser.js:111 | the greedy `\d+` match is a digit prefix followed by a non-digit or the end |
| ParseEverything.ChunkAt | parse_everything.py:33-53 | no chunk when fewer than 8 bytes remain; otherwise the tag, the big-endian size, a payload clipped at the end of the buffer, and a next offset that is padded to keep the parity of the start |
| ParseEverything.IffParser.constructor | parse_everything.py:29-31 | the cursor starts at 0 |
| ParseEverything.IffParser.ReadChunk | parse_everything.py:33-53 | None with the cursor unchanged when fewer than 8 bytes remain; otherwise the chunk at the cursor, and the cursor after its padded payload |
| ParseEverything.IffParser.ParseAll | parse_everything.py:55-63 | the top-level chunks from the cursor, in buffer order, stopping at the end or at the first failed read |
| ParseEverything.ParseOffsets | parse_everything.py:35-48 | one header offset per returned chunk, increasing from the start, each with its eight header bytes inside the buffer |
| ParseEverything.ParseFromHeadersWhole | parse_everything.py:35-42 | returned chunk `k` is the chunk read at header offset `k`, whose header lies wholly inside the buffer, and its payload is never longer than its declared size |
| ParseEverything.ChunkAtEncoded | parse_everything.py:33-53 | a chunk written by an even-padding IFF writer is read back whole, and the cursor lands just past it |
| ParseEverything.ParseEncodeRoundTrip | parse_everything.py:55-63 | `parse_all` of a well-formed padded chunk sequence returns exactly those chunks and consumes the whole buffer |
| ParseEverything.UnpackU32LE | parse_everything.py:83-84 | `struct.unpack('<I')` succeeds exactly on four bytes, with the little-endian value |
| ParseEverything.RecordAt | parse_everything.py:91-97 | an index record is read exactly when its name and four fields fit in the file, and the next record starts 20 bytes past the name |
| ParseEverything.ReadTable | parse_everything.py:89-104 | reading records only adds names to the index |
| ParseEverything.PyFile.Read | parse_everything.py:78 | `f.read(n)` returns the clipped slice at the position and advances past what it returned |
| ParseEverything.PyFile.Seek | parse_everything.py:120 | the position becomes the requested one |
| ParseEverything.TreExtractor.constructor | parse_everything.py:69-71 | the index starts empty |
| ParseEverything.TreExtractor.ReadRecord | parse_everything.py:91-97 | a record is returned exactly when `RecordAt` finds one at the file position, and the position moves past it |
| ParseEverything.TreExtractor.ReadRecords | parse_everything.py:89-104 | the index is what `ReadTable` gives, and the loop completes exactly when no unpack raised |
| ParseEverything.TreExtractor.Extract | parse_everything.py:73-110 | a file without the EERT magic or with a short header returns {}; otherwise the records are stored in `self.files`, the call returning the index when all were read and {} after an exception, with the stored entries kept |
| ParseEverything.TreExtractor.ExtractFile | parse_everything.py:112-127 | nothing for an unknown name; otherwise the stored bytes at the entry's offset, clipped at the end of the archive, inflated when the compression code is 2, and the error when inflating fails |
| ParseEverything.RecordRoundTrip | parse_everything.py:91-104 | a record written in the reader's layout is read back as the same name and entry |
| ParseEverything.LastRecordWins | parse_everything.py:99-104 | of two records with the same name, the later one's entry is kept |
| ParseEverything.ReadTableKeepsPrefix | parse_everything.py:99-110 | an entry of the index the table started from, whose name no record carries, is still there afterwards, whether the table completes or raises |
| ParseEverything.ReadTableRaised | parse_everything.py:89-110 | a table that raises leaves the index it started from updated by exactly the records read before the failing one, in order |
| ParseEverything.StoreRecordsLast | parse_everything.py:99-104 | after storing records in turn, a name holds the entry of its last record |
| ParseEverything.StoreRecordsOther | parse_everything.py:99-104 | records naming other files leave an entry as it was |
| IffLoader.Payload | src/loaders/IFFLoader.js:80-81 | the payload is the declared size clipped at the end of the buffer, taken right after the header |
| IffLoader.ReadChunkF | src/loaders/IFFLoader.js:68-110 | no chunk exactly when fewer than 8 bytes remain; a chunk's total size is its header, its payload and one pad byte for an odd size |
| IffLoader.MakeChunk | src/loaders/IFFLoader.js:84-109 | the total size rounds the declared size up to even, plus the 8-byte header |
| IffLoader.ChunkShape | src/loaders/IFFLoader.js:68-110 | the tag and size come from the header; containers (FORM, LIST, `CAT `) carry no data, read their form type and children from their own payload when the size is at least 4 and have neither below that; leaves keep their payload and have no children |
| IffLoader.TrailingEmptyChildSkipped | src/loaders/IFFLoader.js:94 | a child header ending exactly at the payload end is readable, yet the loop guard leaves it out |
| IffLoader.ChildrenCount | src/loaders/IFFLoader.js:93-99 | a container has at most one child per 8 payload bytes after the cursor |
| IffLoader.Loader.constructor | src/loaders/IFFLoader.js:13-15 | a new loader holds no chunks |
| IffLoader.Loader.ReadChunk | src/loaders/IFFLoader.js:68-110 | the recursive reader returns exactly `ReadChunkF` |
| IffLoader.Loader.ReadChildren | src/loaders/IFFLoader.js:92-99 | the children loop collects exactly `ChildrenF` from offset 4 |
| IffLoader.Loader.ReadTopLevel | src/loaders/IFFLoader.js:46-54 | the top-level loop collects exactly `ParseF` from offset 0 |
| IffLoader.Loader.Parse | src/loaders/IFFLoader.js:44-60 | `this.chunks` is reset and then holds exactly the top-level chunks, which are also returned |
| IffLoader.Loader.FindChunk | src/loaders/IFFLoader.js:117-119 | the result is the first chunk with the tag in the depth-first pre-order of the last parse result |
| IffLoader.FindChunkRecursive | src/loaders/IFFLoader.js:121-130 | a found chunk has the requested tag |
| IffLoader.FindIsPreorderSearch | src/loaders/IFFLoader.js:121-130 | the recursive scan finds exactly the first pre-order chunk with the tag, the node before its children and its children before its right siblings |
| IffLoader.FirstWithTagExists | src/loaders/IFFLoader.js:121-130 | the search finds something exactly when some chunk has the tag |
| IffLoader.LeafAt | src/loaders/IFFLoader.js:68-110 | a leaf chunk written with its header and padding is read back exactly |
| IffLoader.ParseLeavesRoundTrip | src/loaders/IFFLoader.js:44-60 | parsing a sequence of padded leaf chunks gives back exactly those chunks in order |
| SwgComplete.TextAt | parse-swg-complete.cjs:27-31 | a read string is never longer than requested and holds no NUL |
| SwgComplete.TextAtRoundTrip | parse-swg-complete.cjs:27-31 | NUL-free ASCII text reads back as itself |
| SwgComplete.FormAt | parse-swg-complete.cjs:57-76 | nothing, with the cursor unmoved, when the header would end at or past the buffer end; a non-FORM tag is refused after the tag was consumed; otherwise the form type, the size and an end offset of size - 4 past the form type |
| SwgComplete.ChunkAt | parse-swg-complete.cjs:78-93 | no chunk when the header would end at or past the buffer end; otherwise the tag, the size, the clipped payload and the padded next offset |
| SwgComplete.ChunksStep | parse-swg-complete.cjs:95-105 | each chunk read is followed by the chunks from its next offset |
| SwgComplete.IffParser.constructor | parse-swg-complete.cjs:22-25 | the cursor starts at 0 |
| SwgComplete.IffParser.ReadString | parse-swg-complete.cjs:27-31 | the NUL-free decoded text, and the cursor always advances by the requested length |
| SwgComplete.IffParser.ReadUInt32BE | parse-swg-complete.cjs:33-37 | the big-endian word and 4 bytes of progress, or the range error with the cursor unmoved |
| SwgComplete.IffParser.ReadUInt32LE | parse-swg-complete.cjs:39-43 | the little-endian word and 4 bytes of progress, or the range error |
| SwgComplete.IffParser.ReadInt32LE | parse-swg-complete.cjs:45-49 | the signed little-endian word and 4 bytes of progress, or the range error |
| SwgComplete.IffParser.ReadFloat | parse-swg-complete.cjs:51-55 | the float's four raw bytes and 4 bytes of progress, or the range error |
| SwgComplete.IffParser.ParseForm | parse-swg-complete.cjs:57-76 | the form and cursor `FormAt` describes |
| SwgComplete.IffParser.ParseChunk | parse-swg-complete.cjs:78-93 | the chunk and cursor `ChunkAt` describes, or nothing with the cursor unmoved |
| SwgComplete.IffParser.ParseAll | parse-swg-complete.cjs:95-105 | the chunks from the cursor in buffer order, and the cursor where the last read stopped |
| SwgComplete.ChunkAtEncoded | parse-swg-complete.cjs:78-93 | a padded chunk is read back whole unless it is an empty chunk ending the buffer |
| SwgComplete.ParseAllRoundTrip | parse-swg-complete.cjs:95-105 | `parseAll` of padded non-empty chunks with NUL-free tags gives back exactly those chunks and consumes the buffer |
| SwgComplete.TrailingHeaderGuards | parse-swg-complete.cjs:79 | at an 8-byte header that ends the buffer this reader stops, where the Python reader returns an empty chunk |
| SwgComplete.FlatReadersAgree | parse-swg-complete.cjs:78-93 | wherever this reader reads a chunk, the Python reader reads one with the same size, payload and next offset |
| SwgComplete.FlatTagsAgree | parse-swg-complete.cjs:81 | the two readers decode the same tag from 7-bit non-NUL bytes |
| SwgComplete.ApplyData | parse-swg-complete.cjs:170-185 | a DATA sub-chunk sets the id from 8 bytes on and the template from 16 bytes on with a length in 1..255, and nothing else |
| SwgComplete.ApplyTransform | parse-swg-complete.cjs:186-203 | a transform sub-chunk sets the position from 28 bytes on and the rotation from 44 bytes on, and nothing else |
| SwgComplete.ObjectSpec | parse-swg-complete.cjs:206-211 | an object is kept exactly when it has a template or a positive id |
| SwgComplete.NodeSpec | parse-swg-complete.cjs:217-230 | a node exactly when four id bytes are present, with that id |
| SwgComplete.ReadDataChunk | parse-swg-complete.cjs:171-184 | the DATA reader gives `ApplyData` |
| SwgComplete.ReadTransformChunk | parse-swg-complete.cjs:188-202 | the transform reader gives `ApplyTransform` |
| SwgComplete.ParseObject | parse-swg-complete.cjs:153-215 | the object is the sub-chunks folded in order over the default, kept only with a template or id |
| SwgComplete.ParseNode | parse-swg-complete.cjs:217-230 | the node of `NodeSpec`, null for a short payload |
| SwgComplete.ParseSnapshot | parse-swg-complete.cjs:112-151 | the objects and nodes of the OOBJ and NODE chunks between the WSNP header and its end offset, in order; empty for anything else |
| SwgComplete.SnapshotFoldExtends | parse-swg-complete.cjs:127-147 | the snapshot loop only appends, keeping earlier objects and nodes in order |
| SwgComplete.SnapshotObjectsHaveIdentity | parse-swg-complete.cjs:135-137 | every object of a parsed snapshot has a template or a positive id |
| SwgComplete.NotSnapshot | parse-swg-complete.cjs:114-119 | a buffer not opening with a FORM of type WSNP yields an empty snapshot |
| SwgComplete.ObjectDataRoundTrip | parse-swg-complete.cjs:170-185 | a DATA payload carrying an id and a template gives back both |
| SwgComplete.HeightmapSpec | parse-swg-complete.cjs:352-381 | a short buffer throws, dimensions outside 16..4096 give no map, otherwise width × height samples read as int16 or float by the bytes per sample, else 0 |
| SwgComplete.ParseHeightmap | parse-swg-complete.cjs:352-381 | the heightmap loop yields exactly `HeightmapSpec` |
| SwgComplete.HeightmapRoundTrip | parse-swg-complete.cjs:352-381 | a heightmap written as width, height and int16 samples reads back sample for sample |
| ExtractWorld.ReadU32LE | extract-complete-world.cjs:46 | a little-endian read succeeds exactly when four bytes remain |
| ExtractWorld.RecordAt | extract-complete-world.cjs:62-81 | a record is read exactly when its six header words fit, and the next record starts after the name |
| ExtractWorld.IndexStep | extract-complete-world.cjs:59-89 | each record read is inserted and the loop continues after it |
| ExtractWorld.IndexStop | extract-complete-world.cjs:90-93 | a record that throws ends the loop and keeps the index read so far |
| ExtractWorld.TreExtractor.constructor | extract-complete-world.cjs:25-28 | the index starts empty |
| ExtractWorld.TreExtractor.ReadRecord | extract-complete-world.cjs:62-81 | the word-by-word reading gives exactly `RecordAt` |
| ExtractWorld.TreExtractor.ReadIndex | extract-complete-world.cjs:33-97 | false and no change without the EERT magic, a throw escaping the call when the header words are missing, and otherwise the records of the table inserted in order |
| ExtractWorld.TreExtractor.ReadRecords | extract-complete-world.cjs:59-94 | the index after the loop is `IndexFrom` at offset 12 |
| ExtractWorld.TreExtractor.ExtractFile | extract-complete-world.cjs:102-122 | null for an unknown name; otherwise the clipped extent at the entry's offset, inflated when the compression code is 2, and null when inflating fails |
| ExtractWorld.TreExtractor.ListFiles | extract-complete-world.cjs:127-129 | the names are exactly the indexed names, each once, in the order the index first stored them |
| ExtractWorld.InsertKeepsOrder | extract-complete-world.cjs:83 | `Map.set` keeps the keys distinct and in first-insertion order, only appending |
| ExtractWorld.RecordsFrom | extract-complete-world.cjs:59 | the loop reads at most `fileCount` records |
| ExtractWorld.IndexFromIsInsertAll | extract-complete-world.cjs:59-94 | reading the index is inserting the records read, in order |
| ExtractWorld.InsertAllKeeps | extract-complete-world.cjs:83-89 | inserting records keeps the index well formed and the earlier names in place |
| ExtractWorld.IndexFromKeeps | extract-complete-world.cjs:59-94 | reading records keeps the index well formed, even when a later read throws |
| ExtractWorld.ReadIndexValid | extract-complete-world.cjs:33-97 | `readIndex` on a fresh extractor leaves a well-formed index, empty unless it returned true |
| ExtractWorld.MagicTest | extract-complete-world.cjs:38-44 | the magic test passes exactly when the first four bytes, high bits cleared, spell EERT, and a failed test changes nothing |
| ExtractWorld.RecordRoundTrip | extract-complete-world.cjs:62-89 | a record written in the archive layout reads back as the same name and entry |
| ExtractWorld.LastRecordWins | extract-complete-world.cjs:83 | a repeated name takes the later entry but keeps its first position |
| ExtractWorld.HeaderFound | extract-complete-world.cjs:325-331 | at most one object is recorded per chunk header |
| ExtractWorld.ParseIFFSnapshot | extract-complete-world.cjs:310-346 | nothing without a leading FORM tag; otherwise the OOBJ and SCOT headers met while stepping over whole chunks |
| ExtractWorld.ScanChunks | extract-complete-world.cjs:319-343 | the scan loop yields exactly `ScanFrom` at offset 0 |
| ExtractWorld.OuterFormSkipped | extract-complete-world.cjs:319-343 | a snapshot that is one FORM holding everything yields no objects, since the scan steps over the outer FORM as a whole |
| ExtractWorld.TagMatch | extract-complete-world.cjs:321 | compared with a NUL-free tag, the raw and the NUL-stripped decodings agree |
| ExtractWorld.ScanIsTopLevelChunks | extract-complete-world.cjs:319-343 | the scan visits exactly the top-level chunks of the cursor reader's `parseAll` and records their OOBJ and SCOT chunks |
| SwgAssetParser.Count | src/loaders/SWGAssetParser.js:382 | a negative count runs no iteration, a non-negative one runs that many |
| SwgAssetParser.TermEnd | src/loaders/SWGAssetParser.js:385 | the NUL scan stops at the first NUL at or after the start, or at the end of the buffer, and never before the start |
| SwgAssetParser.ColumnAt | src/loaders/SWGAssetParser.js:384-395 | a column header ends four bytes past its NUL terminator |
| SwgAssetParser.ColumnsFrom | src/loaders/SWGAssetParser.js:382-396 | the header loop reads exactly the announced number of columns |
| SwgAssetParser.CellAt | src/loaders/SWGAssetParser.js:404-422 | a cell read throws exactly for an integer or float column with fewer than four bytes left; text and unknown types never throw |
| SwgAssetParser.RowFrom | src/loaders/SWGAssetParser.js:402-423 | a row that reads has one cell per column |
| SwgAssetParser.RowsFrom | src/loaders/SWGAssetParser.js:399-426 | when no read throws, there are as many rows as announced, each with a cell per column |
| SwgAssetParser.ScanToNul | src/loaders/SWGAssetParser.js:385 | the scan loop stops where `TermEnd` says |
| SwgAssetParser.ReadColumns | src/loaders/SWGAssetParser.js:382-396 | the column loop yields `ColumnsFrom` for the announced count |
| SwgAssetParser.ReadRow | src/loaders/SWGAssetParser.js:400-425 | the cell loop yields `RowFrom`, or the range error |
| SwgAssetParser.ReadRows | src/loaders/SWGAssetParser.js:399-426 | the row loop yields `RowsFrom`, or the range error |
| SwgAssetParser.ParseDatatable | src/loaders/SWGAssetParser.js:362-429 | the decoder gives exactly `DatatableSpec`: empty under 8 bytes, the range error when a number cell runs past the end, otherwise the columns and rows |
| SwgAssetParser.DatatableShape | src/loaders/SWGAssetParser.js:362-429 | a decoded table has as many columns and rows as announced (none for a negative count) and a cell per column in each row; under 8 bytes it is empty |
| SwgAssetParser.TextTablesNeverThrow | src/loaders/SWGAssetParser.js:413-421 | without integer or float columns the decoder never throws, whatever the counts |
| SwgAssetParser.IntCellPastEndThrows | src/loaders/SWGAssetParser.js:405-408 | an integer cell past the end makes the whole decode throw |
| SwgAssetParser.DatatableRoundTrip | src/loaders/SWGAssetParser.js:362-429 | a table written in the DTII layout decodes back to the same columns and rows |
| SwgAssetParser.DetectShaderType | src/loaders/SWGAssetParser.js:546-553 | one of six shader classes; `particle` exactly when the name contains it, `standard` exactly when no keyword occurs |
| SwgAssetParser.ShaderTypePriority | src/loaders/SWGAssetParser.js:546-553 | each class is chosen exactly when its keyword occurs and no earlier keyword does |
| SwgAssetParser.EffectName | src/loaders/SWGAssetParser.js:577-579 | only an EFCT leaf contributes, with its payload as NUL-free non-empty text |
| SwgAssetParser.EffectNames | src/loaders/SWGAssetParser.js:572-584 | at most one name per chunk, each non-empty and NUL-free |
| SwgAssetParser.FindEffectReferences | src/loaders/SWGAssetParser.js:572-584 | the loop collects exactly `EffectNames` of the top-level chunks, in order |
| SwgAssetParser.EffectNamesAppend | src/loaders/SWGAssetParser.js:576-581 | the references of two chunk lists are the references of each, in order |
| SwgAssetParser.EffectLeaf | src/loaders/SWGAssetParser.js:577-579 | an EFCT leaf holding a NUL-free ASCII name contributes exactly that name |
| SwgAssetParser.ContainersContributeNothing | src/loaders/SWGAssetParser.js:577 | a container, whose data is null, never contributes |
| SwgAssetParser.RowValue | src/loaders/SWGAssetParser.js:406-416 | the value of a key is the last set cell of a column with that name, and absent exactly when every such cell was skipped |
| SwgAssetParser.RowValueIsLookup | src/loaders/SWGAssetParser.js:400-425 | looking a key up in the row object built column by column gives `RowValue` |
| SwgAssetParser.OrZero | src/loaders/SWGAssetParser.js:595-597 | `value \|\| 0`: a truthy value is kept, and a missing or falsy one becomes 0 |
| SwgAssetParser.ParseRequiredStats | src/loaders/SWGAssetParser.js:593-599 | each requirement is 0 when its column is missing or skipped, and is always truthy or 0 |
| SwgAssetParser.RequiredHealthFromLastColumn | src/loaders/SWGAssetParser.js:595 | a non-zero integer in the last `req_health` column is the health requirement |
| TrnLoader.GenerateFallbackTerrain | src/loaders/TRNLoader.js:74-116 | the fill loops store the height of grid point (x, y) at index `y * 512 + x` of a 512 by 512 map, with the fixed range, grassland biome and procedural metadata |
| TrnLoader.FallbackShape | src/loaders/TRNLoader.js:75-105 | the fallback has one sample per grid point, 512 by 512, and the sample of (x, y) is at its row-major index |
| TrnLoader.ParseHeader | src/loaders/TRNLoader.js:47-62 | too small exactly under 12 bytes; not an IFF exactly when a long enough buffer does not start with `FORM`; otherwise the big-endian size at 4 and the 4-byte name at 8 |
| TrnLoader.Parse | src/loaders/TRNLoader.js:45-68 | every buffer, short, foreign or a FORM, yields the fallback terrain |
| TrnLoader.WaterLevelIsZeroOrLow | src/loaders/TRNLoader.js:134-150 | the water level is 0 exactly on naboo, corellia, endor, rori, talus and yavin4, and -100 for every other planet, a missing one included |
| TrnLoader.WaterLevel | src/loaders/TRNLoader.js:134-150 | the water level is 0 or -100, and -100 when the terrain names no planet |
| ParseAssets.CliOptions.constructor | parse-assets.js:22-26 | the options start at the SWGTERRAIN path, `asset-manifest.json` and `json` |
| ParseAssets.CliOptions.ParseArgs | parse-assets.js:28-43 | the argument loop leaves the options that consuming the arguments two at a time, flag then value, gives |
| ParseAssets.LastFlagWins | parse-assets.js:28-43 | a known flag's option is the argument after its last occurrence in a flag position (undefined when it is the last argument), or its earlier value when the flag never occurs there |
| ParseAssets.UnknownFlagsChangeNothing | parse-assets.js:32-42 | arguments with no known flag in a flag position change no option |
| ParseAssets.RenderFailsIffThrows | parse-assets.js:156-182 | `objectToYAML` fails exactly when its argument is null or some nested object or array item reached through the recursion is null |
| ParseAssets.NullFreeRenders | parse-assets.js:156-182 | a value with no null inside always renders |
| ParseAssets.NullArrayItemThrows | parse-assets.js:168-171 | a null item of an array value is of type `'object'`, so rendering it throws and the whole call fails |
| ParseAssets.EntriesLinesAppend | parse-assets.js:160-179 | keys are printed in order: the lines of two entry lists are the lines of the first followed by those of the second |
| ParseAssets.FlatObjectLines | parse-assets.js:158-181 | an object of single-line scalar, null or undefined values prints one line per key, in order, each `indent` spaces then `key: value` (or `key: null`), joined by line breaks |
| ParseAssets.EmptyNestedObjectBlankLine | parse-assets.js:163-165 | a nested empty object prints `key:` followed by an empty line |
| Naming.FirstContained | parse_swg_assets.py:313-322 | the index of the first keyword contained in the name, every earlier keyword absent, or the list length when none occurs |
| Naming.LastContained | src/loaders/FlyingMountParser.js:257-262 | the index of the last keyword contained in the name, every later keyword absent, or none when no keyword occurs |
| Naming.FirstIsLastWhenUnique | parse_swg_assets.py:395-398 | when a single keyword occurs, a first-match scan and a last-match override pick the same one |
| Naming.FindMatch | src/loaders/FlyingMountParser.js:111 | the leftmost position at which the literal (ignoring case under `/i`), followed by a digit when the pattern has `\d+`, occurs; none when there is no such position |
| Naming.MatchEnd | src/loaders/FlyingMountParser.js:119 | a `\d+` match takes every digit after the literal and ends inside the string |
| Naming.RemoveFirst | src/loaders/FlyingMountParser.js:57 | JavaScript `replace` with an empty replacement removes at most the leftmost match and never lengthens the string |
| Naming.RemoveEvery | parse_swg_assets.py:96 | `re.sub` and Python `str.replace` with an empty replacement remove every non-overlapping match, left to right, and change nothing without a match |
| Naming.ExtractTier | src/loaders/FlyingMountParser.js:110-113 | the decimal value of the digits after the first `tier` (any case) followed by a digit, or 1 without one |
| Naming.TierOfSuffixedName | src/loaders/FlyingMountParser.js:110-113 | a name ending in `_tier<n>` whose base has no `tier<digits>` has tier n |
| Naming.RemoveTierSuffix | src/loaders/FlyingMountParser.js:118-120 | stripping `_tier<digits>`, by the first match or by every match, turns `base_tier<n>` back into `base` |
| Naming.MountCategory | src/loaders/FlyingMountParser.js:125-132 | `fighter` exactly when a fighter keyword occurs, `speeder` exactly when a speeder keyword and no fighter keyword occurs, `transport` likewise after both, otherwise `custom` |
| Naming.MinLevel | src/loaders/FlyingMountParser.js:247-249 | at least 1, ten levels per tier above the first, and 1 for tier 1 or below |
| Naming.MinLevelMonotone | src/loaders/FlyingMountParser.js:247-249 | a higher tier never needs a lower level |
| Naming.UpperFirst | src/loaders/FlyingMountParser.js:275 | same length; the first character upper-cased and the rest kept |
| Naming.Capitalize | parse_swg_assets.py:403 | same length; the first character upper-cased and the rest lower-cased |
| FlyingMountParser.LastMatchCostCases | src/loaders/FlyingMountParser.js:255-262 | the five overriding `if`s give the cost of the last table keyword that occurs, keyword by keyword from the end, and 5000 when none does |
| FlyingMountParser.CalculateCost | src/loaders/FlyingMountParser.js:254-266 | the base cost of the last matching keyword, times the tier |
| FlyingMountParser.UpperFirstAll | src/loaders/FlyingMountParser.js:274-275 | one word per piece, each with its first letter upper-cased |
| FlyingMountParser.DisplayNameWords | src/loaders/FlyingMountParser.js:271-279 | without spaces in the base name, the words of the display name are the `_` pieces, same lengths, first letters upper-cased, then ` Mk.<tier>` above tier 1 |
| FlyingMountParser.FormatDisplayName | src/loaders/FlyingMountParser.js:271-279 | as long as the base name, each `_` turned into one space, followed by ` Mk.<tier>` above tier 1 |
| FlyingMountParser.ExtractMountData | src/loaders/FlyingMountParser.js:56-105 | the name drops the first `shared_` and `.iff`, the tier comes from that name, a licence is needed from tier 3, and the category is one of the four |
| FlyingMountParser.SetMount | src/loaders/FlyingMountParser.js:42 | `Map.set` keeps an existing key in its place or appends a new one, and adds only the new mount |
| FlyingMountParser.Lookup | src/loaders/FlyingMountParser.js:318-320 | `Map.get` returns a stored mount of that name, or nothing when no stored mount has it |
| FlyingMountParser.SetMountLookup | src/loaders/FlyingMountParser.js:42 | after `set` the key maps to the new mount and every other key keeps its mount |
| FlyingMountParser.SetMountUnique | src/loaders/FlyingMountParser.js:42 | `set` keeps the names of the stored mounts unique |
| FlyingMountParser.Where | src/loaders/FlyingMountParser.js:325-334 | `filter` over the stored mounts: exactly those that pass, each one stored, never more than are stored |
| FlyingMountParser.CategoriesPartition | src/loaders/FlyingMountParser.js:125-132 | the four category lists together hold every stored mount once |
| FlyingMountParser.MountRegistry.constructor | src/loaders/FlyingMountParser.js:14-25 | the registry starts empty |
| FlyingMountParser.MountRegistry.ParseMounts | src/loaders/FlyingMountParser.js:30-51 | the mounts returned are those of the readable files, in order, and each is stored under its name, keeping names unique |
| FlyingMountParser.MountRegistry.GetMountsByCategory | src/loaders/FlyingMountParser.js:324-327 | exactly the stored mounts of that category |
| FlyingMountParser.MountRegistry.GetMountsByTier | src/loaders/FlyingMountParser.js:331-334 | exactly the stored mounts of that tier |
| FlyingMountParser.SetMountValid | src/loaders/FlyingMountParser.js:39-43 | storing a categorised mount keeps the registry's names unique and every mount categorised |
| FlyingMountParser.ParsedMountsSnoc | src/loaders/FlyingMountParser.js:34-47 | one more file adds its mount at the end of the result when it is readable, and nothing otherwise |
| FlyingMountParser.StoreAllSnoc | src/loaders/FlyingMountParser.js:42 | storing one more mount is a `set` on the registry reached so far |
| ParseSwgAssets.DetectSpecies | parse_swg_assets.py:264-276 | `unknown` exactly when no species occurs in the lower-cased name; otherwise the first species in table order that occurs |
| ParseSwgAssets.SpawnLocations | parse_swg_assets.py:278-300 | the listed locations of a mapped species, and the three human cities for any other, never an empty list |
| ParseSwgAssets.UnmappedSpeciesSpawnAsHuman | parse_swg_assets.py:264-300 | a detected species the map lacks, and `unknown`, start at the human cities |
| ParseSwgAssets.FirstMatchCost | parse_swg_assets.py:390-398 | one of the five table costs, or 5000 |
| ParseSwgAssets.FormatDisplayName | parse_swg_assets.py:401-404 | as long as the base name, each `_` turned into one space, followed by ` Mk.<tier>` above tier 1 |
| ParseSwgAssets.CalculateCost | parse_swg_assets.py:388-399 | the loop stops at the first table keyword in the name; the cost is its base cost, or 5000, times the tier |
| ParseSwgAssets.CapitalizeAll | parse_swg_assets.py:403 | one word per piece, each capitalised |
| ParseSwgAssets.ParseMountIff | parse_swg_assets.py:92-129 | the tier comes from the name, a licence is needed from tier 3, and the minimum level is at least 1 |
| ParseAssetsNode.ParseMountIff | parse-assets-node.js:106-143 | the name drops the first `shared_` and `.iff`, the tier comes from that name, and a licence is needed from tier 3 |
| ParseAssetsNode.MountRecordsDifferOnlyInCost | parse-assets-node.js:106-143 | this record equals the browser parser's in every field except the cost, which here comes from the first matching keyword |
| ParseAssetsNode.CostsAgreeOnOneKeyword | parse-assets-node.js:388-401 | with a single cost keyword in the name, the first-match loop and the browser parser's overriding `if`s give the same cost |
| ParseAssetsNode.CostsDiverge | parse-assets-node.js:394-399 | `xwing_transport` costs 15000 per tier here and 25000 per tier in the browser parser |
| ParseAssetsNode.DetectShaderType | parse-assets-node.js:408-416 | one of seven classes; `terrain` exactly when the name says `terrain` but neither `particle` nor `water`; without `terrain` the browser parser's class |
| ParseAssetsNode.ShaderTypesDiverge | parse-assets-node.js:411-412 | `terrain_blend` is a terrain shader here and a blend shader in the browser parser |
| ParseAssetsNode.UpperFirstCapitalizeIgnoringCase | parse-assets-node.js:404 | upper-casing the first letter and Python's `capitalize` agree once lower-cased |
| ParseAssetsNode.DisplayNamesAgreeIgnoringCase | parse-assets-node.js:403-406 | the JavaScript and Python display names are equal ignoring case |
| ParseAssetsNode.DisplayNamesDiverge | parse-assets-node.js:404 | `x_WING` displays as `X WING` in JavaScript and `X Wing` in Python |
| ParseAssetsNode.TwoTiers | parse-assets-node.js:109 | the Python `re.sub` removes both `_tier<digits>` groups of `a_tier1_tier2`; the JavaScript `replace` only the first |
| ParseAssetsNode.UpperTierOnlyFolded | parse-assets-node.js:109 | the case-insensitive JavaScript pattern removes `_TIER2` |
| ParseAssetsNode.UpperTierKept | parse_swg_assets.py:96 | the case-sensitive Python pattern keeps `_TIER2` |
| InventorySystem.VisibleIff | src/ui/InventorySystem.js:736-743 | an item stays shown exactly when its type and quality pass their filters (or the filter is `all`) and its lower-cased name contains the lower-cased search, the empty search matching every name |
| InventorySystem.Visible | src/ui/InventorySystem.js:736-743 | an empty slot is always shown, and with both filters at `all` and no search every item is shown |
| InventorySystem.LongerSearchHidesMore | src/ui/InventorySystem.js:742 | typing more search text never shows a slot that a shorter search hid |
| InventorySystem.FirstEmpty | src/ui/InventorySystem.js:921 | the lowest empty slot, every earlier one occupied, or none exactly when the grid is full |
| InventorySystem.AddThenRemoveRestores | src/ui/InventorySystem.js:919-938 | the added item lands in the lowest empty slot, and removing from that slot restores the grid |
| InventorySystem.AddedContainsItem | src/ui/InventorySystem.js:921-927 | a full grid is left alone; otherwise the item is in the grid afterwards and the grid keeps its size |
| InventorySystem.IndexOf | src/ui/InventorySystem.js:756 | `indexOf` finds a listed value at its position, and gives the table length exactly for an unlisted one |
| InventorySystem.Rank | src/ui/InventorySystem.js:756-762 | a listed value ranks at its table position, and exactly the unlisted ones rank 999 |
| InventorySystem.ItemLeTotal | src/ui/InventorySystem.js:755-767 | the comparator orders any two items one way or the other |
| InventorySystem.ItemLeTies | src/ui/InventorySystem.js:755-767 | items the comparator puts both ways round share the type rank, quality rank and name |
| InventorySystem.UnknownQualitySortsFirst | src/ui/InventorySystem.js:761-764 | within a type, an unlisted quality (rank 999) sorts before every listed one, since higher ranks come first |
| InventorySystem.UnknownTypeSortsLast | src/ui/InventorySystem.js:756-759 | an unlisted type sorts after every listed one |
| InventorySystem.Insert | src/ui/InventorySystem.js:755-767 | inserting adds exactly the one item and keeps every other |
| InventorySystem.InsertSorted | src/ui/InventorySystem.js:755-767 | inserting into a sorted list keeps it sorted |
| InventorySystem.SortItems | src/ui/InventorySystem.js:755 | the sort is a permutation of the items |
| InventorySystem.SortItemsSorted | src/ui/InventorySystem.js:755-767 | the sorted items are in comparator order |
| InventorySystem.OccupiedMultiset | src/ui/InventorySystem.js:751 | the filtered items hold each item as often as the slots do |
| InventorySystem.OccupiedPacked | src/ui/InventorySystem.js:770-775 | refilling the cleared grid from slot 0 gives back exactly the items, in order |
| InventorySystem.SortedInventory | src/ui/InventorySystem.js:749-779 | after sorting the grid holds the same items, in comparator order, packed into the first slots with every empty slot after them |
| InventorySystem.Repaired | src/ui/InventorySystem.js:831-832 | repair never empties or fills a slot |
| InventorySystem.RepairedProperties | src/ui/InventorySystem.js:828-839 | repair changes only durability, never lowers it, raises a set durability to at least its maximum, and a second repair does nothing |
| InventorySystem.StackKeyCollides | src/ui/InventorySystem.js:787 | `a_b` of quality `c` and `a` of quality `b_c` share a stacking key |
| InventorySystem.MembersShape | src/ui/InventorySystem.js:785-793 | the grouping pass records, in increasing slot order, exactly slots of stackable items of that key, with the item in each |
| InventorySystem.KeysMembers | src/ui/InventorySystem.js:788-790 | a key is registered exactly when its group is not empty |
| InventorySystem.KeysDistinct | src/ui/InventorySystem.js:788-790 | each key is registered once |
| InventorySystem.ApplyGroupFrame | src/ui/InventorySystem.js:796-822 | stacking one group changes only that group's slots |
| InventorySystem.ApplyGroupFirst | src/ui/InventorySystem.js:802 | the group's first slot holds its item with the group total capped at the maximum stack |
| InventorySystem.StackedKeepsUngrouped | src/ui/InventorySystem.js:781-826 | an empty slot, an unstackable item, or the only item of its key is left exactly as it was |
| InventorySystem.StackedFirstSlot | src/ui/InventorySystem.js:797-803 | the first slot of every group of several ends up holding the group's total quantity, capped at `maxStack \|\| 100` |
| InventorySystem.OverflowSlot | src/ui/InventorySystem.js:810-820 | the overflow left in a later slot is empty or a copy of the merged item holding at most one stack |
| InventorySystem.ClearedAt | src/ui/InventorySystem.js:805-808 | every slot of the group after the first is emptied before the overflow is written |
| InventorySystem.OverflowAt | src/ui/InventorySystem.js:810-820 | the overflow loop leaves, at each later slot, what remains after one stack per earlier slot, capped at one stack, and leaves the slot untouched once nothing remains |
| InventorySystem.ApplyGroupLater | src/ui/InventorySystem.js:796-822 | after stacking one group, each of its later slots holds exactly the overflow for its position |
| InventorySystem.StackedLaterSlots | src/ui/InventorySystem.js:781-826 | after `stackItems()`, each later slot of a group of several holds exactly its overflow: a copy of the merged item with at most one stack, or nothing |
| InventorySystem.OverflowPrefix | src/ui/InventorySystem.js:810-820 | the overflow fills the later slots in order: once one is empty, all after it are empty |
| InventorySystem.StackedGroupTotal | src/ui/InventorySystem.js:781-826 | with a positive maximum stack, the first `n` slots of a group hold the group's total after stacking, less whatever exceeds `n` stacks, so nothing is lost while the group's slots can hold it |
| InventorySystem.MinStep | src/ui/InventorySystem.js:810-820 | one more slot of overflow raises the held total from the cap at `n` stacks to the cap at `n + 1` stacks |
| InventorySystem.Inventory.constructor | src/ui/InventorySystem.js:6-10 | the grid starts as 80 empty slots |
| InventorySystem.Inventory.AddItem | src/ui/InventorySystem.js:919-928 | true exactly when a slot was empty, and the grid becomes `Added`: the item in the lowest empty slot |
| InventorySystem.Inventory.RemoveItem | src/ui/InventorySystem.js:930-938 | the item of the slot comes back (null for an empty or out-of-range slot) and the slot is cleared |
| InventorySystem.Inventory.SortInventory | src/ui/InventorySystem.js:749-779 | the grid becomes the sorted items packed from slot 0, then empty slots |
| InventorySystem.Inventory.RepairAll | src/ui/InventorySystem.js:828-839 | every slot becomes its repaired self |
| InventorySystem.Inventory.StackItems | src/ui/InventorySystem.js:781-826 | the grid becomes `Stacked`: each group of the original slots merged, in key order |
| InventorySystem.Inventory.StackGroup | src/ui/InventorySystem.js:797-821 | the slots become the group applied to them |
| InventorySystem.Inventory.GroupTotal | src/ui/InventorySystem.js:798 | the sum of the group's quantities |
| InventorySystem.Inventory.ClearOthers | src/ui/InventorySystem.js:805-807 | every slot of the group but the first is cleared |
| InventorySystem.Inventory.WriteOverflow | src/ui/InventorySystem.js:810-820 | the overflow loop writes copies of the first item, at most `maxStack` each, into the group's later slots |
| Toolbar.JsRem | src/ui/Toolbar.js:98 | JavaScript's `%`: the Euclidean remainder for a non-negative dividend, and a remainder of the dividend's sign otherwise |
| Toolbar.GetKeybindLabel | src/ui/Toolbar.js:97-105 | a number exactly for an index below 10, and the empty string from index 24 on |
| Toolbar.NegativeIndexLabel | src/ui/Toolbar.js:98 | index -5 takes the number branch and labels as -4 |
| Toolbar.KeyAction | src/ui/Toolbar.js:107-146 | a press inside an input or text area does nothing; a slot press names a slot of 0 to 23 without Ctrl; a bar switch names a bar of 0 to 5 with Ctrl |
| Toolbar.KeyOfSelects | src/ui/Toolbar.js:114-133 | every slot is reached: its key, with Shift for the bottom row, selects it |
| Toolbar.SlotKeyUnique | src/ui/Toolbar.js:114-133 | the only press that selects a slot is that slot's own key and Shift state, without Ctrl |
| Toolbar.CtrlSwitchesBar | src/ui/Toolbar.js:135-138 | Ctrl with 1 to 6 switches to bar key - 1, whatever Shift says |
| Toolbar.LabelNamesKey | src/ui/Toolbar.js:97-105 | the label drawn on each slot is the key that selects it, prefixed with `S` when Shift is needed |
| Toolbar.ToolbarState.constructor | src/ui/Toolbar.js:2-10 | six bars of 24 empty slots, bar 0 current |
| Toolbar.ToolbarState.SwitchToolbar | src/ui/Toolbar.js:165-176 | only an index from 0 to 5 becomes the current bar; the slots are untouched |
| Toolbar.ToolbarState.GetSlotItem | src/ui/Toolbar.js:184-186 | an out-of-range bar or slot reads as null |
| Toolbar.ToolbarState.SetSlotItem | src/ui/Toolbar.js:178-182 | exactly the named slot is written when both indices are in range, and a read of it gives the item back; no other slot changes |
| Toolbar.ToolbarState.HandleKey | src/ui/Toolbar.js:107-146 | the press does what `KeyAction` says: a bar switch changes the current bar, anything else leaves all state alone |
| RenderingConfig.GetLodLevel | src/config/rendering-config.js:105-110 | high exactly below 1000, medium exactly from 1000 to below 2000, low exactly from 2000 to below 5000, culled exactly from 5000 on |
| RenderingConfig.LodMonotone | src/config/rendering-config.js:105-110 | a farther object never gets a more detailed band |
| RenderingConfig.ShouldRenderDownwardClosed | src/config/rendering-config.js:118-121 | whatever is drawn at a distance is drawn at every nearer one |
| RenderingConfig.ShouldRenderObject | src/config/rendering-config.js:118-121 | every object type is drawn within 1000, none beyond 5000, and only landmarks are drawn in the culled band |
| RenderingConfig.SingularNamesFallBack | src/config/rendering-config.js:64-70 | singular type names are not table keys, so a `tree` at 1800 is drawn under the 2000 default while `trees` stop at 1500 |
| RenderingConfig.GetTerrainSegments | src/config/rendering-config.js:128-131 | 256, 128 or 64 segments for the three bands, and 32 exactly once culled |
| RenderingConfig.TerrainSegmentsMonotone | src/config/rendering-config.js:128-131 | the terrain mesh never gets finer with distance |
| NpcSpawns.Lookup | src/data/npc-spawns.js:410 | the spawns stored under the key, or nothing exactly when no entry has that key; with the distinct keys of an object literal, the spawns of the one entry with that key |
| NpcSpawns.GetPlanetSpawns | src/data/npc-spawns.js:409-411 | an unknown planet has no spawns; any spawns returned are those stored under the lower-cased name |
| NpcSpawns.PlanetNameIgnoresCase | src/data/npc-spawns.js:410 | a planet name and its lower-cased form give the same spawns |
| NpcSpawns.NearFilter | src/data/npc-spawns.js:419-425 | a spawn is kept exactly when its horizontal distance to the position is at most the radius |
| NpcSpawns.NearFilterAppend | src/data/npc-spawns.js:419 | the filter keeps table order |
| NpcSpawns.NearFilterIgnoresHeight | src/data/npc-spawns.js:420-423 | the position's height plays no part |
| NpcSpawns.GetSpawnsNearPosition | src/data/npc-spawns.js:416-426 | every spawn returned is one of the planet's, the radius defaulting to 1000 |
| NpcSpawns.TotalAtLeastEntries | src/data/npc-spawns.js:431-437 | with no negative counts, the total is at least the number of spawn entries, a missing or 0 count adding 1 |
| NpcSpawns.SpawnTotal | src/data/npc-spawns.js:433-435 | with no count given, a planet's spawns add one creature each |
| NpcSpawns.TotalCreatureCount | src/data/npc-spawns.js:431-437 | with no count given anywhere, the total is the number of spawn entries |
| NpcSpawns.NegativeCountLowersTotal | src/data/npc-spawns.js:434 | a negative count is truthy and is added as it is |
| PoiDatabase.GetPlanetPois | src/data/poi-database.js:310-317 | the record exactly when the lower-cased name is a key, and null otherwise |
| PoiDatabase.PlanetNameIgnoresCase | src/data/poi-database.js:311 | a planet name and its lower-cased form give the same record |
| PoiDatabase.FindNearestPoi | src/data/poi-database.js:322-356 | the two loops give `NearestPoi`, the in-order scan of the cities then the points of interest |
| PoiDatabase.ScanCities | src/data/poi-database.js:330-339 | the cities loop leaves the closest city strictly inside the range, the earliest on ties, as the scan over the cities' candidates |
| PoiDatabase.ScanPois | src/data/poi-database.js:342-353 | continuing from the cities' result, the points-of-interest loop leaves the scan over all candidates |
| PoiDatabase.ScanNoneIff | src/data/poi-database.js:326-355 | nothing is found exactly when no candidate is strictly within `maxDistance` |
| PoiDatabase.ScanInRange | src/data/poi-database.js:335 | what is found is strictly within `maxDistance` |
| PoiDatabase.ScanMinimal | src/data/poi-database.js:335-338 | what is found is no farther than any candidate |
| PoiDatabase.ScanFirstNearest | src/data/poi-database.js:335-351 | what is found is a candidate, the first among the nearest, so a city wins a tie with a point of interest |
| PoiDatabase.UnknownPlanetFindsNothing | src/data/poi-database.js:323-324 | an unknown planet has no nearest point |
| PoiDatabase.InWaterDownwardClosed | src/data/poi-database.js:361-366 | being in water depends on the height alone, and a lower position is in water too |
| PoiDatabase.IsInWater | src/data/poi-database.js:361-366 | never in water on an unknown planet or one without a water level; otherwise in water exactly below that level |
| UiManager.Available | src/UIManager.js:671-673 | a material is available exactly when some inventory item has its name and at least the required quantity |
| UiManager.AllAvailable | src/UIManager.js:670-680 | the loop answers true exactly when every material is available |
| UiManager.ValidateCraftingMaterials | src/UIManager.js:667-681 | false without a schematic or without a material list; otherwise true exactly when every material is covered by some item |
| UiManager.NoMaterialsNeedNothing | src/UIManager.js:670-680 | an empty material list is always satisfied |
| UiManager.ValidateMonotone | src/UIManager.js:667-681 | more inventory never invalidates a schematic that was satisfied |
| UiManager.GetResourceIcon | src/UIManager.js:683-694 | the table's icon for a listed type, and the question mark exactly for an unlisted one |
| UiManager.GetNotificationIcon | src/UIManager.js:743-754 | always one of the six table icons |
| UiManager.GetNotificationColors | src/UIManager.js:756-767 | always one of the six table gradients |
| UiManager.UnknownNotificationIsInfo | src/UIManager.js:753-766 | an unknown notification type gets the icon and colours of `info` |
| UiManager.Manager.constructor | src/UIManager.js:84-88 | the five windows are registered, all hidden, and no open window is recorded |
| UiManager.Manager.ToggleSystem | src/UIManager.js:544-553 | the named window's visibility flips; an unknown name changes nothing |
| UiManager.Manager.CloseAllSystems | src/UIManager.js:555-565 | every window is hidden, none is added or dropped, and the open set is emptied |
| UiManager.Manager.SystemOpened | src/UIManager.js:104-108 | the opened window joins the open set |
| UiManager.Manager.SystemClosed | src/UIManager.js:110-114 | the closed window leaves the open set |
| HotkeyManager.HexPrefix | src/ui/HotkeyManager.js:280 | the longest prefix of hexadecimal digits, the part `parseInt(_, 16)` reads |
| HotkeyManager.ParsePair | src/ui/HotkeyManager.js:280-282 | `parseInt` of two hex digits is their byte value |
| HotkeyManager.HexToRgbaDecodes | src/ui/HotkeyManager.js:279-284 | a `#rrggbb` colour decodes to the byte value of each digit pair, the alpha passed through |
| HotkeyManager.HexToRgba | src/ui/HotkeyManager.js:279-284 | the alpha is passed through; each channel is `NaN` or of magnitude below 256, as it is read from two characters; blue is `NaN` for a string of at most five characters |
| HotkeyManager.HexDigitsOf | src/ui/HotkeyManager.js:280-282 | the digits `parseInt(_, 16)` reads are hexadecimal digits, never more than the string holds |
| HotkeyManager.ParseIntHexShort | src/ui/HotkeyManager.js:280-282 | `parseInt(_, 16)` of at most two characters is `NaN` or of magnitude below 256 |
| HotkeyManager.ChannelsShort | src/ui/HotkeyManager.js:280-282 | each of the three two-character slices parses short, and the blue slice of a string of at most five characters is empty and parses to `NaN` |
| HotkeyManager.ParseIntHexEmpty | src/ui/HotkeyManager.js:282 | `parseInt("", 16)` is `NaN` |
| HotkeyManager.JsSlice | src/ui/HotkeyManager.js:280-282 | `slice(a, b)` never yields more than `b - a` characters nor more than the string holds, and nothing when the string ends before `a` |
| HotkeyManager.HexColor | src/ui/HotkeyManager.js:279-284 | three bytes written as lower-case `#rrggbb` form a well-formed colour |
| HotkeyManager.HexRoundTrip | src/ui/HotkeyManager.js:279-284 | decoding a written colour gives the three bytes back |
| HotkeyManager.ShortColorHasNoBlue | src/ui/HotkeyManager.js:282 | `#fff` has no blue digits, so its blue channel is NaN |
| HotkeyManager.GetPoiColor | src/ui/HotkeyManager.js:264-277 | always a table colour, and white for a type the table lacks |
| HotkeyManager.PoiColorsDecode | src/ui/HotkeyManager.js:264-284 | every colour the table gives is a well-formed `#rrggbb` that decodes to three numbers |
| HotkeyManager.KeyCommand | src/ui/HotkeyManager.js:290-313 | a press inside an input or text area does nothing, and the travel menu is toggled only in admin mode |
| HotkeyManager.EscapeClosesMenus | src/ui/HotkeyManager.js:303-305 | Escape, in any case, closes the menus |
| HotkeyManager.Manager.constructor | src/ui/HotkeyManager.js:9-26 | both menus start hidden, with the given admin mode and camera |
| HotkeyManager.Manager.ToggleHelp | src/ui/HotkeyManager.js:316-323 | help flips, and showing it hides the travel menu; the two are never shown together |
| HotkeyManager.Manager.ToggleTravelMenu | src/ui/HotkeyManager.js:325-339 | nothing without admin mode; otherwise the menu flips, and showing it hides help |
| HotkeyManager.Manager.CloseAllMenus | src/ui/HotkeyManager.js:341-346 | both menus are hidden and the camera stays put |
| HotkeyManager.Manager.TravelTo | src/ui/HotkeyManager.js:348-362 | the camera lands 50 units above the target and both menus close |
| HotkeyManager.Manager.HandleKey | src/ui/HotkeyManager.js:290-313 | the press does what `KeyCommand` says: an ignored press changes nothing, `h` flips help and closes travel when help opens, `t` (admin only) flips travel and closes help when travel opens, and Escape leaves both menus hidden |
| CraftingInterface.LevelToDifficulty | src/ui/CraftingInterface.js:1096-1102 | one of the five bands; `novice` exactly up to level 1 and `master` exactly above 4 |
| CraftingInterface.DifficultyMonotone | src/ui/CraftingInterface.js:1096-1102 | a higher level is never an easier band |
| CraftingInterface.HighLevelsShareMaster | src/ui/CraftingInterface.js:1101 | every level from 5 up is in the same band |
| CraftingInterface.AllIsOwnBand | src/ui/CraftingInterface.js:1089-1092 | the `all` filter shows exactly what the schematic's own band shows |
| CraftingInterface.SchematicShown | src/ui/CraftingInterface.js:1080-1092 | a shown schematic's name is at least as long as the search; with an empty search, shown exactly when the difficulty is `all` or the level's band |
| CraftingInterface.OtherBandHides | src/ui/CraftingInterface.js:1090-1092 | a band other than the schematic's own hides it |
| CraftingInterface.EmptySearchShowsAll | src/ui/CraftingInterface.js:1080-1092 | an empty search with `all` shows every schematic |
| CraftingInterface.GetSchematicsForProfession | src/ui/CraftingInterface.js:976-1077 | the profession's list, and the empty list for an unknown profession |
| CraftingInterface.Session.constructor | src/ui/CraftingInterface.js:2-10 | no schematic and no experiment points |
| CraftingInterface.Session.SelectSchematic | src/ui/CraftingInterface.js:759-771 | the schematic becomes current and the points are untouched |
| CraftingInterface.Session.ShowExperimentationPhase | src/ui/CraftingInterface.js:1155-1169 | the points are refilled to the maximum of 10 |
| CraftingInterface.Session.RunExperiment | src/ui/CraftingInterface.js:1195-1218 | one point is spent exactly when one is left; otherwise nothing changes; the points stay within 0 to 10 |
| CraftingInterface.Session.ResetSession | src/ui/CraftingInterface.js:1237-1258 | no schematic and no points remain |
| WorldMap.SampleWaypoints | src/ui/WorldMapSystem.js:970-974 | two waypoints, both on the given planet |
| WorldMap.GetCurrentRegion | src/ui/WorldMapSystem.js:1072-1084 | `Central Plains` exactly inside 1000 on both axes, `Eastern Territories` exactly east of 2000 outside it, `Wilderness` exactly in the ring between |
| WorldMap.EastBeatsNorth | src/ui/WorldMapSystem.js:1077-1081 | the east-west tests are taken before the north-south ones |
| WorldMap.SpliceStart | src/ui/WorldMapSystem.js:1152 | a negative index counts from the end, and the start never passes the length |
| WorldMap.SplicedKeepsOrder | src/ui/WorldMapSystem.js:1152 | removal drops exactly the indexed waypoint and keeps the others in order |
| WorldMap.AppendThenRemoveLast | src/ui/WorldMapSystem.js:1142-1152 | adding a waypoint and removing the last gives the list back |
| WorldMap.RemoveShiftsSelection | src/ui/WorldMapSystem.js:1150-1160 | the selected index is not adjusted by a removal, so it moves to the next waypoint |
| WorldMap.GalaxyMap.constructor | src/ui/WorldMapSystem.js:2-29 | scale 1, no offset or selection, the planet's sample waypoints |
| WorldMap.GalaxyMap.ZoomIn | src/ui/WorldMapSystem.js:874-879 | times 1.5 capped at 5, nothing at 5, the scale never shrinks and stays in bounds |
| WorldMap.GalaxyMap.ZoomOut | src/ui/WorldMapSystem.js:881-886 | divided by 1.5 floored at 0.2, nothing at 0.2, the scale never grows and stays in bounds |
| WorldMap.GalaxyMap.CenterOnPlayer | src/ui/WorldMapSystem.js:888-892 | the offset returns to zero and nothing else changes |
| WorldMap.GalaxyMap.SwitchPlanet | src/ui/WorldMapSystem.js:1086-1102 | the planet is set first; an unknown planet raises before the view reset; a known one resets scale, offset and waypoints |
| WorldMap.GalaxyMap.SelectWaypoint | src/ui/WorldMapSystem.js:1118-1127 | the index is recorded unchecked, and the following `waypoint.name` read raises exactly when the index names no waypoint |
| WorldMap.GalaxyMap.AddWaypoint | src/ui/WorldMapSystem.js:1129-1148 | a blank name adds nothing; otherwise one waypoint at the player on the current planet, appended |
| WorldMap.GalaxyMap.RemoveWaypoint | src/ui/WorldMapSystem.js:1150-1157 | the splice at the index, and a raise exactly when the index names no waypoint |
| WorldMap.GalaxyMap.TravelToWaypoint | src/ui/WorldMapSystem.js:1159-1170 | the selected waypoint exactly when the selection names one |
| CrystalSystem.Crystal.constructor | src/world/CrystalSystem.js:47-53 | a new crystal carries its type and value, is not collected and has no collection animation |
| CrystalSystem.Progress | src/world/CrystalSystem.js:90-94 | the animation progress never exceeds 1 and is exactly 1 once the elapsed time reaches the one-second duration |
| CrystalSystem.IndexOf | src/world/CrystalSystem.js:115 | `indexOf`: -1 exactly when the crystal is not tracked, otherwise the first index holding it |
| CrystalSystem.Removed | src/world/CrystalSystem.js:114-122 | an untracked crystal leaves the list as it is; a tracked one is removed once and nothing else changes (the multiset loses exactly that crystal) |
| CrystalSystem.SweepOnlyRemoves | src/world/CrystalSystem.js:62-85 | one `update` pass never adds a crystal and never lengthens the list |
| CrystalSystem.SweepKeepsUnexpired | src/world/CrystalSystem.js:62-85 | a crystal whose animation has not finished survives the pass |
| CrystalSystem.AdjacentExpiredSkipsOne | src/world/CrystalSystem.js:62-85 | of two adjacent finished crystals only the first is removed in one pass, because the splice shifts the second onto the visited index |
| CrystalSystem.Field.constructor | src/world/CrystalSystem.js:7-23 | the field starts with no crystals |
| CrystalSystem.Field.CreateCrystal | src/world/CrystalSystem.js:25-60 | exactly one new uncollected crystal, with the picked type's name and value from the five-entry table, is appended |
| CrystalSystem.Field.RemoveCrystal | src/world/CrystalSystem.js:114-122 | the list becomes `Removed` of the old list: unchanged for an untracked crystal |
| CrystalSystem.Field.UpdateCollectionAnimation | src/world/CrystalSystem.js:87-112 | a collected crystal is removed exactly when its animation has reached full progress |
| CrystalSystem.Field.Visit | src/world/CrystalSystem.js:63-84 | the `forEach` callback removes the crystal at the visited index exactly when it is finished, and does nothing past the end of the list |
| CrystalSystem.Field.Update | src/world/CrystalSystem.js:62-85 | the new list is the sweep over the indices fixed when `forEach` starts, removing the finished crystals it visits |
| CrystalSystem.Field.Dispose | src/world/CrystalSystem.js:124-131 | the list is empty afterwards |
| CrystalSystem.RespawnCount | src/world/AdvancedThreeScene.js:492-495 | at most five crystals are spawned, some exactly when the field is below 50, and never past 50 |
| AdvancedScene.Round | src/world/AdvancedThreeScene.js:414-415 | `Math.round` gives the integer within half a unit of the value, rounding halves up |
| AdvancedScene.SquareFacts | src/world/AdvancedThreeScene.js:420-424 | the needed cells are exactly the (2d+1)² cells of the square centred on the player's cell, each once, and none when the distance is negative |
| AdvancedScene.KeepPassFacts | src/world/AdvancedThreeScene.js:426-438 | the keep loop splits the needed cells between kept chunks and cells still to create, without repeats; kept cells come from the old list and cells left over are on none of its chunks |
| AdvancedScene.UpdateCoversSquare | src/world/AdvancedThreeScene.js:409-446 | after the update there is exactly one chunk per cell of the square and no other, and the kept chunks precede the newly created ones |
| AdvancedScene.KeepPassStable | src/world/AdvancedThreeScene.js:426-438 | chunks that already cover needed cells once each are all kept, in order |
| AdvancedScene.UpdateIdempotent | src/world/AdvancedThreeScene.js:409-446 | a second update at the same cell and distance leaves the chunk list unchanged |
| AdvancedScene.Without | src/world/AdvancedThreeScene.js:432 | `neededChunks.delete` removes exactly that cell and keeps the set free of repeats |
| AdvancedScene.RenderDistanceBounds | src/world/AdvancedThreeScene.js:753-764 | the render distance never shrinks as the altitude grows, lies between the base and the maximum at or above ground level, and is the maximum from altitude 40 up |
| AdvancedScene.DeepAltitudeDropsAllChunks | src/world/AdvancedThreeScene.js:753-764 | far below ground the distance is negative (-22 at altitude -200), and the update then keeps no chunk at all |
| AdvancedScene.NextEnergy | src/world/AdvancedThreeScene.js:514-519 | boost energy stays within [0, 100]; boosting never raises it and resting never lowers it below the cap |
| AdvancedScene.NextSpeed | src/world/AdvancedThreeScene.js:521-535 | the speed stays within [-0.25, 0.8]; unboosted thrust never passes 0.5; with neither key it decays toward 0 strictly and never crosses it |
| AdvancedScene.ParticlesAfterBurst | src/world/AdvancedThreeScene.js:636-641 | nothing is added at or above the cap, otherwise 3 particles while boosting and 1 otherwise, so the count never passes the cap by more than 2 |
| AdvancedScene.BurstOvershootsCap | src/world/AdvancedThreeScene.js:637-639 | one below the cap, a boosting burst ends two above it |
| AdvancedScene.PointValue | src/world/AdvancedThreeScene.js:813 | a crystal scores its own value, or 10 when the value is 0 |
| AdvancedScene.Scene.constructor | src/world/AdvancedThreeScene.js:29-66 | full boost energy, no speed, no particles, no score, the base render distance and no chunks |
| AdvancedScene.Scene.LoadSpaceship | src/world/AdvancedThreeScene.js:466-476 | the ship appears at (0, 5, 0) and the chunks are untouched |
| AdvancedScene.Scene.NeededChunks | src/world/AdvancedThreeScene.js:420-424 | the nested loops produce exactly the square's cells in insertion order |
| AdvancedScene.Scene.Rebuild | src/world/AdvancedThreeScene.js:426-445 | the keep loop and the creation loop leave the kept chunks, in their old order, followed by the needed cells no chunk covered |
| AdvancedScene.Scene.UpdateTerrainChunks | src/world/AdvancedThreeScene.js:409-446 | with a ship, the render distance follows the altitude and the chunk list becomes the kept chunks followed by the missing cells of the square around the ship's rounded cell; without a ship nothing changes |
| AdvancedScene.Scene.CreateBoostParticle | src/world/AdvancedThreeScene.js:636-705 | the particle count becomes `ParticlesAfterBurst` of the old count |
| AdvancedScene.Scene.UpdateSpaceshipControls | src/world/AdvancedThreeScene.js:508-545 | boosting exactly while Shift is held and energy is left; energy and speed follow `NextEnergy` and `NextSpeed`; a burst is emitted only when moving forward; the energy, speed and particle bounds are kept |
| AdvancedScene.Scene.CollectCrystal | src/world/AdvancedThreeScene.js:808-829 | a missing or already collected crystal changes nothing, so a second call is a no-op; the first call marks it collected, starts its animation, adds its points and counts it once |
| AdvancedScene.SpawnCrystals | src/world/AdvancedThreeScene.js:789-806 | one crystal per pick is appended with the picked type's value, and the existing crystals are kept |
| AdvancedScene.RespawnTick | src/world/AdvancedThreeScene.js:492-496 | the field grows by `RespawnCount` and a field of at most 50 stays at most 50 |
| ShipFleet.Ship.constructor | src/world/ShipFleetManager.js:213-218 | a new ship's shields start full at its class's shield value |
| ShipFleet.RechargedShields | src/world/ShipFleetManager.js:312-318 | recharging never passes the maximum, never lowers the shields for a non-negative time step, and leaves full shields alone |
| ShipFleet.RechargeStaysFull | src/world/ShipFleetManager.js:312-318 | full shields stay exactly full whatever the time step |
| ShipFleet.IndexOf | src/world/ShipFleetManager.js:406-407 | -1 exactly for an unregistered id, otherwise its first position |
| ShipFleet.NextIndex | src/world/ShipFleetManager.js:408 | the next index is in range and wraps from the last ship to the first |
| ShipFleet.SwitchVisitsInOrder | src/world/ShipFleetManager.js:402-411 | from no active ship, the k+1-th switch selects the k-th ship in insertion order, and n switches later the same one again |
| ShipFleet.Fleet.constructor | src/world/ShipFleetManager.js:9-21 | an empty registry and no active ship |
| ShipFleet.Fleet.SpawnShip | src/world/ShipFleetManager.js:80-115 | an unknown type returns nothing and changes nothing; otherwise a fresh ship of that class is registered under the id, a re-used id keeping its place in the order |
| ShipFleet.Fleet.SetActiveShip | src/world/ShipFleetManager.js:250-261 | true exactly for a registered id, which becomes active; an unknown id leaves the active ship as it was |
| ShipFleet.Fleet.SwitchShip | src/world/ShipFleetManager.js:402-411 | nothing on an empty fleet; otherwise the ship after the active one in insertion order, wrapping, and the first when none is active |
| ShipFleet.Fleet.GetShipList | src/world/ShipFleetManager.js:386-397 | one entry per registered ship in insertion order with its name and description, active exactly for the active ship, and never two active entries |
| ShipFleet.Fleet.Dispose | src/world/ShipFleetManager.js:437-449 | the registry is empty and the active ship field is kept |
| ShipFleet.UpdateShip | src/world/ShipFleetManager.js:308-318 | a ship's shields become `RechargedShields` of the old value; a missing ship changes nothing |
| PlayerController.ClampAxis | src/player/PlayerController.js:159-174 | the position ends inside [-7500, 7500]; an axis inside the bounds keeps position and velocity, and one outside is set to the nearer bound with velocity 0 |
| PlayerController.ClampIdempotent | src/player/PlayerController.js:159-174 | clamping a clamped axis changes nothing |
| PlayerController.WarningIgnoresClamp | src/player/PlayerController.js:148-174 | whether the warning zone is tested before or after the clamp makes no difference |
| PlayerController.Player.constructor | src/player/PlayerController.js:9-25 | the player starts at (0, 10, 0), at rest, grounded and without a warning |
| PlayerController.Player.KeyDown | src/player/PlayerController.js:50-56 | Space jumps (vertical velocity 10, airborne) only when grounded; otherwise nothing changes |
| PlayerController.Player.SetPosition | src/player/PlayerController.js:135-138 | the position is set and the velocity and flags are kept |
| PlayerController.Player.EnforceBoundaries | src/player/PlayerController.js:144-175 | the warning flag is true exactly when the unclamped position is more than 7000 from the centre on an axis, and each axis is clamped by `ClampAxis` |
| PlayerController.Player.Update | src/player/PlayerController.js:83-133 | after a frame the player is inside the bounds and at or above height 10; landing sets the vertical velocity to 0 and the grounded flag; otherwise the vertical motion follows gravity while airborne |

## Left out

- File, directory and network I/O (`open`/`seek`/`read`, `fs.readFileSync`, `readdirSync`, `rglob`, `fetch`, `FileReader`) is not modelled. Archives and chunk files are passed in as byte sequences.
- The `readFileSync` failure in `readIndex`, and the failure to open the archive in the Python `extract`, are I/O and are not modelled. A read that returns fewer bytes than asked is modelled, because the buffer ends early.
- zlib inflation (compression code 2, section 2.2 of RFC 1950) is an uninterpreted partial function passed in as a parameter.
- Floating-point values are not decoded. XFRM floats, float heightmap samples and `f` datatable cells are kept as their raw 4 bytes.
- The flight stats of the mount records and the mount speed formula are floating point, and are left out.
- Square roots are not modelled. Distances are compared as squared distances.
- `localeCompare` in the inventory sort is taken as code-point order on names.
- Lookups that hit JavaScript prototype keys (for example `constructor` or `toString` used as a table key) are not modelled. A key missing from a table is treated as missing.
- Random choices are parameters of the operation that makes them. This covers the crystal type index, the picks of a respawn, and the TRN `noise2D` heights.
- Rendering, the DOM, CSS, timers and event wiring are not modelled. What a handler changes in the state is modelled; what it draws is not.
- Upper- and lower-casing and whitespace trimming are modelled for ASCII characters only.
- `parseInt` is modelled on unbounded integers; loss of precision for very long digit strings is not modelled.
- The rgba string that `hexToRgba` formats is not modelled; the model returns its three channels and the alpha.
- `parse-assets.js` `main()` is not modelled, nor the JSON and manifest writers of the parser scripts. They only sequence I/O around the modelled functions.
- The `getRootForm` closure of `IFFLoader.js` is not modelled; `findChunk` is modelled on the parsed chunks.
- CraftingInterface.Session.RunExperiment: the random outcome, the timer and the DOM updates are not modelled. So are `craftingSession` and `updateExperimentRisk`, which only format text; only the experiment counter is modelled.
- CrystalSystem.Field.Update: only the removal of finished crystals is modelled. The rotation, bobbing and fading of each crystal are floating-point animation.
- Particles of the boost trail are kept as a count. Their positions and the decay in `updateParticles` are random and floating point.
- `checkCrystalCollisions` is not modelled, because it compares floating-point distances of meshes; `collectCrystal` is modelled from the point where a crystal is hit.
- Terrain chunks are modelled as the set of their grid cells; the meshes themselves are not modelled.
- The ship's vertical movement and the trigonometry of its heading are not modelled; only the boost energy and speed clamps are.
- The player's heading and its normalisation are parameters of `update` (`dirX`, `dirZ`).
- ShipFleet.Fleet.SpawnShip: the asynchronous model load and its fallback mesh are one path, since both register the ship.
- Toolbar.KeyAction: keys are single characters. The lexicographic comparison of longer key strings, and `parseInt` of multi-character keys, are not modelled.
- Toolbar.ToolbarState.GetSlotItem: the source returns `null` for any falsy item; the model does not distinguish falsy items from a missing one.
- ParseSwgAssets.Stem removes only a final `.iff`, which is the only suffix the `shared_*.iff` file pattern lets through.
- InventorySystem.StackedGroupTotal: the conservation of a group's total is stated for a positive maximum stack size only. With a negative `maxStack` in the item data, the overflow loop writes that negative size into every later slot, which `StackedLaterSlots` describes.
- NpcSpawns.Lookup: the table of an object literal has distinct keys, and the contract promises the one entry's spawns only under `DistinctKeys`. For a list with a repeated key the model takes the first entry, whereas a literal keeps the last value.
