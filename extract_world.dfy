/**
 * The Node world extractor's TRE archive index (six little-endian words,
 * then the name) and its top-level snapshot scan.
 *
 * The index is a JavaScript `Map`: a repeated name overwrites the value but
 * keeps the position of its first insertion, so the model keeps the keys in
 * insertion order beside the map. A word read past the end throws; inside
 * the record loop that ends the loop and keeps what was read, in the header
 * it escapes `readIndex` (`HeaderThrows`).
 */
module ExtractWorld {
  import opened Wrappers
  import opened Bytes
  import Text
  import ParseEverything
  import SwgComplete

  datatype IndexEntry = IndexEntry(checksum: nat, offset: nat, compressedSize: nat, uncompressedSize: nat, compression: nat)

  /** What `readIndex` does: return false, throw while reading the header, or return true. */
  datatype IndexOutcome = NotTre | HeaderThrows | Indexed

  /** `buffer.readUInt32LE(off)`, None where it throws. */
  function ReadU32LE(buf: seq<byte>, off: nat): (r: Option<nat>)
    ensures r.Some? <==> off + 4 <= |buf|
    ensures r.Some? ==> r.value == U32LE(buf, off)
  {
    if off + 4 <= |buf| then Some(U32LE(buf, off)) else None
  }

  /**
   * The record at `off`: checksum, data offset, compressed size, uncompressed
   * size, compression and name length, then the name, clipped at the end of
   * the buffer; and the offset after it. None when one of the six words
   * does not fit.
   */
  function RecordAt(buf: seq<byte>, off: nat): (r: Option<(string, IndexEntry, nat)>)
    ensures r.Some? <==> off + 24 <= |buf|
    ensures r.Some? ==> r.value.2 == off + 24 + U32LE(buf, off + 20)
  {
    if off + 24 > |buf| then None
    else
      var nameLength := U32LE(buf, off + 20);
      var e := IndexEntry(U32LE(buf, off), U32LE(buf, off + 4), U32LE(buf, off + 8), U32LE(buf, off + 12), U32LE(buf, off + 16));
      Some((AsciiAt(buf, off + 24, nameLength), e, off + 24 + nameLength))
  }

  /** `Map.set`, keeping keys in first-insertion order. */
  function InsertKey(keys: seq<string>, m: map<string, IndexEntry>, name: string): seq<string>
  {
    if name in m then keys else keys + [name]
  }

  /** Keys in order, none twice, exactly the keys of the map. */
  predicate OrderedKeys(keys: seq<string>, m: map<string, IndexEntry>)
  {
    (forall i, j :: 0 <= i < j < |keys| ==> keys[i] != keys[j]) &&
    (forall i :: 0 <= i < |keys| ==> keys[i] in m) &&
    (forall k :: k in m ==> k in keys)
  }

  /** The keys and map after at most `n` more records from `off`. */
  function IndexFrom(buf: seq<byte>, off: nat, n: nat, keys: seq<string>, m: map<string, IndexEntry>): (seq<string>, map<string, IndexEntry>)
    decreases n
  {
    if n == 0 then (keys, m)
    else match RecordAt(buf, off)
      case None => (keys, m)
      case Some((name, e, next)) => IndexFrom(buf, next, n - 1, InsertKey(keys, m, name), m[name := e])
  }

  /** One record read: the rest of the index continues after it with the record inserted. */
  lemma IndexStep(buf: seq<byte>, off: nat, n: nat, keys: seq<string>, m: map<string, IndexEntry>)
    requires n > 0 && RecordAt(buf, off).Some?
    ensures IndexFrom(buf, off, n, keys, m) ==
      IndexFrom(buf, RecordAt(buf, off).value.2, n - 1, InsertKey(keys, m, RecordAt(buf, off).value.0), m[RecordAt(buf, off).value.0 := RecordAt(buf, off).value.1])
  {
  }

  /** A record that does not fit ends the index. */
  lemma IndexStop(buf: seq<byte>, off: nat, n: nat, keys: seq<string>, m: map<string, IndexEntry>)
    requires RecordAt(buf, off).None?
    ensures IndexFrom(buf, off, n, keys, m) == (keys, m)
  {
  }

  /** `readIndex` from a given index state. */
  function ReadIndexSpec(buf: seq<byte>, keys: seq<string>, m: map<string, IndexEntry>): (IndexOutcome, seq<string>, map<string, IndexEntry>)
  {
    if !TagIs(buf, 0, "EERT") then (NotTre, keys, m)
    else if |buf| < 12 then (HeaderThrows, keys, m)
    else
      var r := IndexFrom(buf, 12, U32LE(buf, 8), keys, m);
      (Indexed, r.0, r.1)
  }

  /** `TREExtractor`: an archive's bytes and its file index. */
  class TreExtractor {
    const archive: seq<byte>
    var keys: seq<string>
    var fileIndex: map<string, IndexEntry>

    constructor (archive: seq<byte>)
      ensures this.archive == archive && keys == [] && fileIndex == map[]
    {
      this.archive := archive;
      keys := [];
      fileIndex := map[];
    }

    predicate Valid()
      reads this
    {
      OrderedKeys(keys, fileIndex)
    }

    /** One record of the loop, word by word; None where a word read throws. */
    method ReadRecord(start: nat) returns (r: Option<(string, IndexEntry, nat)>)
      ensures r == RecordAt(archive, start)
    {
      var offset := start;
      var checksum := ReadU32LE(archive, offset);
      if checksum.None? { return None; }
      offset := offset + 4;
      var dataOffset := ReadU32LE(archive, offset);
      if dataOffset.None? { return None; }
      offset := offset + 4;
      var compressedSize := ReadU32LE(archive, offset);
      if compressedSize.None? { return None; }
      offset := offset + 4;
      var uncompressedSize := ReadU32LE(archive, offset);
      if uncompressedSize.None? { return None; }
      offset := offset + 4;
      var compressionMethod := ReadU32LE(archive, offset);
      if compressionMethod.None? { return None; }
      offset := offset + 4;
      var nameLength := ReadU32LE(archive, offset);
      if nameLength.None? { return None; }
      offset := offset + 4;
      var filename := AsciiNode(Slice(archive, offset, offset + nameLength.value));
      AsciiAtDecodes(archive, offset, nameLength.value);
      offset := offset + nameLength.value;
      var e := IndexEntry(checksum.value, dataOffset.value, compressedSize.value, uncompressedSize.value, compressionMethod.value);
      r := Some((filename, e, offset));
    }

    /** `readIndex`. */
    method ReadIndex() returns (outcome: IndexOutcome)
      modifies this
      ensures (outcome, keys, fileIndex) == ReadIndexSpec(archive, old(keys), old(fileIndex))
    {
      if !TagIs(archive, 0, "EERT") {
        return NotTre;
      }
      var version := ReadU32LE(archive, 4);
      if version.None? {
        return HeaderThrows;
      }
      var fileCount := ReadU32LE(archive, 8);
      if fileCount.None? {
        return HeaderThrows;
      }
      ReadRecords(fileCount.value);
      return Indexed;
    }

    /** The record loop of `readIndex`: up to `count` records from offset 12; a throw ends the loop. */
    method ReadRecords(count: nat)
      modifies this
      ensures (keys, fileIndex) == IndexFrom(archive, 12, count, old(keys), old(fileIndex))
    {
      var offset := 12;
      var i := 0;
      var names, index := keys, fileIndex;
      ghost var target := IndexFrom(archive, 12, count, keys, fileIndex);
      while i < count
        invariant 0 <= i <= count
        invariant IndexFrom(archive, offset, count - i, names, index) == target
        decreases count - i
      {
        var record := ReadRecord(offset);
        if record.None? {
          IndexStop(archive, offset, count - i, names, index);
          break;
        }
        IndexStep(archive, offset, count - i, names, index);
        var (name, e, next) := record.value;
        names := InsertKey(names, index, name);
        index := index[name := e];
        offset := next;
        i := i + 1;
      }
      assert IndexFrom(archive, offset, count - i, names, index) == (names, index);
      keys, fileIndex := names, index;
    }

    /** `extractFile`: null for an unknown name or a failed inflation, else the clipped extent, inflated for code 2. */
    method ExtractFile(filename: string, inflate: seq<byte> -> Option<seq<byte>>) returns (r: Option<seq<byte>>)
      ensures filename !in fileIndex ==> r.None?
      ensures filename in fileIndex && fileIndex[filename].compression != 2 ==>
        r == Some(Slice(archive, fileIndex[filename].offset, fileIndex[filename].offset + fileIndex[filename].compressedSize))
      ensures filename in fileIndex && fileIndex[filename].compression == 2 ==>
        r == inflate(Slice(archive, fileIndex[filename].offset, fileIndex[filename].offset + fileIndex[filename].compressedSize))
    {
      if filename !in fileIndex {
        return None;
      }
      var info := fileIndex[filename];
      var data := Slice(archive, info.offset, info.offset + info.compressedSize);
      if info.compression == 2 {
        r := inflate(data);
      } else {
        r := Some(data);
      }
    }

    /** `listFiles`: the index keys in insertion order. */
    method ListFiles() returns (names: seq<string>)
      requires Valid()
      ensures forall k :: k in names <==> k in fileIndex
      ensures forall i, j :: 0 <= i < j < |names| ==> names[i] != names[j]
      ensures names == keys
    {
      names := keys;
    }
  }

  /** Inserting a key keeps the keys in order, each once, matching the map. */
  lemma InsertKeepsOrder(keys: seq<string>, m: map<string, IndexEntry>, name: string, e: IndexEntry)
    requires OrderedKeys(keys, m)
    ensures OrderedKeys(InsertKey(keys, m, name), m[name := e])
    ensures InsertKey(keys, m, name)[..|keys|] == keys
  {
  }

  /** The records `IndexFrom` reads: at most `n`, stopping at the first that does not fit. */
  function RecordsFrom(buf: seq<byte>, off: nat, n: nat): (r: seq<(string, IndexEntry)>)
    ensures |r| <= n
    decreases n
  {
    if n == 0 || RecordAt(buf, off).None? then []
    else [(RecordAt(buf, off).value.0, RecordAt(buf, off).value.1)] + RecordsFrom(buf, RecordAt(buf, off).value.2, n - 1)
  }

  /** `Map.set` of each record in turn. */
  function InsertAll(keys: seq<string>, m: map<string, IndexEntry>, recs: seq<(string, IndexEntry)>): (seq<string>, map<string, IndexEntry>)
    decreases |recs|
  {
    if recs == [] then (keys, m)
    else InsertAll(InsertKey(keys, m, recs[0].0), m[recs[0].0 := recs[0].1], recs[1..])
  }

  /** Reading the index is inserting the records it reads, in order. */
  lemma {:induction false} IndexFromIsInsertAll(buf: seq<byte>, off: nat, n: nat, keys: seq<string>, m: map<string, IndexEntry>)
    ensures IndexFrom(buf, off, n, keys, m) == InsertAll(keys, m, RecordsFrom(buf, off, n))
    decreases n
  {
    if n > 0 && RecordAt(buf, off).Some? {
      var (name, e, next) := RecordAt(buf, off).value;
      IndexStep(buf, off, n, keys, m);
      IndexFromIsInsertAll(buf, next, n - 1, InsertKey(keys, m, name), m[name := e]);
      var recs := RecordsFrom(buf, off, n);
      assert recs[0] == (name, e) && recs[1..] == RecordsFrom(buf, next, n - 1);
    }
  }

  /**
   * Inserting records keeps the index well formed and only appends keys:
   * the names already indexed stay in order.
   */
  lemma {:induction false} InsertAllKeeps(keys: seq<string>, m: map<string, IndexEntry>, recs: seq<(string, IndexEntry)>)
    requires OrderedKeys(keys, m)
    ensures var r := InsertAll(keys, m, recs);
      OrderedKeys(r.0, r.1) && |keys| <= |r.0| && r.0[..|keys|] == keys && m.Keys <= r.1.Keys
    decreases |recs|
  {
    if recs != [] {
      var (name, e) := recs[0];
      InsertKeepsOrder(keys, m, name, e);
      var keys' := InsertKey(keys, m, name);
      InsertAllKeeps(keys', m[name := e], recs[1..]);
      var r := InsertAll(keys', m[name := e], recs[1..]);
      assert r.0[..|keys|] == r.0[..|keys'|][..|keys|];
    }
  }

  /**
   * Reading records keeps the index well formed and only appends keys: the
   * names already indexed, even when a later read throws, stay in order.
   */
  lemma IndexFromKeeps(buf: seq<byte>, off: nat, n: nat, keys: seq<string>, m: map<string, IndexEntry>)
    requires OrderedKeys(keys, m)
    ensures var r := IndexFrom(buf, off, n, keys, m);
      OrderedKeys(r.0, r.1) && |keys| <= |r.0| && r.0[..|keys|] == keys && m.Keys <= r.1.Keys
  {
    IndexFromIsInsertAll(buf, off, n, keys, m);
    InsertAllKeeps(keys, m, RecordsFrom(buf, off, n));
  }

  /** `readIndex` on a fresh extractor leaves a well-formed index. */
  lemma ReadIndexValid(buf: seq<byte>)
    ensures var r := ReadIndexSpec(buf, [], map[]);
      OrderedKeys(r.1, r.2) && (r.0 != Indexed ==> r.2 == map[])
  {
    if TagIs(buf, 0, "EERT") && |buf| >= 12 {
      IndexFromKeeps(buf, 12, U32LE(buf, 8), [], map[]);
    }
  }

  /**
   * The magic test: the first four bytes, high bits cleared, spell EERT (so
   * bytes C5 C5 D2 D4 pass as well); anything else indexes nothing.
   */
  lemma MagicTest(buf: seq<byte>, keys: seq<string>, m: map<string, IndexEntry>)
    ensures ReadIndexSpec(buf, keys, m).0 != NotTre <==>
      |buf| >= 4 && forall k :: 0 <= k < 4 ==> buf[k] as int % 128 == "EERT"[k] as int
    ensures ReadIndexSpec(buf, keys, m).0 == NotTre ==> ReadIndexSpec(buf, keys, m) == (NotTre, keys, m)
  {
    if |buf| >= 4 && forall k :: 0 <= k < 4 ==> buf[k] as int % 128 == "EERT"[k] as int {
      assert Ascii4(buf, 0) == "EERT";
    }
  }

  function RecordWords(name: string, e: IndexEntry): seq<nat>
  {
    [e.checksum, e.offset, e.compressedSize, e.uncompressedSize, e.compression, |name|]
  }

  predicate Writable(name: string, e: IndexEntry)
  {
    IsAscii(name) && forall k :: 0 <= k < 6 ==> RecordWords(name, e)[k] < TWO_32
  }

  /** The bytes of one record as the archive writer lays them out. */
  function EncodeRecord(name: string, e: IndexEntry): (r: seq<byte>)
    requires Writable(name, e)
    ensures |r| == 24 + |name|
  {
    EncodeWordsLE(RecordWords(name, e)) + AsciiBytes(name)
  }

  /** Reading back a record written by the archive writer gives the same name and entry. */
  lemma RecordRoundTrip(pre: seq<byte>, name: string, e: IndexEntry, post: seq<byte>)
    requires Writable(name, e)
    ensures RecordAt(pre + EncodeRecord(name, e) + post, |pre|) == Some((name, e, |pre| + 24 + |name|))
  {
    var ws := RecordWords(name, e);
    var nb := AsciiBytes(name);
    var buf := pre + EncodeRecord(name, e) + post;
    assert buf == pre + EncodeWordsLE(ws) + (nb + post);
    WordsLEAt(pre, ws, nb + post, 0);
    WordsLEAt(pre, ws, nb + post, 1);
    WordsLEAt(pre, ws, nb + post, 2);
    WordsLEAt(pre, ws, nb + post, 3);
    WordsLEAt(pre, ws, nb + post, 4);
    WordsLEAt(pre, ws, nb + post, 5);
    assert U32LE(buf, |pre|) == e.checksum;
    assert U32LE(buf, |pre| + 4) == e.offset;
    assert U32LE(buf, |pre| + 8) == e.compressedSize;
    assert U32LE(buf, |pre| + 12) == e.uncompressedSize;
    assert U32LE(buf, |pre| + 16) == e.compression;
    assert U32LE(buf, |pre| + 20) == |name|;
    var p := |pre| + 24;
    assert buf == (pre + EncodeWordsLE(ws)) + nb + post;
    assert Slice(buf, p, p + |name|) == nb;
    AsciiAtDecodes(buf, p, |name|);
    AsciiRoundTrip(name);
  }

  /** A later record with the same name replaces the entry but not the key's position. */
  lemma LastRecordWins(buf: seq<byte>, off: nat, keys: seq<string>, m: map<string, IndexEntry>,
                       name: string, e1: IndexEntry, e2: IndexEntry, mid: nat, next: nat)
    requires RecordAt(buf, off) == Some((name, e1, mid))
    requires RecordAt(buf, mid) == Some((name, e2, next))
    ensures IndexFrom(buf, off, 2, keys, m) == (InsertKey(keys, m, name), m[name := e2])
  {
    var keys1, m1 := InsertKey(keys, m, name), m[name := e1];
    assert IndexFrom(buf, off, 2, keys, m) == IndexFrom(buf, mid, 1, keys1, m1);
    assert IndexFrom(buf, mid, 1, keys1, m1) == IndexFrom(buf, next, 0, InsertKey(keys1, m1, name), m1[name := e2]);
    assert InsertKey(keys1, m1, name) == keys1;
    assert m1[name := e2] == m[name := e2];
  }

  // ---------------------------------------------------------------------
  // Top-level snapshot scan

  /** What `parseIFFSnapshot` records for an OOBJ or SCOT chunk. */
  datatype ScannedObject = ScannedObject(kind: string, size: nat)

  /** What the scan records for one chunk header. */
  function HeaderFound(kind: string, size: nat): (r: seq<ScannedObject>)
    ensures |r| <= 1
  {
    if kind == "OOBJ" || kind == "SCOT" then [ScannedObject(kind, size)] else []
  }

  /** The scan loop from `off`: one step of 8 + size (+1 if odd) per chunk header, no descent. */
  function ScanFrom(data: seq<byte>, off: nat): seq<ScannedObject>
    decreases |data| - off
  {
    if off + 8 >= |data| then []
    else
      var chunkSize := U32BE(data, off + 4);
      HeaderFound(Ascii4(data, off), chunkSize) + ScanFrom(data, off + 8 + chunkSize + chunkSize % 2)
  }

  lemma ScanStep(data: seq<byte>, off: nat)
    requires off + 8 < |data|
    ensures ScanFrom(data, off) ==
      HeaderFound(Ascii4(data, off), U32BE(data, off + 4)) + ScanFrom(data, off + 8 + U32BE(data, off + 4) + U32BE(data, off + 4) % 2)
  {
  }

  /** `parseIFFSnapshot`. */
  function ScanSnapshot(data: seq<byte>): seq<ScannedObject>
  {
    if !TagIs(data, 0, "FORM") then [] else ScanFrom(data, 0)
  }

  lemma Assoc(a: seq<ScannedObject>, b: seq<ScannedObject>, c: seq<ScannedObject>)
    ensures a + (b + c) == (a + b) + c
  {
  }

  method ParseIFFSnapshot(data: seq<byte>) returns (objects: seq<ScannedObject>)
    ensures objects == ScanSnapshot(data)
  {
    objects := [];
    if !TagIs(data, 0, "FORM") {
      return;
    }
    objects := ScanChunks(data);
  }

  /** One loop step in terms of the scan: the objects so far plus this header's, then the rest. */
  lemma ScanAdvance(data: seq<byte>, off: nat, prev: seq<ScannedObject>, objects: seq<ScannedObject>)
    requires off + 8 < |data|
    requires objects == prev + HeaderFound(Ascii4(data, off), U32BE(data, off + 4))
    ensures objects + ScanFrom(data, off + 8 + U32BE(data, off + 4) + U32BE(data, off + 4) % 2) == prev + ScanFrom(data, off)
  {
    ScanStep(data, off);
    Assoc(prev, HeaderFound(Ascii4(data, off), U32BE(data, off + 4)),
      ScanFrom(data, off + 8 + U32BE(data, off + 4) + U32BE(data, off + 4) % 2));
  }

  /** One pass of the loop of `parseIFFSnapshot`: the header at `offset`, what it records and where the next one starts. */
  method ScanHeader(data: seq<byte>, offset: nat, objects: seq<ScannedObject>) returns (objects': seq<ScannedObject>, next: nat)
    requires offset + 8 < |data|
    ensures objects' == objects + HeaderFound(Ascii4(data, offset), U32BE(data, offset + 4))
    ensures next == offset + 8 + U32BE(data, offset + 4) + U32BE(data, offset + 4) % 2
  {
    var chunkType := Ascii4(data, offset);
    var chunkSize := U32BE(data, offset + 4);
    objects' := objects;
    next := offset + 8;
    if chunkType == "OOBJ" || chunkType == "SCOT" {
      objects' := objects' + [ScannedObject(chunkType, chunkSize)];
    }
    next := next + chunkSize;
    if chunkSize % 2 == 1 {
      next := next + 1;
    }
  }

  /** The loop of `parseIFFSnapshot`, from offset 0. */
  method ScanChunks(data: seq<byte>) returns (objects: seq<ScannedObject>)
    ensures objects == ScanFrom(data, 0)
  {
    ghost var target := ScanFrom(data, 0);
    objects := [];
    var offset := 0;
    while offset + 8 < |data|
      invariant objects + ScanFrom(data, offset) == target
      decreases |data| - offset
    {
      ghost var before, prev := offset, objects;
      objects, offset := ScanHeader(data, offset, objects);
      ScanAdvance(data, before, prev, objects);
    }
  }

  /**
   * A snapshot that is one FORM holding everything yields no objects, whatever
   * the FORM contains: the scan steps over the outer FORM as a whole.
   */
  lemma OuterFormSkipped(payload: seq<byte>)
    requires |payload| < TWO_32
    ensures ScanSnapshot(ParseEverything.EncodeChunk(ParseEverything.FlatChunk("FORM", |payload|, payload))) == []
  {
    var c := ParseEverything.FlatChunk("FORM", |payload|, payload);
    var data := ParseEverything.EncodeChunk(c);
    assert data == AsciiBytes("FORM") + EncodeU32BE(|payload|) + (payload + ParseEverything.Pad(|payload|));
    assert data[0..4] == AsciiBytes("FORM");
    assert TagIs(data, 0, "FORM");
    U32BERoundTrip(|payload|, AsciiBytes("FORM"), payload + ParseEverything.Pad(|payload|));
    assert ScanFrom(data, |data|) == [];
  }

  /** Removing a character leaves the length unchanged only when it does not occur. */
  lemma {:induction false} RemoveAllKeepsLength(s: string, c: char)
    requires |Text.RemoveAll(s, c)| == |s|
    ensures c !in s
  {
    if s != [] {
      if s[0] == c {
        assert false;
      }
      RemoveAllKeepsLength(s[1..], c);
    }
  }

  /** Compared with a NUL-free name, the two tag decodings give the same answer. */
  lemma TagMatch(b: seq<byte>, t: string)
    requires |b| == |t| && '\0' !in t
    ensures AsciiNode(b) == t <==> Text.RemoveAll(AsciiNode(b), '\0') == t
  {
    if Text.RemoveAll(AsciiNode(b), '\0') == t {
      RemoveAllKeepsLength(AsciiNode(b), '\0');
    }
  }

  /** Both readers record the same thing for the chunk header at `off`. */
  lemma FoundAgrees(data: seq<byte>, off: nat)
    requires off + 8 < |data|
    ensures HeaderFound(Ascii4(data, off), U32BE(data, off + 4)) == HeaderFound(SwgComplete.TextAt(data, off, 4), U32BE(data, off + 4))
  {
    assert Slice(data, off, off + 4) == data[off..off + 4];
    Ascii4IsAsciiNode(data, off);
    TagMatch(data[off..off + 4], "OOBJ");
    TagMatch(data[off..off + 4], "SCOT");
  }

  /** The OOBJ and SCOT chunks among a list of cursor-reader chunks. */
  function ObjectChunks(cs: seq<SwgComplete.Chunk>): seq<ScannedObject>
  {
    if cs == [] then [] else HeaderFound(cs[0].tag, cs[0].size) + ObjectChunks(cs[1..])
  }

  /**
   * The scan visits exactly the top-level chunks `parseAll` of the cursor
   * reader returns, and records the OOBJ and SCOT ones among them.
   */
  lemma {:induction false} ScanIsTopLevelChunks(data: seq<byte>, off: nat)
    ensures ScanFrom(data, off) == ObjectChunks(SwgComplete.ChunksFrom(data, off))
    decreases |data| - off
  {
    if off + 8 >= |data| {
      SwgComplete.ChunksStop(data, off);
    } else {
      var r := SwgComplete.ChunkAt(data, off).value;
      SwgComplete.ChunksStep(data, off, r.0, r.1);
      ScanChunkStep(data, off);
      ScanIsTopLevelChunks(data, r.1);
      ObjectChunksCons(ScanFrom(data, off), ScanFrom(data, r.1), r.0,
        SwgComplete.ChunksFrom(data, off), SwgComplete.ChunksFrom(data, r.1));
    }
  }

  /** One step of the scan, stated with the chunk the cursor reader finds at `off`. */
  lemma ScanChunkStep(data: seq<byte>, off: nat)
    requires off + 8 < |data|
    ensures ScanFrom(data, off) ==
      HeaderFound(SwgComplete.ChunkAt(data, off).value.0.tag, SwgComplete.ChunkAt(data, off).value.0.size) +
      ScanFrom(data, SwgComplete.ChunkAt(data, off).value.1)
  {
    ScanStep(data, off);
    FoundAgrees(data, off);
  }

  lemma ObjectChunksCons(scanned: seq<ScannedObject>, rest: seq<ScannedObject>, c: SwgComplete.Chunk,
                         cs: seq<SwgComplete.Chunk>, tail: seq<SwgComplete.Chunk>)
    requires cs == [c] + tail && scanned == HeaderFound(c.tag, c.size) + rest && rest == ObjectChunks(tail)
    ensures scanned == ObjectChunks(cs)
  {
    assert cs[0] == c && cs[1..] == tail;
  }
}
