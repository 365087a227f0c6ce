/**
 * The Python asset walker's flat IFF chunk reader and its TRE archive
 * extractor. The reader keeps a cursor into an in-memory buffer; the
 * extractor reads the archive through a file cursor whose short reads are
 * modelled exactly (a read near the end returns fewer bytes, and unpacking a
 * short word raises).
 */
module ParseEverything {
  import opened Wrappers
  import opened Bytes

  /** One top-level chunk: its tag, the size its header declares, and its (possibly short) payload. */
  datatype FlatChunk = FlatChunk(tag: string, size: nat, data: seq<byte>)

  /**
   * The chunk whose header starts at `off`, and the cursor after it, or None
   * when fewer than eight bytes remain.
   */
  function ChunkAt(buf: seq<byte>, off: nat): (r: Option<(FlatChunk, nat)>)
    ensures r.None? <==> off + 8 > |buf|
    ensures r.Some? ==> r.value.0.tag == AsciiIgnore(buf[off..off + 4])
    ensures r.Some? ==> r.value.0.size == U32BE(buf, off + 4)
    ensures r.Some? ==> r.value.1 == off + 8 + r.value.0.size + r.value.0.size % 2
    ensures r.Some? ==> r.value.1 % 2 == off % 2
    ensures r.Some? ==> |r.value.0.data| == Min(r.value.0.size, |buf| - off - 8)
    ensures r.Some? ==> r.value.0.data == buf[off + 8 .. off + 8 + |r.value.0.data|]
  {
    if off + 8 > |buf| then None
    else
      var size := U32BE(buf, off + 4);
      var next := off + 8 + size + (if size % 2 == 1 then 1 else 0);
      Some((FlatChunk(AsciiIgnore(buf[off..off + 4]), size, Slice(buf, off + 8, off + 8 + size)), next))
  }

  /** The chunks `parse_all` collects when it starts at `off`, in buffer order. */
  function ParseFrom(buf: seq<byte>, off: nat): (r: seq<FlatChunk>)
    decreases |buf| - off
  {
    if off >= |buf| then []
    else match ChunkAt(buf, off)
      case None => []
      case Some((c, next)) => [c] + ParseFrom(buf, next)
  }

  /** The offsets at which the headers of the chunks `parse_all` collects from `off` begin. */
  function ParseOffsets(buf: seq<byte>, off: nat): (r: seq<nat>)
    ensures |r| == |ParseFrom(buf, off)|
    ensures forall k :: 0 <= k < |r| ==> off <= r[k] && r[k] + 8 <= |buf|
    ensures forall k :: 0 < k < |r| ==> r[k - 1] < r[k]
    decreases |buf| - off
  {
    if off >= |buf| then []
    else match ChunkAt(buf, off)
      case None => []
      case Some((c, next)) => [off] + ParseOffsets(buf, next)
  }

  /** Where the cursor rests after `parse_all` started at `off`. */
  function ParseEnd(buf: seq<byte>, off: nat): (r: nat)
    decreases |buf| - off
  {
    if off >= |buf| then off
    else match ChunkAt(buf, off)
      case None => off
      case Some((c, next)) => ParseEnd(buf, next)
  }

  /** `IFFParser`: a buffer and a cursor that `read_chunk` advances. */
  class IffParser {
    const data: seq<byte>
    var offset: nat

    constructor (data: seq<byte>)
      ensures this.data == data && offset == 0
    {
      this.data := data;
      offset := 0;
    }

    /** `read_chunk`: None (cursor unchanged) at fewer than 8 remaining bytes, else the chunk. */
    method ReadChunk() returns (c: Option<FlatChunk>)
      modifies this
      ensures c.None? <==> old(offset) + 8 > |data|
      ensures c.None? ==> offset == old(offset)
      ensures c.Some? ==> ChunkAt(data, old(offset)) == Some((c.value, offset))
    {
      if offset + 8 > |data| {
        return None;
      }
      var tag := AsciiIgnore(data[offset..offset + 4]);
      var size := U32BE(data, offset + 4);
      offset := offset + 8;
      var payload := Slice(data, offset, offset + size);
      offset := offset + size;
      if size % 2 == 1 {
        offset := offset + 1;
      }
      c := Some(FlatChunk(tag, size, payload));
    }

    /** `parse_all`: top-level chunks only, until the cursor reaches the end or a read fails. */
    method ParseAll() returns (chunks: seq<FlatChunk>)
      modifies this
      ensures chunks == ParseFrom(data, old(offset))
      ensures offset == ParseEnd(data, old(offset))
    {
      chunks := [];
      while offset < |data|
        invariant chunks + ParseFrom(data, offset) == ParseFrom(data, old(offset))
        invariant ParseEnd(data, offset) == ParseEnd(data, old(offset))
        decreases |data| - offset
      {
        ghost var before := offset;
        var chunk := ReadChunk();
        if chunk.None? {
          break;
        }
        chunks := chunks + [chunk.value];
        assert ParseFrom(data, before) == [chunk.value] + ParseFrom(data, offset);
      }
    }
  }

  /**
   * Chunk `k` of `parse_all` is the chunk read at offset `k` of
   * `ParseOffsets`, whose eight header bytes lie inside the buffer; its
   * payload is never longer than its declared size.
   */
  lemma {:induction false} ParseFromHeadersWhole(buf: seq<byte>, off: nat, k: nat)
    requires k < |ParseFrom(buf, off)|
    ensures ParseOffsets(buf, off)[k] + 8 <= |buf|
    ensures ChunkAt(buf, ParseOffsets(buf, off)[k]).Some?
    ensures ChunkAt(buf, ParseOffsets(buf, off)[k]).value.0 == ParseFrom(buf, off)[k]
    ensures |ParseFrom(buf, off)[k].data| <= ParseFrom(buf, off)[k].size
    decreases |buf| - off
  {
    var c :| ChunkAt(buf, off) == Some(c);
    if k > 0 {
      ParseFromHeadersWhole(buf, c.1, k - 1);
    }
  }

  /** The even-padded encoding of chunks that a well-formed IFF writer produces. */
  predicate WellFormed(c: FlatChunk)
  {
    |c.tag| == 4 && IsAscii(c.tag) && c.size == |c.data| && c.size < TWO_32
  }

  function Pad(size: nat): seq<byte> { if size % 2 == 1 then [0] else [] }

  function EncodeChunk(c: FlatChunk): (r: seq<byte>)
    requires WellFormed(c)
    ensures |r| == 8 + c.size + c.size % 2
  {
    AsciiBytes(c.tag) + EncodeU32BE(c.size) + c.data + Pad(c.size)
  }

  function Encode(cs: seq<FlatChunk>): seq<byte>
    requires forall k :: 0 <= k < |cs| ==> WellFormed(cs[k])
  {
    if cs == [] then [] else EncodeChunk(cs[0]) + Encode(cs[1..])
  }

  lemma ChunkAtEncoded(pre: seq<byte>, c: FlatChunk, post: seq<byte>)
    requires WellFormed(c)
    ensures ChunkAt(pre + EncodeChunk(c) + post, |pre|) == Some((c, |pre| + |EncodeChunk(c)|))
  {
    var buf := pre + EncodeChunk(c) + post;
    var p := |pre|;
    assert buf[p..p + 4] == AsciiBytes(c.tag);
    AsciiRoundTrip(c.tag);
    assert buf == pre + AsciiBytes(c.tag) + EncodeU32BE(c.size) + (c.data + Pad(c.size) + post);
    U32BERoundTrip(c.size, pre + AsciiBytes(c.tag), c.data + Pad(c.size) + post);
    assert buf[p + 8 .. p + 8 + c.size] == c.data;
  }

  /** Re-parsing the even-padded encoding of well-formed chunks gives back the same chunk list. */
  lemma {:induction false} ParseEncodeRoundTrip(pre: seq<byte>, cs: seq<FlatChunk>)
    requires forall k :: 0 <= k < |cs| ==> WellFormed(cs[k])
    ensures ParseFrom(pre + Encode(cs), |pre|) == cs
    ensures ParseEnd(pre + Encode(cs), |pre|) == |pre + Encode(cs)|
    decreases |cs|
  {
    if cs != [] {
      var c := cs[0];
      var rest := Encode(cs[1..]);
      assert pre + Encode(cs) == pre + EncodeChunk(c) + rest;
      ChunkAtEncoded(pre, c, rest);
      ParseEncodeRoundTrip(pre + EncodeChunk(c), cs[1..]);
      assert pre + EncodeChunk(c) + rest == (pre + EncodeChunk(c)) + rest;
    }
  }

  // ---------------------------------------------------------------------
  // TRE archives

  /** One index record of the Python reader. */
  datatype TreEntry = TreEntry(offset: nat, compressedSize: nat, uncompressedSize: nat, compression: nat)

  /** The 4-byte magic string that opens a TRE archive. */
  const MAGIC: seq<byte> := [0x45, 0x45, 0x52, 0x54]  // "EERT"

  /** `struct.unpack('<I', b)`: defined only on exactly four bytes, otherwise the call raises. */
  function UnpackU32LE(b: seq<byte>): (r: Option<nat>)
    ensures r.Some? <==> |b| == 4
    ensures r.Some? ==> r.value == U32LE(b, 0)
  {
    if |b| == 4 then Some(U32LE(b, 0)) else None
  }

  /** How reading the record table ended: normally, or by an exception (keeping the entries stored so far). */
  datatype TableOutcome = Completed(files: map<string, TreEntry>) | Raised(files: map<string, TreEntry>)

  /**
   * The record at file position `pos`: u32-LE name length, the name, then four
   * u32-LE fields (compressed size, uncompressed size, data offset,
   * compression). None when the file ends before the last field is whole.
   */
  function RecordAt(a: seq<byte>, pos: nat): (r: Option<(string, TreEntry, nat)>)
    ensures r.Some? <==> pos + 4 <= |a| && pos + 20 + U32LE(a, pos) <= |a|
    ensures r.Some? ==> r.value.2 == pos + 20 + U32LE(a, pos)
    ensures r.Some? ==> r.value.0 == AsciiIgnore(a[pos + 4 .. pos + 4 + U32LE(a, pos)])
  {
    if pos + 4 > |a| then None
    else
      var nameLen := U32LE(a, pos);
      var p := pos + 4 + nameLen;
      if p + 16 > |a| then None
      else Some((AsciiIgnore(a[pos + 4 .. p]),
                 TreEntry(U32LE(a, p + 8), U32LE(a, p), U32LE(a, p + 4), U32LE(a, p + 12)),
                 p + 16))
  }

  /** The loop over `n` remaining records starting at `pos`, on top of the entries already in `files`. */
  function ReadTable(a: seq<byte>, pos: nat, n: nat, files: map<string, TreEntry>): (r: TableOutcome)
    ensures files.Keys <= r.files.Keys
    decreases n
  {
    if n == 0 then Completed(files)
    else match RecordAt(a, pos)
      case None => Raised(files)
      case Some((name, e, next)) => ReadTable(a, next, n - 1, files[name := e])
  }

  /** `extract`'s return value and the resulting `self.files`, from the archive bytes and the previous `self.files`. */
  function ExtractSpec(a: seq<byte>, files: map<string, TreEntry>): (map<string, TreEntry>, map<string, TreEntry>)
  {
    if |a| < 4 || a[..4] != MAGIC then (map[], files)
    else if |a| < 12 then (map[], files)
    else match ReadTable(a, 12, U32LE(a, 8), files)
      case Completed(f) => (f, f)
      case Raised(f) => (map[], f)
  }

  /** A Python binary file object opened for reading: the content and the position of the next read. */
  class PyFile {
    const content: seq<byte>
    var pos: nat

    constructor (content: seq<byte>)
      ensures this.content == content && pos == 0
    {
      this.content := content;
      pos := 0;
    }

    /** `f.read(n)`: at most n bytes, fewer near the end of the file; the position moves past what was read. */
    method Read(n: nat) returns (b: seq<byte>)
      modifies this
      ensures b == Slice(content, old(pos), old(pos) + n)
      ensures old(pos) <= |content| ==> pos == old(pos) + |b| <= |content|
      ensures old(pos) > |content| ==> pos == old(pos)
    {
      b := Slice(content, pos, pos + n);
      if pos <= |content| {
        pos := pos + |b|;
      }
    }

    /** `struct.unpack('<I', f.read(4))[0]`: None where the read comes up short and the unpack raises. */
    method ReadU32() returns (v: Option<nat>)
      requires pos <= |content|
      modifies this
      ensures v.Some? <==> old(pos) + 4 <= |content|
      ensures v.Some? ==> v.value == U32LE(content, old(pos)) && pos == old(pos) + 4
      ensures pos <= |content|
    {
      var b := Read(4);
      v := UnpackU32LE(b);
      if v.Some? {
        U32LEOfSlice(content, old(pos), old(pos) + 4, 0);
      }
    }

    /** `f.seek(p)`. */
    method Seek(p: nat)
      modifies this
      ensures pos == p
    {
      pos := p;
    }
  }

  /** The result of `extract_file`: None for an unknown name, the bytes, or the exception `zlib.decompress` raises. */
  datatype FileOutcome = NotInIndex | Contents(bytes: seq<byte>) | DecompressRaised

  /** `TREExtractor`: the archive's bytes (read through a fresh file object per call) and the `self.files` index. */
  class TreExtractor {
    const archive: seq<byte>
    var files: map<string, TreEntry>

    constructor (archive: seq<byte>)
      ensures this.archive == archive && files == map[]
    {
      this.archive := archive;
      files := map[];
    }

    /** One table record read through the file object; None when an unpack would raise. */
    method ReadRecord(f: PyFile) returns (r: Option<(string, TreEntry)>)
      requires f.content == archive && f.pos <= |archive|
      modifies f
      ensures r.None? <==> RecordAt(archive, old(f.pos)).None?
      ensures r.Some? ==> RecordAt(archive, old(f.pos)) == Some((r.value.0, r.value.1, f.pos))
      ensures f.pos <= |archive|
    {
      ghost var p0 := f.pos;
      var nameLen := f.ReadU32();
      if nameLen.None? { return None; }
      var nameBytes := f.Read(nameLen.value);
      var name := AsciiIgnore(nameBytes);
      var compressedSize := f.ReadU32();
      if compressedSize.None? { return None; }
      var uncompressedSize := f.ReadU32();
      if uncompressedSize.None? { return None; }
      var offset := f.ReadU32();
      if offset.None? { return None; }
      var compression := f.ReadU32();
      if compression.None? { return None; }
      r := Some((name, TreEntry(offset.value, compressedSize.value, uncompressedSize.value, compression.value)));
    }

    /**
     * `extract`: {} for a file not opening with EERT; otherwise the record
     * table is read into `self.files`, later records replacing earlier ones
     * of the same name. An exception (a short read at the end of the file)
     * makes the call return {}, but the entries already stored stay in
     * `self.files`.
     */
    method Extract() returns (result: map<string, TreEntry>)
      modifies this
      ensures (result, files) == ExtractSpec(archive, old(files))
    {
      var f := new PyFile(archive);
      var magic := f.Read(4);
      if magic != MAGIC {
        assert |archive| < 4 || archive[..4] != MAGIC;
        return map[];
      }
      var bv := f.Read(4);
      var version := UnpackU32LE(bv);
      if version.None? { return map[]; }
      var bc := f.Read(4);
      var count := UnpackU32LE(bc);
      if count.None? { return map[]; }
      assert |archive| >= 12 && f.pos == 12 && archive[..4] == MAGIC;
      assert count.value == U32LE(archive, 8);
      var completed := ReadRecords(f, count.value);
      result := if completed then files else map[];
    }

    /** The `for i in range(file_count)` loop; false when a record's unpack raised. */
    method ReadRecords(f: PyFile, count: nat) returns (completed: bool)
      requires f.content == archive && f.pos <= |archive|
      modifies this, f
      ensures var t := ReadTable(archive, old(f.pos), count, old(files));
              files == t.files && completed == t.Completed?
    {
      ghost var start := f.pos;
      var i: nat := 0;
      while i < count
        invariant i <= count && f.content == archive && f.pos <= |archive|
        invariant ReadTable(archive, start, count, old(files)) == ReadTable(archive, f.pos, count - i, files)
        decreases count - i
      {
        ghost var pos := f.pos;
        var rec := ReadRecord(f);
        if rec.None? {
          assert ReadTable(archive, pos, count - i, files) == Raised(files);
          return false;
        }
        assert ReadTable(archive, pos, count - i, files)
            == ReadTable(archive, f.pos, count - i - 1, files[rec.value.0 := rec.value.1]);
        files := files[rec.value.0 := rec.value.1];
        i := i + 1;
      }
      completed := true;
    }

    /**
     * `extract_file`: None for a name not in the index; otherwise the
     * `compressed_size` bytes at `offset` (fewer when the archive ends
     * first), inflated only when the compression code is 2.
     */
    method ExtractFile(name: string, inflate: seq<byte> -> Option<seq<byte>>) returns (r: FileOutcome)
      ensures name !in files <==> r.NotInIndex?
      ensures name in files && files[name].compression != 2 ==>
                r == Contents(Slice(archive, files[name].offset, files[name].offset + files[name].compressedSize))
      ensures name in files && files[name].compression == 2 ==>
                r == match inflate(Slice(archive, files[name].offset, files[name].offset + files[name].compressedSize))
                       case None => DecompressRaised
                       case Some(out) => Contents(out)
    {
      if name !in files {
        return NotInIndex;
      }
      var info := files[name];
      var f := new PyFile(archive);
      f.Seek(info.offset);
      var data := f.Read(info.compressedSize);
      if info.compression == 2 {
        var out := inflate(data);
        if out.None? {
          return DecompressRaised;
        }
        data := out.value;
      }
      r := Contents(data);
    }
  }

  /** The bytes a TRE writer lays down for one index record of the Python layout. */
  function EncodeRecord(name: string, e: TreEntry): seq<byte>
    requires IsAscii(name) && |name| < TWO_32
    requires e.offset < TWO_32 && e.compressedSize < TWO_32 && e.uncompressedSize < TWO_32 && e.compression < TWO_32
  {
    EncodeU32LE(|name|) + AsciiBytes(name) + EncodeFields(e)
  }

  /** The four little-endian field words of a record, in the order they are read. */
  function EncodeFields(e: TreEntry): (r: seq<byte>)
    requires e.offset < TWO_32 && e.compressedSize < TWO_32 && e.uncompressedSize < TWO_32 && e.compression < TWO_32
    ensures |r| == 16
  {
    EncodeU32LE(e.compressedSize) + EncodeU32LE(e.uncompressedSize) + EncodeU32LE(e.offset) + EncodeU32LE(e.compression)
  }

  /** A record written in the Python layout is read back as the same name and entry. */
  lemma RecordRoundTrip(pre: seq<byte>, name: string, e: TreEntry, post: seq<byte>)
    requires IsAscii(name) && |name| < TWO_32
    requires e.offset < TWO_32 && e.compressedSize < TWO_32 && e.uncompressedSize < TWO_32 && e.compression < TWO_32
    ensures RecordAt(pre + EncodeRecord(name, e) + post, |pre|)
         == Some((name, e, |pre| + |EncodeRecord(name, e)|))
  {
    RecordNameRoundTrip(pre, name, e, post);
    RecordFieldsRoundTrip(pre, name, e, post);
    RecordFields(pre + EncodeRecord(name, e) + post, |pre|, name, e);
  }

  /** The length word and the name of a written record read back. */
  lemma RecordNameRoundTrip(pre: seq<byte>, name: string, e: TreEntry, post: seq<byte>)
    requires IsAscii(name) && |name| < TWO_32
    requires e.offset < TWO_32 && e.compressedSize < TWO_32 && e.uncompressedSize < TWO_32 && e.compression < TWO_32
    ensures var a, p := pre + EncodeRecord(name, e) + post, |pre|;
      p + 20 + |name| <= |a| && U32LE(a, p) == |name| && AsciiIgnore(a[p + 4 .. p + 4 + |name|]) == name
  {
    var nl, nb, fields := EncodeU32LE(|name|), AsciiBytes(name), EncodeFields(e);
    var a, p := pre + EncodeRecord(name, e) + post, |pre|;
    assert a == pre + nl + (nb + fields + post);
    U32LERoundTrip(|name|, pre, nb + fields + post);
    assert a[p + 4 .. p + 4 + |name|] == nb;
    AsciiRoundTrip(name);
  }

  /** The four field words of a written record read back. */
  lemma RecordFieldsRoundTrip(pre: seq<byte>, name: string, e: TreEntry, post: seq<byte>)
    requires IsAscii(name) && |name| < TWO_32
    requires e.offset < TWO_32 && e.compressedSize < TWO_32 && e.uncompressedSize < TWO_32 && e.compression < TWO_32
    ensures var a, q := pre + EncodeRecord(name, e) + post, |pre| + 4 + |name|;
      q + 16 <= |a| &&
      U32LE(a, q) == e.compressedSize && U32LE(a, q + 4) == e.uncompressedSize &&
      U32LE(a, q + 8) == e.offset && U32LE(a, q + 12) == e.compression
  {
    var head := pre + EncodeU32LE(|name|) + AsciiBytes(name);
    assert pre + EncodeRecord(name, e) + post == head + EncodeFields(e) + post;
    FieldsRoundTrip(head, e, post);
  }

  /** The four field words of a record, read back from where they were written. */
  lemma FieldsRoundTrip(head: seq<byte>, e: TreEntry, post: seq<byte>)
    requires e.offset < TWO_32 && e.compressedSize < TWO_32 && e.uncompressedSize < TWO_32 && e.compression < TWO_32
    ensures var a, q := head + EncodeFields(e) + post, |head|;
      |a| == |head| + 16 + |post| &&
      U32LE(a, q) == e.compressedSize && U32LE(a, q + 4) == e.uncompressedSize &&
      U32LE(a, q + 8) == e.offset && U32LE(a, q + 12) == e.compression
  {
    var a := head + EncodeFields(e) + post;
    var f1, f2, f3, f4 := EncodeU32LE(e.compressedSize), EncodeU32LE(e.uncompressedSize), EncodeU32LE(e.offset), EncodeU32LE(e.compression);
    assert a == head + f1 + (f2 + f3 + f4 + post);
    U32LERoundTrip(e.compressedSize, head, f2 + f3 + f4 + post);
    assert a == (head + f1) + f2 + (f3 + f4 + post);
    U32LERoundTrip(e.uncompressedSize, head + f1, f3 + f4 + post);
    assert a == (head + f1 + f2) + f3 + (f4 + post);
    U32LERoundTrip(e.offset, head + f1 + f2, f4 + post);
    assert a == (head + f1 + f2 + f3) + f4 + post;
    U32LERoundTrip(e.compression, head + f1 + f2 + f3, post);
  }

  /** A record whose length word, name and four field words are as given reads back as them. */
  lemma RecordFields(a: seq<byte>, pos: nat, name: string, e: TreEntry)
    requires pos + 20 + |name| <= |a| && U32LE(a, pos) == |name|
    requires AsciiIgnore(a[pos + 4 .. pos + 4 + |name|]) == name
    requires var q := pos + 4 + |name|;
      U32LE(a, q) == e.compressedSize && U32LE(a, q + 4) == e.uncompressedSize &&
      U32LE(a, q + 8) == e.offset && U32LE(a, q + 12) == e.compression
    ensures RecordAt(a, pos) == Some((name, e, pos + 20 + |name|))
  {
  }


  /** A repeated name keeps the entry of its last record. */
  lemma LastRecordWins(a: seq<byte>, pos: nat, files: map<string, TreEntry>, name: string, e1: TreEntry, e2: TreEntry, mid: nat, next: nat)
    requires RecordAt(a, pos) == Some((name, e1, mid))
    requires RecordAt(a, mid) == Some((name, e2, next))
    ensures ReadTable(a, pos, 2, files) == Completed(files[name := e2])
  {
    assert files[name := e1][name := e2] == files[name := e2];
  }

  /** A table that ends early raises, and the entries stored before the failing record are kept. */
  lemma {:induction false} ReadTableKeepsPrefix(a: seq<byte>, pos: nat, n: nat, files: map<string, TreEntry>, name: string)
    requires name in files
    requires forall p: nat :: RecordAt(a, p).Some? ==> RecordAt(a, p).value.0 != name
    ensures name in ReadTable(a, pos, n, files).files && ReadTable(a, pos, n, files).files[name] == files[name]
    decreases n
  {
    if n > 0 {
      match RecordAt(a, pos)
      case None =>
      case Some((nm, e, next)) =>
        ReadTableKeepsPrefix(a, next, n - 1, files[nm := e], name);
    }
  }

  /** The first `m` records of the table from `pos`, as names and entries, and where the record after them begins. */
  function Records(a: seq<byte>, pos: nat, m: nat): Option<(seq<(string, TreEntry)>, nat)>
    decreases m
  {
    if m == 0 then Some(([], pos))
    else match RecordAt(a, pos)
      case None => None
      case Some((name, e, next)) =>
        match Records(a, next, m - 1)
        case None => None
        case Some((rest, end)) => Some(([(name, e)] + rest, end))
  }

  /** `self.files[name] = entry` for each record in turn. */
  function StoreRecords(files: map<string, TreEntry>, recs: seq<(string, TreEntry)>): map<string, TreEntry>
    decreases |recs|
  {
    if recs == [] then files else StoreRecords(files[recs[0].0 := recs[0].1], recs[1..])
  }

  /**
   * A table that raises has stored exactly the records read before the
   * failing one, in order, over the index it started from.
   */
  lemma {:induction false} ReadTableRaised(a: seq<byte>, pos: nat, n: nat, files: map<string, TreEntry>)
    requires ReadTable(a, pos, n, files).Raised?
    ensures exists m: nat :: (m < n && Records(a, pos, m).Some? && RecordAt(a, Records(a, pos, m).value.1).None? &&
      ReadTable(a, pos, n, files).files == StoreRecords(files, Records(a, pos, m).value.0))
    decreases n
  {
    match RecordAt(a, pos)
    case None =>
      assert Records(a, pos, 0) == Some(([], pos));
    case Some((name, e, next)) =>
      ReadTableRaised(a, next, n - 1, files[name := e]);
      var m: nat :| (m < n - 1 && Records(a, next, m).Some? && RecordAt(a, Records(a, next, m).value.1).None? &&
        ReadTable(a, next, n - 1, files[name := e]).files == StoreRecords(files[name := e], Records(a, next, m).value.0));
      var rest := Records(a, next, m).value.0;
      assert Records(a, pos, m + 1) == Some(([(name, e)] + rest, Records(a, next, m).value.1));
      assert ([(name, e)] + rest)[1..] == rest;
  }

  /** Records naming other files leave an entry as it was. */
  lemma {:induction false} StoreRecordsOther(files: map<string, TreEntry>, recs: seq<(string, TreEntry)>, name: string)
    requires name in files
    requires forall j :: 0 <= j < |recs| ==> recs[j].0 != name
    ensures name in StoreRecords(files, recs) && StoreRecords(files, recs)[name] == files[name]
    decreases |recs|
  {
    if recs != [] {
      StoreRecordsOther(files[recs[0].0 := recs[0].1], recs[1..], name);
    }
  }

  /** A stored name holds the entry of its last record. */
  lemma {:induction false} StoreRecordsLast(files: map<string, TreEntry>, recs: seq<(string, TreEntry)>, k: nat)
    requires k < |recs|
    requires forall j :: k < j < |recs| ==> recs[j].0 != recs[k].0
    ensures recs[k].0 in StoreRecords(files, recs) && StoreRecords(files, recs)[recs[k].0] == recs[k].1
    decreases |recs|
  {
    if k == 0 {
      StoreRecordsOther(files[recs[0].0 := recs[0].1], recs[1..], recs[0].0);
    } else {
      StoreRecordsLast(files[recs[0].0 := recs[0].1], recs[1..], k - 1);
    }
  }
}
