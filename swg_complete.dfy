/**
 * The Node world-data parser's cursor reader (`IFFParser` of the complete
 * world extractor) and the snapshot and heightmap readers built on it.
 *
 * Unlike the Python reader, this one refuses a chunk whose header ends
 * exactly at the end of the buffer (`offset >= length - 8`), decodes text
 * with Node's ASCII decoding (high bit cleared) and strips every NUL from
 * it. A read of a 32-bit word past the end throws in Node; here such a read
 * returns None and leaves the cursor where it was. Floats are carried as
 * their four raw bytes.
 */
module SwgComplete {
  import opened Wrappers
  import opened Bytes
  import Text
  import ParseEverything

  /** A number as the JavaScript objects hold it: an integer, or an IEEE float kept as its raw bytes. */
  datatype Num = Int(i: int) | Float(bits: seq<byte>)

  /** `readString(n)` at `off`: the clipped bytes, high bits cleared, every NUL removed. */
  function TextAt(buf: seq<byte>, off: nat, n: nat): (r: string)
    ensures |r| <= n
    ensures '\0' !in r
  {
    Text.RemoveAll(AsciiNode(Slice(buf, off, off + n)), '\0')
  }

  /** The text of ASCII characters other than NUL reads back as itself. */
  lemma TextAtRoundTrip(pre: seq<byte>, t: string, post: seq<byte>)
    requires IsAscii(t) && '\0' !in t
    ensures TextAt(pre + AsciiBytes(t) + post, |pre|, |t|) == t
  {
    var buf := pre + AsciiBytes(t) + post;
    assert Slice(buf, |pre|, |pre| + |t|) == AsciiBytes(t);
    AsciiRoundTrip(t);
  }

  /** The header `parseForm` returns. */
  datatype Form = Form(formType: string, size: nat, startOffset: nat, endOffset: nat)

  /**
   * `parseForm` at `off`: the form (if any) and the cursor afterwards. A tag
   * other than FORM is refused after the tag was consumed.
   */
  function FormAt(buf: seq<byte>, off: nat): (r: (Option<Form>, nat))
    ensures off + 8 >= |buf| ==> r == (None, off)
    ensures r.0.Some? ==> off + 8 < |buf| && TextAt(buf, off, 4) == "FORM" && r.1 == off + 12
    ensures r.0.Some? ==> r.0.value.size == U32BE(buf, off + 4) && r.0.value.formType == TextAt(buf, off + 8, 4)
    ensures r.0.Some? ==> r.0.value.startOffset == off + 12 && r.0.value.endOffset == r.0.value.startOffset + r.0.value.size - 4
    ensures off + 8 < |buf| && TextAt(buf, off, 4) != "FORM" ==> r == (None, off + 4)
  {
    if off + 8 >= |buf| then (None, off)
    else if TextAt(buf, off, 4) != "FORM" then (None, off + 4)
    else
      var size := U32BE(buf, off + 4);
      (Some(Form(TextAt(buf, off + 8, 4), size, off + 12, off + 8 + size)), off + 12)
  }

  /** One chunk as `parseChunk` returns it. */
  datatype Chunk = Chunk(tag: string, size: nat, data: seq<byte>)

  /** `parseChunk` at `off`: the chunk and the cursor after it, or None at `off >= length - 8`. */
  function ChunkAt(buf: seq<byte>, off: nat): (r: Option<(Chunk, nat)>)
    ensures r.None? <==> off + 8 >= |buf|
    ensures r.Some? ==> r.value.0.tag == TextAt(buf, off, 4) && r.value.0.size == U32BE(buf, off + 4)
    ensures r.Some? ==> r.value.0.data == Slice(buf, off + 8, off + 8 + r.value.0.size)
    ensures r.Some? ==> r.value.1 == off + 8 + r.value.0.size + r.value.0.size % 2
  {
    if off + 8 >= |buf| then None
    else
      var size := U32BE(buf, off + 4);
      Some((Chunk(TextAt(buf, off, 4), size, Slice(buf, off + 8, off + 8 + size)), off + 8 + size + size % 2))
  }

  /** The chunks `parseAll` collects from `off`. */
  function ChunksFrom(buf: seq<byte>, off: nat): seq<Chunk>
    decreases |buf| - off
  {
    match ChunkAt(buf, off)
    case None => []
    case Some((c, next)) => [c] + ChunksFrom(buf, next)
  }

  /** Where `parseAll` leaves the cursor. */
  function ChunksEnd(buf: seq<byte>, off: nat): nat
    decreases |buf| - off
  {
    match ChunkAt(buf, off)
    case None => off
    case Some((c, next)) => ChunksEnd(buf, next)
  }

  lemma ChunksStep(buf: seq<byte>, off: nat, c: Chunk, next: nat)
    requires ChunkAt(buf, off) == Some((c, next))
    ensures ChunksFrom(buf, off) == [c] + ChunksFrom(buf, next)
    ensures ChunksEnd(buf, off) == ChunksEnd(buf, next)
  {
  }

  lemma ChunksStop(buf: seq<byte>, off: nat)
    requires off + 8 >= |buf|
    ensures ChunksFrom(buf, off) == [] && ChunksEnd(buf, off) == off
  {
  }

  /** The cursor object: a buffer and the offset every read advances. */
  class IffParser {
    const buffer: seq<byte>
    var offset: nat

    constructor (buffer: seq<byte>)
      ensures this.buffer == buffer && offset == 0
    {
      this.buffer := buffer;
      offset := 0;
    }

    /** `readString`: always advances by exactly `n`, even past the end. */
    method ReadString(n: nat) returns (s: string)
      modifies this
      ensures s == TextAt(buffer, old(offset), n)
      ensures offset == old(offset) + n
    {
      s := Text.RemoveAll(AsciiNode(Slice(buffer, offset, offset + n)), '\0');
      offset := offset + n;
    }

    /** `readUInt32BE`; None stands for the RangeError, thrown before the cursor moves. */
    method ReadUInt32BE() returns (v: Option<nat>)
      modifies this
      ensures v.None? <==> old(offset) + 4 > |buffer|
      ensures v.None? ==> offset == old(offset)
      ensures v.Some? ==> v.value == U32BE(buffer, old(offset)) && offset == old(offset) + 4
    {
      if offset + 4 > |buffer| {
        return None;
      }
      v := Some(U32BE(buffer, offset));
      offset := offset + 4;
    }

    /** `readUInt32LE`. */
    method ReadUInt32LE() returns (v: Option<nat>)
      modifies this
      ensures v.None? <==> old(offset) + 4 > |buffer|
      ensures v.None? ==> offset == old(offset)
      ensures v.Some? ==> v.value == U32LE(buffer, old(offset)) && offset == old(offset) + 4
    {
      if offset + 4 > |buffer| {
        return None;
      }
      v := Some(U32LE(buffer, offset));
      offset := offset + 4;
    }

    /** `readInt32LE`. */
    method ReadInt32LE() returns (v: Option<int>)
      modifies this
      ensures v.None? <==> old(offset) + 4 > |buffer|
      ensures v.None? ==> offset == old(offset)
      ensures v.Some? ==> v.value == I32LE(buffer, old(offset)) && offset == old(offset) + 4
    {
      if offset + 4 > |buffer| {
        return None;
      }
      v := Some(I32LE(buffer, offset));
      offset := offset + 4;
    }

    /** `readFloat`: the four raw bytes of the little-endian float. */
    method ReadFloat() returns (v: Option<Num>)
      modifies this
      ensures v.None? <==> old(offset) + 4 > |buffer|
      ensures v.None? ==> offset == old(offset)
      ensures v.Some? ==> v.value == Float(buffer[old(offset)..old(offset) + 4]) && offset == old(offset) + 4
    {
      if offset + 4 > |buffer| {
        return None;
      }
      v := Some(Float(buffer[offset..offset + 4]));
      offset := offset + 4;
    }

    method ParseForm() returns (f: Option<Form>)
      modifies this
      ensures (f, offset) == FormAt(buffer, old(offset))
    {
      if offset + 8 >= |buffer| {
        return None;
      }
      var start := offset;
      var tag := ReadString(4);
      if tag != "FORM" {
        return None;
      }
      var size := ReadUInt32BE();
      var formType := ReadString(4);
      f := Some(Form(formType, size.value, offset, offset + size.value - 4));
    }

    method ParseChunk() returns (c: Option<Chunk>)
      modifies this
      ensures c.None? <==> ChunkAt(buffer, old(offset)).None?
      ensures c.None? ==> offset == old(offset)
      ensures c.Some? ==> ChunkAt(buffer, old(offset)) == Some((c.value, offset))
    {
      if offset + 8 >= |buffer| {
        return None;
      }
      ghost var start := offset;
      var tag := ReadString(4);
      var size := ReadUInt32BE();
      var data := Slice(buffer, offset, offset + size.value);
      ChunkAtFrom(buffer, start, tag, size.value, data);
      offset := offset + size.value;
      if size.value % 2 == 1 {
        offset := offset + 1;
      }
      c := Some(Chunk(tag, size.value, data));
    }

    method ParseAll() returns (chunks: seq<Chunk>)
      modifies this
      ensures chunks == ChunksFrom(buffer, old(offset))
      ensures offset == ChunksEnd(buffer, old(offset))
    {
      chunks := [];
      while offset + 8 < |buffer|
        invariant chunks + ChunksFrom(buffer, offset) == ChunksFrom(buffer, old(offset))
        invariant ChunksEnd(buffer, offset) == ChunksEnd(buffer, old(offset))
        decreases |buffer| - offset
      {
        ghost var before := offset;
        var chunk := ParseChunk();
        if chunk.None? {
          break;
        }
        ChunksStep(buffer, before, chunk.value, offset);
        Onto(chunks, chunk.value, ChunksFrom(buffer, offset));
        chunks := chunks + [chunk.value];
      }
      ChunksStop(buffer, offset);
    }
  }

  lemma EncodedHeader(pre: seq<byte>, c: ParseEverything.FlatChunk, post: seq<byte>)
    requires ParseEverything.WellFormed(c) && '\0' !in c.tag
    ensures var buf := pre + ParseEverything.EncodeChunk(c) + post;
      |pre| + 8 <= |buf| && TextAt(buf, |pre|, 4) == c.tag && U32BE(buf, |pre| + 4) == c.size
  {
    var buf := pre + ParseEverything.EncodeChunk(c) + post;
    var tail := c.data + ParseEverything.Pad(c.size) + post;
    assert buf == pre + AsciiBytes(c.tag) + (EncodeU32BE(c.size) + tail);
    TextAtRoundTrip(pre, c.tag, EncodeU32BE(c.size) + tail);
    assert buf == pre + AsciiBytes(c.tag) + EncodeU32BE(c.size) + tail;
    U32BERoundTrip(c.size, pre + AsciiBytes(c.tag), tail);
  }

  lemma EncodedPayload(pre: seq<byte>, c: ParseEverything.FlatChunk, post: seq<byte>)
    requires ParseEverything.WellFormed(c)
    ensures var buf := pre + ParseEverything.EncodeChunk(c) + post;
      Slice(buf, |pre| + 8, |pre| + 8 + c.size) == c.data
  {
    var buf := pre + ParseEverything.EncodeChunk(c) + post;
    var head := pre + AsciiBytes(c.tag) + EncodeU32BE(c.size);
    assert buf == head + c.data + (ParseEverything.Pad(c.size) + post);
    assert buf[|head|..|head| + |c.data|] == c.data;
  }

  /** The padded chunk encoding, as in the Python reader's model, reads back unless it is an empty chunk ending the buffer. */
  lemma ChunkAtEncoded(pre: seq<byte>, c: ParseEverything.FlatChunk, post: seq<byte>)
    requires ParseEverything.WellFormed(c) && '\0' !in c.tag
    requires c.size > 0 || post != []
    ensures ChunkAt(pre + ParseEverything.EncodeChunk(c) + post, |pre|)
         == Some((Chunk(c.tag, c.size, c.data), |pre| + |ParseEverything.EncodeChunk(c)|))
  {
    var buf := pre + ParseEverything.EncodeChunk(c) + post;
    EncodedHeader(pre, c, post);
    EncodedPayload(pre, c, post);
    ChunkAtFrom(buf, |pre|, c.tag, c.size, c.data);
  }

  /** A header and payload found at `off` make the chunk read there. */
  lemma ChunkAtFrom(buf: seq<byte>, off: nat, tag: string, size: nat, data: seq<byte>)
    requires off + 8 < |buf| && TextAt(buf, off, 4) == tag && U32BE(buf, off + 4) == size
    requires Slice(buf, off + 8, off + 8 + size) == data
    ensures ChunkAt(buf, off) == Some((Chunk(tag, size, data), off + 8 + size + size % 2))
  {
    var r := ChunkAt(buf, off).value;
    assert r.0 == Chunk(tag, size, data);
  }

  function AsCursorChunks(cs: seq<ParseEverything.FlatChunk>): (r: seq<Chunk>)
    ensures |r| == |cs|
    ensures forall k :: 0 <= k < |cs| ==> r[k] == Chunk(cs[k].tag, cs[k].size, cs[k].data)
  {
    if cs == [] then [] else [Chunk(cs[0].tag, cs[0].size, cs[0].data)] + AsCursorChunks(cs[1..])
  }

  predicate Encodable(cs: seq<ParseEverything.FlatChunk>)
  {
    forall k :: 0 <= k < |cs| ==> ParseEverything.WellFormed(cs[k]) && '\0' !in cs[k].tag && cs[k].size > 0
  }

  /** A chunk written after `pre`, followed by bytes that parse to `tail`, parses to that chunk and then `tail`. */
  lemma {:induction false} FlatChunkThenRest(pre: seq<byte>, c: ParseEverything.FlatChunk, post: seq<byte>,
                                             next: nat, tail: seq<Chunk>, end: nat)
    requires ParseEverything.WellFormed(c) && '\0' !in c.tag && c.size > 0
    requires next == |pre| + |ParseEverything.EncodeChunk(c)|
    requires ChunksFrom(pre + ParseEverything.EncodeChunk(c) + post, next) == tail
    requires ChunksEnd(pre + ParseEverything.EncodeChunk(c) + post, next) == end
    ensures ChunksFrom(pre + ParseEverything.EncodeChunk(c) + post, |pre|) == [Chunk(c.tag, c.size, c.data)] + tail
    ensures ChunksEnd(pre + ParseEverything.EncodeChunk(c) + post, |pre|) == end
  {
    ChunkAtEncoded(pre, c, post);
    ChunksStep(pre + ParseEverything.EncodeChunk(c) + post, |pre|, Chunk(c.tag, c.size, c.data), next);
  }

  /** Re-parsing the padded encoding of non-empty chunks with NUL-free tags gives back the same chunks. */
  lemma {:induction false} ParseAllRoundTrip(pre: seq<byte>, cs: seq<ParseEverything.FlatChunk>)
    requires Encodable(cs)
    ensures ChunksFrom(pre + ParseEverything.Encode(cs), |pre|) == AsCursorChunks(cs)
    ensures ChunksEnd(pre + ParseEverything.Encode(cs), |pre|) == |pre + ParseEverything.Encode(cs)|
    decreases |cs|
  {
    var buf := pre + ParseEverything.Encode(cs);
    if cs == [] {
      ChunksStop(buf, |pre|);
    } else {
      var c := cs[0];
      var rest := ParseEverything.Encode(cs[1..]);
      var pre' := pre + ParseEverything.EncodeChunk(c);
      assert buf == pre' + rest;
      assert Encodable(cs[1..]);
      ParseAllRoundTrip(pre', cs[1..]);
      FlatChunkThenRest(pre, c, rest, |pre'|, AsCursorChunks(cs[1..]), |buf|);
    }
  }

  /**
   * The two flat readers disagree exactly at an 8-byte header that ends the
   * buffer: the Python reader returns an empty chunk there, this one stops.
   */
  lemma TrailingHeaderGuards(buf: seq<byte>, off: nat)
    requires off + 8 == |buf|
    ensures ChunkAt(buf, off).None?
    ensures ParseEverything.ChunkAt(buf, off).Some? && ParseEverything.ChunkAt(buf, off).value.0.data == []
  {
  }

  /**
   * Wherever this reader reads a chunk, the Python reader reads one with the
   * same size, payload and next offset.
   */
  lemma FlatReadersAgree(buf: seq<byte>, off: nat)
    requires ChunkAt(buf, off).Some?
    ensures ParseEverything.ChunkAt(buf, off).Some?
    ensures ParseEverything.ChunkAt(buf, off).value.0.size == ChunkAt(buf, off).value.0.size
    ensures ParseEverything.ChunkAt(buf, off).value.0.data == ChunkAt(buf, off).value.0.data
    ensures ParseEverything.ChunkAt(buf, off).value.1 == ChunkAt(buf, off).value.1
  {
    var size := U32BE(buf, off + 4);
    assert Slice(buf, off + 8, off + 8 + size) == buf[off + 8 .. off + 8 + Min(size, |buf| - off - 8)];
  }

  /** Both decodings of a tag agree on 7-bit bytes other than NUL. */
  lemma DecodingsAgreeOnTag(tb: seq<byte>)
    requires forall k :: 0 <= k < |tb| ==> 0 < tb[k] as int < 128
    ensures AsciiIgnore(tb) == Text.RemoveAll(AsciiNode(tb), '\0')
  {
    AsciiDecodingsAgreeOn7Bit(tb);
    AsciiIgnoreNulFree(tb);
  }

  lemma {:induction false} AsciiIgnoreNulFree(s: seq<byte>)
    requires forall k :: 0 <= k < |s| ==> 0 < s[k]
    ensures '\0' !in AsciiIgnore(s)
  {
    if s != [] {
      AsciiIgnoreNulFree(s[1..]);
    }
  }

  /** The two readers read the same tag when its four bytes are 7-bit and non-NUL. */
  lemma FlatTagsAgree(buf: seq<byte>, off: nat)
    requires off + 8 < |buf|
    requires forall k :: off <= k < off + 4 ==> 0 < buf[k] as int < 128
    ensures ParseEverything.ChunkAt(buf, off).value.0.tag == ChunkAt(buf, off).value.0.tag
  {
    var tb := buf[off..off + 4];
    assert Slice(buf, off, off + 4) == tb;
    DecodingsAgreeOnTag(tb);
  }

  // ---------------------------------------------------------------------
  // World snapshots

  datatype Vec3 = Vec3(x: Num, y: Num, z: Num)
  datatype Quat = Quat(w: Num, x: Num, y: Num, z: Num)

  /** A placed object of a world snapshot (its `type` is always 'object'). */
  datatype WorldObject = WorldObject(id: nat, template: string, position: Vec3, rotation: Quat, scale: Num)

  /** A scene node (its `type` is always 'node' and its children are always empty). */
  datatype SceneNode = SceneNode(id: nat)

  datatype Snapshot = Snapshot(objects: seq<WorldObject>, nodes: seq<SceneNode>)

  const DEFAULT_OBJECT := WorldObject(0, "", Vec3(Int(0), Int(0), Int(0)), Quat(Int(1), Int(0), Int(0), Int(0)), Int(1))
  const EMPTY_SNAPSHOT := Snapshot([], [])

  /** A DATA sub-chunk: the id from 8 bytes on, the template from 16 bytes on with a length in 1..255. */
  function ApplyData(obj: WorldObject, d: seq<byte>): (r: WorldObject)
    ensures r.position == obj.position && r.rotation == obj.rotation && r.scale == obj.scale
    ensures r.id == (if |d| >= 8 then U32LE(d, 0) else obj.id)
    ensures r.template == (if |d| >= 16 && 0 < U32LE(d, 4) < 256 then TextAt(d, 8, U32LE(d, 4)) else obj.template)
  {
    var withId := if |d| >= 8 then obj.(id := U32LE(d, 0)) else obj;
    if |d| >= 16 && 0 < U32LE(d, 4) < 256 then withId.(template := TextAt(d, 8, U32LE(d, 4))) else withId
  }

  /** An XFRM or TFRM sub-chunk: a position from 28 bytes on, a rotation from 44 bytes on. */
  function ApplyTransform(obj: WorldObject, d: seq<byte>): (r: WorldObject)
    ensures r.id == obj.id && r.template == obj.template && r.scale == obj.scale
    ensures |d| < 28 ==> r == obj
    ensures |d| < 44 ==> r.rotation == obj.rotation
  {
    if |d| < 28 then obj
    else
      var moved := obj.(position := Vec3(Float(d[0..4]), Float(d[4..8]), Float(d[8..12])));
      if |d| < 44 then moved
      else moved.(rotation := Quat(Float(d[12..16]), Float(d[16..20]), Float(d[20..24]), Float(d[24..28])))
  }

  function ApplyChunk(obj: WorldObject, c: Chunk): WorldObject
  {
    if c.tag == "DATA" then ApplyData(obj, c.data)
    else if c.tag == "XFRM" || c.tag == "TFRM" then ApplyTransform(obj, c.data)
    else obj
  }

  /** The object after the sub-chunks of an OOBJ payload from `off` on were applied in order. */
  function ObjectFold(d: seq<byte>, off: nat, obj: WorldObject): WorldObject
    decreases |d| - off
  {
    match ChunkAt(d, off)
    case None => obj
    case Some((c, next)) => ObjectFold(d, next, ApplyChunk(obj, c))
  }

  /** `parseObject`: the object, when it has a template or a positive id. */
  function ObjectSpec(d: seq<byte>): (r: Option<WorldObject>)
    ensures r.Some? ==> r.value.template != "" || r.value.id > 0
    ensures r.None? <==> ObjectFold(d, 0, DEFAULT_OBJECT).template == "" && ObjectFold(d, 0, DEFAULT_OBJECT).id == 0
  {
    var obj := ObjectFold(d, 0, DEFAULT_OBJECT);
    if obj.template != "" || obj.id > 0 then Some(obj) else None
  }

  /** `parseNode`: the id in the first four bytes; a shorter payload throws and yields null. */
  function NodeSpec(d: seq<byte>): (r: Option<SceneNode>)
    ensures r.None? <==> |d| < 4
    ensures r.Some? ==> r.value.id == U32LE(d, 0)
  {
    if |d| < 4 then None else Some(SceneNode(U32LE(d, 0)))
  }

  function AddChunk(s: Snapshot, c: Chunk): Snapshot
  {
    if c.tag == "OOBJ" then
      match ObjectSpec(c.data)
      case Some(o) => s.(objects := s.objects + [o])
      case None => s
    else if c.tag == "NODE" then
      match NodeSpec(c.data)
      case Some(n) => s.(nodes := s.nodes + [n])
      case None => s
    else s
  }

  /** The snapshot loop from `off` while the cursor is before `end`. */
  function SnapshotFold(buf: seq<byte>, off: nat, end: nat, s: Snapshot): Snapshot
    decreases |buf| - off
  {
    if off >= end then s
    else match ChunkAt(buf, off)
      case None => s
      case Some((c, next)) => SnapshotFold(buf, next, end, AddChunk(s, c))
  }

  /** `SnapshotParser.parse`. */
  function SnapshotSpec(ws: seq<byte>): Snapshot
  {
    match FormAt(ws, 0).0
    case None => EMPTY_SNAPSHOT
    case Some(form) =>
      if form.formType != "WSNP" then EMPTY_SNAPSHOT
      else SnapshotFold(ws, FormAt(ws, 0).1, form.endOffset, EMPTY_SNAPSHOT)
  }

  method ReadDataChunk(obj: WorldObject, d: seq<byte>) returns (r: WorldObject)
    ensures r == ApplyData(obj, d)
  {
    r := obj;
    var p := new IffParser(d);
    if |d| >= 8 {
      var id := p.ReadUInt32LE();
      r := r.(id := id.value);
    }
    if |d| >= 16 {
      var nameLen := p.ReadUInt32LE();
      if 0 < nameLen.value < 256 {
        var t := p.ReadString(nameLen.value);
        r := r.(template := t);
      }
    }
  }

  method ReadTransformChunk(obj: WorldObject, d: seq<byte>) returns (r: WorldObject)
    ensures r == ApplyTransform(obj, d)
  {
    r := obj;
    var p := new IffParser(d);
    if |d| >= 28 {
      var x := p.ReadFloat();
      var y := p.ReadFloat();
      var z := p.ReadFloat();
      r := r.(position := Vec3(x.value, y.value, z.value));
      if |d| >= 44 {
        var w := p.ReadFloat();
        var qx := p.ReadFloat();
        var qy := p.ReadFloat();
        var qz := p.ReadFloat();
        r := r.(rotation := Quat(w.value, qx.value, qy.value, qz.value));
      }
    }
  }

  /** `parseObject`: nothing in it can throw, so its catch is never taken. */
  method ParseObject(d: seq<byte>) returns (r: Option<WorldObject>)
    ensures r == ObjectSpec(d)
  {
    var p := new IffParser(d);
    var obj := DEFAULT_OBJECT;
    while p.offset + 8 < |d|
      invariant p.buffer == d
      invariant ObjectFold(d, p.offset, obj) == ObjectFold(d, 0, DEFAULT_OBJECT)
      decreases |d| - p.offset
    {
      ghost var before, prev := p.offset, obj;
      var chunk := p.ParseChunk();
      if chunk.None? {
        break;
      }
      var c := chunk.value;
      if c.tag == "DATA" {
        obj := ReadDataChunk(obj, c.data);
      } else if c.tag == "XFRM" || c.tag == "TFRM" {
        obj := ReadTransformChunk(obj, c.data);
      }
      assert obj == ApplyChunk(prev, c);
      assert ObjectFold(d, before, prev) == ObjectFold(d, p.offset, obj);
    }
    if obj.template != "" || obj.id > 0 {
      return Some(obj);
    }
    return None;
  }

  /** `parseNode`. */
  method ParseNode(d: seq<byte>) returns (r: Option<SceneNode>)
    ensures r == NodeSpec(d)
  {
    var p := new IffParser(d);
    var id := p.ReadUInt32LE();
    if id.None? {
      return None;
    }
    r := Some(SceneNode(id.value));
  }

  /** `SnapshotParser.parse`: OOBJ and NODE chunks between the WSNP header and its end offset. */
  method ParseSnapshot(ws: seq<byte>) returns (s: Snapshot)
    ensures s == SnapshotSpec(ws)
  {
    var p := new IffParser(ws);
    var form := p.ParseForm();
    if form.None? || form.value.formType != "WSNP" {
      return EMPTY_SNAPSHOT;
    }
    var objects: seq<WorldObject> := [];
    var nodes: seq<SceneNode> := [];
    while p.offset < form.value.endOffset
      invariant p.buffer == ws
      invariant SnapshotFold(ws, p.offset, form.value.endOffset, Snapshot(objects, nodes)) == SnapshotSpec(ws)
      decreases |ws| - p.offset
    {
      ghost var before, prev := p.offset, Snapshot(objects, nodes);
      var chunk := p.ParseChunk();
      if chunk.None? {
        break;
      }
      var c := chunk.value;
      if c.tag == "OOBJ" {
        var obj := ParseObject(c.data);
        if obj.Some? {
          objects := objects + [obj.value];
        }
      } else if c.tag == "NODE" {
        var node := ParseNode(c.data);
        if node.Some? {
          nodes := nodes + [node.value];
        }
      }
      assert Snapshot(objects, nodes) == AddChunk(prev, c);
      assert SnapshotFold(ws, before, form.value.endOffset, prev) == SnapshotFold(ws, p.offset, form.value.endOffset, Snapshot(objects, nodes));
    }
    s := Snapshot(objects, nodes);
  }

  /** Every object a snapshot holds has a template or a positive id. */
  lemma {:induction false} SnapshotObjectsMeaningful(buf: seq<byte>, off: nat, end: nat, s: Snapshot, k: nat)
    requires forall j :: 0 <= j < |s.objects| ==> s.objects[j].template != "" || s.objects[j].id > 0
    requires k < |SnapshotFold(buf, off, end, s).objects|
    ensures SnapshotFold(buf, off, end, s).objects[k].template != "" || SnapshotFold(buf, off, end, s).objects[k].id > 0
    decreases |buf| - off
  {
    if off < end {
      match ChunkAt(buf, off)
      case None =>
      case Some((c, next)) =>
        SnapshotObjectsMeaningful(buf, next, end, AddChunk(s, c), k);
    }
  }

  /** `b` keeps the objects and nodes of `a` in front, in order. */
  predicate Extends(a: Snapshot, b: Snapshot)
  {
    |a.objects| <= |b.objects| && b.objects[..|a.objects|] == a.objects &&
    |a.nodes| <= |b.nodes| && b.nodes[..|a.nodes|] == a.nodes
  }

  lemma ExtendsTrans(a: Snapshot, b: Snapshot, c: Snapshot)
    requires Extends(a, b) && Extends(b, c)
    ensures Extends(a, c)
  {
    assert c.objects[..|a.objects|] == c.objects[..|b.objects|][..|a.objects|];
    assert c.nodes[..|a.nodes|] == c.nodes[..|b.nodes|][..|a.nodes|];
  }

  lemma AddChunkExtends(s: Snapshot, c: Chunk)
    ensures Extends(s, AddChunk(s, c))
  {
    if c.tag == "OOBJ" && ObjectSpec(c.data).Some? {
      assert (s.objects + [ObjectSpec(c.data).value])[..|s.objects|] == s.objects;
    } else if c.tag != "OOBJ" && c.tag == "NODE" && NodeSpec(c.data).Some? {
      assert (s.nodes + [NodeSpec(c.data).value])[..|s.nodes|] == s.nodes;
    }
  }

  /** The snapshot loop only appends: what was collected before stays, in order. */
  lemma {:induction false} SnapshotFoldExtends(buf: seq<byte>, off: nat, end: nat, s: Snapshot)
    ensures var r := SnapshotFold(buf, off, end, s);
      |s.objects| <= |r.objects| && r.objects[..|s.objects|] == s.objects &&
      |s.nodes| <= |r.nodes| && r.nodes[..|s.nodes|] == s.nodes
    decreases |buf| - off
  {
    if off < end {
      match ChunkAt(buf, off)
      case None =>
      case Some((c, next)) =>
        var s' := AddChunk(s, c);
        AddChunkExtends(s, c);
        SnapshotFoldExtends(buf, next, end, s');
        ExtendsTrans(s, s', SnapshotFold(buf, next, end, s'));
    }
  }

  /** Every object of a parsed snapshot has a template or a positive id. */
  lemma SnapshotObjectsHaveIdentity(ws: seq<byte>, k: nat)
    requires k < |SnapshotSpec(ws).objects|
    ensures SnapshotSpec(ws).objects[k].template != "" || SnapshotSpec(ws).objects[k].id > 0
  {
    match FormAt(ws, 0).0
    case None =>
    case Some(form) =>
      if form.formType == "WSNP" {
        SnapshotObjectsMeaningful(ws, FormAt(ws, 0).1, form.endOffset, EMPTY_SNAPSHOT, k);
      }
  }

  /** A buffer that does not open with a FORM whose type is WSNP is no snapshot. */
  lemma NotSnapshot(ws: seq<byte>)
    requires |ws| <= 8 || TextAt(ws, 0, 4) != "FORM" || TextAt(ws, 8, 4) != "WSNP"
    ensures SnapshotSpec(ws) == EMPTY_SNAPSHOT
  {
  }

  /** The payload of a DATA sub-chunk carrying an id and a template name of 1 to 255 characters. */
  function EncodeObjectData(id: nat, template: string): (r: seq<byte>)
    requires id < TWO_32 && 0 < |template| < 256 && IsAscii(template)
    ensures |r| >= 16
  {
    EncodeU32LE(id) + EncodeU32LE(|template|) + AsciiBytes(template) + seq(8, _ => 0 as byte)
  }

  /** Reading the DATA payload that carries `id` and `template` gives back both. */
  lemma ObjectDataRoundTrip(obj: WorldObject, id: nat, template: string)
    requires id < TWO_32 && 0 < |template| < 256 && IsAscii(template) && '\0' !in template
    ensures ApplyData(obj, EncodeObjectData(id, template)) == obj.(id := id, template := template)
  {
    var tail := seq(8, _ => 0 as byte);
    var d := EncodeObjectData(id, template);
    U32LERoundTrip(id, [], EncodeU32LE(|template|) + AsciiBytes(template) + tail);
    assert d == [] + EncodeU32LE(id) + (EncodeU32LE(|template|) + AsciiBytes(template) + tail);
    U32LERoundTrip(|template|, EncodeU32LE(id), AsciiBytes(template) + tail);
    assert d == EncodeU32LE(id) + EncodeU32LE(|template|) + (AsciiBytes(template) + tail);
    TextAtRoundTrip(EncodeU32LE(id) + EncodeU32LE(|template|), template, tail);
    assert d == (EncodeU32LE(id) + EncodeU32LE(|template|)) + AsciiBytes(template) + tail;
  }

  // ---------------------------------------------------------------------
  // Heightmaps

  /** `parseHeightmap`: a header read that throws, a null map, or the samples. */
  datatype HeightmapOutcome = Throws | NoMap | Heightmap(width: nat, height: nat, samples: seq<Num>)

  /** Sample `k` of `n`: int16 when the body holds exactly 2 bytes per sample, a float at 4, else 0. */
  function SampleAt(d: seq<byte>, n: nat, k: nat): Num
    requires 8 <= |d| && k < n
  {
    if |d| - 8 == 2 * n then Int(I16LE(d, 8 + 2 * k))
    else if |d| - 8 == 4 * n then Float(d[8 + 4 * k .. 8 + 4 * k + 4])
    else Int(0)
  }

  predicate DimensionOk(v: nat) { 16 <= v <= 4096 }

  function HeightmapSpec(d: seq<byte>): (r: HeightmapOutcome)
    ensures r.Throws? <==> |d| < 8
    ensures r.NoMap? <==> |d| >= 8 && !(DimensionOk(U32LE(d, 0)) && DimensionOk(U32LE(d, 4)))
    ensures r.Heightmap? ==> r.width == U32LE(d, 0) && r.height == U32LE(d, 4)
    ensures r.Heightmap? ==> DimensionOk(r.width) && DimensionOk(r.height) && |r.samples| == r.width * r.height
    ensures r.Heightmap? ==> forall k :: 0 <= k < |r.samples| ==> r.samples[k] == SampleAt(d, r.width * r.height, k)
  {
    if |d| < 8 then Throws
    else
      var w, h := U32LE(d, 0), U32LE(d, 4);
      if !(DimensionOk(w) && DimensionOk(h)) then NoMap
      else Heightmap(w, h, seq(w * h, k requires 0 <= k < w * h => SampleAt(d, w * h, k)))
  }

  method ParseHeightmap(d: seq<byte>) returns (r: HeightmapOutcome)
    ensures r == HeightmapSpec(d)
  {
    var p := new IffParser(d);
    var width := p.ReadUInt32LE();
    if width.None? {
      return Throws;
    }
    var height := p.ReadUInt32LE();
    if height.None? {
      return Throws;
    }
    var w, h := width.value, height.value;
    if w < 16 || w > 4096 || h < 16 || h > 4096 {
      return NoMap;
    }
    var n := w * h;
    var samples: seq<Num> := [];
    var i := 0;
    while i < n
      invariant 0 <= i <= n && p.buffer == d
      invariant |samples| == i
      invariant forall k :: 0 <= k < i ==> samples[k] == SampleAt(d, n, k)
      invariant |d| - 8 == 2 * n ==> p.offset == 8 + 2 * i
      invariant |d| - 8 == 4 * n ==> p.offset == 8 + 4 * i
    {
      var v := Int(0);
      if |d| - 8 == 2 * n {
        v := Int(I16LE(d, p.offset));
        p.offset := p.offset + 2;
      } else if |d| - 8 == 4 * n {
        var f := p.ReadFloat();
        v := f.value;
      }
      samples := samples + [v];
      i := i + 1;
    }
    r := Heightmap(w, h, samples);
  }

  /** The int16 samples a heightmap writer emits, in order. */
  function EncodeI16s(vs: seq<int>): (r: seq<byte>)
    requires forall k :: 0 <= k < |vs| ==> -0x8000 <= vs[k] < 0x8000
    ensures |r| == 2 * |vs|
  {
    if vs == [] then [] else EncodeI16LE(vs[0]) + EncodeI16s(vs[1..])
  }

  lemma {:induction false} EncodeI16sAt(pre: seq<byte>, vs: seq<int>, post: seq<byte>, k: nat)
    requires forall j :: 0 <= j < |vs| ==> -0x8000 <= vs[j] < 0x8000
    requires k < |vs|
    ensures I16LE(pre + EncodeI16s(vs) + post, |pre| + 2 * k) == vs[k]
    decreases k
  {
    if k == 0 {
      assert pre + EncodeI16s(vs) + post == pre + EncodeI16LE(vs[0]) + (EncodeI16s(vs[1..]) + post);
      I16LERoundTrip(vs[0], pre, EncodeI16s(vs[1..]) + post);
    } else {
      assert pre + EncodeI16s(vs) + post == (pre + EncodeI16LE(vs[0])) + EncodeI16s(vs[1..]) + post;
      EncodeI16sAt(pre + EncodeI16LE(vs[0]), vs[1..], post, k - 1);
    }
  }

  /** A heightmap written as width, height and width × height int16 samples reads back sample for sample. */
  lemma HeightmapRoundTrip(w: nat, h: nat, vs: seq<int>)
    requires DimensionOk(w) && DimensionOk(h) && |vs| == w * h
    requires forall j :: 0 <= j < |vs| ==> -0x8000 <= vs[j] < 0x8000
    ensures var r := HeightmapSpec(EncodeU32LE(w) + EncodeU32LE(h) + EncodeI16s(vs));
      r.Heightmap? && r.width == w && r.height == h &&
      forall k :: 0 <= k < |vs| ==> r.samples[k] == Int(vs[k])
  {
    var d := EncodeU32LE(w) + EncodeU32LE(h) + EncodeI16s(vs);
    U32LERoundTrip(w, [], EncodeU32LE(h) + EncodeI16s(vs));
    assert d == [] + EncodeU32LE(w) + (EncodeU32LE(h) + EncodeI16s(vs));
    U32LERoundTrip(h, EncodeU32LE(w), EncodeI16s(vs));
    var pre := EncodeU32LE(w) + EncodeU32LE(h);
    assert d == pre + EncodeI16s(vs) + [];
    forall k | 0 <= k < |vs|
      ensures I16LE(d, 8 + 2 * k) == vs[k]
    {
      EncodeI16sAt(pre, vs, [], k);
    }
  }
}
