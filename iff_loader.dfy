/**
 * The browser-side IFF loader: a recursive reader that turns FORM, LIST and
 * 'CAT ' containers into chunk trees, a top-level parse loop that keeps its
 * last result, and a depth-first search over that result.
 */
module IffLoader {
  import opened Wrappers
  import opened Bytes

  /**
   * A parsed chunk. Containers carry no `data` and leaves carry no
   * `children`; `formType` is present only for a container of size >= 4.
   */
  datatype Chunk = Chunk(tag: string, size: nat, formType: Option<string>, data: Option<seq<byte>>,
                         children: seq<Chunk>, totalSize: nat)

  const FORM: string := "FORM"
  const LIST: string := "LIST"
  const CAT: string := "CAT "

  predicate IsContainerTag(t: string) { t == FORM || t == LIST || t == CAT }

  /** The payload `buf.slice(off + 8, min(off + 8 + size, buf.length))`. */
  function Payload(buf: seq<byte>, off: nat, size: nat): (r: seq<byte>)
    requires off + 8 <= |buf|
    ensures |r| == Min(size, |buf| - off - 8) && |r| < |buf|
    ensures r == buf[off + 8 .. off + 8 + |r|]
  {
    buf[off + 8 .. Min(off + 8 + size, |buf|)]
  }

  /** `readChunk(buffer, offset)`. */
  function ReadChunkF(buf: seq<byte>, off: nat): (r: Option<Chunk>)
    ensures r.None? <==> off + 8 > |buf|
    ensures r.Some? ==> r.value.totalSize == 8 + r.value.size + r.value.size % 2
    decreases |buf|, 1, 0
  {
    if off + 8 > |buf| then None
    else
      var tag := AsciiNode(buf[off..off + 4]);
      var size := U32BE(buf, off + 4);
      var data := Payload(buf, off, size);
      Some(MakeChunk(tag, size, data))
  }

  /** The chunk object `readChunk` builds from a header and its payload. */
  function MakeChunk(tag: string, size: nat, data: seq<byte>): (c: Chunk)
    ensures c.totalSize == 8 + size + size % 2
    decreases |data|, 3, 0
  {
    var container := IsContainerTag(tag);
    var formType := if container && size >= 4 then Some(AsciiNode(Slice(data, 0, 4))) else None;
    var children := if container && size >= 4 then ChildrenF(data, 4) else [];
    Chunk(tag, size, formType, if container then None else Some(data), children, 8 + size + size % 2)
  }

  /** The children loop of `readChunk`: chunks read from `data` while `childOffset < data.length - 8`. */
  function ChildrenF(data: seq<byte>, co: nat): (r: seq<Chunk>)
    decreases |data|, 2, |data| - co
  {
    if co < |data| - 8 then
      match ReadChunkF(data, co)
      case None => []
      case Some(c) => [c] + ChildrenF(data, co + c.totalSize)
    else []
  }

  /** The top-level loop of `parse` from `off`: chunks while `offset < buffer.length`. */
  function ParseF(buf: seq<byte>, off: nat): (r: seq<Chunk>)
    decreases |buf| - off
  {
    if off < |buf| then
      match ReadChunkF(buf, off)
      case None => []
      case Some(c) => [c] + ParseF(buf, off + c.totalSize)
    else []
  }

  /** The loader object: `this.chunks` holds the chunks of the last `parse`. */
  class Loader {
    var chunks: seq<Chunk>

    constructor ()
      ensures chunks == []
    {
      chunks := [];
    }

    /** `readChunk`: the recursive reader. */
    static method ReadChunk(buf: seq<byte>, off: nat) returns (r: Option<Chunk>)
      ensures r == ReadChunkF(buf, off)
      decreases |buf|, 1
    {
      if off + 8 > |buf| {
        return None;
      }
      var tag := AsciiNode(buf[off..off + 4]);
      var size := U32BE(buf, off + 4);
      var dataEnd := Min(off + 8 + size, |buf|);
      var data := buf[off + 8 .. dataEnd];
      assert data == Payload(buf, off, size);
      var container := tag == FORM || tag == LIST || tag == CAT;
      var formType: Option<string> := None;
      var children: seq<Chunk> := [];
      if container && size >= 4 {
        formType := Some(AsciiNode(Slice(data, 0, 4)));
        children := ReadChildren(data);
      }
      r := Some(Chunk(tag, size, formType, if container then None else Some(data), if container then children else [],
                      8 + size + size % 2));
      assert r.value == MakeChunk(tag, size, data);
    }

    /** The children loop of `readChunk`: a cursor over the container's own payload, starting after the form type. */
    static method ReadChildren(data: seq<byte>) returns (children: seq<Chunk>)
      ensures children == ChildrenF(data, 4)
      decreases |data|, 2
    {
      children := [];
      var childOffset: nat := 4;
      while childOffset < |data| - 8
        invariant children + ChildrenF(data, childOffset) == ChildrenF(data, 4)
        decreases |data| - childOffset
      {
        var child := ReadChunk(data, childOffset);
        if child.None? {
          break;
        }
        ghost var rest := ChildrenF(data, childOffset + child.value.totalSize);
        assert ChildrenF(data, childOffset) == [child.value] + rest;
        Onto(children, child.value, rest);
        children := children + [child.value];
        childOffset := childOffset + child.value.totalSize;
        assert ChildrenF(data, childOffset) == rest;
      }
    }

    /** The top-level loop of `parse`: a cursor over the whole buffer. */
    static method ReadTopLevel(buf: seq<byte>) returns (found: seq<Chunk>)
      ensures found == ParseF(buf, 0)
    {
      found := [];
      var offset: nat := 0;
      ghost var all := ParseF(buf, offset);
      while offset < |buf|
        invariant found + ParseF(buf, offset) == all
        decreases |buf| - offset
      {
        var chunk := ReadChunk(buf, offset);
        if chunk.None? {
          ParseFStops(buf, offset);
          break;
        }
        var next := offset + chunk.value.totalSize;
        ParseFStep(buf, offset, next, chunk.value, ParseF(buf, next));
        Onto(found, chunk.value, ParseF(buf, next));
        found := found + [chunk.value];
        offset := next;
      }
      if offset >= |buf| {
        ParseFAtEnd(buf, offset);
      }
    }

    /** `parse`: resets `this.chunks`, then collects the top-level chunks in buffer order. */
    method Parse(buf: seq<byte>) returns (result: seq<Chunk>)
      modifies this
      ensures result == chunks == ParseF(buf, 0)
    {
      chunks := [];
      // `this.chunks.push` on the freshly reset list
      var found := ReadTopLevel(buf);
      chunks := found;
      result := chunks;
    }

    /** `findChunk`: the first chunk with this tag in the last parse result, depth first, or None. */
    method FindChunk(tag: string) returns (r: Option<Chunk>)
      ensures r == FirstWithTag(Preorder(chunks), tag)
    {
      r := FindChunkRecursive(chunks, tag);
      FindIsPreorderSearch(chunks, tag);
    }
  }

  /** `findChunkRecursive`: scan the list; a node is tested before its children, and its children before its right siblings. */
  function FindChunkRecursive(cs: seq<Chunk>, tag: string): (r: Option<Chunk>)
    ensures r.Some? ==> r.value.tag == tag
    decreases cs
  {
    if cs == [] then None
    else if cs[0].tag == tag then Some(cs[0])
    else
      var found := if |cs[0].children| > 0 then FindChunkRecursive(cs[0].children, tag) else None;
      if found.Some? then found else FindChunkRecursive(cs[1..], tag)
  }

  /** Reference order: every chunk of the forest, each node before its children (depth-first pre-order). */
  function Preorder(cs: seq<Chunk>): seq<Chunk>
    decreases cs
  {
    if cs == [] then [] else [cs[0]] + Preorder(cs[0].children) + Preorder(cs[1..])
  }

  function FirstWithTag(s: seq<Chunk>, tag: string): (r: Option<Chunk>)
  {
    if s == [] then None else if s[0].tag == tag then Some(s[0]) else FirstWithTag(s[1..], tag)
  }

  lemma {:induction false} FirstWithTagAppend(a: seq<Chunk>, b: seq<Chunk>, tag: string)
    ensures FirstWithTag(a + b, tag) == if FirstWithTag(a, tag).Some? then FirstWithTag(a, tag) else FirstWithTag(b, tag)
  {
    if a != [] {
      assert (a + b)[1..] == a[1..] + b;
      FirstWithTagAppend(a[1..], b, tag);
    } else {
      assert a + b == b;
    }
  }

  /** The search returns exactly the first chunk with the tag in pre-order, and None iff no chunk has it. */
  lemma {:induction false} FindIsPreorderSearch(cs: seq<Chunk>, tag: string)
    ensures FindChunkRecursive(cs, tag) == FirstWithTag(Preorder(cs), tag)
    decreases cs
  {
    if cs != [] {
      var c := cs[0];
      FirstWithTagAppend([c] + Preorder(c.children), Preorder(cs[1..]), tag);
      FirstWithTagAppend([c], Preorder(c.children), tag);
      FindIsPreorderSearch(c.children, tag);
      FindIsPreorderSearch(cs[1..], tag);
      assert Preorder([]) == [];
    }
  }

  /** FirstWithTag finds a chunk iff some chunk in the sequence has the tag. */
  lemma {:induction false} FirstWithTagExists(s: seq<Chunk>, tag: string)
    ensures FirstWithTag(s, tag).Some? <==> exists k :: 0 <= k < |s| && s[k].tag == tag
  {
    if s != [] {
      FirstWithTagExists(s[1..], tag);
      if FirstWithTag(s[1..], tag).Some? {
        var k :| 0 <= k < |s[1..]| && s[1..][k].tag == tag;
        assert s[k + 1].tag == tag;
      }
      if s[0].tag != tag && exists k :: 0 <= k < |s| && s[k].tag == tag {
        var k :| 0 <= k < |s| && s[k].tag == tag;
        assert s[1..][k - 1].tag == tag;
      }
    }
  }

  /**
   * A container's children are read from its own payload starting at 4, a
   * container of size < 4 has neither form type nor children, and a leaf
   * keeps its (clipped) payload and never has children.
   */
  lemma ChunkShape(buf: seq<byte>, off: nat)
    requires off + 8 <= |buf|
    ensures var c := ReadChunkF(buf, off).value;
            var data := Payload(buf, off, c.size);
            && c.tag == AsciiNode(buf[off..off + 4])
            && c.size == U32BE(buf, off + 4)
            && (c.data.None? <==> IsContainerTag(c.tag))
            && (!IsContainerTag(c.tag) ==> c.data == Some(data) && c.children == [] && c.formType.None?)
            && (IsContainerTag(c.tag) && c.size >= 4 ==>
                  c.formType == Some(AsciiNode(Slice(data, 0, 4))) && c.children == ChildrenF(data, 4))
            && (IsContainerTag(c.tag) && c.size < 4 ==> c.formType.None? && c.children == [])
  {
  }

  /**
   * The children loop's guard needs more than 8 payload bytes at the cursor:
   * a child header that ends exactly at the payload end is complete, yet it
   * is not read.
   */
  lemma TrailingEmptyChildSkipped(data: seq<byte>, co: nat)
    requires co + 8 == |data|
    ensures ReadChunkF(data, co).Some?
    ensures ChildrenF(data, co) == []
  {
  }

  /** Every chunk the children loop returns lies inside the payload: its header starts before `|data| - 8`. */
  lemma {:induction false} ChildrenCount(data: seq<byte>, co: nat)
    ensures |ChildrenF(data, co)| * 8 <= Max(0, |data| - co)
    decreases |data| - co
  {
    if co < |data| - 8 {
      match ReadChunkF(data, co)
      case None =>
      case Some(c) =>
        ChildrenCount(data, co + c.totalSize);
    }
  }

  // -- writing leaf chunks, and reading them back

  /** A leaf chunk as a writer emits it: a 4-character non-container ASCII tag and a payload of the declared size. */
  predicate Leaf(c: Chunk)
  {
    && |c.tag| == 4 && IsAscii(c.tag) && !IsContainerTag(c.tag)
    && c.data.Some? && c.size == |c.data.value| && c.size < TWO_32
    && c.formType.None? && c.children == [] && c.totalSize == 8 + c.size + c.size % 2
  }

  function EncodeLeaf(c: Chunk): (r: seq<byte>)
    requires Leaf(c)
    ensures |r| == c.totalSize
  {
    AsciiBytes(c.tag) + EncodeU32BE(c.size) + c.data.value + (if c.size % 2 == 1 then [0] else [])
  }

  function EncodeLeaves(cs: seq<Chunk>): seq<byte>
    requires forall k :: 0 <= k < |cs| ==> Leaf(cs[k])
  {
    if cs == [] then [] else EncodeLeaf(cs[0]) + EncodeLeaves(cs[1..])
  }

  /** A leaf chunk written at `off`, header and padding included, is read back exactly. */
  lemma LeafAt(buf: seq<byte>, off: nat, c: Chunk)
    requires Leaf(c) && off + c.totalSize <= |buf| && buf[off..off + c.totalSize] == EncodeLeaf(c)
    ensures ReadChunkF(buf, off) == Some(c)
  {
    LeafFields(buf, off, c);
    LeafMade(c);
    var r := ReadChunkF(buf, off).value;
    assert r == MakeChunk(c.tag, c.size, c.data.value);
  }

  /** The header and payload fields of a leaf written at `off`. */
  lemma LeafFields(buf: seq<byte>, off: nat, c: Chunk)
    requires Leaf(c) && off + c.totalSize <= |buf| && buf[off..off + c.totalSize] == EncodeLeaf(c)
    ensures AsciiNode(buf[off..off + 4]) == c.tag && U32BE(buf, off + 4) == c.size
    ensures Payload(buf, off, c.size) == c.data.value
  {
    var a, w, d := AsciiBytes(c.tag), EncodeU32BE(c.size), c.data.value;
    var pad: seq<byte> := if c.size % 2 == 1 then [0] else [];
    HeldParts(buf, off, a, w, d, pad);
    AsciiRoundTrip(c.tag);
    assert U32BE(buf, off + 4) == c.size by {
      U32BERoundTrip(c.size, [], []);
      assert [] + w + [] == w;
    }
  }

  /** Three parts written one after the other at `off` sit at their own offsets. */
  lemma HeldParts(buf: seq<byte>, off: nat, a: seq<byte>, w: seq<byte>, d: seq<byte>, pad: seq<byte>)
    requires off + |a + w + d + pad| <= |buf| && buf[off..off + |a + w + d + pad|] == a + w + d + pad
    ensures buf[off..off + |a|] == a && buf[off + |a|..off + |a| + |w|] == w
    ensures buf[off + |a| + |w|..off + |a| + |w| + |d|] == d
  {
    var e := a + w + d + pad;
    SliceOfSlice(buf, off, off + |e|, 0, |a|);
    SliceOfSlice(buf, off, off + |e|, |a|, |a| + |w|);
    SliceOfSlice(buf, off, off + |e|, |a| + |w|, |a| + |w| + |d|);
    assert e[..|a|] == a && e[|a|..|a| + |w|] == w && e[|a| + |w|..|a| + |w| + |d|] == d;
  }

  /** A leaf is what `readChunk` builds from its own tag, size and payload. */
  lemma LeafMade(c: Chunk)
    requires Leaf(c)
    ensures MakeChunk(c.tag, c.size, c.data.value) == c
  {
  }

  lemma ParseFStep(buf: seq<byte>, off: nat, next: nat, c: Chunk, rest: seq<Chunk>)
    requires off < |buf| && ReadChunkF(buf, off) == Some(c)
    requires next == off + c.totalSize && ParseF(buf, next) == rest
    ensures ParseF(buf, off) == [c] + rest
  {
  }

  lemma ParseFStops(buf: seq<byte>, off: nat)
    requires ReadChunkF(buf, off).None?
    ensures ParseF(buf, off) == []
  {
  }

  lemma ParseFAtEnd(buf: seq<byte>, off: nat)
    requires off >= |buf|
    ensures ParseF(buf, off) == []
  {
  }

  /** A leaf held at `off`, followed by bytes that parse to `tail`, parses to the leaf and then `tail`. */
  lemma {:induction false} LeafThenRest(buf: seq<byte>, off: nat, next: nat, c: Chunk, tail: seq<Chunk>)
    requires Leaf(c) && next == off + c.totalSize <= |buf| && buf[off..next] == EncodeLeaf(c)
    requires ParseF(buf, next) == tail
    ensures ParseF(buf, off) == [c] + tail
  {
    LeafAt(buf, off, c);
    ParseFStep(buf, off, next, c, tail);
  }

  /** Parsing the even-padded encoding of leaf chunks gives back exactly those chunks, in order. */
  lemma {:induction false} ParseLeavesRoundTrip(pre: seq<byte>, cs: seq<Chunk>)
    requires forall k :: 0 <= k < |cs| ==> Leaf(cs[k])
    ensures ParseF(pre + EncodeLeaves(cs), |pre|) == cs
    decreases |cs|
  {
    if cs != [] {
      var c, tail := cs[0], cs[1..];
      var rest := EncodeLeaves(tail);
      var pre' := pre + EncodeLeaf(c);
      var buf := pre' + rest;
      assert pre + EncodeLeaves(cs) == buf;
      ParseLeavesRoundTrip(pre', tail);
      assert buf[|pre|..|pre'|] == EncodeLeaf(c);
      LeafThenRest(buf, |pre|, |pre'|, c, tail);
      assert [c] + tail == cs;
    } else {
      assert pre + EncodeLeaves(cs) == pre;
      ParseFAtEnd(pre, |pre|);
    }
  }
}
