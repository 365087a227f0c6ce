/**
 * Byte buffers and the fixed-width integer reads the asset decoders perform
 * on them: big- and little-endian unsigned 32-bit words, signed 32-bit and
 * 16-bit words, clipped slices, and the two ASCII text decodings that occur
 * in the repository (Node's, which clears the high bit of every byte, and
 * Python's `errors='ignore'`, which drops every byte above 127).
 */
module Bytes {
  newtype byte = x: int | 0 <= x < 256

  const TWO_8: nat := 0x100
  const TWO_16: nat := 0x1_0000
  const TWO_24: nat := 0x100_0000
  const TWO_32: nat := 0x1_0000_0000

  /** Unsigned 32-bit big-endian word at `s[i..i+4]` (Node `readUInt32BE`, Python `struct '>I'`). */
  function U32BE(s: seq<byte>, i: nat): (r: nat)
    requires i + 4 <= |s|
    ensures r < TWO_32
  {
    (s[i] as nat) * TWO_24 + (s[i + 1] as nat) * TWO_16 + (s[i + 2] as nat) * TWO_8 + (s[i + 3] as nat)
  }

  /** Unsigned 32-bit little-endian word at `s[i..i+4]` (Node `readUInt32LE`, Python `struct '<I'`). */
  function U32LE(s: seq<byte>, i: nat): (r: nat)
    requires i + 4 <= |s|
    ensures r < TWO_32
  {
    (s[i + 3] as nat) * TWO_24 + (s[i + 2] as nat) * TWO_16 + (s[i + 1] as nat) * TWO_8 + (s[i] as nat)
  }

  /** Two's-complement reinterpretation of an unsigned 32-bit value. */
  function Signed32(u: nat): (r: int)
    requires u < TWO_32
    ensures -0x8000_0000 <= r < 0x8000_0000
    ensures (r - u) % TWO_32 == 0
  {
    if u < 0x8000_0000 then u else u - TWO_32
  }

  /** Signed 32-bit big-endian word (`DataView.getInt32(o, false)`). */
  function I32BE(s: seq<byte>, i: nat): int
    requires i + 4 <= |s|
  {
    Signed32(U32BE(s, i))
  }

  /** The two's-complement big-endian bytes of a signed 32-bit value. */
  function EncodeI32BE(v: int): (r: seq<byte>)
    requires -0x8000_0000 <= v < 0x8000_0000
    ensures |r| == 4
  {
    EncodeU32BE(if v < 0 then v + TWO_32 else v)
  }

  /** A signed big-endian read gives back what `EncodeI32BE` wrote. */
  lemma I32BERoundTrip(v: int, pre: seq<byte>, post: seq<byte>)
    requires -0x8000_0000 <= v < 0x8000_0000
    ensures (pre + EncodeI32BE(v) + post)[|pre|..|pre| + 4] == EncodeI32BE(v)
    ensures I32BE(pre + EncodeI32BE(v) + post, |pre|) == v
  {
    U32BERoundTrip(if v < 0 then v + TWO_32 else v, pre, post);
  }

  /** Signed 32-bit little-endian word (Node `readInt32LE`). */
  function I32LE(s: seq<byte>, i: nat): int
    requires i + 4 <= |s|
  {
    Signed32(U32LE(s, i))
  }

  /** Signed 16-bit little-endian word (Node `readInt16LE`). */
  function I16LE(s: seq<byte>, i: nat): (r: int)
    requires i + 2 <= |s|
    ensures -0x8000 <= r < 0x8000
  {
    var u := (s[i + 1] as nat) * TWO_8 + (s[i] as nat);
    if u < 0x8000 then u else u - TWO_16
  }

  /** The two bytes of a signed 16-bit value in two's complement, least significant first. */
  function EncodeI16LE(v: int): (r: seq<byte>)
    requires -0x8000 <= v < 0x8000
    ensures |r| == 2
  {
    var u := if v < 0 then v + TWO_16 else v;
    [(u % TWO_8) as byte, (u / TWO_8) as byte]
  }

  /** Reading back a signed 16-bit word that was written little-endian gives the original value. */
  lemma I16LERoundTrip(v: int, pre: seq<byte>, post: seq<byte>)
    requires -0x8000 <= v < 0x8000
    ensures I16LE(pre + EncodeI16LE(v) + post, |pre|) == v
  {
    var s := pre + EncodeI16LE(v) + post;
    assert s[|pre|..|pre| + 2] == EncodeI16LE(v);
  }

  /** The four bytes of `n` most significant first: what a big-endian writer emits. */
  function EncodeU32BE(n: nat): (r: seq<byte>)
    requires n < TWO_32
    ensures |r| == 4
  {
    [(n / TWO_24) as byte, (n / TWO_16 % TWO_8) as byte, (n / TWO_8 % TWO_8) as byte, (n % TWO_8) as byte]
  }

  /** The four bytes of `n` least significant first: what a little-endian writer emits. */
  function EncodeU32LE(n: nat): (r: seq<byte>)
    requires n < TWO_32
    ensures |r| == 4
  {
    [(n % TWO_8) as byte, (n / TWO_8 % TWO_8) as byte, (n / TWO_16 % TWO_8) as byte, (n / TWO_24) as byte]
  }

  /** Words written one after another, each little-endian. */
  function EncodeWordsLE(ws: seq<nat>): (r: seq<byte>)
    requires forall k :: 0 <= k < |ws| ==> ws[k] < TWO_32
    ensures |r| == 4 * |ws|
  {
    if ws == [] then [] else EncodeU32LE(ws[0]) + EncodeWordsLE(ws[1..])
  }

  lemma DigitsOf(n: nat)
    requires n < TWO_32
    ensures n == (n / TWO_24) * TWO_24 + (n / TWO_16 % TWO_8) * TWO_16 + (n / TWO_8 % TWO_8) * TWO_8 + n % TWO_8
    ensures n / TWO_24 < TWO_8
  {
    var a, b, c, d := n / TWO_24, n / TWO_16 % TWO_8, n / TWO_8 % TWO_8, n % TWO_8;
    assert n / TWO_16 == a * TWO_8 + b;
    assert n / TWO_8 == (n / TWO_16) * TWO_8 + c;
    assert n == (n / TWO_8) * TWO_8 + d;
  }

  /** Reading back a big-endian word that was written big-endian gives the original value. */
  lemma U32BERoundTrip(n: nat, pre: seq<byte>, post: seq<byte>)
    requires n < TWO_32
    ensures U32BE(pre + EncodeU32BE(n) + post, |pre|) == n
  {
    DigitsOf(n);
    var s := pre + EncodeU32BE(n) + post;
    assert s[|pre|..|pre| + 4] == EncodeU32BE(n);
  }

  /** Reading back a little-endian word that was written little-endian gives the original value. */
  lemma U32LERoundTrip(n: nat, pre: seq<byte>, post: seq<byte>)
    requires n < TWO_32
    ensures U32LE(pre + EncodeU32LE(n) + post, |pre|) == n
  {
    DigitsOf(n);
    var s := pre + EncodeU32LE(n) + post;
    assert s[|pre|..|pre| + 4] == EncodeU32LE(n);
  }

  /** A word read from a slice is the word at the same place in the whole. */
  lemma U32LEOfSlice(a: seq<byte>, from: nat, to: nat, i: nat)
    requires from <= to <= |a| && i + 4 <= to - from
    ensures U32LE(a[from..to], i) == U32LE(a, from + i)
  {
    var s := a[from..to];
    assert s[i] == a[from + i] && s[i + 1] == a[from + i + 1] && s[i + 2] == a[from + i + 2] && s[i + 3] == a[from + i + 3];
  }

  /** Word `k` of a run of little-endian words reads back as written. */
  lemma {:induction false} WordsLEAt(pre: seq<byte>, ws: seq<nat>, post: seq<byte>, k: nat)
    requires forall j :: 0 <= j < |ws| ==> ws[j] < TWO_32
    requires k < |ws|
    ensures U32LE(pre + EncodeWordsLE(ws) + post, |pre| + 4 * k) == ws[k]
    decreases k
  {
    if k == 0 {
      assert pre + EncodeWordsLE(ws) + post == pre + EncodeU32LE(ws[0]) + (EncodeWordsLE(ws[1..]) + post);
      U32LERoundTrip(ws[0], pre, EncodeWordsLE(ws[1..]) + post);
    } else {
      assert pre + EncodeWordsLE(ws) + post == (pre + EncodeU32LE(ws[0])) + EncodeWordsLE(ws[1..]) + post;
      WordsLEAt(pre + EncodeU32LE(ws[0]), ws[1..], post, k - 1);
    }
  }

  /** The two byte orders read the same four bytes in reverse order. */
  lemma BEIsReversedLE(s: seq<byte>, i: nat)
    requires i + 4 <= |s|
    ensures U32BE(s, i) == U32LE([s[i + 3], s[i + 2], s[i + 1], s[i]], 0)
  {
  }

  function Min(a: int, b: int): int { if a < b then a else b }
  function Max(a: int, b: int): int { if a < b then b else a }

  /**
   * `buf.slice(from, to)` / Python `buf[from:to]` for non-negative bounds:
   * both bounds are clipped to the buffer and an inverted range is empty.
   */
  function Slice(s: seq<byte>, from: nat, to: nat): (r: seq<byte>)
    ensures |r| == Max(0, Min(to, |s|) - Min(from, |s|))
    ensures from <= to <= |s| ==> r == s[from..to]
    ensures forall k :: 0 <= k < |r| ==> from + k < |s| && r[k] == s[from + k]
  {
    var lo := Min(from, |s|);
    var hi := Max(lo, Min(to, |s|));
    s[lo..hi]
  }

  /** Node's ASCII decoding: every byte becomes one character with its high bit cleared. */
  function AsciiNode(s: seq<byte>): (r: string)
    ensures |r| == |s|
    ensures forall k :: 0 <= k < |s| ==> r[k] as int == s[k] as int % 128
  {
    if s == [] then [] else [((s[0] as int) % 128) as char] + AsciiNode(s[1..])
  }

  /** `len` bytes from `start`, high bits cleared, clipped at the end of the buffer. */
  function AsciiAt(buf: seq<byte>, start: nat, len: nat): string
    decreases len
  {
    if len == 0 || start >= |buf| then "" else [(buf[start] as int % 128) as char] + AsciiAt(buf, start + 1, len - 1)
  }

  /** `AsciiAt` is Node's `toString('ascii', start, start + len)`. */
  lemma {:induction false} AsciiAtDecodes(buf: seq<byte>, start: nat, len: nat)
    ensures AsciiAt(buf, start, len) == AsciiNode(Slice(buf, start, start + len))
    decreases len
  {
    if len == 0 || start >= |buf| {
      assert Slice(buf, start, start + len) == [];
    } else {
      AsciiAtDecodes(buf, start + 1, len - 1);
      var s := Slice(buf, start, start + len);
      assert s[0] == buf[start] && s[1..] == Slice(buf, start + 1, start + len);
    }
  }

  /** Node's ASCII decoding of exactly the four bytes of a tag at `s[i..i+4]`. */
  function Ascii4(s: seq<byte>, i: nat): string
    requires i + 4 <= |s|
  {
    [(s[i] as int % 128) as char, (s[i + 1] as int % 128) as char, (s[i + 2] as int % 128) as char, (s[i + 3] as int % 128) as char]
  }

  lemma Ascii4IsAsciiNode(s: seq<byte>, i: nat)
    requires i + 4 <= |s|
    ensures Ascii4(s, i) == AsciiNode(s[i..i + 4])
  {
  }

  /**
   * `buf.toString('ascii', i, i + 4) === t` for a four-letter `t`: a clipped
   * decoding is shorter than four letters, so the test needs four bytes.
   */
  predicate TagIs(s: seq<byte>, i: nat, t: string)
  {
    i + 4 <= |s| && Ascii4(s, i) == t
  }

  lemma TagIsDecoding(s: seq<byte>, i: nat, t: string)
    requires |t| == 4
    ensures TagIs(s, i, t) <==> AsciiNode(Slice(s, i, i + 4)) == t
  {
    if i + 4 <= |s| {
      Ascii4IsAsciiNode(s, i);
    }
  }

  /** Python's `decode('ascii', errors='ignore')`: bytes above 127 are dropped, the rest kept in order. */
  function AsciiIgnore(s: seq<byte>): (r: string)
    ensures |r| <= |s|
    ensures forall k :: 0 <= k < |r| ==> r[k] as int < 128
  {
    if s == [] then []
    else if s[0] as int < 128 then [(s[0] as int) as char] + AsciiIgnore(s[1..])
    else AsciiIgnore(s[1..])
  }

  /** The bytes of an ASCII string. */
  function AsciiBytes(t: string): (r: seq<byte>)
    requires forall k :: 0 <= k < |t| ==> t[k] as int < 128
    ensures |r| == |t|
  {
    if t == [] then [] else [(t[0] as int) as byte] + AsciiBytes(t[1..])
  }

  predicate IsAscii(t: string) { forall k :: 0 <= k < |t| ==> t[k] as int < 128 }

  /** Both ASCII decodings give back an ASCII string from its bytes. */
  lemma AsciiRoundTrip(t: string)
    requires IsAscii(t)
    ensures AsciiIgnore(AsciiBytes(t)) == t
    ensures AsciiNode(AsciiBytes(t)) == t
  {
    AsciiIgnoreRoundTrip(t);
    AsciiNodeRoundTrip(t);
  }

  lemma {:induction false} AsciiIgnoreRoundTrip(t: string)
    requires IsAscii(t)
    ensures AsciiIgnore(AsciiBytes(t)) == t
  {
    if t != [] {
      var b := AsciiBytes(t);
      assert b == [(t[0] as int) as byte] + AsciiBytes(t[1..]);
      assert b[1..] == AsciiBytes(t[1..]);
      AsciiIgnoreRoundTrip(t[1..]);
      assert AsciiIgnore(b) == [(t[0] as int) as char] + t[1..];
      assert t == [t[0]] + t[1..];
    }
  }

  lemma {:induction false} AsciiNodeRoundTrip(t: string)
    requires IsAscii(t)
    ensures AsciiNode(AsciiBytes(t)) == t
  {
    if t != [] {
      var b := AsciiBytes(t);
      assert b == [(t[0] as int) as byte] + AsciiBytes(t[1..]);
      assert b[1..] == AsciiBytes(t[1..]);
      AsciiNodeRoundTrip(t[1..]);
      assert (b[0] as int) % 128 == t[0] as int;
      assert AsciiNode(b) == [t[0]] + t[1..];
      assert t == [t[0]] + t[1..];
    }
  }

  /** Each byte of `AsciiBytes(t)` is the code of the matching character. */
  lemma {:induction false} AsciiBytesCodes(t: string)
    requires IsAscii(t)
    ensures forall k :: 0 <= k < |t| ==> AsciiBytes(t)[k] as int == t[k] as int
  {
    if t != [] {
      AsciiBytesCodes(t[1..]);
      assert forall k :: 1 <= k < |t| ==> AsciiBytes(t)[k] == AsciiBytes(t[1..])[k - 1];
    }
  }

  /** Decoding the bytes of an ASCII string where they were written gives the string back. */
  lemma AsciiAtBytes(pre: seq<byte>, t: string, post: seq<byte>)
    requires IsAscii(t)
    ensures AsciiAt(pre + AsciiBytes(t) + post, |pre|, |t|) == t
  {
    var buf := pre + AsciiBytes(t) + post;
    AsciiAtDecodes(buf, |pre|, |t|);
    assert Slice(buf, |pre|, |pre| + |t|) == AsciiBytes(t);
    AsciiRoundTrip(t);
  }

  /** On bytes below 128 the two decodings agree; above it they differ in length. */
  lemma {:induction false} AsciiDecodingsAgreeOn7Bit(s: seq<byte>)
    requires forall k :: 0 <= k < |s| ==> s[k] as int < 128
    ensures AsciiIgnore(s) == AsciiNode(s)
  {
    if s != [] {
      AsciiDecodingsAgreeOn7Bit(s[1..]);
    }
  }

  lemma {:induction false} AsciiIgnoreShorter(s: seq<byte>, k: nat)
    requires k < |s| && s[k] as int >= 128
    ensures |AsciiIgnore(s)| < |s|
  {
    if k > 0 {
      AsciiIgnoreShorter(s[1..], k - 1);
    }
  }
}
