/** Byte-level codecs of kernel/ext4.c: big- and little-endian fields stored in and
    fetched from a block buffer. A buffer is a sequence of bytes. */
module Bytes {
  type Byte = b: int | 0 <= b < 256

  const WORD: nat := 0x1_0000_0000

  /** The digits of `v` in base 256, least significant first. */
  function Digits32(v: nat): (s: seq<Byte>)
    ensures |s| == 4
    ensures Word(s[3], s[2], s[1], s[0]) == v % WORD
  {
    var v1 := v / 256;
    var v2 := v1 / 256;
    var v3 := v2 / 256;
    assert v == v3 / 256 * WORD + Word(v3 % 256, v2 % 256, v1 % 256, v % 256);
    [v % 256, v1 % 256, v2 % 256, v3 % 256]
  }

  /** A 32-bit value from its bytes, most significant first. */
  function Word(a: int, b: int, c: int, d: int): int {
    a * 0x100_0000 + b * 0x1_0000 + c * 0x100 + d
  }

  /** The four bytes `wr_be32` stores. The C argument is a `uint32_t`, hence the wrap. */
  function Be32(v: nat): (s: seq<Byte>)
    ensures |s| == 4
  {
    var d := Digits32(v);
    [d[3], d[2], d[1], d[0]]
  }

  function Be16(v: nat): (s: seq<Byte>)
    ensures |s| == 2
  {
    [v / 256 % 256, v % 256]
  }

  function Le32(v: nat): (s: seq<Byte>)
    ensures |s| == 4
  {
    Digits32(v)
  }

  function Le16(v: nat): (s: seq<Byte>)
    ensures |s| == 2
  {
    [v % 256, v / 256 % 256]
  }

  function RdBe32(b: seq<Byte>, off: nat): (v: nat)
    requires off + 4 <= |b|
    ensures v < WORD
  {
    Word(b[off], b[off + 1], b[off + 2], b[off + 3])
  }

  function RdBe16(b: seq<Byte>, off: nat): (v: nat)
    requires off + 2 <= |b|
    ensures v < 0x1_0000
  {
    Word(0, 0, b[off], b[off + 1])
  }

  function RdLe32(b: seq<Byte>, off: nat): (v: nat)
    requires off + 4 <= |b|
    ensures v < WORD
  {
    Word(b[off + 3], b[off + 2], b[off + 1], b[off])
  }

  function RdLe16(b: seq<Byte>, off: nat): (v: nat)
    requires off + 2 <= |b|
    ensures v < 0x1_0000
  {
    Word(0, 0, b[off + 1], b[off])
  }

  /** `memcpy(b + off, s, |s|)`. */
  function Splice(b: seq<Byte>, off: nat, s: seq<Byte>): (r: seq<Byte>)
    requires off + |s| <= |b|
    ensures |r| == |b|
    ensures forall i :: 0 <= i < |b| ==> r[i] == if off <= i < off + |s| then s[i - off] else b[i]
  {
    b[..off] + s + b[off + |s|..]
  }

  function Zeros(n: nat): (r: seq<Byte>)
    ensures |r| == n
    ensures forall i :: 0 <= i < n ==> r[i] == 0
  {
    seq(n, _ => 0)
  }

  /** A buffer of `n` bytes that starts with `s` and is zero from there on. */
  function Pad(n: nat, s: seq<Byte>): (r: seq<Byte>)
    requires |s| <= n
    ensures |r| == n
    ensures r[..|s|] == s
  {
    s + Zeros(n - |s|)
  }

  lemma Be32RoundTrip(b: seq<Byte>, off: nat, v: nat)
    requires off + 4 <= |b| && b[off..off + 4] == Be32(v)
    ensures RdBe32(b, off) == v % WORD
  {
    var s := b[off..off + 4];
    assert b[off] == s[0] && b[off + 1] == s[1] && b[off + 2] == s[2] && b[off + 3] == s[3];
  }

  lemma Be16RoundTrip(b: seq<Byte>, off: nat, v: nat)
    requires off + 2 <= |b| && b[off..off + 2] == Be16(v)
    ensures RdBe16(b, off) == v % 0x1_0000
  {
    var s := b[off..off + 2];
    assert b[off] == s[0] && b[off + 1] == s[1];
  }

  lemma Le32RoundTrip(b: seq<Byte>, off: nat, v: nat)
    requires off + 4 <= |b| && b[off..off + 4] == Le32(v)
    ensures RdLe32(b, off) == v % WORD
  {
    var s := b[off..off + 4];
    assert b[off] == s[0] && b[off + 1] == s[1] && b[off + 2] == s[2] && b[off + 3] == s[3];
  }

  lemma Le16RoundTrip(b: seq<Byte>, off: nat, v: nat)
    requires off + 2 <= |b| && b[off..off + 2] == Le16(v)
    ensures RdLe16(b, off) == v % 0x1_0000
  {
    var s := b[off..off + 2];
    assert b[off] == s[0] && b[off + 1] == s[1];
  }

  /** Storing at the end of the used part of a zeroed buffer extends the used part. */
  lemma SplicePad(n: nat, s: seq<Byte>, x: seq<Byte>)
    requires |s| + |x| <= n
    ensures Splice(Pad(n, s), |s|, x) == Pad(n, s + x)
  {
  }
}
