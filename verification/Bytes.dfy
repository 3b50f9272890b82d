/** Bytes and the 16-byte AMLV header that the VP9 and AV1 paths put in front of each frame. */
module Bytes {
  import opened Basics

  type Byte = x: int | 0 <= x < 256

  /** The four bytes of a u32, most significant first. */
  function Be4(v: nat): (r: seq<Byte>)
    requires v < WORD
    ensures |r| == 4
  {
    [v / 0x100_0000 % 256, v / 0x1_0000 % 256, v / 0x100 % 256, v % 256]
  }

  function FromBe4(s: seq<Byte>): nat
    requires |s| == 4
  {
    0x100_0000 * (s[0] as int) + 0x1_0000 * (s[1] as int) + 0x100 * (s[2] as int) + s[3]
  }

  lemma Be4RoundTrip(v: nat)
    requires v < WORD
    ensures FromBe4(Be4(v)) == v
  {
  }

  function Flipped(s: seq<Byte>): (r: seq<Byte>)
    ensures |r| == |s|
  {
    seq(|s|, i requires 0 <= i < |s| => 255 - s[i])
  }

  const MAGIC: seq<Byte> := [0, 0, 0, 1, 65, 77, 76, 86]

  const PREFIX_SIZE: nat := 16

  /** A size, its complement, 1, and "AMLV". */
  function AmlvHeader(size: nat): (r: seq<Byte>)
    requires size < WORD
    ensures |r| == PREFIX_SIZE
  {
    Be4(size) + Flipped(Be4(size)) + MAGIC
  }

  /** The header byte by byte: the size most significant byte first, each of its bytes inverted, 00 00 00 01 and
      "AMLV". */
  lemma HeaderBytes(size: nat)
    requires size < WORD
    ensures var h := AmlvHeader(size);
            && size == 0x100_0000 * (h[0] as int) + 0x1_0000 * (h[1] as int) + 0x100 * (h[2] as int) + h[3]
            && h[4] == 255 - h[0] && h[5] == 255 - h[1] && h[6] == 255 - h[2] && h[7] == 255 - h[3]
            && h[8..] == [0, 0, 0, 1, 0x41, 0x4D, 0x4C, 0x56]
    ensures AmlvHeader(size)[12..16] == [0x41, 0x4D, 0x4C, 0x56]
  {
    Be4RoundTrip(size);
    var h, b := AmlvHeader(size), Be4(size);
    assert h[..4] == b && h[4..8] == Flipped(b) && h[8..] == MAGIC;
    hide Be4, AmlvHeader;
    assert h[0] == b[0] && h[1] == b[1] && h[2] == b[2] && h[3] == b[3];
    assert h[4] == h[4..8][0] && h[5] == h[4..8][1] && h[6] == h[4..8][2] && h[7] == h[4..8][3];
    assert h[12..16] == MAGIC[4..];
  }

  /** A receiver's check of the redundant part. */
  predicate HeaderOk(s: seq<Byte>)
    requires |s| >= PREFIX_SIZE
  {
    s[4..8] == Flipped(s[..4]) && s[8..16] == MAGIC
  }

  /** It accepts exactly the headers that are written. */
  lemma HeaderIsChecked(s: seq<Byte>)
    requires |s| >= PREFIX_SIZE
    ensures FromBe4(s[..4]) < WORD
    ensures HeaderOk(s) <==> s[..PREFIX_SIZE] == AmlvHeader(FromBe4(s[..4]))
  {
    var v := FromBe4(s[..4]);
    FromBe4Fits(s[..4]);
    hide Be4, FromBe4, Flipped, MAGIC;
    var h := AmlvHeader(v);
    assert h[..4] == s[..4] && h[4..8] == Flipped(s[..4]) && h[8..16] == MAGIC;
    assert h == h[..4] + h[4..8] + h[8..16];
    assert s[..16] == s[..4] + s[4..8] + s[8..16];
    if s[..16] == h { assert s[4..8] == s[..16][4..8] && s[8..16] == s[..16][8..16]; }
  }

  lemma FromBe4Fits(s: seq<Byte>)
    requires |s| == 4
    ensures FromBe4(s) < WORD && Be4(FromBe4(s)) == s
  {
    var v := FromBe4(s);
    assert v / 0x100 == 0x1_0000 * (s[0] as int) + 0x100 * (s[1] as int) + s[2];
    assert v / 0x1_0000 == 0x100 * (s[0] as int) + s[1] && v / 0x100_0000 == s[0];
  }

  lemma AmlvRoundTrip(size: nat, rest: seq<Byte>)
    requires size < WORD
    ensures HeaderOk(AmlvHeader(size) + rest) && FromBe4((AmlvHeader(size) + rest)[..4]) == size
  {
    var h, s := AmlvHeader(size), AmlvHeader(size) + rest;
    Be4RoundTrip(size);
    hide Be4, FromBe4, Flipped;
    assert s[..4] == h[..4] == Be4(size);
    assert s[4..8] == h[4..8] == Flipped(Be4(size));
    assert s[8..16] == h[8..16] == MAGIC;
  }
}
