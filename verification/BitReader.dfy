/** The bit reader of utils/get_bits.h and the Exp-Golomb readers of utils/golomb.h.
    A reader holds the bits not read yet; past the end it reads zeros (the padding). */
module BitReader {
  import opened Basics

  function Pow2(n: nat): (r: nat)
    ensures r >= 1
  {
    if n == 0 then 1 else 2 * Pow2(n - 1)
  }

  function Bit(b: bool): nat { if b then 1 else 0 }

  function ReadBit(s: seq<bool>): (bool, seq<bool>) {
    if s == [] then (false, []) else (s[0], s[1..])
  }

  /** The next n bits, most significant first. */
  function ReadBits(s: seq<bool>, n: nat): (r: (nat, seq<bool>))
    ensures r.0 < Pow2(n)
  {
    if n == 0 then (0, s)
    else
      var (b, s1) := ReadBit(s);
      var (v, s2) := ReadBits(s1, n - 1);
      (Bit(b) * Pow2(n - 1) + v, s2)
  }

  function Skip(s: seq<bool>, n: nat): seq<bool> {
    if n <= |s| then s[n..] else []
  }

  /** The place of the first one; the length when there is none. */
  function FirstOne(s: seq<bool>): (r: nat)
    ensures r <= |s|
  {
    if s == [] || s[0] then 0 else 1 + FirstOne(s[1..])
  }

  /** 31 - av_log2 of the next 32 bits: the zeros before the first one, at most 31. */
  function LeadingZeros(s: seq<bool>): (r: nat)
    ensures r <= 31
  {
    var k := FirstOne(s);
    if k < |s| && k < 31 then k else 31
  }

  /** ue(v): lz zeros, then lz + 1 bits, minus one in 32-bit arithmetic. */
  function ReadUe(s: seq<bool>): (r: (nat, seq<bool>))
    ensures r.0 < WORD
  {
    var lz := LeadingZeros(s);
    var (v, rest) := ReadBits(Skip(s, lz), lz + 1);
    ((v + WORD - 1) % WORD, rest)
  }

  /** The signed mapping 1, -1, 2, -2, ... of H.265 section 9.2.2. */
  function SeOfUe(k: nat): int {
    if k % 2 == 1 then (k + 1) / 2 else -(k / 2)
  }

  function ReadSe(s: seq<bool>): (int, seq<bool>) {
    var (k, rest) := ReadUe(s);
    (SeOfUe(k), rest)
  }

  // ----- the matching writer -----

  function WriteBits(v: nat, n: nat): (r: seq<bool>)
    requires v < Pow2(n)
    ensures |r| == n
  {
    if n == 0 then []
    else if v >= Pow2(n - 1) then [true] + WriteBits(v - Pow2(n - 1), n - 1)
    else [false] + WriteBits(v, n - 1)
  }

  /** The number of bits after the leading one of v. */
  function Log2(v: nat): (r: nat)
    requires v >= 1
    ensures Pow2(r) <= v < Pow2(r + 1)
  {
    if v == 1 then 0 else 1 + Log2(v / 2)
  }

  function WriteUe(v: nat): seq<bool> {
    Repeat(false, Log2(v + 1)) + WriteBits(v + 1, Log2(v + 1) + 1)
  }

  function UeOfSe(v: int): nat {
    if v > 0 then 2 * v - 1 else -2 * v
  }

  function WriteSe(v: int): seq<bool> { WriteUe(UeOfSe(v)) }

  // ----- the reader undoes the writer -----

  lemma {:induction false} BitsRoundTrip(v: nat, n: nat, rest: seq<bool>)
    requires v < Pow2(n)
    ensures ReadBits(WriteBits(v, n) + rest, n) == (v, rest)
  {
    if n == 0 {
      assert WriteBits(v, n) + rest == rest;
    } else {
      var top := v >= Pow2(n - 1);
      var low := if top then v - Pow2(n - 1) else v;
      BitsRoundTrip(low, n - 1, rest);
      assert WriteBits(v, n) == [top] + WriteBits(low, n - 1);
      assert ([top] + WriteBits(low, n - 1) + rest)[1..] == WriteBits(low, n - 1) + rest;
    }
  }

  /** Behind the end there are zeros: appending them changes nothing that is read. */
  lemma {:induction false} ZerosBehind(s: seq<bool>, n: nat, k: nat)
    ensures ReadBits(s + Repeat(false, k), n).0 == ReadBits(s, n).0
    decreases n
  {
    if n > 0 {
      var t := s + Repeat(false, k);
      if s != [] {
        assert t[1..] == s[1..] + Repeat(false, k);
        ZerosBehind(s[1..], n - 1, k);
      } else if k > 0 {
        assert t[1..] == [] + Repeat(false, k - 1);
        ZerosBehind([], n - 1, k - 1);
      } else {
        assert t == [];
      }
    }
  }

  lemma {:induction false} FirstOneAfterZeros(n: nat, s: seq<bool>)
    requires s != [] && s[0]
    ensures FirstOne(Repeat(false, n) + s) == n
  {
    if n == 0 {
      assert Repeat(false, n) + s == s;
    } else {
      FirstOneAfterZeros(n - 1, s);
      assert (Repeat(false, n) + s)[1..] == Repeat(false, n - 1) + s;
    }
  }

  lemma {:induction false} Pow2Monotone(a: nat, b: nat)
    requires a <= b
    ensures Pow2(a) <= Pow2(b)
    decreases b
  {
    if a < b { Pow2Monotone(a, b - 1); }
  }

  lemma Pow2Of32()
    ensures Pow2(32) == WORD
  {
    assert Pow2(8) == 0x100;
    assert Pow2(16) == 0x1_0000;
    assert Pow2(24) == 0x100_0000;
  }

  lemma LeadingBit(v: nat, n: nat)
    requires Pow2(n) <= v < Pow2(n + 1)
    ensures WriteBits(v, n + 1)[0]
  {
  }

  /** Every value in the range the reader documents, 0 to UINT_MAX - 1. */
  lemma UeRoundTrip(v: nat, rest: seq<bool>)
    requires v < WORD - 1
    ensures ReadUe(WriteUe(v) + rest) == (v, rest)
  {
    hide Log2, Pow2;
    var n := Log2(v + 1);
    if n >= 32 { Pow2Of32(); Pow2Monotone(32, n); assert false; }
    LeadingBit(v + 1, n);
    var body := WriteBits(v + 1, n + 1);
    FirstOneAfterZeros(n, body + rest);
    assert WriteUe(v) + rest == Repeat(false, n) + (body + rest);
    assert Skip(Repeat(false, n) + (body + rest), n) == body + rest;
    BitsRoundTrip(v + 1, n + 1, rest);
  }

  lemma SeRoundTrip(v: int, rest: seq<bool>)
    requires -0x7fff_ffff <= v <= 0x7fff_ffff
    ensures ReadSe(WriteSe(v) + rest) == (v, rest)
  {
    hide ReadUe, WriteUe;
    UeRoundTrip(UeOfSe(v), rest);
  }

  /** struct get_bits_context. */
  class GetBits {
    var rest: seq<bool>

    constructor (bits: seq<bool>)
      ensures rest == bits
    {
      rest := bits;
    }

    method GetBits1() returns (b: bool)
      modifies this
      ensures (b, rest) == ReadBit(old(rest))
    {
      var r := ReadBit(rest);
      b, rest := r.0, r.1;
    }

    method GetUeGolombLong() returns (v: nat)
      modifies this
      ensures (v, rest) == ReadUe(old(rest))
      ensures v < WORD
    {
      var r := ReadUe(rest);
      v, rest := r.0, r.1;
    }

    method GetSeGolomb() returns (v: int)
      modifies this
      ensures (v, rest) == ReadSe(old(rest))
    {
      var r := ReadSe(rest);
      v, rest := r.0, r.1;
    }
  }
}
