/** The JPEG-LS branch of ff_mjpeg_find_marker (drivers/amvdec_ports/decoder/aml_mjpeg_parser.c):
    finding the end of the scan and removing the bit that ITU-T T.87 stuffs after each FF byte. */
module MjpegLs {
  import opened Basics
  import opened BitReader
  import opened Bytes
  import opened MjpegUnescape

  // ----- what the branch computes -----

  /** Lines 131-142: where the scan that starts at start ends, seen from p. A marker is a run of FFs and
      a byte with its top bit set; the end is put two bytes before the place behind that byte. */
  function ScanEnd(buf: seq<Byte>, start: nat, p: nat): (t: nat)
    requires start <= p <= |buf|
    ensures start <= t <= |buf|
    decreases |buf| - p
  {
    if p == |buf| then p
    else if buf[p] != FF then ScanEnd(buf, start, p + 1)
    else
      var q := p + Run(buf, p);
      if q == |buf| then (if q - start >= 2 then q - 2 else start)
      else if buf[q] >= 0x80 then q - 1
      else ScanEnd(buf, start, q + 1)
  }

  function Bits8(x: Byte): (r: seq<bool>)
    ensures |r| == 8
  {
    EightFit(x);
    WriteBits(x, 8)
  }

  /** The low seven bits, as put_bits(7) writes them after the top bit was cleared. */
  function Bits7(x: Byte): (r: seq<bool>)
    ensures |r| == 7
  {
    EightFit(x);
    WriteBits(x % 128, 7)
  }

  lemma EightFit(x: Byte)
    ensures x < Pow2(8) && x % 128 < Pow2(7)
  {
    assert Pow2(7) == 128;
  }

  /** Lines 147-159: eight bits a byte, but seven for the byte after an FF. */
  function Destuff(s: seq<Byte>): seq<bool> {
    if s == [] then []
    else if s[0] == FF && |s| > 1 then Bits8(FF) + Bits7(s[1]) + Destuff(s[2..])
    else Bits8(s[0]) + Destuff(s[1..])
  }

  /** How many bytes lost their stuffed bit. */
  function Pairs(s: seq<Byte>): (r: nat)
    ensures r <= |s|
  {
    if s == [] then 0
    else if s[0] == FF && |s| > 1 then 1 + Pairs(s[2..])
    else Pairs(s[1..])
  }

  lemma {:induction false} DestuffSize(s: seq<Byte>)
    ensures |Destuff(s)| == 8 * |s| - Pairs(s)
  {
    if s != [] {
      DestuffSize(s[1..]);
      if |s| > 1 { DestuffSize(s[2..]); }
    }
  }

  /** Zero bits up to the next byte boundary, as flush_put_bits writes them. */
  function Padded(bits: seq<bool>): (r: seq<bool>)
    ensures |r| == (|bits| + 7) / 8 * 8
    ensures bits <= r && forall i :: |bits| <= i < |r| ==> !r[i]
  {
    bits + Repeat(false, (|bits| + 7) / 8 * 8 - |bits|)
  }

  /** struct put_bits_context, by the bits written; capacity is the buffer size in bits. */
  class PutBits {
    var bits: seq<bool>
    const capacity: nat

    constructor (bytes: nat)
      ensures bits == [] && capacity == 8 * bytes
    {
      bits, capacity := [], 8 * bytes;
    }

    method Put(v: seq<bool>)
      requires |bits| + |v| <= capacity
      modifies this
      ensures bits == old(bits) + v
    {
      bits := bits + v;
    }

    method Flush()
      modifies this
      ensures bits == Padded(old(bits))
    {
      bits := Padded(bits);
    }
  }

  /** Lines 131-142. */
  method FindScanEnd(buf: seq<Byte>, start: nat) returns (end: nat)
    requires start <= |buf|
    ensures end == ScanEnd(buf, start, start)
  {
    var p := start;
    while p < |buf|
      invariant start <= p <= |buf|
      invariant ScanEnd(buf, start, start) == ScanEnd(buf, start, p)
    {
      var x := buf[p];
      ghost var p0 := p;
      p := p + 1;
      if x == FF {
        while p < |buf| && x == FF
          invariant p0 < p <= |buf| && x == buf[p - 1]
          invariant forall j :: p0 <= j < p - 1 ==> buf[j] == FF
        {
          x := buf[p];
          p := p + 1;
        }
        RunIs(buf, p0, if x == FF then p - p0 else p - 1 - p0);
        if x >= 0x80 {
          return p - if p - start < 2 then p - start else 2;
        }
      }
    }
    end := p;
  }

  lemma {:induction false} DestuffNext(s: seq<Byte>, b: nat)
    requires b < |s|
    ensures s[b] == FF && b + 1 < |s| ==>
              Destuff(s[b..]) == Bits8(FF) + Bits7(s[b + 1]) + Destuff(s[b + 2..])
              && Pairs(s[b..]) == 1 + Pairs(s[b + 2..])
    ensures !(s[b] == FF && b + 1 < |s|) ==>
              Destuff(s[b..]) == Bits8(s[b]) + Destuff(s[b + 1..]) && Pairs(s[b..]) == Pairs(s[b + 1..])
  {
    assert s[b..][1..] == s[b + 1..];
    if b + 1 < |s| { assert s[b..][2..] == s[b + 2..]; }
  }

  lemma DestuffEmpty()
    ensures Destuff([]) == [] && Pairs([]) == 0
  {
  }

  lemma Regroup3(a: seq<bool>, b: seq<bool>, c: seq<bool>, d: seq<bool>)
    ensures a + (b + c + d) == a + b + c + d
  {
  }

  /** Lines 125-163: the bits written and the size returned. */
  method UnescapeLs(buf: seq<Byte>, start: nat) returns (pb: PutBits, size: nat)
    requires start <= |buf|
    ensures var s := buf[start..ScanEnd(buf, start, start)];
            && pb.bits == Padded(Destuff(s))
            && size == (8 * |s| - Pairs(s) + 7) / 8
            && |pb.bits| == 8 * size
  {
    hide Destuff, Pairs, Bits8, Bits7, ScanEnd;
    var end := FindScanEnd(buf, start);
    var t := end - start;
    ghost var s := buf[start..end];
    DestuffSize(s);
    var bitCount := t * 8;
    pb := new PutBits(t);
    var b := 0;
    while b < t
      invariant b <= t && fresh(pb) && pb.capacity == 8 * t
      invariant pb.bits + Destuff(s[b..]) == Destuff(s)
      invariant bitCount - Pairs(s[b..]) == 8 * t - Pairs(s)
    {
      DestuffNext(s, b);
      ghost var before := pb.bits;
      var x := buf[start + b];
      b := b + 1;
      pb.Put(Bits8(x));
      if x == FF && b < t {
        x := buf[start + b];
        b := b + 1;
        pb.Put(Bits7(x));
        bitCount := bitCount - 1;
        Regroup3(before, Bits8(FF), Bits7(x), Destuff(s[b..]));
      } else {
        Regroup3(before, Bits8(x), [], Destuff(s[b..]));
      }
    }
    assert s[b..] == [] && pb.bits + [] == pb.bits;
    DestuffEmpty();
    pb.Flush();
    size := (bitCount + 7) / 8;
  }

  // ----- destuffing undoes stuffing -----

  function FromBits(bits: seq<bool>): (v: nat)
    ensures v < Pow2(|bits|)
  {
    ReadBits(bits, |bits|).0
  }

  lemma {:induction false} FromBitsBack(bits: seq<bool>)
    ensures WriteBits(FromBits(bits), |bits|) == bits
  {
    if bits != [] {
      FromBitsBack(bits[1..]);
      ReadBitsExact(bits[1..]);
      assert bits == [bits[0]] + bits[1..];
    }
  }

  lemma {:induction false} ReadBitsExact(bits: seq<bool>)
    ensures ReadBits(bits, |bits|).1 == []
  {
    if bits != [] { ReadBitsExact(bits[1..]); }
  }

  /** The next byte of a T.87 writer: n bits, filled up with zeros at the end of the data. */
  function Chunk(bits: seq<bool>, n: nat): (r: seq<bool>)
    ensures |r| == n
  {
    if |bits| >= n then bits[..n] else bits + Repeat(false, n - |bits|)
  }

  function After(bits: seq<bool>, n: nat): seq<bool> {
    if |bits| >= n then bits[n..] else []
  }

  function ByteOf(bits: seq<bool>): (x: Byte)
    requires |bits| <= 8
    ensures |bits| == 7 ==> x < 128
  {
    EightFit(0);
    Pow2Monotone(|bits|, 8);
    assert Pow2(8) == 256;
    FromBits(bits)
  }

  /** T.87: after an FF byte only seven data bits follow, below a stuffed zero bit. */
  function Stuff(bits: seq<bool>): seq<Byte>
    decreases |bits|
  {
    if bits == [] then []
    else
      var x := ByteOf(Chunk(bits, 8));
      var rest := After(bits, 8);
      if x != FF then [x] + Stuff(rest)
      else [x, ByteOf(Chunk(rest, 7))] + Stuff(After(rest, 7))
  }

  /** d is bits and fewer than eight zero bits of padding. */
  predicate PaddedTo(d: seq<bool>, bits: seq<bool>) {
    && bits <= d && |d| < |bits| + 8
    && forall i :: |bits| <= i < |d| ==> !d[i]
  }

  lemma ByteBits(bits: seq<bool>)
    ensures |bits| == 8 ==> Bits8(ByteOf(bits)) == bits
    ensures |bits| == 7 ==> Bits7(ByteOf(bits)) == bits
  {
    FromBitsBack(bits);
  }

  lemma {:induction false} EvenWhenLastIsZero(bits: seq<bool>)
    requires bits != [] && !bits[|bits| - 1]
    ensures FromBits(bits) % 2 == 0
  {
    if |bits| > 1 {
      EvenWhenLastIsZero(bits[1..]);
      assert Pow2(|bits| - 1) == 2 * Pow2(|bits| - 2);
    }
  }

  /** A byte of ones contains no padding. */
  lemma FullByte(bits: seq<bool>)
    ensures ByteOf(Chunk(bits, 8)) == FF ==> |bits| >= 8
  {
    if |bits| < 8 { EvenWhenLastIsZero(Chunk(bits, 8)); }
  }

  lemma PaddedGrows(head: seq<bool>, d: seq<bool>, bits: seq<bool>)
    requires PaddedTo(d, bits)
    ensures PaddedTo(head + d, head + bits)
  {
    assert (head + d)[..|head + bits|] == head + d[..|bits|];
  }

  lemma {:induction false} DestuffUndoesStuff(bits: seq<bool>)
    ensures PaddedTo(Destuff(Stuff(bits)), bits)
    decreases |bits|
  {
    hide Bits8, Bits7, ByteOf, Destuff, PaddedTo;
    if bits == [] {
      DestuffEmpty();
      NothingPadded();
    } else if ByteOf(Chunk(bits, 8)) != FF {
      DestuffUndoesStuff(After(bits, 8));
      PlainComesBack(bits);
    } else {
      DestuffUndoesStuff(After(After(bits, 8), 7));
      PairComesBack(bits);
    }
  }

  lemma NothingPadded()
    ensures PaddedTo([], [])
  {
  }

  /** Eight bits that do not make an FF. */
  lemma PlainComesBack(bits: seq<bool>)
    requires bits != [] && ByteOf(Chunk(bits, 8)) != FF
    requires PaddedTo(Destuff(Stuff(After(bits, 8))), After(bits, 8))
    ensures PaddedTo(Destuff(Stuff(bits)), bits)
  {
    hide Bits8, Bits7, ByteOf;
    var c := Chunk(bits, 8);
    var x, rest := ByteOf(c), After(bits, 8);
    ByteBits(c);
    assert Stuff(bits)[1..] == Stuff(rest);
    PaddedGrows(c, Destuff(Stuff(rest)), rest);
    if |bits| >= 8 { assert c + rest == bits; } else { DestuffEmpty(); }
  }

  /** Eight bits that make an FF, and the seven behind them. */
  lemma PairComesBack(bits: seq<bool>)
    requires bits != [] && ByteOf(Chunk(bits, 8)) == FF
    requires PaddedTo(Destuff(Stuff(After(After(bits, 8), 7))), After(After(bits, 8), 7))
    ensures PaddedTo(Destuff(Stuff(bits)), bits)
  {
    FullByte(bits);
    hide Bits8, Bits7, ByteOf;
    var c, rest := Chunk(bits, 8), After(bits, 8);
    var c7, rest7 := Chunk(rest, 7), After(rest, 7);
    ByteBits(c);
    ByteBits(c7);
    assert Stuff(bits)[2..] == Stuff(rest7);
    PaddedGrows(c + c7, Destuff(Stuff(rest7)), rest7);
    if |rest| >= 7 { assert c + c7 + rest7 == bits; } else { DestuffEmpty(); assert bits == c + rest; }
  }

  /** Every FF of a stuffed scan is followed by a byte without its top bit. */
  predicate Escaped(s: seq<Byte>) {
    forall i :: 0 <= i < |s| && s[i] == FF ==> i + 1 < |s| && s[i + 1] < 0x80
  }

  lemma {:induction false} StuffEscapes(bits: seq<bool>)
    ensures Escaped(Stuff(bits))
    decreases |bits|
  {
    hide ByteOf;
    if bits != [] {
      var x, rest := ByteOf(Chunk(bits, 8)), After(bits, 8);
      if x != FF {
        StuffEscapes(rest);
        EscapedCons([x], Stuff(rest));
      } else {
        StuffEscapes(After(rest, 7));
        EscapedCons([x, ByteOf(Chunk(rest, 7))], Stuff(After(rest, 7)));
      }
    }
  }

  lemma EscapedCons(a: seq<Byte>, b: seq<Byte>)
    requires Escaped(a) && Escaped(b)
    ensures Escaped(a + b)
  {
    forall i | 0 <= i < |a + b| && (a + b)[i] == FF ensures i + 1 < |a + b| && (a + b)[i + 1] < 0x80 {
      if i < |a| { assert a[i] == FF; } else { assert b[i - |a|] == FF; }
    }
  }

  /** The search for the end walks through an escaped scan without stopping. */
  lemma {:induction false} ScanEndSkips(buf: seq<Byte>, s: seq<Byte>, p: nat)
    requires p <= |s| <= |buf| && Escaped(s) && buf[..|s|] == s
    ensures ScanEnd(buf, 0, p) == ScanEnd(buf, 0, |s|)
    decreases |s| - p
  {
    hide Run;
    if p < |s| {
      assert forall i :: 0 <= i < |s| ==> buf[i] == buf[..|s|][i];
      if buf[p] != FF {
        ScanEndSkips(buf, s, p + 1);
      } else {
        assert s[p] == FF && s[p + 1] < 0x80;
        RunIs(buf, p, 1);
        ScanEndSkips(buf, s, p + 2);
      }
    }
  }

  /** A stuffed scan ended by a marker: the end is found right if and only if the marker has no fill
      bytes; each fill byte (T.81 section B.1.1.2 allows them) is taken for data. */
  lemma ScanEndOfStuffed(bits: seq<bool>, fill: nat, marker: Byte, rest: seq<Byte>)
    requires 0x80 <= marker < FF
    ensures ScanEnd(Stuff(bits) + Fill(fill + 1) + [marker] + rest, 0, 0) == |Stuff(bits)| + fill
  {
    hide Stuff, Run;
    var s := Stuff(bits);
    var buf := s + Fill(fill + 1) + [marker] + rest;
    StuffEscapes(bits);
    assert buf[..|s|] == s;
    ScanEndSkips(buf, s, 0);
    assert buf[|s|..|s| + fill + 2] == Fill(fill + 1) + [marker];
    FillThen(buf, |s|, fill, marker);
    assert buf[|s|] == FF;
    RunIs(buf, |s|, fill + 1);
  }

  /** Without a marker the scan is the whole buffer. */
  lemma ScanEndWithoutMarker(bits: seq<bool>)
    ensures ScanEnd(Stuff(bits), 0, 0) == |Stuff(bits)|
  {
    hide Stuff, Run;
    var s := Stuff(bits);
    StuffEscapes(bits);
    ScanEndSkips(s, s, 0);
  }

  /** A buffer cut off within a marker: with a single FF at its end the last byte of the scan is lost, with more of
      them two fewer are taken as data. */
  lemma ScanEndCutOff(bits: seq<bool>, fill: nat)
    ensures var n := |Stuff(bits)| + fill + 1;
            ScanEnd(Stuff(bits) + Fill(fill + 1), 0, 0) == if n >= 2 then n - 2 else 0
  {
    hide Stuff, Run;
    var s := Stuff(bits);
    var buf := s + Fill(fill + 1);
    StuffEscapes(bits);
    assert buf[..|s|] == s;
    ScanEndSkips(buf, s, 0);
    assert forall j :: |s| <= j < |buf| ==> buf[j] == FF;
    RunIs(buf, |s|, fill + 1);
  }

  lemma DestuffByte(x: Byte, t: seq<Byte>)
    requires x != FF
    ensures Destuff([x] + t) == Bits8(x) + Destuff(t)
  {
    hide Bits8;
    assert ([x] + t)[1..] == t;
  }

  lemma DestuffPair(y: Byte, t: seq<Byte>)
    ensures Destuff([FF, y] + t) == Bits8(FF) + Bits7(y) + Destuff(t)
  {
    hide Bits8, Bits7;
    assert ([FF, y] + t)[2..] == t;
  }

  /** An escaped scan is destuffed on its own, whatever follows. */
  lemma {:induction false} DestuffAppends(s: seq<Byte>, f: seq<Byte>)
    requires Escaped(s)
    ensures Destuff(s + f) == Destuff(s) + Destuff(f)
    decreases |s|
  {
    hide Bits8, Bits7, Destuff;
    if s == [] {
      DestuffEmpty();
      assert s + f == f;
    } else if s[0] == FF {
      var t := s[2..];
      EscapedTail(s, 2);
      DestuffAppends(t, f);
      DestuffPair(s[1], t);
      DestuffPair(s[1], t + f);
      assert s == [FF, s[1]] + t && s + f == [FF, s[1]] + (t + f);
    } else {
      var t := s[1..];
      EscapedTail(s, 1);
      DestuffAppends(t, f);
      DestuffByte(s[0], t);
      DestuffByte(s[0], t + f);
      assert s == [s[0]] + t && s + f == [s[0]] + (t + f);
    }
  }

  lemma EscapedTail(s: seq<Byte>, n: nat)
    requires Escaped(s) && n <= |s|
    ensures Escaped(s[n..])
  {
    forall i | 0 <= i < |s[n..]| && s[n..][i] == FF ensures i + 1 < |s[n..]| && s[n..][i + 1] < 0x80 {
      assert s[i + n] == FF;
    }
  }

  lemma DestuffGrows(f: seq<Byte>)
    requires f != []
    ensures |Destuff(f)| >= 8
  {
  }

  /** The whole branch gives the original bits back, up to padding, if and only if the marker has no fill
      bytes. */
  lemma BitsComeBack(bits: seq<bool>, fill: nat, marker: Byte, rest: seq<Byte>)
    requires 0x80 <= marker < FF
    ensures var buf := Stuff(bits) + Fill(fill + 1) + [marker] + rest;
            PaddedTo(Destuff(buf[0..ScanEnd(buf, 0, 0)]), bits) <==> fill == 0
  {
    hide Stuff, ScanEnd, Destuff;
    var buf := Stuff(bits) + Fill(fill + 1) + [marker] + rest;
    ScanEndOfStuffed(bits, fill, marker, rest);
    StuffEscapes(bits);
    DestuffUndoesStuff(bits);
    DestuffAppends(Stuff(bits), Fill(fill));
    assert buf[0..|Stuff(bits)| + fill] == Stuff(bits) + Fill(fill);
    if fill == 0 {
      assert Stuff(bits) + Fill(fill) == Stuff(bits);
    } else {
      DestuffGrows(Fill(fill));
    }
  }

  /** Without fill bytes the branch returns the stuffed data, padded to a byte, and its size. */
  lemma UnescapeLsUndoesStuffing(bits: seq<bool>, marker: Byte, rest: seq<Byte>)
    requires 0x80 <= marker < FF
    ensures var buf := Stuff(bits) + Fill(1) + [marker] + rest;
            var s := buf[0..ScanEnd(buf, 0, 0)];
            && s == Stuff(bits)
            && PaddedTo(Destuff(s), bits)
            && |Destuff(s)| == 8 * |s| - Pairs(s)
  {
    hide Stuff, ScanEnd, Destuff, Pairs;
    ScanEndOfStuffed(bits, 0, marker, rest);
    DestuffUndoesStuff(bits);
    DestuffSize(Stuff(bits));
  }
}
