/** The baseline branch of ff_mjpeg_find_marker in drivers/amvdec_ports/decoder/aml_mjpeg_parser.c:
    byte unstuffing (ITU-T T.81 section B.1.1.5) by copying segments behind a lagging pointer. */
module MjpegUnescape {
  import opened Bytes

  const FF: Byte := 0xff

  predicate IsRst(x: Byte) { 0xd0 <= x <= 0xd7 }

  /** The number of FF bytes from p on. */
  function Run(buf: seq<Byte>, p: nat): (k: nat)
    requires p <= |buf|
    ensures p + k <= |buf|
    ensures forall j :: p <= j < p + k ==> buf[j] == FF
    ensures p + k < |buf| ==> buf[p + k] != FF
    decreases |buf| - p
  {
    if p < |buf| && buf[p] == FF then 1 + Run(buf, p + 1) else 0
  }

  /** What a run of FFs and the byte after it turn into. */
  function RunOutput(buf: seq<Byte>, p: nat, k: nat): (r: seq<Byte>)
    requires p + k <= |buf| && k > 0
    ensures |r| <= k + 1 && |r| <= |buf| - p
  {
    var q := p + k;
    if q == |buf| then (if k == 1 then [] else [FF])
    else if IsRst(buf[q]) then [FF, buf[q]]
    else if buf[q] == 0 && k > 1 then [FF, 0]
    else [FF]
  }

  /** The scan ends at a marker that is not RSTn, and at the end of the buffer. */
  predicate RunStops(buf: seq<Byte>, p: nat, k: nat)
    requires p + k <= |buf|
  {
    var q := p + k;
    q == |buf| || !(IsRst(buf[q]) || buf[q] == 0)
  }

  /** What comes out for the bytes from p on. A run of FFs counts as one; RST markers pass; a lone
      FF 00 loses its zero, a longer run does not; any other marker stops after its FF. */
  function Unescape(buf: seq<Byte>, p: nat): (r: seq<Byte>)
    requires p <= |buf|
    ensures |r| <= |buf| - p
    decreases |buf| - p
  {
    if p == |buf| then []
    else if buf[p] != FF then [buf[p]] + Unescape(buf, p + 1)
    else
      var k := Run(buf, p);
      RunOutput(buf, p, k) + if RunStops(buf, p, k) then [] else Unescape(buf, p + k + 1)
  }

  lemma {:induction false} RunIs(buf: seq<Byte>, p: nat, k: nat)
    requires p + k <= |buf|
    requires forall j :: p <= j < p + k ==> buf[j] == FF
    requires p + k < |buf| ==> buf[p + k] != FF
    ensures Run(buf, p) == k
    decreases k
  {
    if k > 0 { RunIs(buf, p + 1, k - 1); }
  }

  /** struct MJpegDecodeContext: the output buffer and how much of it is written. */
  class Output {
    const buffer: array<Byte>
    var dst: nat

    constructor (size: nat)
      ensures fresh(buffer) && buffer.Length == size && dst == 0
    {
      buffer := new Byte[size](_ => 0);
      dst := 0;
    }

    ghost function Written(): seq<Byte>
      requires dst <= buffer.Length
      reads this, buffer
    {
      buffer[..dst]
    }

    /** copy_data_segment: memcpy of what lies between src and ptr, less the last skip bytes. */
    method CopySegment(buf: seq<Byte>, src: nat, ptr: nat, skip: nat) returns (src': nat)
      requires src <= ptr <= |buf|
      requires dst <= buffer.Length && ptr - src - skip <= buffer.Length - dst
      modifies this, buffer
      ensures dst <= buffer.Length
      ensures if ptr - src > skip
              then src' == ptr && Written() == old(Written()) + buf[src..ptr - skip]
              else src' == src && Written() == old(Written())
    {
      src' := src;
      var length := ptr - src - skip;
      if length > 0 {
        forall i | 0 <= i < length {
          buffer[dst + i] := buf[src + i];
        }
        dst := dst + length;
        src' := ptr;
      }
    }

    /** Lines 96-110: skip FFs have been read after the one at src0, x is the last byte read. */
    method CopyRunTail(buf: seq<Byte>, src0: nat, ptr: nat, skip: nat, x: Byte) returns (src: nat, stop: bool)
      requires src0 < ptr == src0 + skip + 1 <= |buf| && x == buf[ptr - 1] && buf[src0] == FF
      requires x == FF ==> ptr == |buf|
      requires skip == 0 ==> x == FF
      requires dst <= buffer.Length && |buf| - src0 <= buffer.Length - dst
      modifies this, buffer
      ensures src <= ptr && dst <= buffer.Length
      ensures var k := if x == FF then skip + 1 else skip;
              && stop == RunStops(buf, src0, k)
              && Written() + (if stop then [] else buf[src..ptr]) == old(Written()) + RunOutput(buf, src0, k)
    {
      src := src0;
      stop := false;
      if skip > 1 {
        src := CopySegment(buf, src, ptr, skip);
        src := src - 1;
        assert buf[src0..ptr - skip] == [FF];
      }
      if !IsRst(x) {
        assert skip == 1 ==> buf[src0..ptr - 1] == [FF];
        src := CopySegment(buf, src, ptr, 1);
        stop := x != 0;
      }
    }

    /** Lines 89-111 for a run of FFs at src0; afterwards buf[src..ptr] is still to be copied. */
    method CopyRun(buf: seq<Byte>, src0: nat) returns (src: nat, ptr: nat, stop: bool)
      requires src0 < |buf| && buf[src0] == FF
      requires dst <= buffer.Length && |buf| - src0 <= buffer.Length - dst
      modifies this, buffer
      ensures src0 < ptr <= |buf| && src <= ptr && dst <= buffer.Length
      ensures var k := Run(buf, src0);
              && stop == RunStops(buf, src0, k)
              && (!stop ==> ptr == src0 + k + 1)
              && Written() + (if stop then [] else buf[src..ptr]) == old(Written()) + RunOutput(buf, src0, k)
    {
      hide RunOutput;
      ptr := src0 + 1;
      var x: Byte := FF;
      var skip := 0;
      while ptr < |buf| && x == FF
        invariant src0 < ptr <= |buf| && skip == ptr - src0 - 1 && x == buf[ptr - 1]
        invariant forall j :: src0 <= j < ptr - 1 ==> buf[j] == FF
      {
        x := buf[ptr];
        ptr := ptr + 1;
        skip := skip + 1;
      }
      RunIs(buf, src0, if x == FF then ptr - src0 else skip);
      hide Run;
      src, stop := CopyRunTail(buf, src0, ptr, skip, x);
    }

    /** Lines 86-119: one turn of the outer loop, a byte or a run of FFs. */
    method CopyPiece(buf: seq<Byte>, src0: nat) returns (ptr: nat, stop: bool)
      requires src0 < |buf| && dst <= buffer.Length && |buf| - src0 <= buffer.Length - dst
      modifies this, buffer
      ensures dst <= buffer.Length
      ensures if buf[src0] != FF
              then ptr == src0 + 1 && !stop && Written() == old(Written()) + [buf[src0]]
              else var k := Run(buf, src0);
                   && stop == RunStops(buf, src0, k) && (!stop ==> ptr == src0 + k + 1 <= |buf|)
                   && Written() == old(Written()) + RunOutput(buf, src0, k)
    {
      hide Run, RunOutput, RunStops;
      var src := src0;
      var x := buf[src0];
      stop := false;
      if x == FF {
        src, ptr, stop := CopyRun(buf, src0);
        if stop {
          assert Written() + [] == Written();
          return;
        }
      } else {
        ptr := src0 + 1;
        assert buf[src0..ptr] == [x];
      }
      if src < ptr {
        src := CopySegment(buf, src, ptr, 0);
      } else {
        assert Written() + buf[src..ptr] == Written();
      }
    }
  }

  lemma UnescapeUnfolds(buf: seq<Byte>, p: nat)
    requires p <= |buf|
    ensures p == |buf| ==> Unescape(buf, p) == []
    ensures p < |buf| && buf[p] != FF ==> Unescape(buf, p) == [buf[p]] + Unescape(buf, p + 1)
    ensures p < |buf| && buf[p] == FF ==>
              var k := Run(buf, p);
              && (RunStops(buf, p, k) ==> Unescape(buf, p) == RunOutput(buf, p, k))
              && (!RunStops(buf, p, k) ==> Unescape(buf, p) == RunOutput(buf, p, k) + Unescape(buf, p + k + 1))
  {
    hide Run, RunOutput;
  }

  /** Lines 72-120: the unescaped scan is exactly Unescape of the rest of the buffer. */
  method UnescapeScan(buf: seq<Byte>, start: nat, s: Output)
    requires start <= |buf| && s.dst == 0 && |buf| - start <= s.buffer.Length
    modifies s, s.buffer
    ensures s.dst <= s.buffer.Length && s.dst <= |buf| - start
    ensures s.Written() == Unescape(buf, start)
  {
    hide Unescape, Run, RunOutput, RunStops;
    var ptr, stop := start, false;
    while ptr < |buf|
      invariant start <= ptr <= |buf|
      invariant s.dst <= ptr - start && s.dst <= s.buffer.Length
      invariant s.Written() + Unescape(buf, ptr) == Unescape(buf, start)
    {
      UnescapeUnfolds(buf, ptr);
      ghost var out, p := s.Written(), ptr;
      ptr, stop := s.CopyPiece(buf, ptr);
      ghost var piece := if buf[p] == FF then RunOutput(buf, p, Run(buf, p)) else [buf[p]];
      if stop {
        assert out + piece == Unescape(buf, start);
        return;
      }
      Regroup(out, piece, Unescape(buf, ptr));
    }
    UnescapeUnfolds(buf, ptr);
  }

  lemma Regroup(a: seq<Byte>, b: seq<Byte>, c: seq<Byte>)
    ensures a + b + c == a + (b + c)
  {
  }

  // ----- unstuffing undoes stuffing -----

  /** One unit of an entropy-coded scan: a data byte, or RSTm preceded by fill bytes. */
  datatype Piece = Data(b: Byte) | Restart(m: nat, fill: nat)

  predicate Legal(u: Piece) { u.Restart? ==> u.m < 8 }

  function Fill(n: nat): (r: seq<Byte>)
    ensures |r| == n
  {
    seq(n, _ => FF)
  }

  /** As T.81 section B.1.1.5 writes it: a data byte FF is followed by a stuffed 00. */
  function Stuffed(u: Piece): seq<Byte>
    requires Legal(u)
  {
    match u
    case Data(b) => if b == FF then [FF, 0] else [b]
    case Restart(m, fill) => Fill(fill + 1) + [0xd0 + m]
  }

  /** What the decoder wants to see. */
  function Plain(u: Piece): seq<Byte>
    requires Legal(u)
  {
    match u
    case Data(b) => [b]
    case Restart(m, _) => [FF, 0xd0 + m]
  }

  function StuffAll(us: seq<Piece>): seq<Byte>
    requires forall u :: u in us ==> Legal(u)
  {
    if us == [] then [] else Stuffed(us[0]) + StuffAll(us[1..])
  }

  function PlainAll(us: seq<Piece>): seq<Byte>
    requires forall u :: u in us ==> Legal(u)
  {
    if us == [] then [] else Plain(us[0]) + PlainAll(us[1..])
  }

  /** The codes of T.81 table B.1 that end a scan: all but RSTn (D0 to D7), 00 and FF. */
  predicate EndMarker(x: Byte) { 0x01 <= x <= 0xcf || 0xd8 <= x <= 0xfe }

  lemma SliceAt(buf: seq<Byte>, p: nat, w: seq<Byte>)
    requires p + |w| <= |buf| && buf[p..p + |w|] == w
    ensures forall j :: p <= j < p + |w| ==> buf[j] == w[j - p]
  {
    forall j | p <= j < p + |w| ensures buf[j] == w[j - p] {
      assert buf[j] == buf[p..p + |w|][j - p];
    }
  }

  /** fill + 1 FFs from p on, then x. */
  predicate RunThen(buf: seq<Byte>, p: nat, fill: nat, x: Byte) {
    && p + fill + 1 < |buf| && buf[p + fill + 1] == x
    && forall j :: p <= j <= p + fill ==> buf[j] == FF
  }

  lemma FillThen(buf: seq<Byte>, p: nat, fill: nat, x: Byte)
    requires p + fill + 2 <= |buf| && buf[p..p + fill + 2] == Fill(fill + 1) + [x]
    ensures RunThen(buf, p, fill, x)
  {
    var w := Fill(fill + 1) + [x];
    SliceAt(buf, p, w);
    assert w[fill + 1] == x && forall j :: 0 <= j <= fill ==> w[j] == FF;
  }

  lemma UnescapeRun(buf: seq<Byte>, p: nat, fill: nat, x: Byte)
    requires x != FF && RunThen(buf, p, fill, x)
    ensures IsRst(x) ==> Unescape(buf, p) == [FF, x] + Unescape(buf, p + fill + 2)
    ensures EndMarker(x) ==> Unescape(buf, p) == [FF]
  {
    assert buf[p] == FF;
    RunIs(buf, p, fill + 1);
    UnescapeUnfolds(buf, p);
    hide Unescape, Run;
  }

  lemma UnescapeData(buf: seq<Byte>, p: nat, b: Byte)
    requires p + |Stuffed(Data(b))| <= |buf| && buf[p..p + |Stuffed(Data(b))|] == Stuffed(Data(b))
    ensures Unescape(buf, p) == [b] + Unescape(buf, p + |Stuffed(Data(b))|)
  {
    SliceAt(buf, p, Stuffed(Data(b)));
    assert buf[p] == b;
    if b == FF {
      assert buf[p + 1] == 0;
      RunIs(buf, p, 1);
    }
    hide Run;
    UnescapeUnfolds(buf, p);
    hide Unescape;
  }

  lemma UnescapePiece(buf: seq<Byte>, p: nat, u: Piece)
    requires Legal(u) && p + |Stuffed(u)| <= |buf| && buf[p..p + |Stuffed(u)|] == Stuffed(u)
    ensures Unescape(buf, p) == Plain(u) + Unescape(buf, p + |Stuffed(u)|)
  {
    hide Unescape;
    match u
    case Data(b) => UnescapeData(buf, p, b);
    case Restart(m, fill) =>
      FillThen(buf, p, fill, 0xd0 + m);
      UnescapeRun(buf, p, fill, 0xd0 + m);
  }

  lemma {:induction false} UnescapePieces(buf: seq<Byte>, p: nat, us: seq<Piece>)
    requires forall u :: u in us ==> Legal(u)
    requires p + |StuffAll(us)| <= |buf| && buf[p..p + |StuffAll(us)|] == StuffAll(us)
    ensures Unescape(buf, p) == PlainAll(us) + Unescape(buf, p + |StuffAll(us)|)
    decreases |us|
  {
    hide Unescape, Stuffed, Plain;
    if us != [] {
      var n, rest := |Stuffed(us[0])|, StuffAll(us[1..]);
      assert buf[p..p + n] == buf[p..p + |StuffAll(us)|][..n] == Stuffed(us[0]);
      assert buf[p + n..p + n + |rest|] == buf[p..p + |StuffAll(us)|][n..] == rest;
      UnescapePiece(buf, p, us[0]);
      UnescapePieces(buf, p + n, us[1..]);
      var tail := Unescape(buf, p + |StuffAll(us)|);
      assert Plain(us[0]) + (PlainAll(us[1..]) + tail) == Plain(us[0]) + PlainAll(us[1..]) + tail;
    }
  }

  /** A stuffed scan closed by a marker comes back as its data and restart markers, then one FF,
      whatever follows the marker. */
  lemma UnescapeUndoesStuffing(us: seq<Piece>, fill: nat, marker: Byte, rest: seq<Byte>)
    requires (forall u :: u in us ==> Legal(u)) && EndMarker(marker)
    ensures Unescape(StuffAll(us) + Fill(fill + 1) + [marker] + rest, 0) == PlainAll(us) + [FF]
  {
    var buf := StuffAll(us) + Fill(fill + 1) + [marker] + rest;
    hide Unescape, StuffAll, PlainAll;
    assert buf[0..0 + |StuffAll(us)|] == StuffAll(us);
    UnescapePieces(buf, 0, us);
    assert buf[|StuffAll(us)|..|StuffAll(us)| + fill + 2] == Fill(fill + 1) + [marker];
    FillThen(buf, |StuffAll(us)|, fill, marker);
    UnescapeRun(buf, |StuffAll(us)|, fill, marker);
  }

  // ----- runs of FFs -----

  /** k FFs from p on, then the end of the buffer or another byte. */
  predicate RunOf(buf: seq<Byte>, p: nat, k: nat) {
    && 1 <= k && p + k <= |buf| && (p + k < |buf| ==> buf[p + k] != FF)
    && (forall j :: p <= j < p + k ==> buf[j] == FF)
  }

  /** Before a zero a run turns into one FF, and the zero is taken for stuffing, if and only if the run is a
      single FF; otherwise FF 00 comes out. */
  lemma ZeroAfterRun(buf: seq<Byte>, p: nat, k: nat)
    requires RunOf(buf, p, k) && p + k < |buf| && buf[p + k] == 0
    ensures Unescape(buf, p) == [FF] + Unescape(buf, p + k + 1) <==> k == 1
    ensures k > 1 ==> Unescape(buf, p) == [FF, 0] + Unescape(buf, p + k + 1)
  {
    assert buf[p] == FF;
    RunIs(buf, p, k);
    UnescapeUnfolds(buf, p);
    hide Unescape, Run;
    if k > 1 { assert |Unescape(buf, p)| == 2 + |Unescape(buf, p + k + 1)|; }
  }

  /** A run that ends the buffer leaves nothing if and only if it is a single FF; otherwise one FF. */
  lemma RunAtEnd(buf: seq<Byte>, p: nat, k: nat)
    requires RunOf(buf, p, k) && p + k == |buf|
    ensures Unescape(buf, p) == [] <==> k == 1
    ensures k > 1 ==> Unescape(buf, p) == [FF]
  {
    assert buf[p] == FF;
    RunIs(buf, p, k);
    UnescapeUnfolds(buf, p);
    hide Unescape, Run;
  }

  lemma RunExamples()
    ensures Unescape([0xff, 0xff, 0], 0) == [0xff, 0] && Unescape([0xff], 0) == []
  {
    ZeroAfterRun([FF, FF, 0], 0, 2);
    RunAtEnd([FF], 0, 1);
  }

  /** What a marker does, by its code: RST0 to RST7 pass and the scan goes on, any other ends the output with
      its FF. All other bytes pass. */
  lemma MarkerDecides(buf: seq<Byte>, p: nat, k: nat)
    requires RunOf(buf, p, k) && p + k < |buf| && buf[p + k] != 0
    ensures var x := buf[p + k];
            && (0xd0 <= x <= 0xd7 ==> Unescape(buf, p) == [0xff, x] + Unescape(buf, p + k + 1))
            && (0x01 <= x <= 0xcf || 0xd8 <= x <= 0xfe ==> Unescape(buf, p) == [0xff])
  {
    UnescapeRun(buf, p, k - 1, buf[p + k]);
  }

  lemma DataPasses(buf: seq<Byte>, p: nat)
    requires p < |buf| && buf[p] < 0xff
    ensures Unescape(buf, p) == [buf[p]] + Unescape(buf, p + 1)
  {
  }

  /** The scan bytes 11, then EOI: nothing behind the marker comes out. */
  lemma EndOfImageExample()
    ensures Unescape([0x11, 0xff, 0xd9, 0x22], 0) == [0x11, 0xff]
  {
    var buf: seq<Byte> := [0x11, 0xff, 0xd9, 0x22];
    DataPasses(buf, 0);
    MarkerDecides(buf, 1, 1);
  }

  /** Where the output stops: at the end of the buffer, or behind the first marker that is not RSTn. Nothing
      after that place matters. */
  lemma {:induction false} TailIsIgnored(buf: seq<Byte>, p: nat, e: nat, tail: seq<Byte>)
    requires p <= e && e + 2 <= |buf| && buf[e] == 0xff && EndMarker(buf[e + 1])
    ensures Unescape(buf[..e + 2] + tail, p) == Unescape(buf, p)
    decreases e - p
  {
    var cut := buf[..e + 2] + tail;
    assert buf[e + 1] != FF && FF == 0xff;
    hide *;
    assert |cut| >= e + 2 && cut[p] == buf[p];
    if buf[p] != FF {
      assert p < e;
      DataPasses(buf, p);
      DataPasses(cut, p);
      TailIsIgnored(buf, p + 1, e, tail);
    } else {
      var k := Run(buf, p);
      RunEndsBefore(buf, p, e);
      RunCut(buf, p, e, tail);
      UnescapeUnfolds(buf, p);
      UnescapeUnfolds(cut, p);
      SameRun(buf, cut, p, k);
      StopsThere(buf, p, k, e);
      if p + k < e { TailIsIgnored(buf, p + k + 1, e, tail); }
    }
  }

  lemma RunCut(buf: seq<Byte>, p: nat, e: nat, tail: seq<Byte>)
    requires p <= e && e + 2 <= |buf| && buf[p] == FF && p + Run(buf, p) <= e + 1
    ensures var cut := buf[..e + 2] + tail;
            Run(cut, p) == Run(buf, p) > 0 && cut[p + Run(buf, p)] == buf[p + Run(buf, p)] != FF
  {
    RunIs(buf[..e + 2] + tail, p, Run(buf, p));
  }

  /** A run of FFs from p on ends by the byte behind e. */
  lemma RunEndsBefore(buf: seq<Byte>, p: nat, e: nat)
    requires p <= e && e + 2 <= |buf| && buf[e + 1] != FF
    ensures p + Run(buf, p) <= e + 1
  {
  }

  lemma SameRun(buf: seq<Byte>, cut: seq<Byte>, p: nat, k: nat)
    requires k > 0 && p + k < |buf| && p + k < |cut| && buf[p + k] == cut[p + k]
    ensures RunOutput(buf, p, k) == RunOutput(cut, p, k) && RunStops(buf, p, k) == RunStops(cut, p, k)
  {
  }

  lemma StopsThere(buf: seq<Byte>, p: nat, k: nat, e: nat)
    requires p + k <= e + 1 && e + 2 <= |buf| && buf[e] == 0xff && EndMarker(buf[e + 1]) && buf[p + k] != 0xff
    ensures p + k < e || RunStops(buf, p, k)
  {
  }

  // ----- find_marker -----

  predicate MarkerAt(buf: seq<Byte>, q: nat) {
    q + 1 < |buf| && buf[q] == FF && 0xc0 <= buf[q + 1] <= 0xfe
  }

  /** Behind any bytes without an FF and any fill bytes, the first marker is where it was written, if its code is
      C0 to FE; codes 01 to BF are passed over. */
  lemma MarkerIsFound(before: seq<Byte>, fill: nat, code: Byte, rest: seq<Byte>, q: nat)
    requires (forall i :: 0 <= i < |before| ==> before[i] != 0xff) && code != 0xff
    requires q <= |before| + fill
    ensures var buf := before + Fill(fill + 1) + [code] + rest;
            MarkerAt(buf, q) <==> q == |before| + fill && 0xc0 <= code <= 0xfe
  {
    var buf := before + Fill(fill + 1) + [code] + rest;
    assert q < |before| ==> buf[q] == before[q];
    assert |before| <= q ==> buf[q] == 0xff && (q < |before| + fill ==> buf[q + 1] == 0xff);
    assert buf[|before| + fill + 1] == code;
  }

  /** Lines 35-59: the first FF followed by C0..FE from start on; its code and the place behind it. */
  method FindMarker(buf: seq<Byte>, start: nat) returns (val: int, p: nat)
    requires start <= |buf|
    ensures val == -1 ==> p == |buf| && forall q :: start <= q ==> !MarkerAt(buf, q)
    ensures val != -1 ==> start + 2 <= p <= |buf| && MarkerAt(buf, p - 2) && val == buf[p - 1] as int
                          && forall q :: start <= q < p - 2 ==> !MarkerAt(buf, q)
  {
    p := start;
    while |buf| - p > 1
      invariant start <= p <= |buf|
      invariant forall q :: start <= q < p ==> !MarkerAt(buf, q)
    {
      var v := buf[p];
      p := p + 1;
      var v2 := buf[p];
      if v == FF && v2 >= 0xc0 && v2 <= 0xfe {
        assert MarkerAt(buf, p - 1);
        val := buf[p] as int;
        p := p + 1;
        return;
      }
    }
    p, val := |buf|, -1;
  }
}
