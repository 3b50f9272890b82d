/** Scaling list data, sections 7.3.4 and 7.4.5 of H.265, as drivers/amvdec_ports/decoder/aml_hevc_parser.c
    decodes it from the bits. */
module HevcScaling {
  import opened Basics
  import opened BitReader
  import opened HevcScan

  /** default_scaling_list_intra, row by row. */
  const INTRA_0: seq<nat> := [16, 16, 16, 16, 17, 18, 21, 24]
  const INTRA_1: seq<nat> := [16, 16, 16, 16, 17, 19, 22, 25]
  const INTRA_2: seq<nat> := [16, 16, 17, 18, 20, 22, 25, 29]
  const INTRA_3: seq<nat> := [16, 16, 18, 21, 24, 27, 31, 36]
  const INTRA_4: seq<nat> := [17, 17, 20, 24, 30, 35, 41, 47]
  const INTRA_5: seq<nat> := [18, 19, 22, 27, 35, 44, 54, 65]
  const INTRA_6: seq<nat> := [21, 22, 25, 31, 41, 54, 70, 88]
  const INTRA_7: seq<nat> := [24, 25, 29, 36, 47, 65, 88, 115]
  const INTRA: seq<seq<nat>> := [INTRA_0, INTRA_1, INTRA_2, INTRA_3, INTRA_4, INTRA_5, INTRA_6, INTRA_7]

  /** default_scaling_list_inter, row by row. */
  const INTER_0: seq<nat> := [16, 16, 16, 16, 17, 18, 20, 24]
  const INTER_1: seq<nat> := [16, 16, 16, 17, 18, 20, 24, 25]
  const INTER_2: seq<nat> := [16, 16, 17, 18, 20, 24, 25, 28]
  const INTER_3: seq<nat> := [16, 17, 18, 20, 24, 25, 28, 33]
  const INTER_4: seq<nat> := [17, 18, 20, 24, 25, 28, 33, 41]
  const INTER_5: seq<nat> := [18, 20, 24, 25, 28, 33, 41, 54]
  const INTER_6: seq<nat> := [20, 24, 25, 28, 33, 41, 54, 71]
  const INTER_7: seq<nat> := [24, 25, 28, 33, 41, 54, 71, 91]
  const INTER: seq<seq<nat>> := [INTER_0, INTER_1, INTER_2, INTER_3, INTER_4, INTER_5, INTER_6, INTER_7]

  const SIZE: nat := 1536
  const LISTS: nat := 20

  /** sl[4][6][64] and sl_dc[2][6], row after row. */
  datatype Lists = Lists(sl: CoefArray, dc: DcArray)

  type CoefArray = s: seq<nat> | |s| == SIZE witness seq(SIZE, i => 0)

  type DcArray = s: seq<nat> | |s| == 12 witness seq(12, i => 0)

  datatype Outcome = Bad | Good(lists: Lists, rest: seq<bool>)

  // ----- the order of the lists -----

  /** size_id and matrix_id of the k-th list that is coded. */
  function SizeOf(k: nat): (r: nat)
    ensures k < LISTS ==> r < 4
  {
    if k < 18 then k / 6 else 3
  }

  function MatrixOf(k: nat): (r: nat)
    ensures k < LISTS ==> r < 6
  {
    if k < 18 then k % 6 else if k == 18 then 0 else 3
  }

  function At(size: nat, matrix: nat): nat { 64 * (6 * size + matrix) }

  /** Where list k begins. */
  function Base(k: nat): (r: nat)
    ensures k < LISTS ==> r + 64 <= SIZE
  {
    At(SizeOf(k), MatrixOf(k))
  }

  function DcAt(size: nat, matrix: nat): nat
    requires size >= 2
  {
    6 * (size - 2) + matrix
  }

  function DcIndex(k: nat): (r: nat)
    requires k < LISTS && SizeOf(k) >= 2
    ensures r < 12
  {
    DcAt(SizeOf(k), MatrixOf(k))
  }

  function Count(size: nat): (r: nat)
    ensures r <= 64
  {
    if size == 0 then 16 else 64
  }

  function Scan(size: nat): seq<nat> { if size == 0 then SCAN4 else SCAN8 }

  lemma Places(k: nat)
    requires k < LISTS
    ensures Base(k) == 64 * (if k < 19 then k else 21) && Base(k) + 64 <= SIZE
    ensures |Scan(SizeOf(k))| == Count(SizeOf(k)) && OneToOne(Scan(SizeOf(k)))
    ensures SizeOf(k) >= 2 ==> DcIndex(k) == (if k < 19 then k else 21) - 12
  {
    ScansAreOneToOne();
  }

  // ----- the coefficients of one list -----

  function Mod256(x: int): (r: nat)
    ensures r < 256
  {
    x % 256
  }

  /** next_coef before the coefficient that follows cs. */
  function Last(start: int, cs: seq<nat>): int { if cs == [] then start else cs[|cs| - 1] }

  function Coefs(start: int, ds: seq<int>): (cs: seq<nat>)
    ensures |cs| == |ds|
  {
    if ds == [] then []
    else
      var cs := Coefs(start, ds[..|ds| - 1]);
      cs + [Mod256(Last(start, cs) + ds[|ds| - 1])]
  }

  function ReadDeltas(bits: seq<bool>, n: nat): (r: (seq<int>, seq<bool>))
    ensures |r.0| == n
  {
    if n == 0 then ([], bits)
    else
      var (ds, s) := ReadDeltas(bits, n - 1);
      var (d, rest) := ReadSe(s);
      (ds + [d], rest)
  }

  /** The coefficients put at their positions, in scan order. */
  function Put(sl: seq<nat>, base: nat, scan: seq<nat>, cs: seq<nat>): (r: seq<nat>)
    requires |cs| <= |scan| && OneToOne(scan) && base + |scan| <= |sl|
    ensures |r| == |sl|
  {
    if cs == [] then sl
    else Put(sl, base, scan, cs[..|cs| - 1])[base + scan[|cs| - 1] := cs[|cs| - 1]]
  }

  // ----- one list -----

  /** The u32 delta once multiplied, in 32-bit arithmetic. */
  function Distance(size: nat, delta: nat): nat { if size == 3 then (3 * delta) % WORD else delta }

  /** The memcpy of the reference list and its dc. */
  function Copied(l: Lists, k: nat, distance: nat): (r: Lists)
    requires k < LISTS && distance <= MatrixOf(k)
  {
    var size, matrix := SizeOf(k), MatrixOf(k);
    var dst, src, n := At(size, matrix), At(size, matrix - distance), Count(size);
    Lists(l.sl[..dst] + l.sl[src..src + n] + l.sl[dst + n..],
          if size > 1 then l.dc[DcAt(size, matrix) := l.dc[DcAt(size, matrix - distance)]] else l.dc)
  }

  function Predicted(k: nat, l: Lists, bits: seq<bool>): (o: Outcome)
    requires k < LISTS
  {
    var (delta, rest) := ReadUe(bits);
    var distance := Distance(SizeOf(k), delta);
    if delta == 0 then Good(l, rest)
    else if MatrixOf(k) < distance then Bad
    else Good(Copied(l, k, distance), rest)
  }

  /** The start of the prediction: 8, or the coded dc, which is stored as a byte. */
  function WithDc(k: nat, l: Lists, dc: int): (r: Lists)
    requires k < LISTS
  {
    if SizeOf(k) > 1 then l.(dc := l.dc[DcIndex(k) := Mod256(dc)]) else l
  }

  function ReadDc(k: nat, bits: seq<bool>): (int, seq<bool>) {
    if SizeOf(k) > 1 then (ReadSe(bits).0 + 8, ReadSe(bits).1) else (8, bits)
  }

  function WithCoefs(k: nat, l: Lists, cs: seq<nat>): (r: Lists)
    requires k < LISTS && |cs| == Count(SizeOf(k))
  {
    Places(k);
    l.(sl := Put(l.sl, Base(k), Scan(SizeOf(k)), cs))
  }

  function Explicit(k: nat, l: Lists, bits: seq<bool>): (r: (Lists, seq<bool>))
    requires k < LISTS
  {
    var (start, s) := ReadDc(k, bits);
    var (ds, rest) := ReadDeltas(s, Count(SizeOf(k)));
    (WithCoefs(k, WithDc(k, l, start), Coefs(start, ds)), rest)
  }

  function DecodeOne(k: nat, l: Lists, bits: seq<bool>): (o: Outcome)
    requires k < LISTS
  {
    var (explicit, s) := ReadBit(bits);
    if explicit then Good(Explicit(k, l, s).0, Explicit(k, l, s).1) else Predicted(k, l, s)
  }

  /** The first k lists. */
  function DecodeTo(k: nat, l: Lists, bits: seq<bool>): (o: Outcome)
    requires k <= LISTS
  {
    if k == 0 then Good(l, bits)
    else
      match DecodeTo(k - 1, l, bits)
      case Bad => Bad
      case Good(m, rest) => DecodeOne(k - 1, m, rest)
  }

  /** With 4:4:4 chroma the other 32x32 lists are those of size 16x16. */
  function Chroma444(l: Lists): (r: Lists)
  {
    Lists(seq(SIZE, p requires 0 <= p < SIZE => if FromSize2(p / 64) then l.sl[p - 384] else l.sl[p]),
          seq(12, p requires 0 <= p < 12 => if FromSize2(p + 12) then l.dc[p - 6] else l.dc[p]))
  }

  /** Matrices 1, 2, 4 and 5 of size_id 3. */
  predicate FromSize2(q: nat) { 18 < q < 24 && q != 21 }

  function ScalingListData(l: Lists, bits: seq<bool>, chroma444: bool): Outcome
  {
    match DecodeTo(LISTS, l, bits)
    case Bad => Bad
    case Good(m, rest) => Good(if chroma444 then Chroma444(m) else m, rest)
  }

  // ----- decoding undoes delta coding -----

  predicate Bytes(cs: seq<nat>) { forall i :: 0 <= i < |cs| ==> cs[i] < 256 }

  /** ds[i] is the difference of cs[i] and its predecessor, modulo 256. */
  predicate Differs(start: int, ds: seq<int>, cs: seq<nat>, i: nat)
    requires i < |cs| == |ds|
  {
    Mod256(Last(start, cs[..i]) + ds[i]) == cs[i]
  }

  /** The deltas ds decode to cs exactly when each is the difference of neighbours modulo 256. */
  lemma {:induction false} CoefsInvert(start: int, ds: seq<int>, cs: seq<nat>)
    requires |cs| == |ds|
    ensures Coefs(start, ds) == cs <==> forall i :: 0 <= i < |cs| ==> Differs(start, ds, cs, i)
  {
    if ds != [] {
      var k := |ds| - 1;
      var ds0, cs0 := ds[..k], cs[..k];
      CoefsInvert(start, ds0, cs0);
      assert cs == cs0 + [cs[k]];
      forall i | 0 <= i < k ensures Differs(start, ds, cs, i) == Differs(start, ds0, cs0, i) {
        assert cs0[..i] == cs[..i];
      }
      var got, got0 := Coefs(start, ds), Coefs(start, ds0);
      assert got == got0 + [Mod256(Last(start, got0) + ds[k])];
      hide Coefs, Last, Mod256;
      assert got == cs <==> got0 == cs0 && got[k] == cs[k] by {
        assert got[..k] == got0 && cs[..k] == cs0;
      }
      assert got0 == cs0 ==> (got[k] == cs[k] <==> Differs(start, ds, cs, k));
      hide Differs;
      assert (forall i :: 0 <= i < |cs| ==> Differs(start, ds, cs, i))
        <==> (forall i :: 0 <= i < k ==> Differs(start, ds, cs, i)) && Differs(start, ds, cs, k);
    }
  }

  /** The encoder's choice, between -128 and 127. */
  function Delta(from: int, to: nat): (d: int)
    ensures -128 <= d < 128
  {
    Mod256(to - from + 128) - 128
  }

  lemma DeltaIsRight(from: int, to: nat)
    requires to < 256
    ensures Mod256(from + Delta(from, to)) == to
  {
    var q := (to - from + 128) / 256;
    assert from + Delta(from, to) == to - 256 * q;
  }

  function Deltas(start: int, cs: seq<nat>): (ds: seq<int>)
    ensures |ds| == |cs| && forall i :: 0 <= i < |ds| ==> -128 <= ds[i] < 128
  {
    seq(|cs|, i requires 0 <= i < |cs| => Delta(Last(start, cs[..i]), cs[i]))
  }

  lemma DeltaDiffers(start: int, cs: seq<nat>, i: nat)
    requires Bytes(cs) && i < |cs|
    ensures Differs(start, Deltas(start, cs), cs, i)
  {
    DeltaIsRight(Last(start, cs[..i]), cs[i]);
    hide Last, Delta, Mod256;
  }

  lemma DeltasDecode(start: int, cs: seq<nat>)
    requires Bytes(cs)
    ensures Coefs(start, Deltas(start, cs)) == cs
  {
    forall i | 0 <= i < |cs| ensures Differs(start, Deltas(start, cs), cs, i) { DeltaDiffers(start, cs, i); }
    hide Differs, Deltas, Bytes;
    CoefsInvert(start, Deltas(start, cs), cs);
  }

  function WriteDeltas(ds: seq<int>): seq<bool> {
    if ds == [] then [] else WriteDeltas(ds[..|ds| - 1]) + WriteSe(ds[|ds| - 1])
  }

  lemma {:induction false} DeltasRoundTrip(ds: seq<int>, rest: seq<bool>)
    requires forall i :: 0 <= i < |ds| ==> -0x7fff_ffff <= ds[i] <= 0x7fff_ffff
    ensures ReadDeltas(WriteDeltas(ds) + rest, |ds|) == (ds, rest)
  {
    hide ReadSe, WriteSe;
    if ds == [] {
      assert WriteDeltas(ds) + rest == rest;
    } else {
      var n := |ds| - 1;
      var tail := WriteSe(ds[n]) + rest;
      DeltasRoundTrip(ds[..n], tail);
      assert WriteDeltas(ds) + rest == WriteDeltas(ds[..n]) + tail;
      SeRoundTrip(ds[n], rest);
      assert ds == ds[..n] + [ds[n]];
    }
  }

  // ----- putting coefficients in scan order -----

  lemma {:induction false} PutAt(sl: seq<nat>, base: nat, scan: seq<nat>, cs: seq<nat>, p: nat)
    requires |cs| <= |scan| && OneToOne(scan) && base + |scan| <= |sl| && p < |sl|
    ensures (forall i :: 0 <= i < |cs| ==> p != base + scan[i]) ==> Put(sl, base, scan, cs)[p] == sl[p]
    ensures forall i :: 0 <= i < |cs| && p == base + scan[i] ==> Put(sl, base, scan, cs)[p] == cs[i]
  {
    if cs != [] { PutAt(sl, base, scan, cs[..|cs| - 1], p); }
  }

  /** The coefficients of list k of t, in scan order. */
  function Scanned(k: nat, t: Lists): (cs: seq<nat>)
    requires k < LISTS
    ensures |cs| == Count(SizeOf(k))
  {
    Places(k);
    var scan := Scan(SizeOf(k));
    seq(|scan|, i requires 0 <= i < |scan| => t.sl[Base(k) + scan[i]])
  }

  lemma ScannedBytes(k: nat, t: Lists)
    requires ByteLists(t) && k < LISTS
    ensures Bytes(Scanned(k, t))
  {
    Places(k);
    hide Scan, Base;
    var scan := Scan(SizeOf(k));
    forall i | 0 <= i < |scan| ensures Scanned(k, t)[i] < 256 { assert scan[i] < |scan|; }
  }

  /** List k of l is that of t. */
  predicate SameList(k: nat, l: Lists, t: Lists)
    requires k < LISTS
  {
    && (forall p :: Base(k) <= p < Base(k) + Count(SizeOf(k)) ==> l.sl[p] == t.sl[p])
    && (SizeOf(k) >= 2 ==> l.dc[DcIndex(k)] == t.dc[DcIndex(k)])
  }

  /** The scan fills the whole list, and nothing else. */
  lemma ScanRestores(k: nat, l: Lists, t: Lists, p: nat)
    requires k < LISTS && p < SIZE
    ensures WithCoefs(k, l, Scanned(k, t)).sl[p]
            == if Base(k) <= p < Base(k) + Count(SizeOf(k)) then t.sl[p] else l.sl[p]
  {
    Places(k);
    var scan, cs := Scan(SizeOf(k)), Scanned(k, t);
    hide Scan, Base;
    PutAt(l.sl, Base(k), scan, cs, p);
    if Base(k) <= p < Base(k) + |scan| {
      var i := Onto(scan, p - Base(k));
      assert p == Base(k) + scan[i];
    }
  }

  // ----- all lists -----

  /** dc for list k: 8 less is coded. */
  function DcOf(k: nat, t: Lists): int
    requires k < LISTS
  {
    if SizeOf(k) > 1 then t.dc[DcIndex(k)] else 8
  }

  function EncodeOne(k: nat, t: Lists): seq<bool>
    requires k < LISTS
  {
    [true] + EncodeBody(k, t)
  }

  /** The first k lists of t, followed by rest. */
  function Encode(k: nat, t: Lists, rest: seq<bool>): seq<bool>
    requires k <= LISTS
  {
    if k == 0 then rest else Encode(k - 1, t, EncodeOne(k - 1, t) + rest)
  }

  predicate ByteLists(t: Lists) { Bytes(t.sl) && Bytes(t.dc) }

  /** The bits after the flag. */
  function EncodeBody(k: nat, t: Lists): seq<bool>
    requires k < LISTS
  {
    (if SizeOf(k) > 1 then WriteSe(DcOf(k, t) - 8) else []) + WriteDeltas(Deltas(DcOf(k, t), Scanned(k, t)))
  }

  lemma ExplicitIs(k: nat, l: Lists, bits: seq<bool>, start: int, s: seq<bool>, ds: seq<int>, rest: seq<bool>)
    requires k < LISTS && |ds| == Count(SizeOf(k))
    requires ReadDc(k, bits) == (start, s) && ReadDeltas(s, Count(SizeOf(k))) == (ds, rest)
    ensures Explicit(k, l, bits) == (WithCoefs(k, WithDc(k, l, start), Coefs(start, ds)), rest)
  {
    hide ReadDc, ReadDeltas, WithCoefs, WithDc, Coefs, Count, SizeOf;
  }

  lemma DcRoundTrip(k: nat, t: Lists, tail: seq<bool>)
    requires ByteLists(t) && k < LISTS
    ensures ReadDc(k, (if SizeOf(k) > 1 then WriteSe(DcOf(k, t) - 8) else []) + tail) == (DcOf(k, t), tail)
  {
    DcIsByte(k, t);
    hide ReadSe, WriteSe, SizeOf, DcOf, ByteLists;
    if SizeOf(k) > 1 { SeRoundTrip(DcOf(k, t) - 8, tail); } else { assert [] + tail == tail; }
  }

  /** l with list k of t in place. */
  function Restored(k: nat, l: Lists, t: Lists): (r: Lists)
    requires k < LISTS
  {
    WithCoefs(k, WithDc(k, l, DcOf(k, t)), Scanned(k, t))
  }

  lemma BodyIs(k: nat, t: Lists, rest: seq<bool>)
    requires k < LISTS
    ensures EncodeBody(k, t) + rest == (if SizeOf(k) > 1 then WriteSe(DcOf(k, t) - 8) else [])
                                       + (WriteDeltas(Deltas(DcOf(k, t), Scanned(k, t))) + rest)
  {
    hide SizeOf, WriteSe, DcOf, WriteDeltas, Deltas, Scanned;
  }

  lemma BodyRoundTrip(k: nat, l: Lists, t: Lists, rest: seq<bool>)
    requires ByteLists(t) && k < LISTS
    ensures Explicit(k, l, EncodeBody(k, t) + rest) == (Restored(k, l, t), rest)
  {
    ScannedBytes(k, t);
    hide ByteLists, SizeOf, DcOf, Explicit, Bytes, Scanned, Deltas, Coefs, ReadDc, ReadDeltas, WriteDeltas;
    hide Count, WithCoefs, WithDc, WriteSe;
    var start, cs := DcOf(k, t), Scanned(k, t);
    var ds := Deltas(start, cs);
    var dc := if SizeOf(k) > 1 then WriteSe(start - 8) else [];
    var tail := WriteDeltas(ds) + rest;
    hide EncodeBody;
    BodyIs(k, t, rest);
    DcRoundTrip(k, t, tail);
    DeltasRoundTrip(ds, rest);
    DeltasDecode(start, cs);
    ExplicitIs(k, l, dc + tail, start, tail, ds, rest);
  }

  lemma DcIsByte(k: nat, t: Lists)
    requires ByteLists(t) && k < LISTS
    ensures 0 <= DcOf(k, t) < 256 && (SizeOf(k) <= 1 ==> DcOf(k, t) == 8)
  {
    Places(k);
  }

  lemma FlagIsRead(k: nat, l: Lists, body: seq<bool>)
    requires k < LISTS
    ensures DecodeOne(k, l, [true] + body) == Good(Explicit(k, l, body).0, Explicit(k, l, body).1)
  {
    assert ([true] + body)[1..] == body;
    hide Explicit, Predicted;
  }

  lemma OneRoundTrip(k: nat, l: Lists, t: Lists, rest: seq<bool>)
    requires ByteLists(t) && k < LISTS
    ensures DecodeOne(k, l, EncodeOne(k, t) + rest)
            == Good(Restored(k, l, t), rest)
  {
    hide EncodeBody, Restored;
    hide ByteLists, DecodeOne, Explicit;
    BodyRoundTrip(k, l, t, rest);
    var body := EncodeBody(k, t) + rest;
    assert EncodeOne(k, t) + rest == [true] + body;
    FlagIsRead(k, l, body);
  }

  predicate AllSame(k: nat, l: Lists, t: Lists)
    requires k <= LISTS
  {
    forall j :: 0 <= j < k ==> SameList(j, l, t)
  }

  /** List k of t is written into l and nothing else. */
  predicate ListWritten(k: nat, l: Lists, t: Lists, r: Lists)
    requires k < LISTS
  {
    && (forall p :: 0 <= p < SIZE ==>
          r.sl[p] == if Base(k) <= p < Base(k) + Count(SizeOf(k)) then t.sl[p] else l.sl[p])
    && r.dc == if SizeOf(k) >= 2 then l.dc[DcIndex(k) := t.dc[DcIndex(k)]] else l.dc
  }

  lemma WrittenDc(k: nat, l: Lists, t: Lists)
    requires ByteLists(t) && k < LISTS
    ensures Restored(k, l, t).dc
            == if SizeOf(k) >= 2 then l.dc[DcIndex(k) := t.dc[DcIndex(k)]] else l.dc
    ensures WithDc(k, l, DcOf(k, t)).sl == l.sl
  {
    DcIsByte(k, t);
    ModOfByte(DcOf(k, t));
    CoefsKeepDc(k, WithDc(k, l, DcOf(k, t)), Scanned(k, t));
    hide Scanned, WithCoefs, ByteLists, SizeOf, MatrixOf, DcAt, Count, Scan, Base, Mod256;
  }

  lemma ModOfByte(x: int)
    requires 0 <= x < 256
    ensures Mod256(x) == x
  {
  }

  lemma CoefsKeepDc(k: nat, l: Lists, cs: seq<nat>)
    requires k < LISTS && |cs| == Count(SizeOf(k))
    ensures WithCoefs(k, l, cs).dc == l.dc
  {
    hide Put, Base, Scan, Count, SizeOf;
  }

  lemma ListIsWritten(k: nat, l: Lists, t: Lists)
    requires ByteLists(t) && k < LISTS
    ensures ListWritten(k, l, t, Restored(k, l, t))
  {
    var m := WithDc(k, l, DcOf(k, t));
    forall p | 0 <= p < SIZE
      ensures WithCoefs(k, m, Scanned(k, t)).sl[p]
              == if Base(k) <= p < Base(k) + Count(SizeOf(k)) then t.sl[p] else l.sl[p]
    {
      ScanRestores(k, m, t, p);
    }
    WrittenDc(k, l, t);
    hide Base, Scanned, WithDc, WithCoefs, ByteLists, DcOf, Count, SizeOf, DcIndex;
  }

  lemma OtherListStays(j: nat, k: nat, l: Lists, t: Lists, r: Lists)
    requires j <= k < LISTS && ListWritten(k, l, t, r)
    requires j < k ==> SameList(j, l, t)
    ensures SameList(j, r, t)
  {
    Places(j);
    Places(k);
    hide Base, SizeOf, DcIndex, Scan, Count;
  }

  lemma ListIsSet(k: nat, l: Lists, t: Lists)
    requires ByteLists(t) && k < LISTS && AllSame(k, l, t)
    ensures AllSame(k + 1, Restored(k, l, t), t)
  {
    ListIsWritten(k, l, t);
    var r := Restored(k, l, t);
    hide Restored, ListWritten, SameList;
    forall j | 0 <= j <= k ensures SameList(j, r, t) { OtherListStays(j, k, l, t, r); }
  }

  lemma DecodeNext(k: nat, l: Lists, bits: seq<bool>)
    requires 0 < k <= LISTS
    ensures var o := DecodeTo(k - 1, l, bits);
            DecodeTo(k, l, bits) == if o.Good? then DecodeOne(k - 1, o.lists, o.rest) else Bad
  {
    hide DecodeOne;
  }

  /** For every set of lists: decoding its deltas over any lists restores the coefficients, every
      position of every coded matrix and the dc. */
  lemma {:induction false} ListsRoundTrip(k: nat, l: Lists, t: Lists, rest: seq<bool>) returns (r: Lists)
    requires ByteLists(t) && k <= LISTS
    ensures AllSame(k, r, t)
    ensures DecodeTo(k, l, Encode(k, t, rest)) == Good(r, rest)
  {
    hide *;
    if k == 0 {
      r := l;
      EncodeNothing(l, t, rest);
    } else {
      DecodeNext(k, l, Encode(k, t, rest));
      EncodeNext(k, t, rest);
      var tail := EncodeOne(k - 1, t) + rest;
      var m := ListsRoundTrip(k - 1, l, t, tail);
      OneRoundTrip(k - 1, m, t, rest);
      ListIsSet(k - 1, m, t);
      r := Restored(k - 1, m, t);
    }
  }

  lemma EncodeNext(k: nat, t: Lists, rest: seq<bool>)
    requires 0 < k <= LISTS
    ensures Encode(k, t, rest) == Encode(k - 1, t, EncodeOne(k - 1, t) + rest)
  {
    hide EncodeOne;
  }

  lemma EncodeNothing(l: Lists, t: Lists, rest: seq<bool>)
    ensures DecodeTo(0, l, Encode(0, t, rest)) == Good(l, rest) && AllSame(0, l, t)
  {
  }
}
