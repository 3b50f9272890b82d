/** The predicted scaling lists of section 7.4.5 of H.265: which references the decoder accepts and what
    they read. */
module HevcScalingRef {
  import opened Basics
  import opened BitReader
  import opened HevcScaling

  /** matrix_id counts in threes for size_id 3. */
  function Unit(size: nat): (r: nat)
    ensures r > 0
  {
    if size == 3 then 3 else 1
  }

  /** The two deltas whose product with 3 wraps to a distance below 3. */
  predicate Wraps(delta: nat) { delta == 0x5555_5556 || delta == 0xAAAA_AAAB }

  lemma DistanceIs(delta: nat)
    requires delta < WORD
    ensures Distance(3, delta) <= 3 <==> delta <= 1 || Wraps(delta)
    ensures delta <= 1 ==> Distance(3, delta) == 3 * delta
    ensures delta == 0x5555_5556 ==> Distance(3, delta) == 2
    ensures delta == 0xAAAA_AAAB ==> Distance(3, delta) == 1
    ensures Distance(3, delta) == 0 <==> delta == 0
  {
  }

  /** A delta is accepted exactly when the standard allows it, or it wraps in the last list. */
  lemma AcceptedDeltas(k: nat, delta: nat)
    requires k < LISTS && delta < WORD
    ensures Distance(SizeOf(k), delta) <= MatrixOf(k)
            <==> Unit(SizeOf(k)) * delta <= MatrixOf(k) || (k == 19 && Wraps(delta))
  {
    if SizeOf(k) == 3 { DistanceIs(delta); }
  }

  /** Some list of the same size, coded before list k, has this matrix_id. */
  predicate CodedBefore(k: nat, matrix: nat) {
    exists j :: 0 <= j < k && SizeOf(j) == SizeOf(k) && MatrixOf(j) == matrix
  }

  /** An accepted reference is to a lower-numbered matrix of the same size, and one that was coded before
      exactly when the product did not wrap. */
  lemma ReferenceIsSettled(k: nat, delta: nat)
    requires k < LISTS && 0 < delta < WORD && Distance(SizeOf(k), delta) <= MatrixOf(k)
    ensures 0 < Distance(SizeOf(k), delta)
    ensures CodedBefore(k, MatrixOf(k) - Distance(SizeOf(k), delta)) <==> !(k == 19 && Wraps(delta))
  {
    AcceptedDeltas(k, delta);
    if SizeOf(k) == 3 { DistanceIs(delta); }
    if !(k == 19 && Wraps(delta)) {
      if k < 18 {
        assert SizeOf(k - delta) == SizeOf(k) && MatrixOf(k - delta) == MatrixOf(k) - delta;
      } else {
        assert k == 19 && delta == 1;
        assert SizeOf(18) == 3 && MatrixOf(18) == 0;
      }
    } else {
      forall j | 0 <= j < k ensures !(SizeOf(j) == 3 && MatrixOf(j) == MatrixOf(k) - Distance(3, delta)) { }
    }
  }

  // ----- the standard's own inference -----

  function Defaults(): (r: seq<nat>)
    ensures |r| == SIZE
  {
    seq(SIZE, p requires 0 <= p < SIZE => DefaultAt(p))
  }

  /** Tables 7-5 and 7-6; the driver keeps 16 coefficients for size_id 0 and leaves the rest 0. */
  function DefaultAt(p: nat): nat {
    if p / 64 < 6 then (if p % 64 < 16 then 16 else 0)
    else if (p / 64) % 6 < 3 then INTRA[p % 64 / 8][p % 8]
    else INTER[p % 64 / 8][p % 8]
  }

  /** n entries from base taken from another array. */
  function Overlaid(a: seq<nat>, b: seq<nat>, base: nat, n: nat): (r: seq<nat>)
    requires |a| == |b| && base + n <= |a|
    ensures |r| == |a|
  {
    a[..base] + b[base..base + n] + a[base + n..]
  }

  /** List k set to its default. */
  function Defaulted(l: Lists, k: nat): (r: Lists)
    requires k < LISTS
  {
    Lists(Overlaid(l.sl, Defaults(), Base(k), Count(SizeOf(k))),
          if SizeOf(k) >= 2 then l.dc[DcIndex(k) := 16] else l.dc)
  }

  /** Where coefficient p comes from when a matrix is inferred from the one distance before it. */
  function Source(size: nat, matrix: nat, distance: nat, p: nat): (q: nat)
    requires distance <= matrix
    ensures q <= p
  {
    var first := 64 * (6 * size + matrix);
    if first <= p < first + (if size == 0 then 16 else 64) then p - 64 * distance else p
  }

  function DcSource(size: nat, matrix: nat, distance: nat, q: nat): (r: nat)
    requires distance <= matrix
    ensures r <= q
  {
    if size > 1 && q == 6 * (size - 2) + matrix then q - distance else q
  }

  function InferredCoefs(sl: CoefArray, size: nat, matrix: nat, distance: nat): (r: seq<nat>)
    requires distance <= matrix
    ensures |r| == SIZE && forall p :: 0 <= p < SIZE ==> r[p] == sl[Source(size, matrix, distance, p)]
  {
    seq(SIZE, p requires 0 <= p < SIZE => sl[Source(size, matrix, distance, p)])
  }

  /** Every coefficient of list k, and its dc, taken from the matrix_id that lies distance before. */
  function Inferred(l: Lists, k: nat, distance: nat): (r: Lists)
    requires k < LISTS && distance <= MatrixOf(k)
  {
    Lists(InferredCoefs(l.sl, SizeOf(k), MatrixOf(k), distance),
          seq(12, q requires 0 <= q < 12 => l.dc[DcSource(SizeOf(k), MatrixOf(k), distance, q)]))
  }

  lemma CopiedIsInferred(l: Lists, k: nat, distance: nat)
    requires k < LISTS && distance <= MatrixOf(k)
    ensures Copied(l, k, distance) == Inferred(l, k, distance)
  {
    var size, matrix := SizeOf(k), MatrixOf(k);
    var r, t := Copied(l, k, distance), Inferred(l, k, distance);
    forall p | 0 <= p < SIZE ensures r.sl[p] == l.sl[Source(size, matrix, distance, p)] {
      CopiedAt(l, k, distance, p);
    }
    assert size > 1 ==> r.dc == l.dc[DcAt(size, matrix) := l.dc[DcAt(size, matrix - distance)]];
    assert size <= 1 ==> r.dc == l.dc;
    hide Copied, SizeOf, MatrixOf;
    assert r.dc == t.dc;
  }

  lemma CopiedAt(l: Lists, k: nat, distance: nat, p: nat)
    requires k < LISTS && distance <= MatrixOf(k) && p < SIZE
    ensures Copied(l, k, distance).sl[p] == l.sl[Source(SizeOf(k), MatrixOf(k), distance, p)]
  {
    Places(k);
    hide SizeOf, MatrixOf;
    var dst, n, r := Base(k), Count(SizeOf(k)), Copied(l, k, distance);
    if p >= dst + n {
      assert r.sl[p] == l.sl[dst + n..][p - (dst + n)];
    } else if p >= dst {
      assert r.sl[p] == l.sl[dst - 64 * distance..dst - 64 * distance + n][p - dst];
    }
  }

  /** A list that is not coded: delta 0 means the default, others the list delta units before. */
  function StdPredicted(k: nat, l: Lists, bits: seq<bool>): (o: Outcome)
    requires k < LISTS
  {
    var delta := ReadUe(bits).0;
    if delta == 0 then Good(Defaulted(l, k), ReadUe(bits).1)
    else if Unit(SizeOf(k)) * delta > MatrixOf(k) then Bad
    else Good(Inferred(l, k, Unit(SizeOf(k)) * delta), ReadUe(bits).1)
  }

  /** The ranges of section 7.4.5 for a coded list: the dc, the deltas, and coefficients above 0. */
  predicate ValuesInRange(k: nat, start: int, ds: seq<int>) {
    && (SizeOf(k) > 1 ==> 1 <= start <= 255)
    && (forall i :: 0 <= i < |ds| ==> -128 <= ds[i] <= 127)
    && (forall i :: 0 <= i < |ds| ==> StdCoefs(start, ds)[i] > 0)
  }

  /** What is read for coded list k is in range. */
  predicate InRange(k: nat, bits: seq<bool>) {
    var (start, s) := ReadDc(k, bits);
    ValuesInRange(k, start, ReadDeltas(s, Count(SizeOf(k))).0)
  }

  /** nextCoef = (nextCoef + scaling_list_delta_coef + 256) % 256. */
  function StdCoefs(start: int, ds: seq<int>): (cs: seq<nat>)
    ensures |cs| == |ds|
  {
    if ds == [] then []
    else
      var cs := StdCoefs(start, ds[..|ds| - 1]);
      cs + [(Last(start, cs) + ds[|ds| - 1] + 256) % 256]
  }

  function StdExplicit(k: nat, l: Lists, bits: seq<bool>): (Lists, seq<bool>)
    requires k < LISTS && InRange(k, bits)
  {
    var (start, s) := ReadDc(k, bits);
    var (ds, rest) := ReadDeltas(s, Count(SizeOf(k)));
    (WithCoefs(k, if SizeOf(k) > 1 then l.(dc := l.dc[DcIndex(k) := start]) else l, StdCoefs(start, ds)), rest)
  }

  function StdOne(k: nat, l: Lists, bits: seq<bool>): (o: Outcome)
    requires k < LISTS
  {
    var (explicit, s) := ReadBit(bits);
    if !explicit then StdPredicted(k, l, s)
    else if InRange(k, s) then Good(StdExplicit(k, l, s).0, StdExplicit(k, l, s).1)
    else Bad
  }

  function StdTo(k: nat, l: Lists, bits: seq<bool>): (o: Outcome)
    requires k <= LISTS
  {
    if k == 0 then Good(l, bits)
    else
      match StdTo(k - 1, l, bits)
      case Bad => Bad
      case Good(m, rest) => StdOne(k - 1, m, rest)
  }

  // ----- lists not decoded yet still hold the defaults -----

  predicate Untouched(l: Lists, k: nat)
    requires k <= LISTS
  {
    && (k < LISTS ==> forall p :: Base(k) <= p < SIZE ==> l.sl[p] == Defaults()[p])
    && (forall j :: k <= j < LISTS && SizeOf(j) >= 2 ==> l.dc[DcIndex(j)] == 16)
  }

  lemma OverlaySame(a: seq<nat>, b: seq<nat>, base: nat, n: nat)
    requires |a| == |b| && base + n <= |a| && forall p :: base <= p < base + n ==> a[p] == b[p]
    ensures Overlaid(a, b, base, n) == a
  {
    assert a == a[..base] + a[base..base + n] + a[base + n..];
    assert a[base..base + n] == b[base..base + n];
  }

  lemma DefaultedStays(l: Lists, k: nat)
    requires k < LISTS && Untouched(l, k)
    ensures Defaulted(l, k) == l
  {
    hide Base, SizeOf, DcIndex, Defaults, Count, Overlaid;
    OverlaySame(l.sl, Defaults(), Base(k), Count(SizeOf(k)));
  }

  /** l and r agree outside list k. */
  predicate OnlyList(k: nat, l: Lists, r: Lists)
    requires k < LISTS
  {
    && (forall p :: Base(k) + 64 <= p < SIZE ==> r.sl[p] == l.sl[p])
    && (if SizeOf(k) >= 2 then r.dc == l.dc[DcIndex(k) := r.dc[DcIndex(k)]] else r.dc == l.dc)
  }

  lemma OnlyListKeeps(k: nat, l: Lists, r: Lists)
    requires k < LISTS && OnlyList(k, l, r) && Untouched(l, k)
    ensures Untouched(r, k + 1)
  {
    Places(k);
    if k + 1 < LISTS { Places(k + 1); }
    forall j | k + 1 <= j < LISTS && SizeOf(j) >= 2 ensures r.dc[DcIndex(j)] == 16 {
      Places(j);
      hide DcIndex, Base, SizeOf;
    }
    hide DcIndex, Base, SizeOf;
  }

  lemma CopiedOnly(k: nat, l: Lists, distance: nat)
    requires k < LISTS && distance <= MatrixOf(k)
    ensures OnlyList(k, l, Copied(l, k, distance))
  {
    Places(k);
    hide SizeOf, MatrixOf, At, DcAt;
    var dst, n, r := Base(k), Count(SizeOf(k)), Copied(l, k, distance);
    forall p | dst + 64 <= p < SIZE ensures r.sl[p] == l.sl[p] {
      assert r.sl[p] == l.sl[dst + n..][p - (dst + n)];
    }
  }

  lemma ExplicitOnly(k: nat, l: Lists, bits: seq<bool>)
    requires k < LISTS
    ensures OnlyList(k, l, Explicit(k, l, bits).0)
  {
    Places(k);
    var r, cs := Explicit(k, l, bits).0, Coefs(ReadDc(k, bits).0, ReadDeltas(ReadDc(k, bits).1, Count(SizeOf(k))).0);
    assert r == WithCoefs(k, WithDc(k, l, ReadDc(k, bits).0), cs);
    hide Explicit, ReadDc, ReadDeltas, Coefs, Base;
    forall p | Base(k) + 64 <= p < SIZE ensures r.sl[p] == l.sl[p] {
      PutAt(l.sl, Base(k), Scan(SizeOf(k)), cs, p);
    }
  }

  // ----- agreement with the standard -----

  /** Where the driver accepts a list that the standard forbids: a coded list out of range, or the
      last reference with a distance that wraps. */
  predicate Departs(k: nat, bits: seq<bool>) {
    var (explicit, s) := ReadBit(bits);
    if explicit then !InRange(k, s) else k == 19 && Wraps(ReadUe(s).0)
  }

  lemma {:induction false} CoefsAgree(start: int, ds: seq<int>)
    ensures StdCoefs(start, ds) == Coefs(start, ds)
  {
    if ds != [] {
      CoefsAgree(start, ds[..|ds| - 1]);
      var x := Last(start, Coefs(start, ds[..|ds| - 1])) + ds[|ds| - 1];
      assert (x + 256) % 256 == Mod256(x);
    }
  }

  lemma ExplicitAgrees(k: nat, l: Lists, bits: seq<bool>)
    requires k < LISTS && InRange(k, bits)
    ensures StdExplicit(k, l, bits) == Explicit(k, l, bits)
  {
    var (start, s) := ReadDc(k, bits);
    CoefsAgree(start, ReadDeltas(s, Count(SizeOf(k))).0);
    hide Coefs, StdCoefs, ReadDc, ReadDeltas, WithCoefs, Count, SizeOf, DcIndex;
    assert Mod256(start) == start || SizeOf(k) <= 1;
  }

  lemma PredictedAgrees(k: nat, l: Lists, bits: seq<bool>)
    requires k < LISTS && Untouched(l, k)
    ensures Predicted(k, l, bits) == StdPredicted(k, l, bits) <==> !(k == 19 && Wraps(ReadUe(bits).0))
  {
    var delta := ReadUe(bits).0;
    hide ReadUe, Copied, Inferred, Defaulted, SizeOf, MatrixOf, Untouched, Distance, Unit, Wraps;
    AcceptedDeltas(k, delta);
    SameDistance(k, delta);
    DefaultedStays(l, k);
    if Distance(SizeOf(k), delta) <= MatrixOf(k) { CopiedIsInferred(l, k, Distance(SizeOf(k), delta)); }
  }

  lemma SameDistance(k: nat, delta: nat)
    requires k < LISTS && delta < WORD
    ensures Distance(SizeOf(k), delta) <= MatrixOf(k) && !(k == 19 && Wraps(delta)) ==>
              Distance(SizeOf(k), delta) == Unit(SizeOf(k)) * delta
    ensures k == 19 && Wraps(delta) ==> Unit(SizeOf(k)) * delta > MatrixOf(k) && delta > 0
  {
    AcceptedDeltas(k, delta);
    DistanceIs(delta);
  }

  lemma OneAgrees(k: nat, l: Lists, bits: seq<bool>)
    requires k < LISTS && Untouched(l, k)
    ensures DecodeOne(k, l, bits) == StdOne(k, l, bits) <==> !Departs(k, bits)
    ensures Departs(k, bits) ==> StdOne(k, l, bits).Bad?
  {
    var (explicit, s) := ReadBit(bits);
    if explicit && InRange(k, s) { ExplicitAgrees(k, l, s); }
    hide Predicted, Explicit, StdExplicit, InRange, ReadUe, Untouched, Wraps;
    if !explicit {
      PredictedAgrees(k, l, s);
      WrappedIsBad(k, l, s);
    }
    hide StdPredicted;
  }

  lemma WrappedIsBad(k: nat, l: Lists, bits: seq<bool>)
    requires k < LISTS
    ensures k == 19 && Wraps(ReadUe(bits).0) ==> StdPredicted(k, l, bits).Bad?
  {
    SameDistance(k, ReadUe(bits).0);
    hide ReadUe, Wraps, Unit, Inferred, Defaulted;
  }

  lemma OneLeavesRest(k: nat, l: Lists, bits: seq<bool>)
    requires k < LISTS && Untouched(l, k) && DecodeOne(k, l, bits).Good?
    ensures Untouched(DecodeOne(k, l, bits).lists, k + 1)
  {
    var m := DecodeOne(k, l, bits).lists;
    var (explicit, s) := ReadBit(bits);
    if explicit {
      ExplicitOnly(k, l, s);
    } else {
      var distance := Distance(SizeOf(k), ReadUe(s).0);
      if ReadUe(s).0 != 0 { CopiedOnly(k, l, distance); } else { assert OnlyList(k, l, l); }
    }
    hide Explicit, Copied, ReadUe, OnlyList, Untouched;
    OnlyListKeeps(k, l, m);
  }

  /** The lists as set_default_scaling_list_data leaves them. */
  function DefaultLists(): (l: Lists)
  {
    Lists(Defaults(), seq(12, p => 16))
  }

  lemma StdNext(k: nat, l: Lists, bits: seq<bool>)
    requires 0 < k <= LISTS
    ensures var o := StdTo(k - 1, l, bits);
            StdTo(k, l, bits) == if o.Good? then StdOne(k - 1, o.lists, o.rest) else Bad
  {
    hide StdOne;
  }

  lemma StartUntouched()
    ensures Untouched(DefaultLists(), 0)
  {
    hide Defaults;
  }

  /** No list that the standard reaches departs from it. */
  predicate NeverDeparts(k: nat, bits: seq<bool>)
    requires k <= LISTS
  {
    forall j :: 0 <= j < k && StdTo(j, DefaultLists(), bits).Good? ==> !Departs(j, StdTo(j, DefaultLists(), bits).rest)
  }

  lemma {:induction false} AgreesTo(k: nat, bits: seq<bool>)
    requires k <= LISTS && NeverDeparts(k, bits)
    ensures var o := DecodeTo(k, DefaultLists(), bits);
            o == StdTo(k, DefaultLists(), bits) && (o.Good? ==> Untouched(o.lists, k))
  {
    hide DecodeOne, StdOne, Untouched, DefaultLists, Departs, DecodeTo, StdTo;
    if k == 0 {
      StartUntouched();
      BothStart(bits);
    } else {
      DecodeNext(k, DefaultLists(), bits);
      StdNext(k, DefaultLists(), bits);
      AgreesTo(k - 1, bits);
      var o := DecodeTo(k - 1, DefaultLists(), bits);
      if o.Good? {
        OneAgrees(k - 1, o.lists, o.rest);
        if DecodeOne(k - 1, o.lists, o.rest).Good? { OneLeavesRest(k - 1, o.lists, o.rest); }
      }
    }
  }

  lemma BothStart(bits: seq<bool>)
    ensures DecodeTo(0, DefaultLists(), bits) == StdTo(0, DefaultLists(), bits) == Good(DefaultLists(), bits)
  {
  }

  /** What the standard accepts up to list k involved no departure. */
  lemma {:induction false} AcceptedNeverDeparts(k: nat, bits: seq<bool>)
    requires k <= LISTS && StdTo(k, DefaultLists(), bits).Good?
    ensures NeverDeparts(k, bits)
  {
    hide DecodeOne, StdOne, Untouched, DefaultLists, Departs, DecodeTo, StdTo;
    if k > 0 {
      StdNext(k, DefaultLists(), bits);
      AcceptedNeverDeparts(k - 1, bits);
      AgreesTo(k - 1, bits);
      var o := StdTo(k - 1, DefaultLists(), bits);
      OneAgrees(k - 1, o.lists, o.rest);
    }
  }

  /** From the defaults: what the driver rejects the standard rejects too, and what the driver accepts it
      decodes as the standard does if and only if no list departs. */
  lemma MatchesStandard(bits: seq<bool>)
    ensures DecodeTo(LISTS, DefaultLists(), bits).Bad? ==> StdTo(LISTS, DefaultLists(), bits).Bad?
    ensures DecodeTo(LISTS, DefaultLists(), bits).Good? ==>
              (DecodeTo(LISTS, DefaultLists(), bits) == StdTo(LISTS, DefaultLists(), bits)
               <==> NeverDeparts(LISTS, bits))
  {
    hide DefaultLists, Departs, DecodeTo, StdTo, NeverDeparts;
    if StdTo(LISTS, DefaultLists(), bits).Good? {
      AcceptedNeverDeparts(LISTS, bits);
      AgreesTo(LISTS, bits);
    } else if NeverDeparts(LISTS, bits) {
      AgreesTo(LISTS, bits);
    }
  }

  // ----- lists out of range -----

  /** The bits of a coded list with this dc and these deltas. */
  function Coded(k: nat, dc: int, ds: seq<int>): seq<bool> {
    [true] + ((if SizeOf(k) > 1 then WriteSe(dc - 8) else []) + WriteDeltas(ds))
  }

  predicate Readable(dc: int, ds: seq<int>) {
    -0x7fff_fff7 <= dc <= 0x7fff_ffff && forall i :: 0 <= i < |ds| ==> -0x7fff_ffff <= ds[i] <= 0x7fff_ffff
  }

  lemma CodedIsRead(k: nat, dc: int, ds: seq<int>, rest: seq<bool>)
    requires Readable(dc, ds) && |ds| == Count(SizeOf(k)) && (SizeOf(k) <= 1 ==> dc == 8)
    ensures var (explicit, s) := ReadBit(Coded(k, dc, ds) + rest);
            explicit && ReadDc(k, s) == (dc, WriteDeltas(ds) + rest)
            && ReadDeltas(WriteDeltas(ds) + rest, Count(SizeOf(k))) == (ds, rest)
  {
    hide ReadSe, WriteSe, WriteDeltas, ReadDeltas, SizeOf, Count;
    var tail := WriteDeltas(ds) + rest;
    DeltasRoundTrip(ds, rest);
    if SizeOf(k) > 1 {
      SeRoundTrip(dc - 8, tail);
      assert (Coded(k, dc, ds) + rest)[1..] == WriteSe(dc - 8) + tail;
    } else {
      assert (Coded(k, dc, ds) + rest)[1..] == tail;
    }
  }

  /** The driver accepts every coded list, the standard those in range. */
  lemma RangesDecide(k: nat, l: Lists, dc: int, ds: seq<int>, rest: seq<bool>)
    requires k < LISTS && Readable(dc, ds) && |ds| == Count(SizeOf(k)) && (SizeOf(k) <= 1 ==> dc == 8)
    ensures DecodeOne(k, l, Coded(k, dc, ds) + rest)
            == Good(WithCoefs(k, WithDc(k, l, dc), Coefs(dc, ds)), rest)
    ensures StdOne(k, l, Coded(k, dc, ds) + rest).Good? <==> ValuesInRange(k, dc, ds)
  {
    CodedIsRead(k, dc, ds, rest);
    hide ReadDc, ReadDeltas, WithCoefs, WithDc, Coefs, StdExplicit, Coded, ValuesInRange, SizeOf, Count, Predicted;
    hide StdPredicted, WriteDeltas;
  }

  /** A first delta of 128, and a dc code of 300 that is stored as 52. */
  lemma OutOfRangeExamples(l: Lists, rest: seq<bool>)
    ensures var ds := [128] + seq(15, i => 0);
            DecodeOne(0, l, Coded(0, 8, ds) + rest).Good? && StdOne(0, l, Coded(0, 8, ds) + rest).Bad?
    ensures var ds := seq(64, i => 0);
            var o := DecodeOne(12, l, Coded(12, 308, ds) + rest);
            o.Good? && o.lists.dc[DcIndex(12)] == 52 && StdOne(12, l, Coded(12, 308, ds) + rest).Bad?
  {
    hide DecodeOne, StdOne, Coded, Coefs, StdCoefs, WithCoefs;
    assert SizeOf(0) == 0 && Count(SizeOf(0)) == 16 && SizeOf(12) == 2 && Count(SizeOf(12)) == 64;
    var ds: seq<int> := [128] + seq(15, i => 0);
    RangesDecide(0, l, 8, ds, rest);
    assert ds[0] == 128 && !ValuesInRange(0, 8, ds);
    var zs: seq<int> := seq(64, i => 0);
    RangesDecide(12, l, 308, zs, rest);
    CoefsKeepDc(12, WithDc(12, l, 308), Coefs(308, zs));
  }
}
