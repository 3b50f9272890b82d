/** set_default_scaling_list_data and scaling_list_data of drivers/amvdec_ports/decoder/aml_hevc_parser.c
    over the arrays they fill. */
module HevcScalingDecoder {
  import opened Basics
  import opened BitReader
  import opened HevcScan
  import opened HevcScaling
  import opened HevcScalingRef

  /** struct ScalingList, row after row. */
  class ScalingList {
    const sl: array<nat>
    const dc: array<nat>

    constructor ()
      ensures Valid() && fresh(sl) && fresh(dc)
      ensures forall p :: 0 <= p < sl.Length ==> sl[p] == 0
    {
      sl := new nat[SIZE](i => 0);
      dc := new nat[12](i => 0);
    }

    ghost predicate Valid() { sl.Length == SIZE && dc.Length == 12 && sl != dc }

    function Value(): (l: Lists)
      requires Valid()
      reads sl, dc
    {
      Lists(sl[..], dc[..])
    }

    /** The matrices of size_id 0 get 16 entries, the others a table each. */
    method SetDefault()
      requires Valid()
      modifies sl, dc
      ensures forall p :: 0 <= p < SIZE ==>
                sl[p] == if p / 64 < 6 && p % 64 >= 16 then old(sl[p]) else DefaultAt(p)
      ensures forall q :: 0 <= q < 12 ==> dc[q] == 16
    {
      for p := 0 to SIZE
        invariant forall i :: p <= i < SIZE ==> sl[i] == old(sl[i])
        invariant forall i :: 0 <= i < p ==>
                    sl[i] == if i / 64 < 6 && i % 64 >= 16 then old(sl[i]) else DefaultAt(i)
      {
        if !(p / 64 < 6 && p % 64 >= 16) {
          sl[p] := DefaultAt(p);
        }
      }
      for q := 0 to 12
        invariant forall i :: 0 <= i < q ==> dc[i] == 16
        invariant forall i :: 0 <= i < SIZE ==>
                    sl[i] == if i / 64 < 6 && i % 64 >= 16 then old(sl[i]) else DefaultAt(i)
      {
        dc[q] := 16;
      }
    }

    /** One coefficient per delta, through the scan table. */
    method ReadCoefs(k: nat, start: int, gb: GetBits)
      requires Valid() && k < LISTS
      modifies sl, gb
      ensures gb.rest == ReadDeltas(old(gb.rest), Count(SizeOf(k))).1
      ensures Value() == WithCoefs(k, old(Value()), Coefs(start, ReadDeltas(old(gb.rest), Count(SizeOf(k))).0))
    {
      hide ReadSe, Base, SizeOf, Mod256, Count, Scan, Put, Coefs, ReadDeltas, Last, OneToOne;
      Places(k);
      var n, base, next := Count(SizeOf(k)), Base(k), start;
      var scan := Scan(SizeOf(k));
      ghost var was, bits, ds := sl[..], gb.rest, ReadDeltas(gb.rest, 0).0;
      Nothing(bits, start, was, base, scan);
      for i := 0 to n
        invariant ReadDeltas(bits, i) == (ds, gb.rest) && |ds| == i
        invariant next == Last(start, Coefs(start, ds))
        invariant sl[..] == Put(was, base, scan, Coefs(start, ds))
      {
        ghost var d := ReadSe(gb.rest).0;
        ReadNext(bits, i, start, ds, gb.rest);
        ScanFits(scan, i);
        PutNext(was, base, scan, Coefs(start, ds), Mod256(next + d));
        var delta := gb.GetSeGolomb();
        next := Mod256(next + delta);
        sl[base + scan[i]] := next;
        ds := ds + [d];
      }
    }

    /** memcpy within the array. */
    method MoveList(dst: nat, src: nat, n: nat)
      requires dst + n <= sl.Length && src + n <= sl.Length && (src == dst || src + n <= dst)
      modifies sl
      ensures sl[..] == Moved(old(sl[..]), dst, src, n)
    {
      ghost var was := sl[..];
      MovedNone(was, dst, src);
      for i := 0 to n
        invariant sl[..] == Moved(was, dst, src, i)
      {
        MovedNext(was, dst, src, i);
        assert sl[src + i] == sl[..][src + i];
        sl[dst + i] := sl[src + i];
      }
    }

    /** The reference copied over list k, coefficients and dc. */
    method CopyReference(k: nat, distance: nat)
      requires Valid() && k < LISTS && distance <= MatrixOf(k)
      modifies sl, dc
      ensures Value() == Copied(old(Value()), k, distance)
    {
      CopiedIs(Value(), k, distance);
      Apart(k, distance);
      hide SizeOf, MatrixOf, At, Count, Copied, Moved, DcAt;
      var size, matrix := SizeOf(k), MatrixOf(k);
      MoveList(At(size, matrix), At(size, matrix - distance), Count(size));
      if size > 1 {
        dc[DcAt(size, matrix)] := dc[DcAt(size, matrix - distance)];
      }
    }

    method StoreDc(k: nat, value: int)
      requires Valid() && k < LISTS
      modifies dc
      ensures Value() == WithDc(k, old(Value()), value)
    {
      if SizeOf(k) > 1 {
        dc[DcIndex(k)] := Mod256(value);
      }
    }

    method ReadExplicit(k: nat, gb: GetBits)
      requires Valid() && k < LISTS
      modifies sl, dc, gb
      ensures (Value(), gb.rest) == Explicit(k, old(Value()), old(gb.rest))
    {
      hide ReadSe, ReadDeltas, Coefs, WithCoefs, WithDc, Count;
      var next := 8;
      if SizeOf(k) > 1 {
        var d := gb.GetSeGolomb();
        next := d + 8;
      }
      hide SizeOf;
      StoreDc(k, next);
      ReadCoefs(k, next, gb);
    }

    method ReadPredicted(k: nat, gb: GetBits) returns (ok: bool)
      requires Valid() && k < LISTS
      modifies sl, dc, gb
      ensures Predicted(k, old(Value()), old(gb.rest)) == if ok then Good(Value(), gb.rest) else Bad
    {
      hide ReadUe, Copied, SizeOf, MatrixOf;
      var delta := gb.GetUeGolombLong();
      if delta != 0 {
        if SizeOf(k) == 3 {
          delta := (3 * delta) % WORD;
        }
        if MatrixOf(k) < delta {
          return false;
        }
        CopyReference(k, delta);
      }
      ok := true;
    }

    method ReadList(k: nat, gb: GetBits) returns (ok: bool)
      requires Valid() && k < LISTS
      modifies sl, dc, gb
      ensures DecodeOne(k, old(Value()), old(gb.rest)) == if ok then Good(Value(), gb.rest) else Bad
    {
      hide Predicted, Explicit;
      var explicit := gb.GetBits1();
      if explicit {
        ReadExplicit(k, gb);
        ok := true;
      } else {
        ok := ReadPredicted(k, gb);
      }
    }

    /** The loop of the 4:4:4 copies. */
    method CopyCoefs()
      requires Valid()
      modifies sl
      ensures sl[..] == Chroma(old(sl[..]), 64)
    {
      ghost var was := sl[..];
      assert sl[..] == Chroma(was, 0);
      for i := 0 to 64
        invariant sl[..] == Chroma(was, i)
      {
        ChromaNext(was, i);
        hide Chroma;
        sl[At(3, 1) + i] := sl[At(2, 1) + i];
        sl[At(3, 2) + i] := sl[At(2, 2) + i];
        sl[At(3, 4) + i] := sl[At(2, 4) + i];
        sl[At(3, 5) + i] := sl[At(2, 5) + i];
      }
    }

    method CopyChroma()
      requires Valid()
      modifies sl, dc
      ensures Value() == Chroma444(old(Value()))
    {
      hide Chroma444, Chroma;
      CopyCoefs();
      dc[7], dc[8], dc[10], dc[11] := dc[1], dc[2], dc[4], dc[5];
      ChromaEnd(old(Value()));
    }

    /** scaling_list_data; a false result leaves the lists decoded before the bad reference. */
    method ScalingListData(gb: GetBits, chroma444: bool) returns (ok: bool)
      requires Valid()
      modifies sl, dc, gb
      ensures HevcScaling.ScalingListData(old(Value()), old(gb.rest), chroma444)
              == if ok then Good(Value(), gb.rest) else Bad
    {
      hide DecodeOne, Chroma444, DecodeTo;
      ghost var l, bits := Value(), gb.rest;
      var k := 0;
      DecodeNothing(l, bits);
      for size := 0 to 4
        invariant Valid() && k == if size < 4 then 6 * size else LISTS
        invariant DecodeTo(k, l, bits) == Good(Value(), gb.rest)
      {
        var matrix := 0;
        while matrix < 6
          invariant Valid() && matrix <= 6 && (size == 3 ==> matrix % 3 == 0)
          invariant k == if size < 3 then 6 * size + matrix else 18 + matrix / 3
          invariant DecodeTo(k, l, bits) == Good(Value(), gb.rest)
          decreases 6 - matrix
        {
          ListAt(size, matrix, k);
          DecodeNext(k + 1, l, bits);
          ok := ReadList(k, gb);
          if !ok {
            BadStays(k + 1, LISTS, l, bits);
            return;
          }
          k := k + 1;
          matrix := matrix + if size == 3 then 3 else 1;
        }
      }
      if chroma444 {
        CopyChroma();
      }
      ok := true;
    }
  }

  /** i entries from src on copied to dst on. */
  function Moved(was: seq<nat>, dst: nat, src: nat, i: nat): (r: seq<nat>)
    requires dst + i <= |was| && src + i <= |was|
    ensures |r| == |was|
  {
    was[..dst] + was[src..src + i] + was[dst + i..]
  }

  lemma MovedNone(was: seq<nat>, dst: nat, src: nat)
    requires dst <= |was| && src <= |was|
    ensures Moved(was, dst, src, 0) == was
  {
  }

  lemma MovedNext(was: seq<nat>, dst: nat, src: nat, i: nat)
    requires dst + i < |was| && src + i < |was| && (src == dst || src + i < dst)
    ensures Moved(was, dst, src, i)[src + i] == was[src + i]
    ensures Moved(was, dst, src, i + 1) == Moved(was, dst, src, i)[dst + i := was[src + i]]
  {
  }

  /** The array after i rounds of the 4:4:4 copy. */
  function Chroma(was: seq<nat>, i: nat): (r: seq<nat>)
    requires |was| == SIZE && i <= 64
    ensures |r| == SIZE
  {
    seq(SIZE, p requires 0 <= p < SIZE => if Copied444(p, i) then was[p - 384] else was[p])
  }

  lemma ChromaNext(was: seq<nat>, i: nat)
    requires |was| == SIZE && i < 64
    ensures var c := Chroma(was, i);
            Chroma(was, i + 1) == c[1216 + i := c[832 + i]][1280 + i := c[896 + i]][1408 + i := c[1024 + i]]
                                   [1472 + i := c[1088 + i]]
  {
  }

  /** The entries written in the first i rounds of the 4:4:4 copy. */
  predicate Copied444(p: nat, i: nat) {
    || 1216 <= p < 1216 + i || 1280 <= p < 1280 + i || 1408 <= p < 1408 + i || 1472 <= p < 1472 + i
  }

  lemma ChromaEnd(l: Lists)
    ensures Chroma444(l).sl == Chroma(l.sl, 64)
    ensures Chroma444(l).dc == l.dc[7 := l.dc[1]][8 := l.dc[2]][10 := l.dc[4]][11 := l.dc[5]]
  {
    forall p | 0 <= p < SIZE ensures Copied444(p, 64) == FromSize2(p / 64) { WholeBlocks(p); }
  }

  lemma WholeBlocks(p: nat)
    requires p < SIZE
    ensures Copied444(p, 64) == FromSize2(p / 64)
  {
    assert p == 64 * (p / 64) + p % 64;
  }

  /** The place of matrix_id and size_id in the order of the lists. */
  lemma ListAt(size: nat, matrix: nat, k: nat)
    requires size < 4 && matrix < 6 && (size == 3 ==> matrix % 3 == 0)
    requires k == if size < 3 then 6 * size + matrix else 18 + matrix / 3
    ensures k < LISTS && SizeOf(k) == size && MatrixOf(k) == matrix
  {
  }

  lemma DecodeNothing(l: Lists, bits: seq<bool>)
    ensures DecodeTo(0, l, bits) == Good(l, bits)
  {
  }

  lemma {:induction false} BadStays(j: nat, k: nat, l: Lists, bits: seq<bool>)
    requires j <= k <= LISTS && DecodeTo(j, l, bits) == Bad
    ensures DecodeTo(k, l, bits) == Bad
  {
    hide DecodeOne, DecodeTo;
    if j < k {
      BadStays(j, k - 1, l, bits);
      DecodeNext(k, l, bits);
    }
  }

  lemma CopiedIs(l: Lists, k: nat, distance: nat)
    requires k < LISTS && distance <= MatrixOf(k)
    ensures var size, matrix := SizeOf(k), MatrixOf(k);
            && At(size, matrix) + Count(size) <= SIZE && (size >= 2 ==> DcAt(size, matrix) < 12)
            && Copied(l, k, distance)
               == Lists(Moved(l.sl, At(size, matrix), At(size, matrix - distance), Count(size)),
                        if size > 1 then l.dc[DcAt(size, matrix) := l.dc[DcAt(size, matrix - distance)]] else l.dc)
  {
  }

  /** The reference and the list do not overlap. */
  lemma Apart(k: nat, distance: nat)
    requires k < LISTS && distance <= MatrixOf(k)
    ensures var dst, src := At(SizeOf(k), MatrixOf(k)), At(SizeOf(k), MatrixOf(k) - distance);
            dst + 64 <= SIZE && (src == dst || src + 64 <= dst)
  {
  }

  lemma ScanFits(scan: seq<nat>, i: nat)
    requires OneToOne(scan) && i < |scan|
    ensures scan[i] < |scan|
  {
  }

  lemma Nothing(bits: seq<bool>, start: int, was: seq<nat>, base: nat, scan: seq<nat>)
    requires OneToOne(scan) && base + |scan| <= |was|
    ensures ReadDeltas(bits, 0) == ([], bits) && Coefs(start, []) == [] && Last(start, []) == start
    ensures Put(was, base, scan, []) == was
  {
  }

  lemma ReadNext(bits: seq<bool>, i: nat, start: int, ds: seq<int>, s: seq<bool>)
    requires ReadDeltas(bits, i) == (ds, s)
    ensures ReadDeltas(bits, i + 1) == (ds + [ReadSe(s).0], ReadSe(s).1)
    ensures var c := Mod256(Last(start, Coefs(start, ds)) + ReadSe(s).0);
            Coefs(start, ds + [ReadSe(s).0]) == Coefs(start, ds) + [c] && Last(start, Coefs(start, ds) + [c]) == c
  {
    hide ReadSe;
    assert (ds + [ReadSe(s).0])[..|ds|] == ds;
  }

  lemma PutNext(was: seq<nat>, base: nat, scan: seq<nat>, cs: seq<nat>, c: nat)
    requires |cs| < |scan| && OneToOne(scan) && base + |scan| <= |was|
    ensures Put(was, base, scan, cs + [c]) == Put(was, base, scan, cs)[base + scan[|cs|] := c]
  {
    assert (cs + [c])[..|cs|] == cs;
  }
}
