/** The up-right diagonal scan of drivers/amvdec_ports/decoder/aml_hevc_parser.c against the scan order
    process of section 6.5.3 of H.265: both tables visit every position of their block once. */
module HevcScan {

  const X4: seq<nat> := [0, 0, 1, 0, 1, 2, 0, 1, 2, 3, 1, 2, 3, 2, 3, 3]
  const Y4: seq<nat> := [0, 1, 0, 2, 1, 0, 3, 2, 1, 0, 3, 2, 1, 3, 2, 3]

  const X8_0: seq<nat> := [0, 0, 1, 0, 1, 2, 0, 1]
  const X8_1: seq<nat> := [2, 3, 0, 1, 2, 3, 4, 0]
  const X8_2: seq<nat> := [1, 2, 3, 4, 5, 0, 1, 2]
  const X8_3: seq<nat> := [3, 4, 5, 6, 0, 1, 2, 3]
  const X8_4: seq<nat> := [4, 5, 6, 7, 1, 2, 3, 4]
  const X8_5: seq<nat> := [5, 6, 7, 2, 3, 4, 5, 6]
  const X8_6: seq<nat> := [7, 3, 4, 5, 6, 7, 4, 5]
  const X8_7: seq<nat> := [6, 7, 5, 6, 7, 6, 7, 7]
  const X8: seq<nat> :=
    X8_0 + X8_1 + X8_2 + X8_3 + X8_4 + X8_5 + X8_6 + X8_7

  const Y8_0: seq<nat> := [0, 1, 0, 2, 1, 0, 3, 2]
  const Y8_1: seq<nat> := [1, 0, 4, 3, 2, 1, 0, 5]
  const Y8_2: seq<nat> := [4, 3, 2, 1, 0, 6, 5, 4]
  const Y8_3: seq<nat> := [3, 2, 1, 0, 7, 6, 5, 4]
  const Y8_4: seq<nat> := [3, 2, 1, 0, 7, 6, 5, 4]
  const Y8_5: seq<nat> := [3, 2, 1, 7, 6, 5, 4, 3]
  const Y8_6: seq<nat> := [2, 7, 6, 5, 4, 3, 7, 6]
  const Y8_7: seq<nat> := [5, 4, 7, 6, 5, 7, 6, 7]
  const Y8: seq<nat> :=
    Y8_0 + Y8_1 + Y8_2 + Y8_3 + Y8_4 + Y8_5 + Y8_6 + Y8_7

  /** The position that follows (x, y) in an n by n block: up and right, or the start of the next
      diagonal that lies inside the block. */
  function Next(x: nat, y: nat, n: nat): (nat, nat)
    requires x < n && y < n
  {
    if y > 0 && x + 1 < n then (x + 1, y - 1)
    else if x + y + 1 < n then (0, x + y + 1)
    else (x + y + 2 - n, n - 1)
  }

  /** The tables list consecutive positions of the scan. */
  predicate Walk(xs: seq<nat>, ys: seq<nat>, n: nat) {
    && |xs| == |ys|
    && (forall i :: 0 <= i < |xs| ==> xs[i] < n && ys[i] < n)
    && (forall i, j :: 0 <= i < |xs| - 1 && j == i + 1 ==> Next(xs[i], ys[i], n) == (xs[j], ys[j]))
  }

  lemma Glue(xs: seq<nat>, ys: seq<nat>, us: seq<nat>, vs: seq<nat>, n: nat)
    requires Walk(xs, ys, n) && Walk(us, vs, n) && xs != [] && us != []
    requires Next(xs[|xs| - 1], ys[|ys| - 1], n) == (us[0], vs[0])
    ensures Walk(xs + us, ys + vs, n)
  {
  }

  /** Eight entries in a row. */
  predicate Row(xs: seq<nat>, ys: seq<nat>) {
    && |xs| == 8 && |ys| == 8
    && (xs[0] < 8 && xs[1] < 8 && xs[2] < 8 && xs[3] < 8 && xs[4] < 8 && xs[5] < 8 && xs[6] < 8 && xs[7] < 8)
    && (ys[0] < 8 && ys[1] < 8 && ys[2] < 8 && ys[3] < 8 && ys[4] < 8 && ys[5] < 8 && ys[6] < 8 && ys[7] < 8)
    && Next(xs[0], ys[0], 8) == (xs[1], ys[1]) && Next(xs[1], ys[1], 8) == (xs[2], ys[2])
    && Next(xs[2], ys[2], 8) == (xs[3], ys[3]) && Next(xs[3], ys[3], 8) == (xs[4], ys[4])
    && Next(xs[4], ys[4], 8) == (xs[5], ys[5]) && Next(xs[5], ys[5], 8) == (xs[6], ys[6])
    && Next(xs[6], ys[6], 8) == (xs[7], ys[7])
  }

  lemma RowWalks(xs: seq<nat>, ys: seq<nat>)
    requires Row(xs, ys)
    ensures Walk(xs, ys, 8)
  {
    hide Next;
  }

  lemma Walk4()
    ensures Walk(X4, Y4, 4)
  {
    assert Next(X4[0], Y4[0], 4) == (X4[1], Y4[1]) && Next(X4[1], Y4[1], 4) == (X4[2], Y4[2]);
  }

  lemma Walk8()
    ensures Walk(X8, Y8, 8)
  {
    RowWalks(X8_0, Y8_0);
    RowWalks(X8_1, Y8_1);
    RowWalks(X8_2, Y8_2);
    RowWalks(X8_3, Y8_3);
    RowWalks(X8_4, Y8_4);
    RowWalks(X8_5, Y8_5);
    RowWalks(X8_6, Y8_6);
    RowWalks(X8_7, Y8_7);
    hide Walk, Row;
    Glue(X8_0, Y8_0, X8_1, Y8_1, 8);
    Glue(X8_0 + X8_1, Y8_0 + Y8_1, X8_2, Y8_2, 8);
    Glue(X8_0 + X8_1 + X8_2, Y8_0 + Y8_1 + Y8_2, X8_3, Y8_3, 8);
    Glue(X8_0 + X8_1 + X8_2 + X8_3, Y8_0 + Y8_1 + Y8_2 + Y8_3, X8_4, Y8_4, 8);
    Glue(X8_0 + X8_1 + X8_2 + X8_3 + X8_4, Y8_0 + Y8_1 + Y8_2 + Y8_3 + Y8_4, X8_5, Y8_5, 8);
    Glue(X8_0 + X8_1 + X8_2 + X8_3 + X8_4 + X8_5, Y8_0 + Y8_1 + Y8_2 + Y8_3 + Y8_4 + Y8_5, X8_6, Y8_6, 8);
    Glue(X8_0 + X8_1 + X8_2 + X8_3 + X8_4 + X8_5 + X8_6, Y8_0 + Y8_1 + Y8_2 + Y8_3 + Y8_4 + Y8_5 + Y8_6, X8_7, Y8_7, 8);
  }

  /** pos of scaling_list_data for the i-th coefficient. */
  function Positions(xs: seq<nat>, ys: seq<nat>, n: nat): (r: seq<nat>)
    requires |xs| == |ys|
    ensures |r| == |xs|
  {
    seq(|xs|, i requires 0 <= i < |xs| => n * ys[i] + xs[i])
  }

  predicate OneToOne(scan: seq<nat>) {
    && (forall i :: 0 <= i < |scan| ==> scan[i] < |scan|)
    && (forall i, j :: 0 <= i < j < |scan| ==> scan[i] != scan[j])
  }

  /** Later positions lie on a later diagonal, or further right on the same one. */
  lemma {:induction false} Later(xs: seq<nat>, ys: seq<nat>, n: nat, i: nat, j: nat)
    requires Walk(xs, ys, n) && i < j < |xs|
    ensures xs[i] + ys[i] < xs[j] + ys[j] || (xs[i] + ys[i] == xs[j] + ys[j] && xs[i] < xs[j])
    decreases j
  {
    var k := j - 1;
    assert Next(xs[k], ys[k], n) == (xs[j], ys[j]);
    if i < k { Later(xs, ys, n, i, k); }
  }

  lemma SamePosition(n: nat, x: nat, y: nat, u: nat, v: nat)
    requires n == 4 || n == 8
    requires x < n && u < n && n * y + x == n * v + u
    ensures x == u && y == v
  {
    if n == 4 { assert 4 * y + x == 4 * v + u; } else { assert 8 * y + x == 8 * v + u; }
  }

  /** A scan of all n * n positions is one to one. */
  lemma WalkIsOneToOne(xs: seq<nat>, ys: seq<nat>, n: nat)
    requires n == 4 || n == 8
    requires Walk(xs, ys, n) && |xs| == n * n
    ensures OneToOne(Positions(xs, ys, n))
  {
    var p := Positions(xs, ys, n);
    forall i | 0 <= i < |p| ensures p[i] < |p| { }
    forall i, j | 0 <= i < j < |p| ensures p[i] != p[j] {
      Later(xs, ys, n, i, j);
      if p[i] == p[j] { SamePosition(n, xs[i], ys[i], xs[j], ys[j]); }
    }
  }

  const SCAN4: seq<nat> := Positions(X4, Y4, 4)
  const SCAN8: seq<nat> := Positions(X8, Y8, 8)

  lemma ScansAreOneToOne()
    ensures |SCAN4| == 16 && OneToOne(SCAN4) && |SCAN8| == 64 && OneToOne(SCAN8)
  {
    Walk4();
    Walk8();
    WalkIsOneToOne(X4, Y4, 4);
    WalkIsOneToOne(X8, Y8, 8);
  }

  // ----- one to one on as many places means onto -----

  function Values(q: seq<nat>): set<nat> {
    if q == [] then {} else Values(q[..|q| - 1]) + {q[|q| - 1]}
  }

  lemma {:induction false} ValuesCount(q: seq<nat>)
    requires forall i, j :: 0 <= i < j < |q| ==> q[i] != q[j]
    ensures |Values(q)| == |q| && forall x :: x in Values(q) <==> x in q
  {
    if q != [] {
      var g := q[..|q| - 1];
      assert q == g + [q[|q| - 1]];
      ValuesCount(g);
    }
  }

  function Below(n: nat): set<nat> {
    if n == 0 then {} else Below(n - 1) + {n - 1}
  }

  lemma {:induction false} BelowCount(n: nat)
    ensures |Below(n)| == n && forall x: nat :: x in Below(n) <==> x < n
  {
    if n > 0 { BelowCount(n - 1); }
  }

  lemma SameSize(a: set<nat>, b: set<nat>)
    requires a <= b && |a| == |b|
    ensures a == b
  {
    assert b == a + (b - a);
  }

  /** Every position is visited. */
  lemma Onto(scan: seq<nat>, p: nat) returns (i: nat)
    requires OneToOne(scan) && p < |scan|
    ensures i < |scan| && scan[i] == p
  {
    ValuesCount(scan);
    BelowCount(|scan|);
    SameSize(Values(scan), Below(|scan|));
    assert p in Below(|scan|);
    i :| 0 <= i < |scan| && scan[i] == p;
  }
}
