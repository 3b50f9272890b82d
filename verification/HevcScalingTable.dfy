/** What section 7.4.5 of H.265 says of the defaults, of the place of a coefficient and of 4:4:4 chroma, in terms
    of size_id, matrix_id and the scan. */
module HevcScalingTable {
  import opened Basics
  import opened HevcScan
  import opened HevcScaling
  import opened HevcScalingRef

  // ----- Table 7-6, in scan order -----

  const TABLE_INTRA_0: seq<nat> := [16, 16, 16, 16, 16, 16, 16, 16]
  const TABLE_INTRA_1: seq<nat> := [16, 16, 17, 16, 17, 16, 17, 18]
  const TABLE_INTRA_2: seq<nat> := [17, 18, 18, 17, 18, 21, 19, 20]
  const TABLE_INTRA_3: seq<nat> := [21, 20, 19, 21, 24, 22, 22, 24]
  const TABLE_INTRA_4: seq<nat> := [24, 22, 22, 24, 25, 25, 27, 30]
  const TABLE_INTRA_5: seq<nat> := [27, 25, 25, 29, 31, 35, 35, 31]
  const TABLE_INTRA_6: seq<nat> := [29, 36, 41, 44, 41, 36, 47, 54]
  const TABLE_INTRA_7: seq<nat> := [54, 47, 65, 70, 65, 88, 88, 115]

  const TABLE_INTER_0: seq<nat> := [16, 16, 16, 16, 16, 16, 16, 16]
  const TABLE_INTER_1: seq<nat> := [16, 16, 17, 17, 17, 17, 17, 18]
  const TABLE_INTER_2: seq<nat> := [18, 18, 18, 18, 18, 20, 20, 20]
  const TABLE_INTER_3: seq<nat> := [20, 20, 20, 20, 24, 24, 24, 24]
  const TABLE_INTER_4: seq<nat> := [24, 24, 24, 24, 25, 25, 25, 25]
  const TABLE_INTER_5: seq<nat> := [25, 25, 25, 28, 28, 28, 28, 28]
  const TABLE_INTER_6: seq<nat> := [28, 33, 33, 33, 33, 33, 41, 41]
  const TABLE_INTER_7: seq<nat> := [41, 41, 54, 54, 54, 71, 71, 91]

  const TABLE_INTRA: seq<seq<nat>> := [
    TABLE_INTRA_0, TABLE_INTRA_1, TABLE_INTRA_2, TABLE_INTRA_3,
    TABLE_INTRA_4, TABLE_INTRA_5, TABLE_INTRA_6, TABLE_INTRA_7]

  const TABLE_INTER: seq<seq<nat>> := [
    TABLE_INTER_0, TABLE_INTER_1, TABLE_INTER_2, TABLE_INTER_3,
    TABLE_INTER_4, TABLE_INTER_5, TABLE_INTER_6, TABLE_INTER_7]

  /** Eight entries of Table 7-6 at their scan positions in the raster table. */
  predicate RowAt(raster: seq<seq<nat>>, xs: seq<nat>, ys: seq<nat>, row: seq<nat>)
    requires |raster| == 8 && (forall y :: 0 <= y < 8 ==> |raster[y]| == 8) && |xs| == |ys| == |row| == 8
    requires forall j :: 0 <= j < 8 ==> xs[j] < 8 && ys[j] < 8
  {
    && raster[ys[0]][xs[0]] == row[0] && raster[ys[1]][xs[1]] == row[1]
    && raster[ys[2]][xs[2]] == row[2] && raster[ys[3]][xs[3]] == row[3]
    && raster[ys[4]][xs[4]] == row[4] && raster[ys[5]][xs[5]] == row[5]
    && raster[ys[6]][xs[6]] == row[6] && raster[ys[7]][xs[7]] == row[7]
  }

  lemma IntraFirst()
    ensures RowAt(INTRA, X8_0, Y8_0, TABLE_INTRA_0) && RowAt(INTRA, X8_1, Y8_1, TABLE_INTRA_1)
    ensures RowAt(INTRA, X8_2, Y8_2, TABLE_INTRA_2) && RowAt(INTRA, X8_3, Y8_3, TABLE_INTRA_3)
  {
  }

  lemma IntraLast()
    ensures RowAt(INTRA, X8_4, Y8_4, TABLE_INTRA_4) && RowAt(INTRA, X8_5, Y8_5, TABLE_INTRA_5)
    ensures RowAt(INTRA, X8_6, Y8_6, TABLE_INTRA_6) && RowAt(INTRA, X8_7, Y8_7, TABLE_INTRA_7)
  {
  }

  lemma InterFirst()
    ensures RowAt(INTER, X8_0, Y8_0, TABLE_INTER_0) && RowAt(INTER, X8_1, Y8_1, TABLE_INTER_1)
    ensures RowAt(INTER, X8_2, Y8_2, TABLE_INTER_2) && RowAt(INTER, X8_3, Y8_3, TABLE_INTER_3)
  {
  }

  lemma InterLast()
    ensures RowAt(INTER, X8_4, Y8_4, TABLE_INTER_4) && RowAt(INTER, X8_5, Y8_5, TABLE_INTER_5)
    ensures RowAt(INTER, X8_6, Y8_6, TABLE_INTER_6) && RowAt(INTER, X8_7, Y8_7, TABLE_INTER_7)
  {
  }
  /** Entry i of the default of a matrix: Table 7-5 for 4x4, Table 7-6 for the larger ones, where matrix_id 0 to 2
      are the intra matrices and 3 to 5 the inter ones. */
  function Default(size: nat, matrix: nat, i: nat): nat
    requires i < 64
  {
    if size == 0 then 16 else if matrix < 3 then TABLE_INTRA[i / 8][i % 8] else TABLE_INTER[i / 8][i % 8]
  }

  lemma RowOf(raster: seq<seq<nat>>, xs: seq<nat>, ys: seq<nat>, row: seq<nat>, j: nat)
    requires |raster| == 8 && (forall y :: 0 <= y < 8 ==> |raster[y]| == 8) && |xs| == |ys| == |row| == 8
    requires forall j :: 0 <= j < 8 ==> xs[j] < 8 && ys[j] < 8
    requires RowAt(raster, xs, ys, row) && j < 8
    ensures raster[ys[j]][xs[j]] == row[j]
  {
  }

  const XS: seq<seq<nat>> := [X8_0, X8_1, X8_2, X8_3, X8_4, X8_5, X8_6, X8_7]
  const YS: seq<seq<nat>> := [Y8_0, Y8_1, Y8_2, Y8_3, Y8_4, Y8_5, Y8_6, Y8_7]

  lemma RowsOfX()
    ensures forall i :: 0 <= i < 64 ==> X8[i] == XS[i / 8][i % 8]
  {
    forall i | 0 <= i < 64 ensures X8[i] == XS[i / 8][i % 8] { assert i == 8 * (i / 8) + i % 8; }
  }

  lemma RowsOfY()
    ensures forall i :: 0 <= i < 64 ==> Y8[i] == YS[i / 8][i % 8]
  {
    forall i | 0 <= i < 64 ensures Y8[i] == YS[i / 8][i % 8] { assert i == 8 * (i / 8) + i % 8; }
  }

  /** Eight rows of eight. */
  predicate Square(m: seq<seq<nat>>) { |m| == 8 && forall r :: 0 <= r < 8 ==> |m[r]| == 8 }

  predicate Places8(m: seq<seq<nat>>) { Square(m) && forall r, c :: 0 <= r < 8 && 0 <= c < 8 ==> m[r][c] < 8 }

  /** The table is what the raster holds along the scan. */
  predicate Listed(raster: seq<seq<nat>>, table: seq<seq<nat>>)
    requires Square(raster) && Square(table)
  {
    forall i :: 0 <= i < 64 && X8[i] < 8 && Y8[i] < 8 ==> raster[Y8[i]][X8[i]] == table[i / 8][i % 8]
  }

  lemma Gathered(raster: seq<seq<nat>>, xs: seq<seq<nat>>, ys: seq<seq<nat>>, table: seq<seq<nat>>, i: nat)
    requires Square(raster) && Square(table) && Places8(xs) && Places8(ys) && i < 64
    requires forall r :: 0 <= r < 8 ==> RowAt(raster, xs[r], ys[r], table[r])
    ensures raster[ys[i / 8][i % 8]][xs[i / 8][i % 8]] == table[i / 8][i % 8]
  {
    hide RowAt;
    RowOf(raster, xs[i / 8], ys[i / 8], table[i / 8], i % 8);
  }

  lemma ScanPlaces()
    ensures Places8(XS) && Places8(YS)
  {
  }

  lemma IntraIsListed()
    ensures Square(INTRA) && Square(TABLE_INTRA) && Listed(INTRA, TABLE_INTRA)
  {
    IntraFirst();
    IntraLast();
    ScanPlaces();
    RowsOfX();
    RowsOfY();
    assert Square(INTRA) && Square(TABLE_INTRA);
    assert forall r :: 0 <= r < 8 ==> RowAt(INTRA, XS[r], YS[r], TABLE_INTRA[r]) by { hide RowAt; }
    hide *;
    forall i | 0 <= i < 64 ensures INTRA[YS[i / 8][i % 8]][XS[i / 8][i % 8]] == TABLE_INTRA[i / 8][i % 8] {
      Gathered(INTRA, XS, YS, TABLE_INTRA, i);
    }
  }

  lemma InterIsListed()
    ensures Square(INTER) && Square(TABLE_INTER) && Listed(INTER, TABLE_INTER)
  {
    InterFirst();
    InterLast();
    ScanPlaces();
    RowsOfX();
    RowsOfY();
    assert Square(INTER) && Square(TABLE_INTER);
    assert forall r :: 0 <= r < 8 ==> RowAt(INTER, XS[r], YS[r], TABLE_INTER[r]) by { hide RowAt; }
    hide *;
    forall i | 0 <= i < 64 ensures INTER[YS[i / 8][i % 8]][XS[i / 8][i % 8]] == TABLE_INTER[i / 8][i % 8] {
      Gathered(INTER, XS, YS, TABLE_INTER, i);
    }
  }

  // ----- by size_id and matrix_id -----

  /** Where coefficient i of a list lies: row by row, 4 or 8 to a row, at the i-th place of the scan. */
  function Place(size: nat, matrix: nat, i: nat): nat
    requires i < if size == 0 then 16 else 64
  {
    64 * (6 * size + matrix) + if size == 0 then 4 * Y4[i] + X4[i] else 8 * Y8[i] + X8[i]
  }

  lemma In8(i: nat)
    requires i < 64
    ensures X8[i] < 8 && Y8[i] < 8
  {
    Walk8();
    hide Next;
  }

  lemma In4(i: nat)
    requires i < 16
    ensures X4[i] < 4 && Y4[i] < 4
  {
    Walk4();
    hide Next;
  }

  lemma Split64(q: nat, r: nat)
    requires r < 64
    ensures (64 * q + r) / 64 == q && (64 * q + r) % 64 == r
  {
  }

  lemma Split8(y: nat, x: nat)
    requires x < 8
    ensures (8 * y + x) / 8 == y && (8 * y + x) % 8 == x
  {
  }

  lemma BlockOf(q: nat, y: nat, x: nat)
    requires x < 8 && y < 8
    ensures var p := 64 * q + (8 * y + x); p / 64 == q && p % 64 / 8 == y && p % 8 == x && p % 64 == 8 * y + x
  {
    Split64(q, 8 * y + x);
    Split8(y, x);
    Split8(8 * q + y, x);
    assert 8 * (8 * q + y) + x == 64 * q + (8 * y + x);
  }

  /** The defaults of all 24 matrices are those of Tables 7-5 and 7-6, listed along the scan, with a dc of 16. */
  lemma DefaultsAreTables(size: nat, matrix: nat, i: nat)
    requires size < 4 && matrix < 6 && i < if size == 0 then 16 else 64
    ensures Place(size, matrix, i) < SIZE && Defaults()[Place(size, matrix, i)] == Default(size, matrix, i)
    ensures size >= 2 ==> DefaultLists().dc[6 * (size - 2) + matrix] == 16
  {
    if size == 0 { FlatDefault(matrix, i); } else { TableDefault(size, matrix, i); }
    assert size >= 2 ==> DefaultLists().dc[6 * (size - 2) + matrix] == 16 by { hide Defaults; }
    hide *;
  }

  lemma FlatDefault(matrix: nat, i: nat)
    requires matrix < 6 && i < 16
    ensures Place(0, matrix, i) < SIZE && Defaults()[Place(0, matrix, i)] == Default(0, matrix, i)
  {
    In4(i);
    var p := Place(0, matrix, i);
    assert p == 64 * matrix + (4 * Y4[i] + X4[i]);
    hide X4, Y4, INTRA, INTER;
    assert p / 64 == matrix && p % 64 < 16;
  }

  lemma TableDefault(size: nat, matrix: nat, i: nat)
    requires 1 <= size < 4 && matrix < 6 && i < 64
    ensures Place(size, matrix, i) < SIZE && Defaults()[Place(size, matrix, i)] == Default(size, matrix, i)
  {
    hide *;
    var y, x := TableAt(i);
    PlaceIs(size, matrix, i);
    DefaultFrom(size, matrix, y, x);
    TableIs(size, matrix, i);
  }

  lemma TableIs(size: nat, matrix: nat, i: nat)
    requires 1 <= size && i < 64
    ensures Square(TABLE_INTRA) && Square(TABLE_INTER)
    ensures Default(size, matrix, i) == if matrix < 3 then TABLE_INTRA[i / 8][i % 8] else TABLE_INTER[i / 8][i % 8]
  {
  }

  lemma PlaceIs(size: nat, matrix: nat, i: nat)
    requires 1 <= size && i < 64
    ensures Place(size, matrix, i) == 64 * (6 * size + matrix) + (8 * Y8[i] + X8[i])
  {
    hide X8, Y8;
  }

  lemma TableAt(i: nat) returns (y: nat, x: nat)
    requires i < 64
    ensures y == Y8[i] < 8 && x == X8[i] < 8
    ensures Square(INTRA) && Square(INTER) && Square(TABLE_INTRA) && Square(TABLE_INTER)
    ensures INTRA[y][x] == TABLE_INTRA[i / 8][i % 8] && INTER[y][x] == TABLE_INTER[i / 8][i % 8]
  {
    In8(i);
    IntraIsListed();
    InterIsListed();
    y, x := Y8[i], X8[i];
    hide INTRA, INTER, TABLE_INTRA, TABLE_INTER, X8, Y8, Square;
  }

  lemma DefaultFrom(size: nat, matrix: nat, y: nat, x: nat)
    requires 1 <= size < 4 && matrix < 6 && x < 8 && y < 8
    ensures |INTRA| == |INTER| == |INTRA[y]| == |INTER[y]| == 8
    ensures var p := 64 * (6 * size + matrix) + (8 * y + x);
            p < SIZE && Defaults()[p] == if matrix < 3 then INTRA[y][x] else INTER[y][x]
  {
    BlockOf(6 * size + matrix, y, x);
    assert (6 * size + matrix) % 6 == matrix;
  }

  /** The i-th coefficient of a coded list is stored at the i-th place of the scan of its matrix. */
  lemma CoefficientPlace(k: nat, l: Lists, cs: seq<nat>, i: nat)
    requires k < LISTS && |cs| == (if SizeOf(k) == 0 then 16 else 64) && i < |cs|
    ensures Place(SizeOf(k), MatrixOf(k), i) < SIZE
    ensures WithCoefs(k, l, cs).sl[Place(SizeOf(k), MatrixOf(k), i)] == cs[i]
  {
    Places(k);
    if SizeOf(k) == 0 { In4(i); } else { In8(i); }
    PutAt(l.sl, Base(k), Scan(SizeOf(k)), cs, Place(SizeOf(k), MatrixOf(k), i));
    hide Put, X4, Y4, X8, Y8;
  }

  /** The lists come in the order of size_id and matrix_id, with matrices 0 and 3 only for size_id 3. */
  lemma ListOrder(k: nat, size: nat, matrix: nat)
    requires k < LISTS
    ensures SizeOf(k) == size && MatrixOf(k) == matrix <==>
            (size < 3 && matrix < 6 && k == 6 * size + matrix) || (size == 3 && matrix % 3 == 0 && k == 18 + matrix / 3)
  {
  }

  // ----- the whole syntax structure -----

  /** Coefficient i of a matrix and its dc when ChromaArrayType is 3: 32x32 matrices 1, 2, 4 and 5 are those of size
      16x16, every other one stays. */
  predicate FilledIn(l: Lists, r: Lists, size: nat, matrix: nat, i: nat)
    requires size < 4 && matrix < 6 && i < 64
  {
    var from := if size == 3 && matrix % 3 != 0 then 2 else size;
    && r.sl[64 * (6 * size + matrix) + i] == l.sl[64 * (6 * from + matrix) + i]
    && (size >= 2 ==> r.dc[6 * (size - 2) + matrix] == l.dc[6 * (from - 2) + matrix])
  }

  lemma ChromaIs(l: Lists, size: nat, matrix: nat, i: nat)
    requires size < 4 && matrix < 6 && i < 64
    ensures FilledIn(l, Chroma444(l), size, matrix, i)
  {
    var q := 6 * size + matrix;
    assert (64 * q + i) / 64 == q;
  }

  predicate AllFilledIn(l: Lists, r: Lists) {
    forall size: nat, matrix: nat, i: nat :: size < 4 && matrix < 6 && i < 64 ==> FilledIn(l, r, size, matrix, i)
  }

  lemma AllFilled(l: Lists)
    ensures AllFilledIn(l, Chroma444(l))
  {
    hide Chroma444;
    forall size: nat, matrix: nat, i: nat | size < 4 && matrix < 6 && i < 64
      ensures FilledIn(l, Chroma444(l), size, matrix, i)
    {
      ChromaIs(l, size, matrix, i);
    }
  }

  /** What sections 7.3.4 and 7.4.5 make of the bits: with 4:4:4 chroma the missing 32x32 matrices are filled in. */
  ghost predicate StandardGives(bits: seq<bool>, chroma444: bool, r: Lists, rest: seq<bool>) {
    && var o := StdTo(LISTS, DefaultLists(), bits);
    && o.Good? && rest == o.rest
    && if chroma444 then AllFilledIn(o.lists, r) else r == o.lists
  }

  /** From the defaults, whatever the driver accepts it decodes as the standard does, 4:4:4 chroma included, if and
      only if no list departs. */
  lemma DataMatchesStandard(bits: seq<bool>, chroma444: bool)
    requires ScalingListData(DefaultLists(), bits, chroma444).Good?
    ensures var o := ScalingListData(DefaultLists(), bits, chroma444);
            StandardGives(bits, chroma444, o.lists, o.rest) <==> NeverDeparts(LISTS, bits)
  {
    MatchesStandard(bits);
    var o := DecodeTo(LISTS, DefaultLists(), bits);
    assert o.Good?;
    if StdTo(LISTS, DefaultLists(), bits).Good? { AcceptedNeverDeparts(LISTS, bits); }
    AllFilled(o.lists);
    hide DecodeTo, StdTo, DefaultLists, NeverDeparts, Chroma444, AllFilledIn;
  }
}
