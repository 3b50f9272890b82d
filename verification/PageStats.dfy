/** The moving-window statistics of cal_compress_buff_info in drivers/amvdec_ports/aml_vcodec_dec.c:
    how many 4 KiB pages the last dpb_size recycled frames used. */
module PageStats {
  import opened Basics
  import CapturePoolSpec

  const U64: nat := 0x1_0000_0000_0000_0000
  const PAGE_NUM_ONE_MB: nat := 256
  const MAX_AVBC_BUFFER_SIZE: nat := 16
  const CAP_BUFF_MAX: nat := CapturePoolSpec.CAP_BUFF_MAX

  /** struct v4l_compressed_buffer_info: after sum and num come 50 words, the histogram spread, the ring
      group, maxAvg and total. outside counts increments beyond them, whose effect is not modelled. */
  datatype Stats = Stats(sum: nat, num: nat, spread: seq<nat>, group: seq<nat>, maxAvg: nat, total: nat, outside: nat)

  const RESET := Stats(0, 0, Repeat<nat>(0, MAX_AVBC_BUFFER_SIZE), Repeat<nat>(0, CAP_BUFF_MAX), 0, 0, 0)

  function Low(page: nat): (r: nat)
    ensures r < WORD
  {
    page % WORD
  }

  /** Below 4096 pages: the histogram has an entry for the sample. */
  predicate Countable(page: nat) { page % 0x1_0000_0000 < 4096 }

  /** The array index of the histogram is the page count in whole megabytes. */
  function Mb(page: nat): (mb: nat)
    ensures mb < MAX_AVBC_BUFFER_SIZE <==> Countable(page)
  {
    Low(page) / PAGE_NUM_ONE_MB
  }

  function Cur(num: nat, d: nat): (cur: nat)
    requires d > 0
    ensures cur < d
  {
    num % d
  }

  function Avg(total: nat, d: nat): nat
    requires d > 0
  {
    total / d
  }

  function Wrap(x: nat): nat { x % WORD }

  /** The running total after the sample old_ made way for page. */
  function Exchange(total: nat, old_: nat, page: nat): nat { (total - old_ + page) % WORD }

  function Wrap64(x: nat): nat { x % U64 }

  predicate Shape(s: Stats) {
    |s.spread| == MAX_AVBC_BUFFER_SIZE && |s.group| == CAP_BUFF_MAX
  }

  /** used_page_distributed_array[i]++, with no check of i: past the histogram it runs into the words that
      follow it in the record. */
  function Bump(s: Stats, i: nat): (t: Stats)
    requires Shape(s)
    ensures Shape(t)
  {
    if i < 16 then s.(spread := s.spread[i := Wrap(s.spread[i] + 1)])
    else if i < 48 then s.(group := s.group[i - 16 := Wrap(s.group[i - 16] + 1)])
    else if i == 48 then s.(maxAvg := Wrap(s.maxAvg + 1))
    else if i == 49 then s.(total := Wrap(s.total + 1))
    else s.(outside := s.outside + 1)
  }

  /** The ring, the maximum and the count. */
  function Slide(s: Stats, page: nat, d: nat): (t: Stats)
    requires Shape(s) && 1 <= d <= CAP_BUFF_MAX
    ensures Shape(t) && t.spread == s.spread
  {
    var cur := Cur(s.num, d);
    var total := Exchange(s.total, s.group[cur], page);
    s.(num := Wrap(s.num + 1), group := s.group[cur := Low(page)], total := total,
       maxAvg := if Avg(total, d) > s.maxAvg then Avg(total, d) else s.maxAvg)
  }

  /** One recycled frame, in 32-bit and 64-bit unsigned arithmetic. */
  function Step(s: Stats, page: nat, d: nat): (t: Stats)
    requires Shape(s) && 1 <= d <= CAP_BUFF_MAX
    ensures Shape(t)
  {
    Slide(Bump(s.(sum := Wrap64(s.sum + page)), Mb(page)), page, d)
  }

  /** The 50 words behind sum and num, in the order of the record. */
  function Words(s: Stats): (w: seq<nat>)
    requires Shape(s)
    ensures |w| == 50
  {
    s.spread + s.group + [s.maxAvg, s.total]
  }

  /** The increment hits word i of the record, and no other. */
  lemma BumpIsIncrement(s: Stats, i: nat)
    requires Shape(s)
    ensures i < 50 ==> Words(Bump(s, i)) == Words(s)[i := (Words(s)[i] + 1) % 0x1_0000_0000]
    ensures i >= 50 ==> Words(Bump(s, i)) == Words(s)
    ensures (Bump(s, i).sum, Bump(s, i).num) == (s.sum, s.num)
  {
  }

  predicate Pages(h: seq<nat>) { forall i :: 0 <= i < |h| ==> Countable(h[i]) }

  /** The statistics after the recycles h. */
  function After(h: seq<nat>, d: nat): (t: Stats)
    requires 1 <= d <= CAP_BUFF_MAX
    ensures Shape(t)
  {
    if h == [] then RESET else Step(After(h[..|h| - 1], d), h[|h| - 1], d)
  }

  function Sum(q: seq<nat>): nat {
    if q == [] then 0 else Sum(q[..|q| - 1]) + q[|q| - 1] % 0x1_0000_0000
  }

  /** The sum of the last min(|h|, d) samples. */
  function Window(h: seq<nat>, d: nat): nat {
    Sum(h[(if |h| > d then |h| - d else 0)..])
  }

  lemma SumAppend(q: seq<nat>, x: nat)
    ensures Sum(q + [x]) == Sum(q) + Low(x)
  {
    assert (q + [x])[..|q|] == q;
  }

  lemma {:induction false} SumHead(q: seq<nat>)
    requires q != []
    ensures Sum(q) == Low(q[0]) + Sum(q[1..])
  {
    if |q| == 1 {
      assert q[..0] == [] && q[1..] == [];
    } else {
      SumHead(q[..|q| - 1]);
      assert q[..|q| - 1][1..] == q[1..][..|q| - 2];
    }
  }

  lemma WindowMoves(h: seq<nat>, x: nat, d: nat)
    requires d >= 1
    ensures Window(h + [x], d) + (if |h| >= d then Low(h[|h| - d]) else 0) == Window(h, d) + Low(x)
  {
    var g := h + [x];
    if |h| >= d {
      var lo := |h| - d;
      assert g[lo + 1..] == h[lo + 1..] + [x] && h[lo..][1..] == h[lo + 1..];
      SumAppend(h[lo + 1..], x);
      SumHead(h[lo..]);
    } else {
      assert g[0..] == h[0..] + [x];
      SumAppend(h[0..], x);
    }
  }

  // ----- the ring -----

  function Forth(cur: nat, d: nat): nat { if cur + 1 == d then 0 else cur + 1 }

  /** The slot written k recycles before cur is. */
  function Back(cur: nat, k: nat, d: nat): nat
    requires cur < d && k <= d
  {
    if cur >= k then cur - k else cur + d - k
  }

  lemma ModStep(m: nat, d: nat)
    requires d > 0
    ensures Cur(m + 1, d) == Forth(Cur(m, d), d)
  {
    var q, r := m / d, m % d;
    if r + 1 == d {
      assert m + 1 == (q + 1) * d by { assert (q + 1) * d == q * d + d; }
      ModUnique(m + 1, d, q + 1, 0);
    } else {
      ModUnique(m + 1, d, q, r + 1);
    }
  }

  lemma ModUnique(a: nat, d: nat, q: nat, r: nat)
    requires d > 0 && a == q * d + r && r < d
    ensures a % d == r
  {
    var p, s := a / d, a % d;
    assert a == p * d + s && s < d;
    NotLess(p, q, d, r, s);
    NotLess(q, p, d, s, r);
  }

  lemma NotLess(p: nat, q: nat, d: nat, r: nat, s: nat)
    requires d > 0 && p * d + s == q * d + r && s < d
    ensures q <= p
  {
    if q > p { NextMultiple(p, q, d); }
  }

  lemma {:induction false} NextMultiple(p: nat, q: nat, d: nat)
    requires p < q
    ensures p * d + d <= q * d
    decreases q
  {
    assert q * d == (q - 1) * d + d;
    if p + 1 < q { NextMultiple(p, q - 1, d); }
  }

  /** recycle_num names the slot the m-th recycle belongs to: not yet wrapped, or d divides 2^32. */
  predicate Follows(m: nat, d: nat)
    requires d > 0
  {
    m < WORD || WORD % d == 0
  }

  lemma {:induction false} CurIs(m: nat, d: nat)
    requires d > 0 && Follows(m, d)
    ensures Cur(Wrap(m), d) == Cur(m, d)
    decreases m
  {
    if m >= WORD {
      WrapBack(m);
      hide Wrap;
      CurIs(m - WORD, d);
      ModPlus(m - WORD, WORD, d);
      assert Cur(m, d) == Cur(m - WORD, d);
      hide Cur;
    } else {
      assert Wrap(m) == m;
    }
  }

  lemma WrapBack(m: nat)
    requires m >= WORD
    ensures Wrap(m) == Wrap(m - WORD)
  {
  }

  lemma ModPlus(a: nat, w: nat, d: nat)
    requires d > 0 && w % d == 0
    ensures (a + w) % d == a % d
  {
    var k, q := w / d, a / d;
    assert a + w == (q + k) * d + a % d by { assert (q + k) * d == q * d + k * d; }
    ModUnique(a + w, d, q + k, a % d);
  }

  /** The slots before cur hold the window, newest first; the others are not written yet. */
  predicate Ring(group: seq<nat>, h: seq<nat>, cur: nat, d: nat)
    requires cur < d
  {
    && |group| == CAP_BUFF_MAX && d <= CAP_BUFF_MAX
    && (forall k :: 1 <= k <= d && k <= |h| ==> group[Back(cur, k, d)] == Low(h[|h| - k]))
    && (|h| < d ==> cur == |h| && forall j :: |h| <= j < d ==> group[j] == 0)
  }

  lemma RingMoves(group: seq<nat>, h: seq<nat>, cur: nat, d: nat, x: nat)
    requires cur < d && Ring(group, h, cur, d)
    ensures Ring(group[cur := Low(x)], h + [x], Forth(cur, d), d)
    ensures group[cur] == if |h| >= d then Low(h[|h| - d]) else 0
  {
    var g, next := group[cur := Low(x)], Forth(cur, d);
    if |h| >= d { assert Back(cur, d, d) == cur; }
    forall k | 1 <= k <= d && k <= |h| + 1 ensures g[Back(next, k, d)] == Low((h + [x])[|h| + 1 - k]) {
      if k > 1 {
        assert Back(next, k, d) == Back(cur, k - 1, d) != cur;
        assert (h + [x])[|h| + 1 - k] == h[|h| - (k - 1)];
      }
    }
  }

  /** After the recycles h: the ring, the total and the count. */
  ghost predicate Settled(s: Stats, h: seq<nat>, d: nat)
    requires d > 0
  {
    Ring(s.group, h, Cur(|h|, d), d) && s.total == Window(h, d) && s.num == Wrap(|h|)
  }

  lemma SettledStep(s: Stats, g: seq<nat>, x: nat, d: nat)
    requires Shape(s) && Pages(g) && Countable(x) && 1 <= d <= CAP_BUFF_MAX
    requires Settled(s, g, d) && Follows(|g|, d)
    ensures Settled(Step(s, x, d), g + [x], d)
  {
    var m := |g|;
    hide Ring, Window, Forth, Step, Countable, Cur, Follows;
    CurIs(m, d);
    ModStep(m, d);
    RingMoves(s.group, g, Cur(m, d), d, x);
    StepParts(s, x, d);
    NumSteps(m);
    assert Step(s, x, d).total == Window(g + [x], d) by {
      WindowMoves(g, x, d);
      assert Pages(g + [x]);
      WindowBound(g + [x], d);
      StepTotal(s, x, d, Window(g + [x], d));
    }
  }

  lemma {:induction false} TotalKeeps(h: seq<nat>, d: nat)
    requires Pages(h) && 1 <= d <= CAP_BUFF_MAX && (|h| <= WORD || WORD % d == 0)
    ensures Settled(After(h, d), h, d)
    decreases |h|
  {
    if h == [] {
      assert Window(h, d) == 0;
    } else {
      var g := h[..|h| - 1];
      assert h == g + [h[|h| - 1]];
      TotalKeeps(g, d);
      LastStep(h, d);
      hide After, Settled, Step;
      SettledStep(After(g, d), g, h[|h| - 1], d);
    }
  }

  lemma StepParts(s: Stats, x: nat, d: nat)
    requires Shape(s) && Countable(x) && 1 <= d <= CAP_BUFF_MAX
    ensures var t := Step(s, x, d);
            && t.group == s.group[Cur(s.num, d) := Low(x)] && t.num == Wrap(s.num + 1)
            && t.spread == s.spread[Mb(x) := Wrap(s.spread[Mb(x)] + 1)]
            && t.maxAvg == if Avg(t.total, d) > s.maxAvg then Avg(t.total, d) else s.maxAvg
  {
  }

  lemma NumSteps(m: nat)
    ensures Wrap(Wrap(m) + 1) == Wrap(m + 1)
  {
  }

  lemma StepTotal(s: Stats, x: nat, d: nat, w: nat)
    requires Shape(s) && Countable(x) && 1 <= d <= CAP_BUFF_MAX && w < WORD
    requires w == s.total - s.group[Cur(s.num, d)] + Low(x)
    ensures Step(s, x, d).total == w
  {
    assert x == (x / WORD) * WORD + Low(x);
    var v := s.total - s.group[Cur(s.num, d)] + x;
    assert v == (x / WORD) * WORD + w;
    ModUnique(v, WORD, x / WORD, w);
  }

  lemma WindowBound(h: seq<nat>, d: nat)
    requires Pages(h) && 1 <= d <= CAP_BUFF_MAX
    ensures Window(h, d) <= 4095 * d < WORD
  {
    SumBound(h[(if |h| > d then |h| - d else 0)..]);
  }

  lemma {:induction false} SumBound(q: seq<nat>)
    requires Pages(q)
    ensures Sum(q) <= 4095 * |q|
  {
    if q != [] { SumBound(q[..|q| - 1]); }
  }

  // ----- when recycle_num wraps -----

  lemma {:induction false} SumOfZeros(q: seq<nat>)
    requires forall i :: 0 <= i < |q| ==> q[i] == 0
    ensures Sum(q) == 0
  {
    if q != [] { SumOfZeros(q[..|q| - 1]); }
  }

  /** One page in the frame that leaves the window when recycle number m wraps to 0. */
  function Lone(m: nat, d: nat): (h: seq<nat>)
    requires 1 <= d <= m
    ensures |h| == m + 1 && Pages(h)
    ensures forall i :: 0 <= i <= m ==> h[i] == if i == m - d then 1 else 0
  {
    seq(m + 1, i => if i == m - d then 1 else 0)
  }

  lemma LoneBefore(m: nat, d: nat)
    requires m == WORD && 1 <= d <= CAP_BUFF_MAX && WORD % d != 0
    ensures var g := Lone(m, d)[..m];
            After(g, d).num == 0 && After(g, d).total == 1 && After(g, d).group[0] == 0
  {
    var g := Lone(m, d)[..m];
    TotalKeeps(g, d);
    hide After, Lone;
    SumHead(g[m - d..]);
    SumOfZeros(g[m - d..][1..]);
    var c := Cur(m, d);
    assert Back(c, c, d) == 0 && After(g, d).group[Back(c, c, d)] == Low(g[m - c]);
  }

  lemma LoneIsWrong(m: nat, d: nat)
    requires m == WORD && 1 <= d <= CAP_BUFF_MAX && WORD % d != 0
    ensures After(Lone(m, d), d).total == 1 && Window(Lone(m, d), d) == 0
  {
    var h := Lone(m, d);
    LoneBefore(m, d);
    LastStep(h, d);
    assert h[..|h| - 1] == h[..m] && h[m] == 0;
    hide After, Lone;
    StepTotal(After(h[..m], d), 0, d, 1);
    SumOfZeros(h[m + 1 - d..]);
  }

  lemma LastStep(h: seq<nat>, d: nat)
    requires 1 <= d <= CAP_BUFF_MAX && h != []
    ensures After(h, d) == Step(After(h[..|h| - 1], d), h[|h| - 1], d)
    ensures Pages(h) ==> Pages(h[..|h| - 1])
  {
  }

  /** The incremental total is the sum of the last min(m, d) samples after any m recycles exactly for the
      window sizes that divide 2^32; for the others it is right until recycle_num wraps. */
  lemma TotalIsWindow(d: nat)
    requires 1 <= d <= CAP_BUFF_MAX
    ensures WORD % d == 0 <==> forall h | Pages(h) :: After(h, d).total == Window(h, d)
    ensures forall h | Pages(h) && |h| <= WORD :: After(h, d).total == Window(h, d)
  {
    forall h | Pages(h) && (|h| <= WORD || WORD % d == 0) ensures After(h, d).total == Window(h, d) {
      TotalKeeps(h, d);
    }
    if WORD % d != 0 {
      LoneIsWrong(WORD, d);
      var h := Lone(WORD, d);
      assert Pages(h) && After(h, d).total != Window(h, d);
    }
  }

  // ----- the maximum -----

  lemma {:induction false} MaxKeeps(h: seq<nat>, d: nat) returns (at: nat)
    requires Pages(h) && 1 <= d <= CAP_BUFF_MAX && (|h| <= WORD || WORD % d == 0)
    ensures forall k :: 0 <= k <= |h| ==> Avg(Window(h[..k], d), d) <= After(h, d).maxAvg
    ensures at <= |h| && After(h, d).maxAvg == Avg(Window(h[..at], d), d)
    decreases |h|
  {
    assert h[..|h|] == h;
    if h == [] {
      at := 0;
    } else {
      var g := h[..|h| - 1];
      at := MaxKeeps(g, d);
      TotalKeeps(h, d);
      LastStep(h, d);
      StepParts(After(g, d), h[|h| - 1], d);
      hide After, Window, Ring, Step, Countable, Cur;
      assert h[..at] == g[..at];
      forall k | 0 <= k <= |h| ensures Avg(Window(h[..k], d), d) <= After(h, d).maxAvg {
        if k < |h| { assert h[..k] == g[..k]; }
      }
      if After(h, d).maxAvg != After(g, d).maxAvg { at := |h|; }
    }
  }

  /** The recorded maximum is the largest average any window seen had. */
  lemma MaxIsMax(h: seq<nat>, d: nat)
    requires Pages(h) && 1 <= d <= CAP_BUFF_MAX && (|h| <= WORD || WORD % d == 0)
    ensures forall k :: 0 <= k <= |h| ==> Window(h[..k], d) / d <= After(h, d).maxAvg
    ensures exists k :: 0 <= k <= |h| && Window(h[..k], d) / d == After(h, d).maxAvg
  {
    var at := MaxKeeps(h, d);
    forall k | 0 <= k <= |h| ensures Avg(Window(h[..k], d), d) == Window(h[..k], d) / d {}
    hide Avg, After, Window;
    assert Window(h[..at], d) / d == After(h, d).maxAvg;
  }

  // ----- the sum over all recycles -----

  function Plain(h: seq<nat>): nat { if h == [] then 0 else Plain(h[..|h| - 1]) + h[|h| - 1] }

  /** used_page_sum is the sum of all samples, modulo 2^64. */
  lemma {:induction false} SumIsAll(h: seq<nat>, d: nat)
    requires 1 <= d <= CAP_BUFF_MAX
    ensures After(h, d).sum == Plain(h) % 0x1_0000_0000_0000_0000
  {
    if h != [] {
      var g, x := h[..|h| - 1], h[|h| - 1];
      SumIsAll(g, d);
      LastStep(h, d);
      SumStep(After(g, d), x, d);
      hide After, Step;
      AddThenWrap(Plain(g), x, U64);
    }
  }

  lemma AddThenWrap(a: nat, x: nat, w: nat)
    requires w > 0
    ensures (a % w + x) % w == (a + x) % w
  {
    var q, b := a / w, a % w + x;
    assert a + x == (q + b / w) * w + b % w by { assert (q + b / w) * w == q * w + (b / w) * w; }
    ModUnique(a + x, w, q + b / w, b % w);
  }

  lemma SumStep(s: Stats, x: nat, d: nat)
    requires Shape(s) && 1 <= d <= CAP_BUFF_MAX
    ensures Step(s, x, d).sum == (s.sum + x) % U64
  {
    BumpKeepsNum(s.(sum := Wrap64(s.sum + x)), Mb(x));
    hide Bump, Mb;
  }

  // ----- the histogram -----

  /** The samples from mb megabytes up to the next. */
  predicate OfMb(page: nat, mb: nat) { 256 * mb <= page % 0x1_0000_0000 < 256 * (mb + 1) }

  function InMb(h: seq<nat>, mb: nat): nat {
    if h == [] then 0 else InMb(h[..|h| - 1], mb) + One(OfMb(h[|h| - 1], mb))
  }

  lemma MbIs(page: nat, mb: nat)
    ensures Mb(page) == mb <==> OfMb(page, mb)
  {
  }


  lemma {:induction false} InMbFits(h: seq<nat>, mb: nat)
    ensures InMb(h, mb) <= |h|
  {
    if h != [] { InMbFits(h[..|h| - 1], mb); }
  }

  lemma SpreadNext(s: Stats, x: nat, d: nat)
    requires Shape(s) && 1 <= d <= CAP_BUFF_MAX
    ensures Step(s, x, d).spread == if Countable(x) then s.spread[Mb(x) := Wrap(s.spread[Mb(x)] + 1)] else s.spread
    ensures Step(s, x, d).num == Wrap(s.num + 1)
  {
    hide Mb, Countable, Wrap, Wrap64, Exchange, Avg;
  }

  lemma SpreadAt(s: Stats, x: nat, d: nat, mb: nat)
    requires Shape(s) && 1 <= d <= CAP_BUFF_MAX && mb < MAX_AVBC_BUFFER_SIZE && s.spread[mb] + 1 < WORD
    ensures Step(s, x, d).spread[mb] == s.spread[mb] + One(OfMb(x, mb))
  {
    SpreadNext(s, x, d);
    MbIs(x, mb);
    hide Step, Mb, OfMb;
  }

  /** Until recycle_num wraps, entry mb counts the frames of that many whole megabytes, whatever the
      samples. */
  lemma {:induction false} SpreadCounts(h: seq<nat>, d: nat, mb: nat)
    requires 1 <= d <= CAP_BUFF_MAX && |h| < WORD && mb < MAX_AVBC_BUFFER_SIZE
    ensures After(h, d).spread[mb] == InMb(h, mb)
    decreases |h|
  {
    if h != [] {
      hide After, Step, Mb, OfMb;
      SpreadCounts(h[..|h| - 1], d, mb);
      InMbFits(h[..|h| - 1], mb);
      LastStep(h, d);
      SpreadAt(After(h[..|h| - 1], d), h[|h| - 1], d, mb);
    }
  }

  /** Plain sum of the first k entries. */
  function Total(q: seq<nat>, k: nat): nat
    requires k <= |q|
  {
    if k == 0 then 0 else Total(q, k - 1) + q[k - 1]
  }

  lemma {:induction false} TotalUpdate(q: seq<nat>, k: nat, i: nat, x: nat)
    requires k <= |q| && i < |q|
    ensures Total(q[i := x], k) == Total(q, k) + if i < k then x - q[i] else 0
  {
    if k > 0 { TotalUpdate(q, k - 1, i, x); }
  }

  lemma {:induction false} ZerosTotal(k: nat, n: nat)
    requires k <= n
    ensures Total(Repeat<nat>(0, n), k) == 0
  {
    if k > 0 { ZerosTotal(k - 1, n); }
  }

  /** The samples the histogram has an entry for. */
  function Counted(h: seq<nat>): (n: nat)
    ensures n <= |h|
  {
    if h == [] then 0 else Counted(h[..|h| - 1]) + One(Countable(h[|h| - 1]))
  }

  lemma {:induction false} AllCounted(h: seq<nat>)
    ensures Counted(h) == |h| <==> Pages(h)
  {
    if h != [] {
      AllCounted(h[..|h| - 1]);
      assert h == h[..|h| - 1] + [h[|h| - 1]];
      hide Countable;
      assert Pages(h) <==> Pages(h[..|h| - 1]) && Countable(h[|h| - 1]);
    }
  }

  lemma SpreadStep(s: Stats, x: nat, d: nat)
    requires Shape(s) && 1 <= d <= CAP_BUFF_MAX && (Countable(x) ==> s.spread[Mb(x)] + 1 < WORD)
    ensures Total(Step(s, x, d).spread, MAX_AVBC_BUFFER_SIZE)
            == Total(s.spread, MAX_AVBC_BUFFER_SIZE) + One(Countable(x))
  {
    SpreadNext(s, x, d);
    hide Step, Total;
    if Countable(x) { TotalUpdate(s.spread, MAX_AVBC_BUFFER_SIZE, Mb(x), s.spread[Mb(x)] + 1); }
  }

  lemma {:induction false} SpreadTotal(h: seq<nat>, d: nat)
    requires 1 <= d <= CAP_BUFF_MAX && |h| < WORD
    ensures Total(After(h, d).spread, MAX_AVBC_BUFFER_SIZE) == Counted(h) && After(h, d).num == |h|
    decreases |h|
  {
    hide Total, InMb, Step, Countable, Mb, OfMb;
    if h == [] {
      ZerosTotal(MAX_AVBC_BUFFER_SIZE, MAX_AVBC_BUFFER_SIZE);
    } else {
      var g, x := h[..|h| - 1], h[|h| - 1];
      SpreadTotal(g, d);
      if Countable(x) {
        SpreadCounts(g, d, Mb(x));
        InMbFits(g, Mb(x));
      }
      LastStep(h, d);
      var s := After(g, d);
      hide After;
      SpreadNext(s, x, d);
      SpreadStep(s, x, d);
    }
  }

  /** The histogram sums to recycle_num if and only if every sample is below 4096 pages. */
  lemma SpreadSums(h: seq<nat>, d: nat)
    requires 1 <= d <= CAP_BUFF_MAX && |h| < WORD
    ensures Total(After(h, d).spread, MAX_AVBC_BUFFER_SIZE) == After(h, d).num <==> Pages(h)
  {
    hide Total, After, Counted, Pages;
    SpreadTotal(h, d);
    AllCounted(h);
  }

  // ----- samples of 4096 pages and more -----

  /** Histogram and total tell the truth. */
  ghost predicate Right(h: seq<nat>, d: nat)
    requires 1 <= d <= CAP_BUFF_MAX
  {
    && Total(After(h, d).spread, MAX_AVBC_BUFFER_SIZE) == After(h, d).num
    && (forall k :: 0 <= k <= |h| ==> After(h[..k], d).total == Window(h[..k], d))
  }

  /** Until recycle_num wraps, the statistics are right if and only if every sample is below 4096. */
  lemma RightBelowLimit(h: seq<nat>, d: nat)
    requires 1 <= d <= CAP_BUFF_MAX && |h| < WORD
    ensures Right(h, d) <==> Pages(h)
  {
    SpreadSums(h, d);
    if Pages(h) {
      forall k | 0 <= k <= |h| ensures After(h[..k], d).total == Window(h[..k], d) { TotalKeeps(h[..k], d); }
    }
  }

  /** 4096 pages are counted in the first word of the ring, and the total comes out one short. */
  lemma BigSampleExample(d: nat)
    requires 1 <= d <= CAP_BUFF_MAX
    ensures After([4096], d).total == 4095 && Window([4096], d) == 4096
  {
    var h: seq<nat> := [4096];
    assert h[..|h| - 1] == [] && h[0..] == h;
    LastStep(h, d);
    assert Mb(4096) == 16 && Cur(0, d) == 0;
    assert Bump(RESET, 16).group[0] == 1;
    SumAppend([], 4096);
    assert [] + [4096] == h;
  }

  predicate AllBelow(h: seq<nat>, limit: nat) { forall i :: 0 <= i < |h| ==> h[i] < limit }

  lemma SmallSamples(h: seq<nat>, limit: nat)
    requires AllBelow(h, limit) && limit <= 4096
    ensures Pages(h)
  {
    forall i | 0 <= i < |h| ensures Countable(h[i]) { assert h[i] < limit; }
  }

  /** A total that is right for all runs of samples below a limit is right exactly for limits up to 4096. */
  lemma LimitDecides(limit: nat, d: nat)
    requires 1 <= d <= CAP_BUFF_MAX
    ensures (forall h | |h| <= WORD && AllBelow(h, limit) :: After(h, d).total == Window(h, d)) <==> limit <= 4096
  {
    hide After, Window;
    if limit <= 4096 {
      forall h | |h| <= WORD && AllBelow(h, limit) ensures After(h, d).total == Window(h, d) {
        SmallSamples(h, limit);
        TotalKeeps(h, d);
      }
    } else {
      BigSampleExample(d);
      var h: seq<nat> := [4096];
      assert AllBelow(h, limit) && After(h, d).total != Window(h, d);
    }
  }

  // ----- the code -----

  class CompressedBufferInfo {
    var usedPageSum: nat
    var recycleNum: nat
    const distributed: array<nat>
    const inGroup: array<nat>
    var maxAvg: nat
    var byGroup: nat
    /** Increments past the record, which it does not show. */
    ghost var outside: nat
    /** The recycles counted so far. */
    ghost var h: seq<nat>
    ghost var d: nat

    ghost predicate Valid()
      reads this, distributed, inGroup
    {
      && distributed != inGroup && 1 <= d <= CAP_BUFF_MAX
      && After(h, d) == Value()
    }

    constructor (ghost d: nat)
      requires 1 <= d <= CAP_BUFF_MAX
      ensures Valid() && h == [] && this.d == d && fresh(distributed) && fresh(inGroup)
    {
      distributed := new nat[MAX_AVBC_BUFFER_SIZE](i => 0);
      inGroup := new nat[CAP_BUFF_MAX](i => 0);
      usedPageSum, recycleNum, maxAvg, byGroup, outside := 0, 0, 0, 0, 0;
      h := [];
      this.d := d;
      new;
      assert distributed[..] == RESET.spread && inGroup[..] == RESET.group;
    }

    ghost function Value(): (s: Stats)
      reads this, distributed, inGroup
    {
      Stats(usedPageSum, recycleNum, distributed[..], inGroup[..], maxAvg, byGroup, outside)
    }

    /** The increment of line 1235: word mb of the record, counted from the histogram on. */
    method CountMb(mb: nat)
      requires distributed != inGroup && Shape(Value())
      modifies this`maxAvg, this`byGroup, this`outside, distributed, inGroup
      ensures Value() == Bump(old(Value()), mb)
    {
      if mb < 16 {
        distributed[mb] := Wrap(distributed[mb] + 1);
      } else if mb < 48 {
        inGroup[mb - 16] := Wrap(inGroup[mb - 16] + 1);
      } else if mb == 48 {
        maxAvg := Wrap(maxAvg + 1);
      } else if mb == 49 {
        byGroup := Wrap(byGroup + 1);
      } else {
        outside := outside + 1;
      }
    }

    method PutInGroup(cur: nat, page: nat)
      requires cur < inGroup.Length
      modifies this`byGroup, inGroup
      ensures byGroup == Exchange(old(byGroup), old(inGroup[cur]), page)
      ensures inGroup[..] == old(inGroup[..])[cur := Low(page)]
    {
      byGroup := Exchange(byGroup, inGroup[cur], page);
      inGroup[cur] := Low(page);
    }

    method NoteMax(average: nat)
      modifies this`maxAvg
      ensures maxAvg == if average > old(maxAvg) then average else old(maxAvg)
    {
      if average > maxAvg {
        maxAvg := average;
      }
    }

    /** Lines 1237-1245. */
    method SlideOn(curIndex: nat, usedPageNum: nat, dpbSize: nat)
      requires distributed != inGroup && Shape(Value()) && 1 <= dpbSize <= CAP_BUFF_MAX
      requires curIndex == Cur(recycleNum, dpbSize)
      modifies this`maxAvg, this`byGroup, this`recycleNum, inGroup
      ensures Value() == Slide(old(Value()), usedPageNum, dpbSize)
    {
      hide Low, Cur, Avg, Wrap, Exchange;
      PutInGroup(curIndex, usedPageNum);
      NoteMax(Avg(byGroup, dpbSize));
      recycleNum := Wrap(recycleNum + 1);
    }

    /** Lines 1233-1245. */
    method Count(curIndex: nat, usedPageNum: nat, dpbSize: nat)
      requires distributed != inGroup && Shape(Value()) && 1 <= dpbSize <= CAP_BUFF_MAX
      requires curIndex == Cur(recycleNum, dpbSize)
      modifies this`usedPageSum, this`maxAvg, this`byGroup, this`recycleNum, this`outside, distributed, inGroup
      ensures Value() == Step(old(Value()), usedPageNum, dpbSize)
    {
      hide Mb, Cur, Wrap64, Slide, Bump;
      usedPageSum := Wrap64(usedPageSum + usedPageNum);
      BumpKeepsNum(Value(), Mb(usedPageNum));
      CountMb(Mb(usedPageNum));
      SlideOn(curIndex, usedPageNum, dpbSize);
    }

    /** cal_compress_buff_info; counting is the V4L_DEBUG_CODEC_COUNT bit of debug_mode. */
    method CalCompressBuffInfo(usedPageNum: nat, dpbSize: nat, counting: bool)
      requires Valid() && dpbSize == d
      modifies this, distributed, inGroup
      ensures Valid() && d == old(d) && h == old(h) + if counting then [usedPageNum] else []
    {
      hide After, Step, Cur;
      var curIndex := Cur(recycleNum, dpbSize);
      if counting {
        Extend(h, usedPageNum, d);
        Count(curIndex, usedPageNum, dpbSize);
        h := h + [usedPageNum];
      }
    }
  }

  lemma BumpKeepsNum(s: Stats, i: nat)
    requires Shape(s)
    ensures Bump(s, i).num == s.num && Bump(s, i).sum == s.sum
  {
  }

  lemma Extend(h: seq<nat>, x: nat, d: nat)
    requires 1 <= d <= CAP_BUFF_MAX
    ensures After(h + [x], d) == Step(After(h, d), x, d)
  {
    assert (h + [x])[..|h|] == h;
  }
}
