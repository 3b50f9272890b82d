/** The in-place decoder of drivers/amvdec_ports/decoder/aml_hevc_parser.c, proved against HevcRps. */
module HevcRpsDecoder {
  import opened Basics
  import opened BitReader
  import opened HevcRpsSpec
  import opened HevcRps

  /** An entry inserted behind those it is not less than. */
  lemma {:induction false} InsertAt(s: seq<Entry>, x: Entry, p: nat)
    requires p <= |s|
    requires forall j :: p <= j < |s| ==> x.delta < s[j].delta
    requires p > 0 ==> s[p - 1].delta <= x.delta
    ensures Insert(s, x) == s[..p] + [x] + s[p..]
  {
    if p < |s| {
      InsertAt(s[..|s| - 1], x, p);
      assert s[p..] == s[..|s| - 1][p..] + [s[|s| - 1]];
    } else {
      assert s[p..] == [] && s[..p] == s;
    }
  }

  /** The candidate loop after some iterations: the flags read, the bits left, the entries kept. */
  datatype Keeping = Keeping(flags: seq<Flag>, rest: seq<bool>, kept: seq<Entry>, negatives: nat)

  function KeepStep(st: Keeping, ref: RefSet, delta: int): Keeping
    requires |st.flags| <= |ref.entries|
  {
    var (f, rest) := ReadFlag(st.rest);
    var d := Candidate(ref, delta, |st.flags|);
    if f.kept then
      Keeping(st.flags + [f], rest, st.kept + [Entry(d, f.used)], st.negatives + if d < 0 then 1 else 0)
    else
      Keeping(st.flags + [f], rest, st.kept, st.negatives)
  }

  function Keep(s: seq<bool>, ref: RefSet, delta: int, n: nat): (r: Keeping)
    requires n <= |ref.entries| + 1
    ensures |r.flags| == n && |r.kept| <= n
  {
    if n == 0 then Keeping([], s, [], 0) else KeepStep(Keep(s, ref, delta, n - 1), ref, delta)
  }

  lemma KeepUnfolds(s: seq<bool>, ref: RefSet, delta: int, n: nat)
    requires n <= |ref.entries|
    ensures Keep(s, ref, delta, 0) == Keeping([], s, [], 0)
    ensures Keep(s, ref, delta, n + 1) == KeepStep(Keep(s, ref, delta, n), ref, delta)
  {
  }

  lemma PickOneMore(s: seq<Cand>, c: Cand)
    ensures Pick(s + [c], Any) == Pick(s, Any) + if c.kept then [c.entry] else []
  {
    assert (s + [c])[..|s|] == s;
  }

  lemma CountOneMore(flags: seq<Flag>, f: Flag)
    ensures KeptCount(flags + [f]) == KeptCount(flags) + if f.kept then 1 else 0
  {
    assert (flags + [f])[..|flags|] == flags;
  }

  lemma CountNegOneMore(s: seq<Entry>, e: Entry)
    ensures CountNeg(s + [e]) == CountNeg(s) + if e.delta < 0 then 1 else 0
  {
    assert (s + [e])[..|s|] == s;
  }

  lemma CandidatesOneMore(ref: RefSet, delta: int, flags: seq<Flag>, f: Flag)
    requires |flags| <= |ref.entries|
    ensures Candidates(ref, delta, flags + [f])
            == Candidates(ref, delta, flags) + [Cand(Entry(Candidate(ref, delta, |flags|), f.used), f.kept)]
  {
  }

  /** The running state says what was picked from the flags read so far. */
  ghost predicate KeepsRight(st: Keeping, ref: RefSet, delta: int)
    requires |st.flags| <= |ref.entries| + 1
  {
    && st.kept == Pick(Candidates(ref, delta, st.flags), Any)
    && |st.kept| == KeptCount(st.flags)
    && st.negatives == CountNeg(st.kept)
  }

  lemma KeepStepKeepsRight(st: Keeping, ref: RefSet, delta: int)
    requires |st.flags| <= |ref.entries| && KeepsRight(st, ref, delta)
    ensures KeepsRight(KeepStep(st, ref, delta), ref, delta)
  {
    var f := ReadFlag(st.rest).0;
    var c := Cand(Entry(Candidate(ref, delta, |st.flags|), f.used), f.kept);
    CandidatesOneMore(ref, delta, st.flags, f);
    PickOneMore(Candidates(ref, delta, st.flags), c);
    CountOneMore(st.flags, f);
    CountNegOneMore(st.kept, c.entry);
  }

  /** The loop picks exactly the kept candidates. */
  lemma {:induction false} KeepIsPick(s: seq<bool>, ref: RefSet, delta: int, n: nat)
    requires n <= |ref.entries| + 1
    ensures KeepsRight(Keep(s, ref, delta, n), ref, delta)
    ensures (Keep(s, ref, delta, n).flags, Keep(s, ref, delta, n).rest) == ReadFlags(s, n)
  {
    hide KeepsRight, KeepStep, ReadFlag;
    if n == 0 {
      NothingKept(s, ref, delta);
    } else {
      KeepIsPick(s, ref, delta, n - 1);
      var st := Keep(s, ref, delta, n - 1);
      KeepStepKeepsRight(st, ref, delta);
      KeepStepReads(st, ref, delta);
    }
  }

  lemma NothingKept(s: seq<bool>, ref: RefSet, delta: int)
    ensures KeepsRight(Keeping([], s, [], 0), ref, delta)
  {
  }

  lemma KeepStepReads(st: Keeping, ref: RefSet, delta: int)
    requires |st.flags| <= |ref.entries|
    ensures var t, (f, rest) := KeepStep(st, ref, delta), ReadFlag(st.rest); t.flags == st.flags + [f] && t.rest == rest
  {
    hide ReadFlag;
  }

  /** The predicted branch in terms of the loop's final state. */
  lemma ReadInterByKeeping(s: seq<bool>, ref: RefSet)
    ensures match ReadDeltaRps(s)
            case BadDelta => ReadInter(s, ref) == Reject
            case Delta(delta, s1) =>
              var st := Keep(s1, ref, delta, |ref.entries| + 1);
              && st.negatives == CountNeg(st.kept)
              && ReadInter(s, ref)
                 == if |st.kept| >= ARRAY_LEN then Reject else Accept(Finish(st.kept), st.rest)
  {
    var d := ReadDeltaRps(s);
    if d.Delta? { KeepIsPick(d.rest, ref, d.delta, |ref.entries| + 1); }
  }

  lemma {:induction false} RunStaysBad(s: seq<bool>, i: nat, n: nat, down: bool)
    requires i <= n && ReadRun(s, i, down).BadRun?
    ensures ReadRun(s, n, down).BadRun?
    decreases n
  {
    hide ReadUe;
    if i < n { RunStaysBad(s, i, n - 1, down); }
  }

  /** An entry that sank from i to p, past the larger ones and behind the others, was inserted. */
  lemma SunkIs(a: seq<Entry>, v: seq<Entry>, i: nat, p: nat)
    requires p <= i < |a| == |v| && Up(a[..i]) && v[p] == a[i]
    requires forall j :: 0 <= j < p || i < j < |a| ==> v[j] == a[j]
    requires forall j :: p < j <= i ==> v[j] == a[j - 1]
    requires forall j :: p <= j < i ==> a[i].delta < a[j].delta
    requires forall j :: 0 <= j < p ==> a[j].delta <= a[i].delta
    ensures v == Insert(a[..i], a[i]) + a[i + 1..]
  {
    hide Insert;
    var s := a[..i];
    assert v == s[..p] + [a[i]] + s[p..] + a[i + 1..];
    forall j | p <= j < i ensures a[i].delta < s[j].delta { assert s[j] == a[j]; }
    forall j | 0 <= j < p ensures s[j].delta <= a[i].delta { assert s[j] == a[j]; }
    InsertAt(s, a[i], p);
  }

  lemma SortUpNext(a: seq<Entry>, i: nat)
    requires i < |a|
    ensures SortUp(a[..i + 1]) == Insert(SortUp(a[..i]), a[i])
  {
    assert a[..i + 1][..i] == a[..i];
  }

  lemma UpBelow(a: seq<Entry>, i: nat)
    requires i <= |a| && Up(a[..i])
    ensures forall j, l :: 0 <= j < l < i ==> a[j].delta <= a[l].delta
  {
    forall j, l | 0 <= j < l < i ensures a[j].delta <= a[l].delta {
      assert a[..i][j].delta <= a[..i][l].delta;
    }
  }

  /** v is a with the outer i pairs of its first n entries exchanged. */
  ghost predicate HalfFlipped(a: seq<Entry>, v: seq<Entry>, n: nat, i: nat) {
    && i <= n / 2 && n <= |a| == |v|
    && (forall j :: 0 <= j < i || n - i <= j < n ==> v[j] == a[n - 1 - j])
    && (forall j :: i <= j < n - i || n <= j < |a| ==> v[j] == a[j])
  }

  lemma FlipStart(a: seq<Entry>, n: nat)
    requires n <= |a|
    ensures HalfFlipped(a, a, n, 0)
  {
  }

  lemma FlipNext(a: seq<Entry>, v: seq<Entry>, n: nat, i: nat)
    requires HalfFlipped(a, v, n, i) && i < n / 2
    ensures n - 1 - i < |v| && HalfFlipped(a, v[i := v[n - 1 - i]][n - 1 - i := v[i]], n, i + 1)
  {
  }

  lemma FlipEnd(a: seq<Entry>, v: seq<Entry>, n: nat)
    requires HalfFlipped(a, v, n, n / 2)
    ensures v == FlipPrefix(a, n)
  {
    FlipPrefixAt(a, n);
    hide FlipPrefix;
    forall j | 0 <= j < n ensures v[j] == a[n - 1 - j] {
      if n / 2 <= j < n - n / 2 { assert j == n - 1 - j; }
    }
  }

  lemma RunUnfolds(s: seq<bool>, i: nat, down: bool)
    ensures ReadRun(s, 0, down) == Run([], s)
    ensures ReadRun(s, i + 1, down) == RunStep(ReadRun(s, i, down), down)
  {
  }

  lemma RunStaysSmall(s: seq<bool>, n: nat, down: bool)
    requires ReadRun(s, n, down).Run? && n <= MAX_REFS
    ensures -MAX_DELTA * MAX_REFS <= LastDelta(ReadRun(s, n, down).entries) <= MAX_DELTA * MAX_REFS
  {
    RunShape(s, n, down);
    var es := ReadRun(s, n, down).entries;
    if n > 0 { assert -MAX_DELTA * n <= es[n - 1].delta <= MAX_DELTA * n; }
  }

  /** The u32 accumulator, read back as an int, is the running sum. */
  lemma Accumulate(prev: nat, gap: int, down: bool)
    requires prev < WORD && 1 <= gap <= MAX_DELTA
    requires -MAX_DELTA * MAX_REFS <= ToInt32(prev) <= MAX_DELTA * MAX_REFS
    ensures ToInt32((prev + WORD - gap) % WORD) == ToInt32(prev) - gap
    ensures ToInt32((prev + gap) % WORD) == ToInt32(prev) + gap
  {
  }

  /** struct ShortTermRPS; view pairs the two arrays up. */
  class ShortTermRps {
    var numNegativePics: nat
    var numDeltaPocs: nat
    const deltaPoc: array<int>
    const used: array<bool>
    ghost var view: seq<Entry>

    constructor ()
      ensures Valid() && fresh(deltaPoc) && fresh(used)
    {
      numNegativePics, numDeltaPocs := 0, 0;
      deltaPoc := new int[ARRAY_LEN](_ => 0);
      used := new bool[ARRAY_LEN](_ => false);
      view := seq(ARRAY_LEN, _ => Entry(0, false));
    }

    ghost predicate Sized()
      reads this, deltaPoc, used
    {
      && deltaPoc.Length == used.Length == |view| == ARRAY_LEN
      && forall i :: 0 <= i < ARRAY_LEN ==> view[i] == Entry(deltaPoc[i], used[i])
    }

    ghost predicate Valid()
      reads this, deltaPoc, used
    {
      Sized() && numNegativePics <= numDeltaPocs < ARRAY_LEN
    }

    ghost function Contents(): RefSet
      requires Valid()
      reads this, deltaPoc, used
    {
      RefSet(numNegativePics, view[..numDeltaPocs])
    }

    method Put(k: nat, delta: int, u: bool)
      requires Sized() && k < ARRAY_LEN
      modifies this`view, deltaPoc, used
      ensures Sized() && view == old(view)[k := Entry(delta, u)]
    {
      deltaPoc[k], used[k] := delta, u;
      view := view[k := Entry(delta, u)];
    }

    /** Lines 580-598: the kept candidates, in syntax order, from position 0 on. */
    method KeepCandidates(gb: GetBits, ref: ShortTermRps, deltaRps: int) returns (k: nat, k0: nat)
      requires Sized() && ref.Valid() && ref != this
      requires deltaPoc != ref.deltaPoc && used != ref.used
      modifies gb, this`view, deltaPoc, used
      ensures Sized() && k <= ARRAY_LEN
      ensures var st := Keep(old(gb.rest), ref.Contents(), deltaRps, ref.numDeltaPocs + 1);
              k == |st.kept| && view[..k] == st.kept && k0 == st.negatives && gb.rest == st.rest
    {
      hide Keep;
      ghost var r := ref.Contents();
      KeepUnfolds(gb.rest, r, deltaRps, 0);
      ghost var st := Keep(gb.rest, r, deltaRps, 0);
      var useDeltaFlag := false;
      k, k0 := 0, 0;
      var i := 0;
      while i <= ref.numDeltaPocs
        invariant 0 <= i <= ref.numDeltaPocs + 1
        invariant Sized() && ref.Valid() && ref.Contents() == r
        invariant st == Keep(old(gb.rest), r, deltaRps, i)
        invariant k == |st.kept| && view[..k] == st.kept && k0 == st.negatives && gb.rest == st.rest
      {
        KeepUnfolds(old(gb.rest), r, deltaRps, i);
        var u := gb.GetBits1();
        Put(k, deltaPoc[k], u);
        if !u {
          useDeltaFlag := gb.GetBits1();
        }
        if u || useDeltaFlag {
          var d := if i < ref.numDeltaPocs then deltaRps + ref.deltaPoc[i] else deltaRps;
          Put(k, d, u);
          if d < 0 {
            k0 := k0 + 1;
          }
          k := k + 1;
        }
        st := KeepStep(st, r, deltaRps);
        i := i + 1;
      }
    }

    /** Lines 611-621: one pass of the sort. The inner loop runs to 0; it stops moving once in place. */
    method SinkInto(i: nat)
      requires Sized() && i < ARRAY_LEN && Up(view[..i])
      modifies this`view, deltaPoc, used
      ensures Sized() && view == Insert(old(view[..i]), old(view[i])) + old(view[i + 1..])
    {
      ghost var a, p := view, i;
      UpBelow(a, i);
      hide Insert, Up;
      var d, u := deltaPoc[i], used[i];
      var k := i - 1;
      while k >= 0
        invariant -1 <= k < p <= i && k < i
        invariant Sized() && view[p] == a[i]
        invariant forall j :: 0 <= j < p || i < j < ARRAY_LEN ==> view[j] == a[j]
        invariant forall j :: p < j <= i ==> view[j] == a[j - 1]
        invariant forall j :: p <= j < i ==> d < a[j].delta
        invariant p > k + 1 ==> forall j :: 0 <= j < p ==> a[j].delta <= d
      {
        var tmp := deltaPoc[k];
        if d < tmp {
          Put(k + 1, tmp, used[k]);
          Put(k, d, u);
          p := k;
        }
        k := k - 1;
      }
      SunkIs(a, view, i, p);
    }

    /** Lines 607-623. */
    method SortUpwards(n: nat)
      requires Sized() && n <= ARRAY_LEN
      modifies this`view, deltaPoc, used
      ensures Sized() && view == SortUp(old(view[..n])) + old(view[n..])
    {
      hide SortUp, Insert;
      ghost var a := view;
      if n != 0 {
        var i := 1;
        SortOne(a[0]);
        assert a[..1] == [a[0]];
        while i < n
          invariant 1 <= i <= n
          invariant Sized() && view == SortUp(a[..i]) + a[i..]
        {
          SortUpSorts(a[..i]);
          SortUpNext(a, i);
          assert view[..i] == SortUp(a[..i]) && view[i] == a[i];
          assert view[i + 1..] == a[i + 1..];
          SinkInto(i);
          i := i + 1;
        }
      }
    }

    /** Lines 630-635. */
    method Swap(i: nat, k: nat)
      requires Sized() && i < ARRAY_LEN && k < ARRAY_LEN
      modifies this`view, deltaPoc, used
      ensures Sized() && view == old(view)[i := old(view)[k]][k := old(view)[i]]
    {
      var d, u := deltaPoc[i], used[i];
      Put(i, deltaPoc[k], used[k]);
      Put(k, d, u);
    }

    /** Lines 624-637: the negative prefix is turned round by swaps from both ends. */
    method FlipNegatives(n0: nat)
      requires Sized() && n0 <= ARRAY_LEN
      modifies this`view, deltaPoc, used
      ensures Sized() && view == FlipPrefix(old(view), n0)
    {
      ghost var a := view;
      FlipStart(a, n0);
      hide FlipPrefix, HalfFlipped;
      if n0 / 2 != 0 {
        var k := n0 - 1;
        var i := 0;
        while i < n0 / 2
          invariant 0 <= i <= n0 / 2 && k == n0 - 1 - i
          invariant Sized() && HalfFlipped(a, view, n0, i)
        {
          FlipNext(a, view, n0, i);
          Swap(i, k);
          i, k := i + 1, k - 1;
        }
      }
      FlipEnd(a, view, n0);
    }

    /** Lines 605-637. */
    method SortAndFlip(k: nat, k0: nat)
      requires Sized() && k < ARRAY_LEN && k0 == CountNeg(view[..k])
      modifies this, deltaPoc, used
      ensures Valid() && Contents() == Finish(old(view[..k]))
    {
      hide SortUp, CountNeg, Rev;
      ghost var kept := view[..k];
      numDeltaPocs, numNegativePics := k, k0;
      SortUpwards(numDeltaPocs);
      assert view[..k] == SortUp(kept);
      FlipNegatives(numNegativePics);
      assert view[..k] == FlipPrefix(SortUp(kept), k0);
    }

    /** Lines 553-637, for a set of the SPS (is_slice_header is 0 at the only call). */
    method DecodeInter(gb: GetBits, ref: ShortTermRps) returns (ok: bool)
      requires Sized() && ref.Valid() && ref != this
      requires deltaPoc != ref.deltaPoc && used != ref.used
      modifies gb, this, deltaPoc, used
      ensures Sized()
      ensures match ReadInter(old(gb.rest), old(ref.Contents()))
              case Reject => !ok
              case Accept(rps, rest) => ok && Valid() && Contents() == rps && gb.rest == rest
    {
      hide ReadInter, Keep, Finish, CountNeg, ReadUe;
      ReadInterByKeeping(gb.rest, ref.Contents());
      var sign := gb.GetBits1();
      var code := gb.GetUeGolombLong();
      var absDeltaRps := (code + 1) % WORD;
      if absDeltaRps < 1 || absDeltaRps > MAX_DELTA {
        return false;
      }
      var deltaRps := if sign then -absDeltaRps else absDeltaRps;
      var k, k0 := KeepCandidates(gb, ref, deltaRps);
      if k >= ARRAY_LEN {
        return false;
      }
      SortAndFlip(k, k0);
      ok := true;
    }

    /** Lines 652-662 and 663-674: n gaps accumulated in a u32, stored from position base on. */
    method StoreRun(gb: GetBits, n: nat, base: nat, down: bool) returns (ok: bool)
      requires Sized() && n < MAX_REFS && base < MAX_REFS
      modifies gb, this`view, deltaPoc, used
      ensures Sized()
      ensures match ReadRun(old(gb.rest), n, down)
              case BadRun => !ok
              case Run(es, rest) => ok && gb.rest == rest && view[..base + n] == old(view[..base]) + es
    {
      hide ReadUe, ReadRun;
      RunUnfolds(gb.rest, 0, down);
      ghost var head := view[..base];
      ghost var r := Run([], gb.rest);
      var prev: nat := 0;
      var i := 0;
      while i < n
        invariant 0 <= i <= n && r == ReadRun(old(gb.rest), i, down) && r.Run? && r.rest == gb.rest
        invariant Sized() && view[..base + i] == head + r.entries
        invariant prev < WORD && ToInt32(prev) == LastDelta(r.entries)
      {
        RunUnfolds(old(gb.rest), i, down);
        RunStaysSmall(old(gb.rest), i, down);
        var code := gb.GetUeGolombLong();
        var gap := ToInt32((code + 1) % WORD);
        if gap < 1 || gap > MAX_DELTA {
          RunStaysBad(old(gb.rest), i + 1, n, down);
          return false;
        }
        Accumulate(prev, gap, down);
        prev := if down then (prev + WORD - gap) % WORD else (prev + gap) % WORD;
        var u := gb.GetBits1();
        Put(base + i, ToInt32(prev), u);
        r := RunStep(r, down);
        i := i + 1;
      }
      ok := true;
    }

    /** Lines 638-676. */
    method DecodeExplicit(gb: GetBits) returns (ok: bool)
      requires Sized()
      modifies gb, this, deltaPoc, used
      ensures Sized()
      ensures match ReadExplicit(old(gb.rest))
              case Reject => !ok
              case Accept(rps, rest) => ok && Valid() && Contents() == rps && gb.rest == rest
    {
      hide ReadUe, ReadRun;
      numNegativePics := gb.GetUeGolombLong();
      var nbPositivePics := gb.GetUeGolombLong();
      if numNegativePics >= MAX_REFS || nbPositivePics >= MAX_REFS {
        return false;
      }
      numDeltaPocs := numNegativePics + nbPositivePics;
      ok := true;
      RunUnfolds(gb.rest, 0, true);
      RunUnfolds(gb.rest, 0, false);
      if numDeltaPocs != 0 {
        ok := StoreRun(gb, numNegativePics, 0, true);
        if ok {
          ok := StoreRun(gb, nbPositivePics, numNegativePics, false);
        }
      }
    }

    /** The whole function for set idx: only sets after the first carry the prediction flag. */
    method Decode(gb: GetBits, prev: ShortTermRps?) returns (ok: bool)
      requires Sized()
      requires prev != null ==> prev.Valid() && prev != this && prev.deltaPoc != deltaPoc && prev.used != used
      modifies gb, this, deltaPoc, used
      ensures Sized()
      ensures match DecodeSet(old(gb.rest), if prev == null then [] else [old(prev.Contents())])
              case Reject => !ok
              case Accept(rps, rest) => ok && Valid() && Contents() == rps && gb.rest == rest
    {
      hide ReadInter, ReadExplicit;
      var rpsPredict := false;
      if prev != null {
        rpsPredict := gb.GetBits1();
      }
      if rpsPredict {
        ok := DecodeInter(gb, prev);
      } else {
        ok := DecodeExplicit(gb);
      }
    }
  }

  ghost predicate Distinct(sets: seq<ShortTermRps>) {
    forall i, j :: 0 <= i < j < |sets| ==>
      sets[i] != sets[j] && sets[i].deltaPoc != sets[j].deltaPoc && sets[i].used != sets[j].used
  }

  lemma {:induction false} ChainStaysBroken(s: seq<bool>, i: nat, n: nat)
    requires i <= n && DecodeChain(s, i).Broken?
    ensures DecodeChain(s, n).Broken?
    decreases n
  {
    hide DecodeSet;
    if i < n { ChainStaysBroken(s, i, n - 1); }
  }

  lemma ChainUnfolds(s: seq<bool>, i: nat)
    ensures DecodeChain(s, 0) == Chain([], s)
    ensures DecodeChain(s, i).Chain? ==>
              var c := DecodeChain(s, i);
              DecodeChain(s, i + 1) == match DecodeSet(c.rest, if i == 0 then [] else [c.sets[i - 1]])
                                       case Reject => Broken
                                       case Accept(rps, rest) => Chain(c.sets + [rps], rest)
  {
  }

  /** The loop of ff_hevc_parse_sps, lines 998-1001. */
  method DecodeSets(gb: GetBits, stRps: seq<ShortTermRps>, nb: nat) returns (ok: bool)
    requires nb <= |stRps| == 64 && Distinct(stRps)
    requires forall i :: 0 <= i < |stRps| ==> stRps[i].Sized()
    modifies gb, stRps, set r | r in stRps :: r.deltaPoc, set r | r in stRps :: r.used
    ensures match DecodeChain(old(gb.rest), nb)
            case Broken => !ok
            case Chain(sets, rest) =>
              && ok && gb.rest == rest
              && forall i :: 0 <= i < nb ==> stRps[i].Valid() && stRps[i].Contents() == sets[i]
  {
    hide DecodeChain, DecodeSet;
    ghost var c := Chain([], gb.rest);
    ChainUnfolds(gb.rest, 0);
    var i := 0;
    while i < nb
      invariant 0 <= i <= nb
      invariant c == DecodeChain(old(gb.rest), i) && c.Chain? && gb.rest == c.rest
      invariant forall j :: 0 <= j < |stRps| ==> stRps[j].Sized()
      invariant forall j :: 0 <= j < i ==> stRps[j].Valid() && stRps[j].Contents() == c.sets[j]
    {
      ChainUnfolds(old(gb.rest), i);
      var r := stRps[i].Decode(gb, if i == 0 then null else stRps[i - 1]);
      if !r {
        ChainStaysBroken(old(gb.rest), i + 1, nb);
        return false;
      }
      c := DecodeChain(old(gb.rest), i + 1);
      i := i + 1;
    }
    ok := true;
  }
}
