/** Short-term reference picture sets: what the driver's decoder computes, what H.265
    sections 7.3.7 and 7.4.8 define, and exactly when the two agree. */
module HevcRpsSpec {
  import opened BitReader

  const MAX_REFS: nat := 16
  const MAX_DELTA: int := 32768
  const ARRAY_LEN: nat := 32

  /** One picture of a set: its POC distance and whether the current picture may use it. */
  datatype Entry = Entry(delta: int, used: bool)

  /** The first numNeg entries are the preceding pictures (S0), the others the following ones (S1). */
  datatype RefSet = RefSet(numNeg: nat, entries: seq<Entry>)

  /** used_by_curr_pic_flag and use_delta_flag of one candidate, merged: kept when either is set. */
  datatype Flag = Flag(used: bool, kept: bool)

  datatype Cand = Cand(entry: Entry, kept: bool)

  datatype Which = Negative | Positive | Any

  predicate Chosen(c: Cand, w: Which) {
    && c.kept
    && match w
       case Negative => c.entry.delta < 0
       case Positive => c.entry.delta > 0
       case Any => true
  }

  /** The chosen candidates in the order they are visited. */
  function Pick(s: seq<Cand>, w: Which): seq<Entry> {
    if s == [] then []
    else Pick(s[..|s| - 1], w) + if Chosen(s[|s| - 1], w) then [s[|s| - 1].entry] else []
  }

  function Rev<T>(s: seq<T>): (r: seq<T>)
    ensures |r| == |s|
    ensures forall i :: 0 <= i < |s| ==> r[i] == s[|s| - 1 - i]
  {
    seq(|s|, i requires 0 <= i < |s| => s[|s| - 1 - i])
  }

  /** Candidate i is reference entry i moved by delta; the last one is delta itself. */
  function Candidate(ref: RefSet, delta: int, i: nat): int
    requires i <= |ref.entries|
  {
    if i < |ref.entries| then delta + ref.entries[i].delta else delta
  }

  function Candidates(ref: RefSet, delta: int, flags: seq<Flag>): (r: seq<Cand>)
    requires |flags| <= |ref.entries| + 1
    ensures |r| == |flags|
    ensures forall i :: 0 <= i < |r| ==> r[i] == Cand(Entry(Candidate(ref, delta, i), flags[i].used), flags[i].kept)
  {
    seq(|flags|, i requires 0 <= i < |flags| => Cand(Entry(Candidate(ref, delta, i), flags[i].used), flags[i].kept))
  }

  // ----- the driver: keep, sort upwards, flip the negative prefix -----

  function Insert(s: seq<Entry>, x: Entry): (r: seq<Entry>)
    ensures |r| == |s| + 1
  {
    if s == [] || s[|s| - 1].delta <= x.delta then s + [x]
    else Insert(s[..|s| - 1], x) + [s[|s| - 1]]
  }

  function SortUp(s: seq<Entry>): (r: seq<Entry>)
    ensures |r| == |s|
  {
    if s == [] then [] else Insert(SortUp(s[..|s| - 1]), s[|s| - 1])
  }

  function CountNeg(s: seq<Entry>): (r: nat)
    ensures r <= |s|
  {
    if s == [] then 0 else CountNeg(s[..|s| - 1]) + if s[|s| - 1].delta < 0 then 1 else 0
  }

  function FlipPrefix(s: seq<Entry>, n: nat): (r: seq<Entry>)
    requires n <= |s|
    ensures |r| == |s|
  {
    Rev(s[..n]) + s[n..]
  }

  function Finish(kept: seq<Entry>): RefSet {
    RefSet(CountNeg(kept), FlipPrefix(SortUp(kept), CountNeg(kept)))
  }

  function Predict(ref: RefSet, delta: int, flags: seq<Flag>): RefSet
    requires |flags| == |ref.entries| + 1
  {
    Finish(Pick(Candidates(ref, delta, flags), Any))
  }

  // ----- H.265 section 7.4.8, equations 7-61 and 7-62 -----

  /** S0: the positive half backwards, then delta, then the negative half forwards. */
  function StdS0(c: seq<Cand>, numNeg: nat): seq<Entry>
    requires numNeg < |c|
  {
    Pick(Rev(c[numNeg..|c| - 1]) + [c[|c| - 1]] + c[..numNeg], Negative)
  }

  /** S1: the negative half backwards, then delta, then the positive half forwards. */
  function StdS1(c: seq<Cand>, numNeg: nat): seq<Entry>
    requires numNeg < |c|
  {
    Pick(Rev(c[..numNeg]) + [c[|c| - 1]] + c[numNeg..|c| - 1], Positive)
  }

  function StdPredict(ref: RefSet, delta: int, flags: seq<Flag>): RefSet
    requires |flags| == |ref.entries| + 1 && ref.numNeg <= |ref.entries|
  {
    var c := Candidates(ref, delta, flags);
    RefSet(|StdS0(c, ref.numNeg)|, StdS0(c, ref.numNeg) + StdS1(c, ref.numNeg))
  }

  // ----- shapes -----

  /** The order H.265 requires of a set: both halves move strictly away from the current picture. How many
      pictures a set may have depends on the picture buffer and is not part of it. */
  predicate WellFormed(r: RefSet) {
    && r.numNeg <= |r.entries|
    && (forall i :: 0 <= i < r.numNeg ==> r.entries[i].delta < 0)
    && (forall i :: r.numNeg <= i < |r.entries| ==> r.entries[i].delta > 0)
    && (forall i, j :: 0 <= i < j < r.numNeg ==> r.entries[i].delta > r.entries[j].delta)
    && (forall i, j :: r.numNeg <= i < j < |r.entries| ==> r.entries[i].delta < r.entries[j].delta)
  }

  /** What the driver's sets always satisfy, well-formed reference or not. */
  predicate Ordered(r: RefSet) {
    && r.numNeg <= |r.entries|
    && (forall i :: 0 <= i < |r.entries| ==> (r.entries[i].delta < 0 <==> i < r.numNeg))
    && (forall i, j :: 0 <= i < j < r.numNeg ==> r.entries[i].delta >= r.entries[j].delta)
    && (forall i, j :: r.numNeg <= i < j < |r.entries| ==> r.entries[i].delta <= r.entries[j].delta)
  }

  /** A kept reference entry cancels the delta: the candidate would be the current picture. */
  predicate KeepsZero(ref: RefSet, delta: int, flags: seq<Flag>)
    requires |flags| == |ref.entries| + 1
  {
    exists i :: 0 <= i < |flags| && flags[i].kept && Candidate(ref, delta, i) == 0
  }

  predicate Up(s: seq<Entry>) {
    forall i, j :: 0 <= i < j < |s| ==> s[i].delta <= s[j].delta
  }

  predicate StrictlyUp(s: seq<Entry>) {
    forall i, j :: 0 <= i < j < |s| ==> s[i].delta < s[j].delta
  }

  // ----- the sort is a sort -----

  lemma {:induction false} InsertMultiset(s: seq<Entry>, x: Entry)
    ensures multiset(Insert(s, x)) == multiset(s) + multiset{x}
  {
    if !(s == [] || s[|s| - 1].delta <= x.delta) {
      assert s == s[..|s| - 1] + [s[|s| - 1]];
      InsertMultiset(s[..|s| - 1], x);
    }
  }

  lemma {:induction false} InsertKeepsUp(s: seq<Entry>, x: Entry)
    requires Up(s)
    ensures Up(Insert(s, x))
  {
    if !(s == [] || s[|s| - 1].delta <= x.delta) {
      var init, last := s[..|s| - 1], s[|s| - 1];
      InsertKeepsUp(init, x);
      InsertMultiset(init, x);
      forall i | 0 <= i < |s| ensures Insert(init, x)[i].delta <= last.delta {
        assert Insert(init, x)[i] in multiset(Insert(init, x));
        assert Insert(init, x)[i] == x || Insert(init, x)[i] in init;
      }
    }
  }

  lemma {:induction false} SortUpSorts(s: seq<Entry>)
    ensures Up(SortUp(s))
    ensures multiset(SortUp(s)) == multiset(s)
  {
    if s != [] {
      SortUpSorts(s[..|s| - 1]);
      InsertMultiset(SortUp(s[..|s| - 1]), s[|s| - 1]);
      InsertKeepsUp(SortUp(s[..|s| - 1]), s[|s| - 1]);
      assert s == s[..|s| - 1] + [s[|s| - 1]];
    }
  }

  lemma SameLeast(s: seq<Entry>, t: seq<Entry>)
    requires StrictlyUp(s) && Up(t) && multiset(s) == multiset(t) && s != [] && t != []
    ensures s[0] == t[0]
  {
    assert t[0] in multiset(t) && s[0] in multiset(s);
    assert t[0] in s && s[0] in t;
  }

  lemma TailsUp(s: seq<Entry>, t: seq<Entry>)
    requires StrictlyUp(s) && Up(t) && s != [] && t != []
    ensures StrictlyUp(s[1..]) && Up(t[1..])
  {
  }

  lemma TailBag(s: seq<Entry>)
    requires s != []
    ensures multiset(s[1..]) == multiset(s) - multiset{s[0]}
  {
    assert s == [s[0]] + s[1..];
  }

  /** A strictly increasing list is the only sorted arrangement of its entries. */
  lemma {:induction false} SortedIsUnique(s: seq<Entry>, t: seq<Entry>)
    requires StrictlyUp(s) && Up(t) && multiset(s) == multiset(t)
    ensures s == t
  {
    assert |s| == |multiset(s)| == |multiset(t)| == |t|;
    if s != [] {
      hide StrictlyUp, Up;
      SameLeast(s, t);
      TailsUp(s, t);
      TailBag(s);
      TailBag(t);
      SortedIsUnique(s[1..], t[1..]);
      assert s == [s[0]] + s[1..] && t == [t[0]] + t[1..];
    }
  }

  // ----- counting the negative prefix -----

  lemma {:induction false} CountNegOfConcat(a: seq<Entry>, b: seq<Entry>)
    ensures CountNeg(a + b) == CountNeg(a) + CountNeg(b)
  {
    if b == [] {
      assert a + b == a;
    } else {
      CountNegOfConcat(a, b[..|b| - 1]);
      assert (a + b)[..|a + b| - 1] == a + b[..|b| - 1];
    }
  }

  lemma {:induction false} CountNegOfInsert(s: seq<Entry>, x: Entry)
    ensures CountNeg(Insert(s, x)) == CountNeg(s + [x])
  {
    if !(s == [] || s[|s| - 1].delta <= x.delta) {
      var init, last := s[..|s| - 1], s[|s| - 1];
      CountNegOfInsert(init, x);
      CountNegOfConcat(Insert(init, x), [last]);
      CountNegOfConcat(init, [x]);
      CountNegOfConcat(s, [x]);
      CountNegOfConcat(init, [last]);
      assert s == init + [last];
    }
  }

  lemma {:induction false} CountNegOfSortUp(s: seq<Entry>)
    ensures CountNeg(SortUp(s)) == CountNeg(s)
  {
    if s != [] {
      var init, last := s[..|s| - 1], s[|s| - 1];
      CountNegOfSortUp(init);
      CountNegOfInsert(SortUp(init), last);
      CountNegOfConcat(SortUp(init), [last]);
      CountNegOfConcat(init, [last]);
      assert s == init + [last];
    }
  }

  /** In sorted order the negative entries are exactly the first CountNeg ones. */
  lemma {:induction false} NegativesComeFirst(s: seq<Entry>)
    requires Up(s)
    ensures forall i :: 0 <= i < |s| ==> (s[i].delta < 0 <==> i < CountNeg(s))
  {
    if s != [] {
      var init := s[..|s| - 1];
      NegativesComeFirst(init);
      forall i | 0 <= i < |init| ensures s[i].delta < 0 <==> i < CountNeg(init) {
        assert init[i] == s[i];
      }
    }
  }

  lemma FlipPrefixAt(s: seq<Entry>, n: nat)
    requires n <= |s|
    ensures var r := FlipPrefix(s, n);
            (forall i :: 0 <= i < n ==> r[i] == s[n - 1 - i]) && (forall i :: n <= i < |s| ==> r[i] == s[i])
  {
  }

  lemma FlipPrefixIsOrdered(s: seq<Entry>, n: nat)
    requires Up(s) && n <= |s|
    requires forall i :: 0 <= i < |s| ==> (s[i].delta < 0 <==> i < n)
    ensures Ordered(RefSet(n, FlipPrefix(s, n)))
  {
    FlipPrefixAt(s, n);
    hide FlipPrefix;
  }

  /** Whatever is kept, the finished set has its negatives first, moving down, then the rest, moving up. */
  lemma FinishIsOrdered(kept: seq<Entry>)
    ensures Ordered(Finish(kept))
    ensures multiset(Finish(kept).entries) == multiset(kept)
  {
    hide SortUp, CountNeg, Rev;
    var s, n := SortUp(kept), CountNeg(kept);
    SortUpSorts(kept);
    CountNegOfSortUp(kept);
    NegativesComeFirst(s);
    FlipPrefixIsOrdered(s, n);
    RevMultiset(s[..n]);
    assert s == s[..n] + s[n..];
  }

  lemma {:induction false} RevMultiset<T>(s: seq<T>)
    ensures multiset(Rev(s)) == multiset(s)
  {
    if s != [] {
      RevMultiset(s[1..]);
      assert s == [s[0]] + s[1..];
      assert Rev(s) == Rev(s[1..]) + [s[0]];
    }
  }

  // ----- picking -----

  lemma {:induction false} PickConcat(a: seq<Cand>, b: seq<Cand>, w: Which)
    ensures Pick(a + b, w) == Pick(a, w) + Pick(b, w)
  {
    if b == [] {
      assert a + b == a;
    } else {
      PickConcat(a, b[..|b| - 1], w);
      assert (a + b)[..|a + b| - 1] == a + b[..|b| - 1];
    }
  }

  lemma {:induction false} PickRev(s: seq<Cand>, w: Which)
    ensures Pick(Rev(s), w) == Rev(Pick(s, w))
  {
    if s != [] {
      var init, last := s[..|s| - 1], s[|s| - 1];
      PickRev(init, w);
      PickConcat([last], Rev(init), w);
      assert Rev(s) == [last] + Rev(init);
      assert [last][..0] == [];
    }
  }

  predicate CandidatesAscend(s: seq<Cand>) {
    forall i, j :: 0 <= i < j < |s| ==> s[i].entry.delta < s[j].entry.delta
  }

  predicate NoKeptZero(s: seq<Cand>) {
    forall i :: 0 <= i < |s| && s[i].kept ==> s[i].entry.delta != 0
  }

  /** Candidates listed in increasing order: the negative and positive picks fit together. */
  lemma {:induction false} PickSplits(s: seq<Cand>)
    requires CandidatesAscend(s) && NoKeptZero(s)
    ensures Pick(s, Any) == Pick(s, Negative) + Pick(s, Positive)
  {
    if s != [] {
      var init, last := s[..|s| - 1], s[|s| - 1];
      PickSplits(init);
      if last.entry.delta < 0 {
        NoPositives(s);
        NoPositives(init);
      }
    }
  }

  lemma {:induction false} PickStrictlyUp(s: seq<Cand>)
    requires CandidatesAscend(s)
    ensures StrictlyUp(Pick(s, Any))
    ensures s != [] ==> forall e :: e in Pick(s, Any) ==> e.delta <= s[|s| - 1].entry.delta
  {
    if s != [] {
      var init, last := s[..|s| - 1], s[|s| - 1];
      PickStrictlyUp(init);
      var p := Pick(init, Any);
      forall i | 0 <= i < |p| ensures p[i].delta < last.entry.delta {
        assert p[i] in p;
      }
    }
  }

  lemma {:induction false} CountNegOfPick(s: seq<Cand>)
    ensures CountNeg(Pick(s, Any)) == |Pick(s, Negative)|
  {
    if s != [] {
      var init, last := s[..|s| - 1], s[|s| - 1];
      CountNegOfPick(init);
      CountNegOfConcat(Pick(init, Any), [last.entry]);
      assert [last.entry][..0] == [];
      assert Pick(init, Any) + [] == Pick(init, Any);
    }
  }

  lemma {:induction false} NoPositives(s: seq<Cand>)
    requires forall i :: 0 <= i < |s| ==> s[i].entry.delta < 0
    ensures Pick(s, Positive) == []
  {
    if s != [] { NoPositives(s[..|s| - 1]); }
  }

  /** Visiting order does not change which candidates are picked. */
  lemma PickReordered(a: seq<Cand>, x: Cand, b: seq<Cand>, w: Which)
    ensures multiset(Pick(Rev(a) + [x] + b, w)) == multiset(Pick(a + b + [x], w))
  {
    PickConcat(Rev(a) + [x], b, w);
    PickConcat(Rev(a), [x], w);
    PickConcat(a + b, [x], w);
    PickConcat(a, b, w);
    PickRev(a, w);
    RevMultiset(Pick(a, w));
  }

  /** All candidates from the smallest to the largest distance. */
  function Ascending(c: seq<Cand>, numNeg: nat): seq<Cand>
    requires numNeg < |c|
  {
    Rev(c[..numNeg]) + [c[|c| - 1]] + c[numNeg..|c| - 1]
  }

  lemma AscendingAt(c: seq<Cand>, n: nat)
    requires n < |c|
    ensures var a := Ascending(c, n);
            && |a| == |c| && a[n] == c[|c| - 1]
            && (forall i :: 0 <= i < n ==> a[i] == c[n - 1 - i])
            && (forall i :: n < i < |a| ==> a[i] == c[i - 1])
  {
  }

  lemma AscendingAscends(ref: RefSet, delta: int, flags: seq<Flag>)
    requires WellFormed(ref) && |flags| == |ref.entries| + 1
    ensures CandidatesAscend(Ascending(Candidates(ref, delta, flags), ref.numNeg))
  {
    var c, n := Candidates(ref, delta, flags), ref.numNeg;
    var a := Ascending(c, n);
    AscendingAt(c, n);
    hide Ascending;
    assert forall i :: 0 <= i < |ref.entries| ==> c[i].entry.delta == ref.entries[i].delta + delta;
    assert c[|c| - 1].entry.delta == delta;
    hide Candidates;
  }

  lemma SameCandidates(c: seq<Cand>, numNeg: nat, w: Which)
    requires numNeg < |c|
    ensures multiset(Pick(Ascending(c, numNeg), w)) == multiset(Pick(c, w))
  {
    PickReordered(c[..numNeg], c[|c| - 1], c[numNeg..|c| - 1], w);
    assert c[..numNeg] + c[numNeg..|c| - 1] + [c[|c| - 1]] == c;
  }

  lemma DescendingIsReversed(c: seq<Cand>, numNeg: nat)
    requires numNeg < |c|
    ensures StdS0(c, numNeg) == Rev(Pick(Ascending(c, numNeg), Negative))
  {
    PickRev(Ascending(c, numNeg), Negative);
    assert Rev(Ascending(c, numNeg)) == Rev(c[numNeg..|c| - 1]) + [c[|c| - 1]] + c[..numNeg];
  }

  lemma KeptZeroIsPicked(ref: RefSet, delta: int, flags: seq<Flag>)
    requires |flags| == |ref.entries| + 1
    ensures KeepsZero(ref, delta, flags) <==>
            exists e :: e in Pick(Candidates(ref, delta, flags), Any) && e.delta == 0
  {
    var c := Candidates(ref, delta, flags);
    forall e: Entry ensures e in Pick(c, Any) <==> exists i :: 0 <= i < |c| && c[i].kept && c[i].entry == e {
      PickMembers(c, e);
    }
    if KeepsZero(ref, delta, flags) {
      var i :| 0 <= i < |flags| && flags[i].kept && Candidate(ref, delta, i) == 0;
      assert c[i].entry in Pick(c, Any);
    }
  }

  lemma {:induction false} PickMembers(s: seq<Cand>, e: Entry)
    ensures e in Pick(s, Any) <==> exists i :: 0 <= i < |s| && s[i].kept && s[i].entry == e
  {
    if s != [] {
      var init := s[..|s| - 1];
      PickMembers(init, e);
      if e in Pick(init, Any) {
        var i :| 0 <= i < |init| && init[i].kept && init[i].entry == e;
        assert s[i].kept && s[i].entry == e;
      }
    }
  }

  lemma AscendingHasNoKeptZero(ref: RefSet, delta: int, flags: seq<Flag>)
    requires ref.numNeg <= |ref.entries| && |flags| == |ref.entries| + 1
    requires !KeepsZero(ref, delta, flags)
    ensures NoKeptZero(Ascending(Candidates(ref, delta, flags), ref.numNeg))
  {
    var c := Candidates(ref, delta, flags);
    var a := Ascending(c, ref.numNeg);
    forall i | 0 <= i < |a| && a[i].kept ensures a[i].entry.delta != 0 {
      var j := if i < ref.numNeg then ref.numNeg - 1 - i else if i == ref.numNeg then |c| - 1 else i - 1;
      assert a[i] == c[j] && flags[j].kept;
    }
  }

  lemma SortedKeptIsAscending(ref: RefSet, delta: int, flags: seq<Flag>)
    requires WellFormed(ref) && |flags| == |ref.entries| + 1
    ensures var c := Candidates(ref, delta, flags);
            SortUp(Pick(c, Any)) == Pick(Ascending(c, ref.numNeg), Any)
            && StrictlyUp(SortUp(Pick(c, Any)))
  {
    var c := Candidates(ref, delta, flags);
    SameCandidates(c, ref.numNeg, Any);
    AscendingAscends(ref, delta, flags);
    PickStrictlyUp(Ascending(c, ref.numNeg));
    SortUpSorts(Pick(c, Any));
    SortedIsUnique(Pick(Ascending(c, ref.numNeg), Any), SortUp(Pick(c, Any)));
  }

  /** Without a kept zero the driver's three steps give the standard's three traversals. */
  lemma PredictWithoutZero(ref: RefSet, delta: int, flags: seq<Flag>)
    requires WellFormed(ref) && |flags| == |ref.entries| + 1
    requires !KeepsZero(ref, delta, flags)
    ensures Predict(ref, delta, flags) == StdPredict(ref, delta, flags)
  {
    var c, n := Candidates(ref, delta, flags), ref.numNeg;
    var a := Ascending(c, n);
    SortedKeptIsAscending(ref, delta, flags);
    AscendingAscends(ref, delta, flags);
    AscendingHasNoKeptZero(ref, delta, flags);
    PickSplits(a);
    CountNegOfPick(a);
    CountNegOfSortUp(Pick(c, Any));
    DescendingIsReversed(c, n);
    var s, k := SortUp(Pick(c, Any)), CountNeg(Pick(c, Any));
    assert s[..k] == Pick(a, Negative) && s[k..] == Pick(a, Positive);
  }

  /** The standard's sets are well-formed, so a chain of predictions stays well-formed. */
  lemma PredictIsWellFormed(ref: RefSet, delta: int, flags: seq<Flag>)
    requires WellFormed(ref) && |flags| == |ref.entries| + 1
    requires !KeepsZero(ref, delta, flags)
    ensures WellFormed(Predict(ref, delta, flags))
  {
    var kept := Pick(Candidates(ref, delta, flags), Any);
    SortedKeptIsAscending(ref, delta, flags);
    KeptZeroIsPicked(ref, delta, flags);
    SortUpSorts(kept);
    FinishIsOrdered(kept);
    forall i | 0 <= i < |kept| ensures SortUp(kept)[i].delta != 0 {
      assert SortUp(kept)[i] in multiset(SortUp(kept));
      assert SortUp(kept)[i] in kept;
    }
    FlipIsWellFormed(SortUp(kept), CountNeg(kept));
  }

  lemma FlipIsWellFormed(s: seq<Entry>, n: nat)
    requires StrictlyUp(s) && n <= |s|
    requires forall i :: 0 <= i < |s| ==> s[i].delta != 0
    requires Ordered(RefSet(n, FlipPrefix(s, n)))
    ensures WellFormed(RefSet(n, FlipPrefix(s, n)))
  {
    FlipPrefixAt(s, n);
    hide FlipPrefix;
  }

  /** A kept zero leaves the driver with one entry more than the standard. */
  lemma PredictWithZero(ref: RefSet, delta: int, flags: seq<Flag>)
    requires WellFormed(ref) && |flags| == |ref.entries| + 1
    requires KeepsZero(ref, delta, flags)
    ensures |Predict(ref, delta, flags).entries| > |StdPredict(ref, delta, flags).entries|
  {
    var c, n := Candidates(ref, delta, flags), ref.numNeg;
    var a := Ascending(c, n);
    SameCandidates(c, n, Any);
    DescendingIsReversed(c, n);
    PickLengths(a);
    KeptZeroIsPicked(ref, delta, flags);
    var e :| e in Pick(c, Any) && e.delta == 0;
    assert e in multiset(Pick(a, Any));
    assert |Pick(a, Any)| == |multiset(Pick(a, Any))| == |Pick(c, Any)|;
  }

  lemma {:induction false} PickLengths(s: seq<Cand>)
    ensures |Pick(s, Negative)| + |Pick(s, Positive)| <= |Pick(s, Any)|
    ensures (exists e :: e in Pick(s, Any) && e.delta == 0) ==>
              |Pick(s, Negative)| + |Pick(s, Positive)| < |Pick(s, Any)|
  {
    if s != [] { PickLengths(s[..|s| - 1]); }
  }

  /** The driver's prediction is the standard's exactly when no kept entry cancels the delta. */
  lemma PredictMatchesStandard(ref: RefSet, delta: int, flags: seq<Flag>)
    requires WellFormed(ref) && |flags| == |ref.entries| + 1
    ensures Predict(ref, delta, flags) == StdPredict(ref, delta, flags) <==> !KeepsZero(ref, delta, flags)
  {
    if KeepsZero(ref, delta, flags) {
      PredictWithZero(ref, delta, flags);
    } else {
      PredictWithoutZero(ref, delta, flags);
    }
  }

  /** A set where they part: picture -1 moved by +1 is kept as entry 0. */
  lemma KeptZeroExample()
    ensures var ref := RefSet(1, [Entry(-1, true)]);
            var flags := [Flag(true, true), Flag(false, false)];
            && WellFormed(ref)
            && Predict(ref, 1, flags) == RefSet(0, [Entry(0, true)])
            && StdPredict(ref, 1, flags) == RefSet(0, [])
  {
    var ref := RefSet(1, [Entry(-1, true)]);
    var flags := [Flag(true, true), Flag(false, false)];
    var c := Candidates(ref, 1, flags);
    var zero, one := Cand(Entry(0, true), true), Cand(Entry(1, false), false);
    assert c == [zero] + [one];
    hide Pick, Candidates, SortUp;
    PickOne(zero, Any);
    PickOne(one, Any);
    PickConcat([zero], [one], Any);
    SortOne(Entry(0, true));
    assert Pick(c, Any) == [Entry(0, true)];
    assert Rev([zero.entry][..0]) + [zero.entry][0..] == [zero.entry];
    PickOne(zero, Negative);
    PickOne(one, Negative);
    PickConcat([one], [zero], Negative);
    assert Rev(c[1..1]) + [c[1]] + c[..1] == [one] + [zero];
    PickOne(zero, Positive);
    PickOne(one, Positive);
    PickConcat([zero], [one], Positive);
    assert Rev(c[..1]) + [c[1]] + c[1..1] == [zero] + [one];
  }

  lemma PickOne(c: Cand, w: Which)
    ensures Pick([c], w) == if Chosen(c, w) then [c.entry] else []
  {
    assert [c][..0] == [];
  }

  lemma SortOne(e: Entry)
    ensures SortUp([e]) == [e]
    ensures CountNeg([e]) == if e.delta < 0 then 1 else 0
  {
    assert [e][..0] == [];
  }
}
