/** st_ref_pic_set() as section 7.3.7 of H.265 writes it: what is written is what is decoded. */
module HevcRpsSyntax {
  import opened Basics
  import opened BitReader
  import opened HevcRpsSpec
  import opened HevcRps

  // ----- the meaning of a predicted set, without traversals -----

  /** Entry e is candidate i: reference entry i moved by delta, or delta itself after the last one. */
  predicate IsCandidate(ref: RefSet, delta: int, flags: seq<Flag>, i: nat, e: Entry)
    requires i < |flags| == |ref.entries| + 1
  {
    e == Entry(if i == |ref.entries| then delta else ref.entries[i].delta + delta, flags[i].used)
  }

  /** The pictures of a predicted set: the kept candidates other than the current picture. */
  predicate Member(ref: RefSet, delta: int, flags: seq<Flag>, e: Entry)
    requires |flags| == |ref.entries| + 1
  {
    e.delta != 0 && exists i :: 0 <= i < |flags| && flags[i].kept && IsCandidate(ref, delta, flags, i, e)
  }

  lemma {:induction false} SignedMembers(s: seq<Cand>, w: Which, e: Entry)
    ensures e in Pick(s, w) <==> exists i :: 0 <= i < |s| && s[i].entry == e && Chosen(s[i], w)
  {
    if s != [] {
      var init := s[..|s| - 1];
      SignedMembers(init, w, e);
      if e in Pick(init, w) {
        var i :| 0 <= i < |init| && init[i].entry == e && Chosen(init[i], w);
        assert s[i].entry == e && Chosen(s[i], w);
      }
    }
  }

  lemma S0Members(c: seq<Cand>, numNeg: nat, e: Entry)
    requires numNeg < |c|
    ensures e in StdS0(c, numNeg) <==> e.delta < 0 && exists i :: 0 <= i < |c| && c[i].entry == e && c[i].kept
  {
    DescendingIsReversed(c, numNeg);
    SameCandidates(c, numNeg, Negative);
    SignedMembers(c, Negative, e);
    hide Pick, Ascending, StdS0;
    var p := Pick(Ascending(c, numNeg), Negative);
    InRev(p, e);
    assert e in p <==> e in multiset(p);
    assert e in Pick(c, Negative) <==> e in multiset(Pick(c, Negative));
  }

  lemma InRev(s: seq<Entry>, e: Entry)
    ensures e in Rev(s) <==> e in s
  {
    if e in s { var i :| 0 <= i < |s| && s[i] == e; assert Rev(s)[|s| - 1 - i] == e; }
  }

  lemma S1Members(c: seq<Cand>, numNeg: nat, e: Entry)
    requires numNeg < |c|
    ensures e in StdS1(c, numNeg) <==> e.delta > 0 && exists i :: 0 <= i < |c| && c[i].entry == e && c[i].kept
  {
    SameCandidates(c, numNeg, Positive);
    var p := Pick(Ascending(c, numNeg), Positive);
    assert e in p <==> e in multiset(p);
    assert e in Pick(c, Positive) <==> e in multiset(Pick(c, Positive));
    SignedMembers(c, Positive, e);
  }

  lemma CandidatesAre(ref: RefSet, delta: int, flags: seq<Flag>, e: Entry)
    requires |flags| == |ref.entries| + 1
    ensures var c := Candidates(ref, delta, flags);
            Member(ref, delta, flags, e) <==> e.delta != 0 && exists i :: 0 <= i < |c| && c[i].entry == e && c[i].kept
  {
    var c := Candidates(ref, delta, flags);
    if Member(ref, delta, flags, e) {
      var i :| 0 <= i < |flags| && flags[i].kept && IsCandidate(ref, delta, flags, i, e);
      assert c[i].entry == e && c[i].kept;
    }
    if i :| 0 <= i < |c| && c[i].entry == e && c[i].kept {
      assert flags[i].kept && IsCandidate(ref, delta, flags, i, e);
    }
  }

  lemma StdMembers(ref: RefSet, delta: int, flags: seq<Flag>, e: Entry)
    requires |flags| == |ref.entries| + 1 && ref.numNeg <= |ref.entries|
    ensures e in StdPredict(ref, delta, flags).entries <==> Member(ref, delta, flags, e)
  {
    var c := Candidates(ref, delta, flags);
    hide StdS0, StdS1;
    S0Members(c, ref.numNeg, e);
    S1Members(c, ref.numNeg, e);
    CandidatesAre(ref, delta, flags, e);
  }

  lemma {:induction false} SignedUp(s: seq<Cand>, w: Which)
    requires CandidatesAscend(s)
    ensures StrictlyUp(Pick(s, w))
    ensures s != [] ==> forall e :: e in Pick(s, w) ==> e.delta <= s[|s| - 1].entry.delta
  {
    if s != [] {
      var init, last := s[..|s| - 1], s[|s| - 1];
      SignedUp(init, w);
      var p := Pick(init, w);
      forall i | 0 <= i < |p| ensures p[i].delta < last.entry.delta {
        assert p[i] in p;
      }
    }
  }

  lemma {:induction false} AllSigned(s: seq<Cand>, w: Which, i: nat)
    requires i < |Pick(s, w)|
    ensures w == Negative ==> Pick(s, w)[i].delta < 0
    ensures w == Positive ==> Pick(s, w)[i].delta > 0
  {
    var init := s[..|s| - 1];
    if i < |Pick(init, w)| { AllSigned(init, w, i); }
  }

  /** What the standard predicts from a set it allows is again a set it allows. */
  lemma StdIsWellFormed(ref: RefSet, delta: int, flags: seq<Flag>)
    requires WellFormed(ref) && |flags| == |ref.entries| + 1
    ensures WellFormed(StdPredict(ref, delta, flags))
  {
    var c, n := Candidates(ref, delta, flags), ref.numNeg;
    var a := Ascending(c, n);
    AscendingAscends(ref, delta, flags);
    DescendingIsReversed(c, n);
    SignedUp(a, Negative);
    SignedUp(a, Positive);
    var neg, pos := Pick(a, Negative), Pick(a, Positive);
    forall i | 0 <= i < |neg| ensures neg[i].delta < 0 { AllSigned(a, Negative, i); }
    forall i | 0 <= i < |pos| ensures pos[i].delta > 0 { AllSigned(a, Positive, i); }
    assert StdPredict(ref, delta, flags) == RefSet(|neg|, Rev(neg) + pos);
    hide Pick, Ascending, StdPredict, Rev, Candidates;
    RevUp(neg, pos);
  }

  lemma RevUp(neg: seq<Entry>, pos: seq<Entry>)
    requires StrictlyUp(neg) && StrictlyUp(pos)
    requires (forall i :: 0 <= i < |neg| ==> neg[i].delta < 0) && forall i :: 0 <= i < |pos| ==> pos[i].delta > 0
    ensures WellFormed(RefSet(|neg|, Rev(neg) + pos))
  {
  }

  /** Strictly increasing lists with the same members are the same list. */
  lemma {:induction false} UpIsUnique(s: seq<Entry>, t: seq<Entry>)
    requires StrictlyUp(s) && StrictlyUp(t) && forall e :: e in s <==> e in t
    ensures s == t
  {
    BothEmpty(s, t);
    if s != [] {
      assert s[0] in s && s[0] in t;
      assert t[0] in t && t[0] in s;
      assert s[0] == t[0];
      forall e ensures e in s[1..] <==> e in t[1..] {
        InTail(s, e);
        InTail(t, e);
      }
      UpIsUnique(s[1..], t[1..]);
    }
  }

  lemma BothEmpty(s: seq<Entry>, t: seq<Entry>)
    requires forall e :: e in s <==> e in t
    ensures s == [] <==> t == []
  {
    if s != [] { assert s[0] in s; }
    if t != [] { assert t[0] in t; }
  }

  lemma InTail(s: seq<Entry>, e: Entry)
    requires StrictlyUp(s) && s != []
    ensures e in s[1..] <==> e in s && e != s[0]
  {
    forall i | 0 <= i < |s[1..]| ensures s[1..][i] != s[0] {
      assert s[1..][i] == s[i + 1];
    }
    assert s == [s[0]] + s[1..];
  }

  lemma NegativeHalf(r: RefSet)
    requires WellFormed(r)
    ensures var h := Rev(r.entries[..r.numNeg]);
            StrictlyUp(h) && forall e :: e in h <==> e in r.entries && e.delta < 0
  {
    var es, n := r.entries, r.numNeg;
    var h := Rev(es[..n]);
    forall e ensures e in h <==> e in es && e.delta < 0 {
      if e in es && e.delta < 0 {
        var i :| 0 <= i < |es| && es[i] == e;
        assert h[n - 1 - i] == e;
      }
    }
  }

  lemma PositiveHalf(r: RefSet)
    requires WellFormed(r)
    ensures var h := r.entries[r.numNeg..];
            StrictlyUp(h) && forall e :: e in h <==> e in r.entries && e.delta > 0
  {
    var es, n := r.entries, r.numNeg;
    var h := es[n..];
    forall e ensures e in h <==> e in es && e.delta > 0 {
      if e in es && e.delta > 0 {
        var i :| 0 <= i < |es| && es[i] == e;
        assert h[i - n] == e;
      }
    }
  }

  lemma RevRev(s: seq<Entry>)
    ensures Rev(Rev(s)) == s
  {
  }

  lemma SetIsUnique(r: RefSet, t: RefSet)
    requires WellFormed(r) && WellFormed(t) && forall e :: e in r.entries <==> e in t.entries
    ensures r == t
  {
    NegativeHalf(r);
    NegativeHalf(t);
    PositiveHalf(r);
    PositiveHalf(t);
    assert r.numNeg <= |r.entries| && t.numNeg <= |t.entries|;
    hide WellFormed, StrictlyUp;
    var rn, tn := r.entries[..r.numNeg], t.entries[..t.numNeg];
    UpIsUnique(Rev(rn), Rev(tn));
    UpIsUnique(r.entries[r.numNeg..], t.entries[t.numNeg..]);
    RevRev(rn);
    RevRev(tn);
    assert r.entries == rn + r.entries[r.numNeg..] && t.entries == tn + t.entries[t.numNeg..];
  }

  /** The standard's predicted set is the one allowed set made of exactly the kept candidates other than the
      current picture. */
  lemma PredictedSetIs(ref: RefSet, delta: int, flags: seq<Flag>, r: RefSet)
    requires WellFormed(ref) && |flags| == |ref.entries| + 1
    ensures r == StdPredict(ref, delta, flags) <==>
            WellFormed(r) && forall e :: e in r.entries <==> Member(ref, delta, flags, e)
  {
    var t := StdPredict(ref, delta, flags);
    StdIsWellFormed(ref, delta, flags);
    forall e ensures e in t.entries <==> Member(ref, delta, flags, e) { StdMembers(ref, delta, flags, e); }
    hide StdPredict, WellFormed, Member;
    if WellFormed(r) && forall e :: e in r.entries <==> Member(ref, delta, flags, e) { SetIsUnique(r, t); }
  }

  // ----- the syntax of section 7.3.7 -----

  /** used_by_curr_pic_flag, and use_delta_flag unless the picture is used. */
  function WriteFlag(f: Flag): seq<bool> {
    if f.used then [true] else [false, f.kept]
  }

  /** use_delta_flag counts as 1 where it is not written. */
  predicate LegalFlags(flags: seq<Flag>) { forall i :: 0 <= i < |flags| && flags[i].used ==> flags[i].kept }

  function WriteFlags(flags: seq<Flag>): seq<bool> {
    if flags == [] then [] else WriteFlags(flags[..|flags| - 1]) + WriteFlag(flags[|flags| - 1])
  }

  function Abs(x: int): nat { if x < 0 then -x else x }

  /** delta_rps_sign, 1 for a negative delta, and abs_delta_rps_minus1. */
  function WriteDelta(delta: int): seq<bool>
    requires delta != 0
  {
    [delta < 0] + WriteUe(Abs(delta) - 1)
  }

  /** How far picture i of one half lies beyond the one before it, or beyond the current picture. */
  function Gap(es: seq<Entry>, i: nat): (r: int)
    requires i < |es|
    ensures r >= 0
  {
    if i == 0 then Abs(es[0].delta) else Abs(es[i].delta - es[i - 1].delta)
  }

  /** delta_poc_s0_minus1 and used_by_curr_pic_s0_flag, or the same of s1, of each picture. */
  function WriteHalf(es: seq<Entry>): seq<bool> {
    if es == [] then []
    else
      var i := |es| - 1;
      WriteHalf(es[..i]) + WriteUe(if Gap(es, i) == 0 then 0 else Gap(es, i) - 1) + [es[i].used]
  }

  function WriteCoded(rps: RefSet): seq<bool>
    requires rps.numNeg <= |rps.entries|
  {
    WriteUe(rps.numNeg) + WriteUe(|rps.entries| - rps.numNeg)
    + WriteHalf(rps.entries[..rps.numNeg]) + WriteHalf(rps.entries[rps.numNeg..])
  }

  // ----- reading what was written -----

  lemma {:induction false} FlagsRoundTrip(flags: seq<Flag>, rest: seq<bool>)
    requires LegalFlags(flags)
    ensures ReadFlags(WriteFlags(flags) + rest, |flags|) == (flags, rest)
  {
    if flags == [] {
      assert WriteFlags(flags) + rest == rest;
    } else {
      var init, f := flags[..|flags| - 1], flags[|flags| - 1];
      FlagsRoundTrip(init, WriteFlag(f) + rest);
      assert WriteFlags(flags) + rest == WriteFlags(init) + (WriteFlag(f) + rest);
      FlagRoundTrip(f, rest);
      assert flags == init + [f];
    }
  }

  lemma FlagRoundTrip(f: Flag, rest: seq<bool>)
    requires f.used ==> f.kept
    ensures ReadFlag(WriteFlag(f) + rest) == (f, rest)
  {
    var s := WriteFlag(f) + rest;
    if f.used {
      assert s[1..] == rest;
    } else {
      assert s[1..] == [f.kept] + rest && s[1..][1..] == rest;
    }
  }

  /** delta_rps is read back, sign included, and anything beyond 2^15 is rejected. */
  lemma DeltaRoundTrip(delta: int, rest: seq<bool>)
    requires delta != 0 && -0x1_0000_0000 < delta < 0x1_0000_0000
    ensures ReadDeltaRps(WriteDelta(delta) + rest)
            == if -32768 <= delta <= 32768 then Delta(delta, rest) else BadDelta
  {
    WriteDeltaIs(delta, rest);
    hide *;
    var code: nat := if delta < 0 then -delta - 1 else delta - 1;
    UeRoundTrip(code, rest);
    DeltaOfParts(delta < 0, WriteUe(code) + rest, code, rest);
  }

  lemma WriteDeltaIs(delta: int, rest: seq<bool>)
    requires delta != 0
    ensures WriteDelta(delta) + rest == [delta < 0] + (WriteUe(if delta < 0 then -delta - 1 else delta - 1) + rest)
  {
    hide WriteUe;
  }

  lemma DeltaOfParts(sign: bool, t: seq<bool>, code: nat, rest: seq<bool>)
    requires code < WORD - 1 && ReadUe(t) == (code, rest)
    ensures ReadDeltaRps([sign] + t)
            == if code + 1 > 32768 then BadDelta else Delta(if sign then -(code + 1) else code + 1, rest)
  {
    NoWrap(code);
    hide ReadUe;
    assert ([sign] + t)[1..] == t;
  }

  lemma NoWrap(u: nat)
    requires u < WORD - 1
    ensures (u + 1) % WORD == u + 1
  {
  }

  /** The pictures of one half, nearest first, within the range of a word. */
  predicate Half(es: seq<Entry>, down: bool) {
    && (forall i :: 0 <= i < |es| ==> if down then es[i].delta < 0 else es[i].delta > 0)
    && (forall i, j :: 0 <= i < j < |es| ==> if down then es[j].delta < es[i].delta else es[i].delta < es[j].delta)
    && (forall i :: 0 <= i < |es| ==> Gap(es, i) < 0x1_0000_0000)
  }

  predicate Near(es: seq<Entry>) { forall i :: 0 <= i < |es| ==> Gap(es, i) <= 32768 }

  lemma HalfPrefix(es: seq<Entry>, down: bool)
    requires es != [] && Half(es, down)
    ensures var n := |es| - 1;
            && Half(es[..n], down) && (Near(es) <==> Near(es[..n]) && Gap(es, n) <= 32768)
            && 0 < Gap(es, n) < 0x1_0000_0000
            && es[n].delta == LastDelta(es[..n]) + if down then -Gap(es, n) else Gap(es, n)
  {
    var n := |es| - 1;
    forall i | 0 <= i < n ensures Gap(es[..n], i) == Gap(es, i) {}
  }

  lemma GapRoundTrip(es: seq<Entry>, gap: int, used: bool, down: bool, rest: seq<bool>)
    requires 0 < gap < 0x1_0000_0000
    ensures RunStep(Run(es, WriteUe(gap - 1) + ([used] + rest)), down)
            == if gap > 32768 then BadRun
               else Run(es + [Entry(LastDelta(es) + (if down then -gap else gap), used)], rest)
  {
    var t := [used] + rest;
    assert gap - 1 < WORD - 1;
    hide *;
    UeRoundTrip(gap - 1, t);
    StepOfParts(es, WriteUe(gap - 1) + t, gap - 1, t, down);
    assert t[1..] == rest;
  }

  lemma StepOfParts(es: seq<Entry>, s: seq<bool>, code: nat, t: seq<bool>, down: bool)
    requires code < WORD - 1 && ReadUe(s) == (code, t) && t != []
    ensures RunStep(Run(es, s), down)
            == if code + 1 > 32768 then BadRun
               else Run(es + [Entry(LastDelta(es) + (if down then -(code + 1) else code + 1), t[0])], t[1..])
  {
    NoWrap(code);
    hide ReadUe, LastDelta;
  }

  /** One half comes back with its distances and used flags if no gap is beyond 2^15; otherwise it is rejected. */
  lemma {:induction false} HalfRoundTrip(es: seq<Entry>, down: bool, rest: seq<bool>)
    requires Half(es, down)
    ensures ReadRun(WriteHalf(es) + rest, |es|, down) == if Near(es) then Run(es, rest) else BadRun
  {
    hide Half, Near, WriteUe, RunStep, Gap, LastDelta;
    if es == [] {
      NoneIsNear();
      assert WriteHalf(es) + rest == rest;
    } else {
      var n := |es| - 1;
      var gap, used := Gap(es, n), es[n].used;
      HalfPrefix(es, down);
      HalfRoundTrip(es[..n], down, WriteUe(gap - 1) + ([used] + rest));
      GapRoundTrip(es[..n], gap, used, down, rest);
      assert WriteHalf(es) + rest == WriteHalf(es[..n]) + (WriteUe(gap - 1) + ([used] + rest));
      assert es == es[..n] + [es[n]];
      if !Near(es[..n]) { BadStep(down); }
    }
  }

  lemma NoneIsNear()
    ensures Near([])
  {
  }

  lemma BadStep(down: bool)
    ensures RunStep(BadRun, down) == BadRun
  {
  }

  /** A set of the standard whose gaps and counts can be written at all. */
  predicate Writable(rps: RefSet) {
    && rps.numNeg <= |rps.entries| < 0xffff_ffff
    && Half(rps.entries[..rps.numNeg], true) && Half(rps.entries[rps.numNeg..], false)
  }

  /** The limits of section 7.4.8 that the driver checks. */
  predicate WithinLimits(rps: RefSet)
    requires rps.numNeg <= |rps.entries|
  {
    && rps.numNeg <= 15 && |rps.entries| - rps.numNeg <= 15
    && Near(rps.entries[..rps.numNeg]) && Near(rps.entries[rps.numNeg..])
  }

  /** A coded set comes back whole, the preceding pictures first, with the used flags, exactly when it is
      within the limits. */
  lemma CodedRoundTrip(rps: RefSet, rest: seq<bool>)
    requires Writable(rps)
    ensures ReadExplicit(WriteCoded(rps) + rest) == if WithinLimits(rps) then Accept(rps, rest) else Reject
  {
    hide ReadUe, WriteUe, Half, Near, ReadRun, WriteHalf;
    var n, p := rps.numNeg, |rps.entries| - rps.numNeg;
    var neg, pos := rps.entries[..n], rps.entries[n..];
    var s3 := WriteHalf(pos) + rest;
    var s2 := WriteHalf(neg) + s3;
    var s1 := WriteUe(p) + s2;
    assert WriteCoded(rps) + rest == WriteUe(n) + s1;
    UeRoundTrip(n, s1);
    UeRoundTrip(p, s2);
    HalfRoundTrip(neg, true, s3);
    HalfRoundTrip(pos, false, rest);
    assert neg + pos == rps.entries;
  }

  // ----- a whole SPS -----

  /** The sets of an SPS as an encoder chooses them. */
  datatype Code = Coded(rps: RefSet) | Predicted(delta: int, flags: seq<Flag>)

  /** A predicted set has one flag for each picture of the set before it, and one for delta itself. */
  predicate FlagsFit(before: seq<RefSet>, flags: seq<Flag>) {
    && before != []
    && var ref := before[|before| - 1]; ref.numNeg <= |ref.entries| && |flags| == |ref.entries| + 1
  }

  predicate LegalNext(before: seq<RefSet>, c: Code) {
    match c
    case Coded(rps) => Writable(rps) && WithinLimits(rps)
    case Predicted(delta, flags) =>
      && FlagsFit(before, flags) && LegalFlags(flags) && KeptCount(flags) <= 31
      && delta != 0 && -32768 <= delta <= 32768
  }

  /** What section 7.4.8 makes of the next code. */
  function Next(before: seq<RefSet>, c: Code): (r: RefSet)
    requires LegalNext(before, c)
  {
    match c
    case Coded(rps) => rps
    case Predicted(delta, flags) => StdPredict(before[|before| - 1], delta, flags)
  }

  predicate Legal(codes: seq<Code>)
    decreases |codes|, 0
  {
    codes == [] || (Legal(codes[..|codes| - 1]) && LegalNext(Meaning(codes[..|codes| - 1]), codes[|codes| - 1]))
  }

  function Meaning(codes: seq<Code>): (r: seq<RefSet>)
    requires Legal(codes)
    ensures |r| == |codes|
    decreases |codes|, 1
  {
    if codes == [] then []
    else
      var before := Meaning(codes[..|codes| - 1]);
      before + [Next(before, codes[|codes| - 1])]
  }

  /** inter_ref_pic_set_prediction_flag is not written for the first set. */
  function WriteNext(before: seq<RefSet>, c: Code): seq<bool>
    requires LegalNext(before, c)
  {
    match c
    case Coded(rps) => (if before == [] then [] else [false]) + WriteCoded(rps)
    case Predicted(delta, flags) => [true] + WriteDelta(delta) + WriteFlags(flags)
  }

  function Write(codes: seq<Code>): seq<bool>
    requires Legal(codes)
  {
    if codes == [] then []
    else
      var init := codes[..|codes| - 1];
      Write(init) + WriteNext(Meaning(init), codes[|codes| - 1])
  }

  predicate NextKeepsZero(before: seq<RefSet>, c: Code)
    requires LegalNext(before, c)
  {
    c.Predicted? && KeepsZero(before[|before| - 1], c.delta, c.flags)
  }

  /** Somewhere a kept picture cancels delta_rps. */
  predicate ZeroKept(codes: seq<Code>)
    requires Legal(codes)
  {
    codes != [] && (ZeroKept(codes[..|codes| - 1])
                    || NextKeepsZero(Meaning(codes[..|codes| - 1]), codes[|codes| - 1]))
  }

  lemma CodedIsWellFormed(rps: RefSet)
    requires Writable(rps)
    ensures WellFormed(rps)
  {
    var neg, pos := rps.entries[..rps.numNeg], rps.entries[rps.numNeg..];
    assert forall i :: 0 <= i < |neg| ==> neg[i] == rps.entries[i];
    assert forall i :: rps.numNeg <= i < |rps.entries| ==> pos[i - rps.numNeg] == rps.entries[i];
    hide Gap;
  }

  lemma {:induction false} MeaningIsWellFormed(codes: seq<Code>)
    requires Legal(codes)
    ensures AllWellFormed(Meaning(codes))
  {
    hide WellFormed, StdPredict, Writable, WithinLimits;
    if codes != [] {
      var init, c := codes[..|codes| - 1], codes[|codes| - 1];
      MeaningIsWellFormed(init);
      match c
      case Coded(rps) => CodedIsWellFormed(rps);
      case Predicted(delta, flags) => StdIsWellFormed(Meaning(init)[|init| - 1], delta, flags);
    }
  }

  predicate LastFits(before: seq<RefSet>) {
    before != [] ==> before[|before| - 1].numNeg <= |before[|before| - 1].entries|
  }

  lemma DecodeCodedBits(before: seq<RefSet>, t: seq<bool>)
    requires LastFits(before)
    ensures var s := (if before == [] then [] else [false]) + t;
            DecodeSet(s, before) == StdDecodeSet(s, before) == ReadExplicit(t) && !StepKeepsZero(s, before)
  {
    var s := (if before == [] then [] else [false]) + t;
    hide ReadExplicit, ReadInter, ReadDeltaRps, ReadFlags, StdPredict, KeepsZero;
    if before == [] {
      assert s == t;
    } else {
      assert s[1..] == t;
    }
  }

  lemma WriteCodedNext(before: seq<RefSet>, rps: RefSet, rest: seq<bool>)
    requires LegalNext(before, Coded(rps))
    ensures Writable(rps) && rps.numNeg <= |rps.entries| && WithinLimits(rps)
    ensures WriteNext(before, Coded(rps)) + rest == (if before == [] then [] else [false]) + (WriteCoded(rps) + rest)
  {
    hide WriteCoded, WithinLimits, Half;
  }

  lemma DecodeCoded(before: seq<RefSet>, rps: RefSet, rest: seq<bool>)
    requires LegalNext(before, Coded(rps)) && LastFits(before)
    ensures var s := WriteNext(before, Coded(rps)) + rest;
            DecodeSet(s, before) == StdDecodeSet(s, before) == Accept(rps, rest) && !StepKeepsZero(s, before)
  {
    WriteCodedNext(before, rps, rest);
    hide *;
    CodedRoundTrip(rps, rest);
    DecodeCodedBits(before, WriteCoded(rps) + rest);
  }

  lemma DecodePredictedBits(before: seq<RefSet>, t: seq<bool>, delta: int, t2: seq<bool>, flags: seq<Flag>,
                            rest: seq<bool>)
    requires before != [] && LastFits(before) && |flags| == |before[|before| - 1].entries| + 1
    requires ReadDeltaRps(t) == Delta(delta, t2) && ReadFlags(t2, |flags|) == (flags, rest) && KeptCount(flags) <= 31
    ensures var s, ref := [true] + t, before[|before| - 1];
            && DecodeSet(s, before) == Accept(Predict(ref, delta, flags), rest)
            && StdDecodeSet(s, before) == Accept(StdPredict(ref, delta, flags), rest)
            && (StepKeepsZero(s, before) <==> KeepsZero(ref, delta, flags))
  {
    hide ReadExplicit, Predict, StdPredict, KeepsZero, KeptCount, ReadDeltaRps, ReadFlags;
    assert ([true] + t)[1..] == t;
  }

  lemma WritePredicted(before: seq<RefSet>, delta: int, flags: seq<Flag>, rest: seq<bool>)
    requires LegalNext(before, Predicted(delta, flags))
    ensures WriteNext(before, Predicted(delta, flags)) + rest
            == [true] + (WriteDelta(delta) + (WriteFlags(flags) + rest))
    ensures FlagsFit(before, flags) && KeptCount(flags) <= 31 && LastFits(before)
  {
    hide WriteDelta, WriteFlags, KeptCount;
  }

  lemma DecodePredicted(before: seq<RefSet>, delta: int, flags: seq<Flag>, rest: seq<bool>)
    requires LegalNext(before, Predicted(delta, flags))
    ensures var c, ref := Predicted(delta, flags), before[|before| - 1];
            var s := WriteNext(before, c) + rest;
            && DecodeSet(s, before) == Accept(Predict(ref, delta, flags), rest)
            && StdDecodeSet(s, before) == Accept(StdPredict(ref, delta, flags), rest)
            && (StepKeepsZero(s, before) <==> KeepsZero(ref, delta, flags))
  {
    var t2 := WriteFlags(flags) + rest;
    DeltaRoundTrip(delta, t2);
    FlagsRoundTrip(flags, rest);
    var t := WriteDelta(delta) + t2;
    DecodePredictedBits(before, t, delta, t2, flags, rest);
    WritePredicted(before, delta, flags, rest);
    hide *;
  }

  lemma DecodeWritten(before: seq<RefSet>, c: Code, rest: seq<bool>)
    requires LegalNext(before, c) && AllWellFormed(before)
    ensures var s := WriteNext(before, c) + rest;
            && StdDecodeSet(s, before) == Accept(Next(before, c), rest)
            && (StepKeepsZero(s, before) <==> NextKeepsZero(before, c))
            && (!NextKeepsZero(before, c) ==> DecodeSet(s, before) == Accept(Next(before, c), rest))
  {
    hide DecodeSet, StdDecodeSet, StepKeepsZero, KeepsZero, WriteNext, Predict, StdPredict;
    match c
    case Coded(rps) =>
      assert before != [] ==> WellFormed(before[|before| - 1]);
      DecodeCoded(before, rps, rest);
    case Predicted(delta, flags) =>
      DecodePredicted(before, delta, flags, rest);
      PredictMatchesStandard(before[|before| - 1], delta, flags);
  }

  lemma WriteUnfolds(codes: seq<Code>, rest: seq<bool>)
    requires Legal(codes) && codes != []
    ensures var init, c := codes[..|codes| - 1], codes[|codes| - 1];
            && Legal(init) && LegalNext(Meaning(init), c)
            && Write(codes) + rest == Write(init) + (WriteNext(Meaning(init), c) + rest)
            && Meaning(codes) == Meaning(init) + [Next(Meaning(init), c)]
            && (ZeroKept(codes) <==> ZeroKept(init) || NextKeepsZero(Meaning(init), c))
  {
    hide WriteNext, Next, NextKeepsZero, LegalNext;
  }

  lemma {:induction false} StdDecodesWritten(codes: seq<Code>, rest: seq<bool>)
    requires Legal(codes)
    ensures StdDecodeChain(Write(codes) + rest, |codes|) == Chain(Meaning(codes), rest)
    ensures ChainKeepsZero(Write(codes) + rest, |codes|) <==> ZeroKept(codes)
    ensures !ZeroKept(codes) ==> DecodeChain(Write(codes) + rest, |codes|) == Chain(Meaning(codes), rest)
  {
    hide DecodeSet, StdDecodeSet, StepKeepsZero, NextKeepsZero, WriteNext, LegalNext, Next, Legal, Meaning;
    if codes == [] {
      assert Write(codes) + rest == rest;
      MeaningOfNone();
    } else {
      var init, c := codes[..|codes| - 1], codes[|codes| - 1];
      WriteUnfolds(codes, rest);
      var last := WriteNext(Meaning(init), c) + rest;
      StdDecodesWritten(init, last);
      MeaningIsWellFormed(init);
      DecodeWritten(Meaning(init), c, rest);
      var s := Write(codes) + rest;
      hide Write, ZeroKept, WellFormed;
      StdNext(s, |codes|);
      ZeroNext(s, |codes|);
      if !ZeroKept(codes) { NextOfChain(s, |codes|); }
    }
  }

  lemma MeaningOfNone()
    ensures Legal([]) && Meaning([]) == [] && !ZeroKept([])
  {
  }

  lemma ZeroNext(s: seq<bool>, n: nat)
    requires n > 0 && StdDecodeChain(s, n - 1).Chain?
    ensures var c := StdDecodeChain(s, n - 1);
            ChainKeepsZero(s, n) <==> ChainKeepsZero(s, n - 1) || StepKeepsZero(c.rest, c.sets)
  {
    hide StdDecodeChain, StepKeepsZero;
  }

  lemma NextOfChain(s: seq<bool>, n: nat)
    requires n > 0 && DecodeChain(s, n - 1).Chain?
    ensures var c := DecodeChain(s, n - 1);
            DecodeChain(s, n) == match DecodeSet(c.rest, c.sets)
                                 case Reject => Broken
                                 case Accept(rps, rest) => Chain(c.sets + [rps], rest)
  {
    hide DecodeSet;
  }

  /** The sets an encoder writes into an SPS come back as sections 7.3.7 and 7.4.8 define them, with the bits
      that follow, if and only if no kept picture cancels delta_rps. */
  lemma SetsRoundTrip(codes: seq<Code>, rest: seq<bool>)
    requires Legal(codes)
    ensures DecodeChain(Write(codes) + rest, |codes|) == Chain(Meaning(codes), rest) <==> !ZeroKept(codes)
  {
    var s := Write(codes) + rest;
    StdDecodesWritten(codes, rest);
    hide Write, Meaning, ZeroKept, DecodeChain, ChainKeepsZero, StdDecodeChain;
    if DecodeChain(s, |codes|) == Chain(Meaning(codes), rest) { ChainMatchesStandard(s, |codes|); }
  }
}
