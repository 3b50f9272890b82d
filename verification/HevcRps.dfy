/** ff_hevc_decode_short_term_rps and the RPS loop of ff_hevc_parse_sps, over the bits of the SPS. */
module HevcRps {
  import opened Basics
  import opened BitReader
  import opened HevcRpsSpec

  // ----- st_ref_pic_set() of H.265 section 7.3.7, as a function of the bits -----

  datatype Outcome = Accept(rps: RefSet, rest: seq<bool>) | Reject

  function ReadFlag(s: seq<bool>): (Flag, seq<bool>) {
    var (used, s1) := ReadBit(s);
    if used then (Flag(true, true), s1)
    else
      var (use, s2) := ReadBit(s1);
      (Flag(false, use), s2)
  }

  function ReadFlags(s: seq<bool>, n: nat): (r: (seq<Flag>, seq<bool>))
    ensures |r.0| == n
  {
    if n == 0 then ([], s)
    else
      var (fs, s1) := ReadFlags(s, n - 1);
      var (f, s2) := ReadFlag(s1);
      (fs + [f], s2)
  }

  /** delta_rps_sign and abs_delta_rps: None when the size is out of range. */
  datatype DeltaRps = Delta(delta: int, rest: seq<bool>) | BadDelta

  function ReadDeltaRps(s: seq<bool>): DeltaRps {
    var (sign, s1) := ReadBit(s);
    var (u, s2) := ReadUe(s1);
    var size := (u + 1) % WORD;
    if size < 1 || size > MAX_DELTA then BadDelta
    else Delta(if sign then -size else size, s2)
  }

  function KeptCount(flags: seq<Flag>): nat {
    if flags == [] then 0
    else KeptCount(flags[..|flags| - 1]) + if flags[|flags| - 1].kept then 1 else 0
  }

  function ReadInter(s: seq<bool>, ref: RefSet): Outcome {
    match ReadDeltaRps(s)
    case BadDelta => Reject
    case Delta(delta, s1) =>
      var (flags, s2) := ReadFlags(s1, |ref.entries| + 1);
      if KeptCount(flags) >= ARRAY_LEN then Reject else Accept(Predict(ref, delta, flags), s2)
  }

  datatype Run = Run(entries: seq<Entry>, rest: seq<bool>) | BadRun

  /** One more distance, walking away from 0, with its used flag. */
  function RunStep(r: Run, down: bool): Run {
    match r
    case BadRun => BadRun
    case Run(es, s) =>
      var (u, s1) := ReadUe(s);
      var gap := (u + 1) % WORD;
      if gap < 1 || gap > MAX_DELTA then BadRun
      else
        var (used, s2) := ReadBit(s1);
        Run(es + [Entry(LastDelta(es) + (if down then -gap else gap), used)], s2)
  }

  function ReadRun(s: seq<bool>, n: nat, down: bool): (r: Run)
    ensures r.Run? ==> |r.entries| == n
  {
    if n == 0 then Run([], s) else RunStep(ReadRun(s, n - 1, down), down)
  }

  function LastDelta(es: seq<Entry>): int {
    if es == [] then 0 else es[|es| - 1].delta
  }

  function ReadExplicit(s: seq<bool>): Outcome {
    var (nn, s1) := ReadUe(s);
    var (np, s2) := ReadUe(s1);
    if nn >= MAX_REFS || np >= MAX_REFS then Reject
    else
      match ReadRun(s2, nn, true)
      case BadRun => Reject
      case Run(neg, s3) =>
        match ReadRun(s3, np, false)
        case BadRun => Reject
        case Run(pos, s4) => Accept(RefSet(nn, neg + pos), s4)
  }

  /** Set number |sets| of the SPS: only later sets carry inter_ref_pic_set_prediction_flag. */
  function DecodeSet(s: seq<bool>, sets: seq<RefSet>): Outcome {
    if sets == [] then ReadExplicit(s)
    else
      var (predict, s1) := ReadBit(s);
      if predict then ReadInter(s1, sets[|sets| - 1]) else ReadExplicit(s1)
  }

  datatype Chain = Chain(sets: seq<RefSet>, rest: seq<bool>) | Broken

  /** The first n sets of an SPS. */
  function DecodeChain(s: seq<bool>, n: nat): (r: Chain)
    ensures r.Chain? ==> |r.sets| == n
  {
    if n == 0 then Chain([], s)
    else
      match DecodeChain(s, n - 1)
      case Broken => Broken
      case Chain(sets, s1) =>
        match DecodeSet(s1, sets)
        case Reject => Broken
        case Accept(rps, s2) => Chain(sets + [rps], s2)
  }

  // ----- the same syntax with the standard's derivation of predicted sets -----

  function StdDecodeSet(s: seq<bool>, sets: seq<RefSet>): Outcome
    requires sets != [] ==> sets[|sets| - 1].numNeg <= |sets[|sets| - 1].entries|
  {
    if sets == [] then ReadExplicit(s)
    else
      var ref := sets[|sets| - 1];
      var (predict, s1) := ReadBit(s);
      if !predict then ReadExplicit(s1)
      else
        match ReadDeltaRps(s1)
        case BadDelta => Reject
        case Delta(delta, s2) =>
          var (flags, s3) := ReadFlags(s2, |ref.entries| + 1);
          Accept(StdPredict(ref, delta, flags), s3)
  }

  function StdDecodeChain(s: seq<bool>, n: nat): (r: Chain)
    ensures r.Chain? ==> |r.sets| == n
    ensures r.Chain? ==> forall i :: 0 <= i < n ==> r.sets[i].numNeg <= |r.sets[i].entries|
  {
    if n == 0 then Chain([], s)
    else
      match StdDecodeChain(s, n - 1)
      case Broken => Broken
      case Chain(sets, s1) =>
        match StdDecodeSet(s1, sets)
        case Reject => Broken
        case Accept(rps, s2) => Chain(sets + [rps], s2)
  }

  /** Decoding the next set keeps a reference entry that cancels delta_rps. */
  predicate StepKeepsZero(s: seq<bool>, sets: seq<RefSet>) {
    && sets != []
    && var (predict, s1) := ReadBit(s);
    && predict
    && var d := ReadDeltaRps(s1);
    && d.Delta?
    && var ref := sets[|sets| - 1];
    && KeepsZero(ref, d.delta, ReadFlags(d.rest, |ref.entries| + 1).0)
  }

  /** In the standard's own chain, some step does. */
  predicate ChainKeepsZero(s: seq<bool>, n: nat) {
    n > 0 && (ChainKeepsZero(s, n - 1)
              || (var c := StdDecodeChain(s, n - 1); c.Chain? && StepKeepsZero(c.rest, c.sets)))
  }

  // ----- properties of every accepted chain -----

  predicate Bounded(es: seq<Entry>, bound: int) {
    forall i :: 0 <= i < |es| ==> -bound <= es[i].delta <= bound
  }

  predicate WalksAway(es: seq<Entry>, down: bool) {
    && (forall i :: 0 <= i < |es| ==> if down then es[i].delta < 0 else es[i].delta > 0)
    && (forall i, j :: 0 <= i < j < |es| ==>
          if down then es[i].delta > es[j].delta else es[i].delta < es[j].delta)
    && Bounded(es, MAX_DELTA * |es|)
  }

  lemma WalkExtends(es: seq<Entry>, down: bool, gap: int, used: bool)
    requires WalksAway(es, down) && 1 <= gap <= MAX_DELTA
    ensures WalksAway(es + [Entry(LastDelta(es) + (if down then -gap else gap), used)], down)
  {
    var r := es + [Entry(LastDelta(es) + (if down then -gap else gap), used)];
    forall i | 0 <= i < |es| ensures r[i] == es[i] && -MAX_DELTA * |r| <= r[i].delta <= MAX_DELTA * |r| {
      assert -MAX_DELTA * |es| <= es[i].delta <= MAX_DELTA * |es|;
    }
  }

  lemma RunStepWalks(r: Run, down: bool)
    requires r.Run? && WalksAway(r.entries, down) && RunStep(r, down).Run?
    ensures WalksAway(RunStep(r, down).entries, down)
  {
    var (u, s1) := ReadUe(r.rest);
    hide ReadUe, ReadBit, WalksAway, LastDelta;
    WalkExtends(r.entries, down, (u + 1) % WORD, ReadBit(s1).0);
  }

  lemma {:induction false} RunShape(s: seq<bool>, n: nat, down: bool)
    requires ReadRun(s, n, down).Run?
    ensures WalksAway(ReadRun(s, n, down).entries, down)
  {
    if n > 0 {
      RunShape(s, n - 1, down);
      RunStepWalks(ReadRun(s, n - 1, down), down);
    }
  }

  lemma ExplicitShape(s: seq<bool>)
    requires ReadExplicit(s).Accept?
    ensures var rps := ReadExplicit(s).rps;
            && WellFormed(rps) && |rps.entries| <= 30 && Bounded(rps.entries, 15 * MAX_DELTA)
  {
    var (nn, s1) := ReadUe(s);
    var (np, s2) := ReadUe(s1);
    RunShape(s2, nn, true);
    RunShape(ReadRun(s2, nn, true).rest, np, false);
  }

  lemma {:induction false} PickCountsKept(ref: RefSet, delta: int, flags: seq<Flag>)
    requires |flags| <= |ref.entries| + 1
    ensures |Pick(Candidates(ref, delta, flags), Any)| == KeptCount(flags)
  {
    if flags != [] {
      var init := flags[..|flags| - 1];
      PickCountsKept(ref, delta, init);
      assert Candidates(ref, delta, flags)[..|init|] == Candidates(ref, delta, init);
    }
  }

  lemma KeptAreBounded(ref: RefSet, delta: int, flags: seq<Flag>, bound: nat)
    requires |flags| == |ref.entries| + 1 && Bounded(ref.entries, bound)
    requires -MAX_DELTA <= delta <= MAX_DELTA
    ensures forall e :: e in Pick(Candidates(ref, delta, flags), Any) ==>
                          -(bound + MAX_DELTA) <= e.delta <= bound + MAX_DELTA
  {
    var c := Candidates(ref, delta, flags);
    forall e | e in Pick(c, Any) ensures -(bound + MAX_DELTA) <= e.delta <= bound + MAX_DELTA {
      PickMembers(c, e);
    }
  }

  lemma PredictShape(ref: RefSet, delta: int, flags: seq<Flag>, bound: nat)
    requires |flags| == |ref.entries| + 1 && Bounded(ref.entries, bound)
    requires -MAX_DELTA <= delta <= MAX_DELTA
    ensures var rps := Predict(ref, delta, flags);
            && Ordered(rps) && |rps.entries| == KeptCount(flags) && Bounded(rps.entries, bound + MAX_DELTA)
  {
    var kept := Pick(Candidates(ref, delta, flags), Any);
    PickCountsKept(ref, delta, flags);
    KeptAreBounded(ref, delta, flags, bound);
    FinishIsOrdered(kept);
    var es := Finish(kept).entries;
    forall i | 0 <= i < |es| ensures es[i] in kept {
      assert es[i] in multiset(es);
    }
  }

  lemma InterShape(s: seq<bool>, ref: RefSet, bound: nat)
    requires ReadInter(s, ref).Accept? && Bounded(ref.entries, bound)
    ensures var rps := ReadInter(s, ref).rps;
            && Ordered(rps) && |rps.entries| < ARRAY_LEN && Bounded(rps.entries, bound + MAX_DELTA)
  {
    var d := ReadDeltaRps(s);
    PredictShape(ref, d.delta, ReadFlags(d.rest, |ref.entries| + 1).0, bound);
  }

  /** What holds of set number i. */
  predicate Shape(rps: RefSet, i: nat) {
    Ordered(rps) && |rps.entries| <= 31 && Bounded(rps.entries, (15 + i) * MAX_DELTA)
  }

  lemma StepShape(s: seq<bool>, sets: seq<RefSet>)
    requires DecodeSet(s, sets).Accept?
    requires sets != [] ==> Shape(sets[|sets| - 1], |sets| - 1)
    ensures Shape(DecodeSet(s, sets).rps, |sets|)
  {
    var (predict, s1) := ReadBit(s);
    if sets == [] {
      ExplicitShape(s);
    } else if predict {
      InterShape(s1, sets[|sets| - 1], (15 + |sets| - 1) * MAX_DELTA);
    } else {
      ExplicitShape(s1);
    }
  }

  /** Set i of any accepted SPS: at most 31 entries, each within (15 + i) * 32768 of the current
      picture, the negative ones first and moving down, the others moving up. */
  lemma {:induction false} ChainShape(s: seq<bool>, n: nat)
    requires DecodeChain(s, n).Chain?
    ensures forall i :: 0 <= i < n ==> Shape(DecodeChain(s, n).sets[i], i)
  {
    hide DecodeSet, Shape;
    if n > 0 {
      ChainShape(s, n - 1);
      StepShape(DecodeChain(s, n - 1).rest, DecodeChain(s, n - 1).sets);
    }
  }

  lemma StepIsWellFormed(s: seq<bool>, sets: seq<RefSet>)
    requires DecodeSet(s, sets).Accept? && !StepKeepsZero(s, sets)
    requires sets != [] ==> WellFormed(sets[|sets| - 1])
    ensures WellFormed(DecodeSet(s, sets).rps)
  {
    var (predict, s1) := ReadBit(s);
    if sets == [] {
      ExplicitShape(s);
    } else if predict {
      var ref, d := sets[|sets| - 1], ReadDeltaRps(s1);
      PredictIsWellFormed(ref, d.delta, ReadFlags(d.rest, |ref.entries| + 1).0);
    } else {
      ExplicitShape(s1);
    }
  }

  lemma StepMatchesStandard(s: seq<bool>, sets: seq<RefSet>)
    requires sets != [] ==> WellFormed(sets[|sets| - 1])
    requires DecodeSet(s, sets).Accept?
    ensures DecodeSet(s, sets) == StdDecodeSet(s, sets) <==> !StepKeepsZero(s, sets)
    ensures StdDecodeSet(s, sets).Accept? && StdDecodeSet(s, sets).rest == DecodeSet(s, sets).rest
  {
    if sets != [] {
      var (predict, s1) := ReadBit(s);
      if predict {
        var ref, d := sets[|sets| - 1], ReadDeltaRps(s1);
        PredictMatchesStandard(ref, d.delta, ReadFlags(d.rest, |ref.entries| + 1).0);
      }
    }
  }

  lemma DecodeNext(s: seq<bool>, n: nat)
    requires n > 0 && DecodeChain(s, n).Chain?
    ensures var c := DecodeChain(s, n - 1);
            && c.Chain? && DecodeSet(c.rest, c.sets).Accept?
            && DecodeChain(s, n) == Chain(c.sets + [DecodeSet(c.rest, c.sets).rps], DecodeSet(c.rest, c.sets).rest)
  {
    hide DecodeSet;
  }

  lemma StdNext(s: seq<bool>, n: nat)
    requires n > 0 && StdDecodeChain(s, n - 1).Chain?
    ensures var c := StdDecodeChain(s, n - 1);
            StdDecodeChain(s, n) == match StdDecodeSet(c.rest, c.sets)
                                    case Reject => Broken
                                    case Accept(rps, rest) => Chain(c.sets + [rps], rest)
  {
    hide StdDecodeSet;
  }

  predicate AllWellFormed(sets: seq<RefSet>) { forall i :: 0 <= i < |sets| ==> WellFormed(sets[i]) }

  lemma {:induction false} ChainWithoutZero(s: seq<bool>, n: nat)
    requires DecodeChain(s, n).Chain? && !ChainKeepsZero(s, n)
    ensures StdDecodeChain(s, n) == DecodeChain(s, n) && AllWellFormed(DecodeChain(s, n).sets)
  {
    hide DecodeSet, StdDecodeSet, StepKeepsZero, WellFormed;
    if n > 0 {
      DecodeNext(s, n);
      hide DecodeChain;
      ChainWithoutZero(s, n - 1);
      StdNext(s, n);
      hide StdDecodeChain;
      var c := DecodeChain(s, n - 1);
      StepIsWellFormed(c.rest, c.sets);
      StepMatchesStandard(c.rest, c.sets);
    }
  }

  /** While nothing cancels, both halves of every set move strictly away from the current picture. */
  lemma ChainIsWellFormed(s: seq<bool>, n: nat)
    requires DecodeChain(s, n).Chain? && !ChainKeepsZero(s, n)
    ensures AllWellFormed(DecodeChain(s, n).sets)
  {
    ChainWithoutZero(s, n);
  }

  predicate SameSets(s: seq<bool>, n: nat)
    requires DecodeChain(s, n).Chain?
  {
    StdDecodeChain(s, n).Chain? && StdDecodeChain(s, n).sets == DecodeChain(s, n).sets
  }

  lemma SameSetsBefore(s: seq<bool>, n: nat)
    requires n > 0 && DecodeChain(s, n).Chain? && SameSets(s, n)
    ensures DecodeChain(s, n - 1).Chain? && SameSets(s, n - 1)
    ensures DecodeChain(s, n).sets[n - 1] == StdDecodeChain(s, n).sets[n - 1]
  {
    DecodeNext(s, n);
    assert StdDecodeChain(s, n - 1).Chain? by { hide StdDecodeSet, DecodeChain; }
    StdNext(s, n);
    hide DecodeSet, StdDecodeSet, DecodeChain, StdDecodeChain;
    assert DecodeChain(s, n - 1).sets == DecodeChain(s, n).sets[..n - 1];
    assert StdDecodeChain(s, n - 1).sets == StdDecodeChain(s, n).sets[..n - 1];
  }

  lemma {:induction false} ChainWithZero(s: seq<bool>, n: nat)
    requires DecodeChain(s, n).Chain? && SameSets(s, n)
    ensures !ChainKeepsZero(s, n)
  {
    hide DecodeSet, StdDecodeSet, StepKeepsZero, WellFormed, DecodeChain, StdDecodeChain, SameSets;
    if n > 0 {
      SameSetsBefore(s, n);
      ChainWithZero(s, n - 1);
      ChainWithoutZero(s, n - 1);
      DecodeNext(s, n);
      StdNext(s, n);
      var c := DecodeChain(s, n - 1);
      StepMatchesStandard(c.rest, c.sets);
    }
  }

  /** All sets of an accepted SPS are the standard's exactly when no step keeps a zero. */
  lemma ChainMatchesStandard(s: seq<bool>, n: nat)
    requires DecodeChain(s, n).Chain?
    ensures SameSets(s, n) <==> !ChainKeepsZero(s, n)
  {
    if !ChainKeepsZero(s, n) { ChainWithoutZero(s, n); }
    if SameSets(s, n) { ChainWithZero(s, n); }
  }
}
