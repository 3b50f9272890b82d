/** Where each buffer of the VPP wrapper is in local-buffer mode, buffer by buffer. */
module VppPools {
  import opened Basics
  import opened Fifo
  import opened VppMachine
  import opened Vpp

  function Part(p: Pair, outs: bool): nat { if outs then p.out else p.inbuf }

  function Parts(ps: seq<Pair>, outs: bool): (r: seq<nat>)
    ensures |r| == |ps|
  {
    seq(|ps|, i requires 0 <= i < |ps| => Part(ps[i], outs))
  }

  /** The places an output buffer can be in. */
  function OutputAt(s: State, b: nat): nat {
    Occurs(s.output, b) + Occurs(s.wOut, b) + Occurs(Parts(s.processing, true), b)
    + (if s.callback.Got? then Occurs([s.callback.pair.out], b) else 0)
    + Occurs(Parts(s.outDone, true), b) + Occurs(Parts(s.display, true), b)
  }

  /** The places an input buffer can be in. In progressive mode it stays with its pair until the answer has
      put it back; otherwise with the deinterlacer until that gives it back. */
  function InputAt(s: State, b: nat): nat {
    Occurs(s.input, b) + Occurs(s.pusher, b) + Occurs(s.inDone, b)
    + if s.prog then
        (if s.pc == Feed then 0 else Occurs(s.wIn, b)) + Occurs(Parts(s.processing, false), b)
        + if s.callback.Got? || s.callback.Filled? then Occurs([s.callback.pair.inbuf], b) else 0
      else Occurs(s.wIn, b) + Occurs(s.diIn, b)
  }

  ghost predicate Conserved(s: State) {
    && (forall b: nat :: OutputAt(s, b) == One(b < s.n))
    && (forall b: nat :: InputAt(s, b) == One(b < FRAME_SIZE))
  }

  lemma PartsHead(ps: seq<Pair>, outs: bool, b: nat)
    requires ps != []
    ensures Occurs(Parts(ps, outs), b) == Occurs([Part(ps[0], outs)], b) + Occurs(Parts(ps[1..], outs), b)
  {
    assert Parts(ps, outs) == [Part(ps[0], outs)] + Parts(ps[1..], outs);
  }

  lemma PartsSnoc(ps: seq<Pair>, p: Pair, outs: bool, b: nat)
    ensures Occurs(Parts(ps + [p], outs), b) == Occurs(Parts(ps, outs), b) + Occurs([Part(p, outs)], b)
  {
    assert Parts(ps + [p], outs) == Parts(ps, outs) + [Part(p, outs)];
  }

  lemma PartsWithout(ps: seq<Pair>, i: nat, outs: bool, b: nat)
    requires i < |ps|
    ensures Occurs(Parts(ps, outs), b) == Occurs([Part(ps[i], outs)], b) + Occurs(Parts(Without(ps, i), outs), b)
  {
    assert Parts(ps, outs) == Parts(ps[..i], outs) + [Part(ps[i], outs)] + Parts(ps[i + 1..], outs);
    assert Parts(Without(ps, i), outs) == Parts(ps[..i], outs) + Parts(ps[i + 1..], outs);
    Middle(Parts(ps[..i], outs), Part(ps[i], outs), Parts(ps[i + 1..], outs), b);
  }

  lemma OneOut(q: seq<nat>, i: nat, b: nat)
    requires i < |q|
    ensures Occurs(q, b) == Occurs([q[i]], b) + Occurs(Without(q, i), b)
  {
    assert q == q[..i] + [q[i]] + q[i + 1..];
    Middle(q[..i], q[i], q[i + 1..], b);
  }

  lemma Nowhere(b: nat)
    ensures Occurs([], b) == 0
  {
  }

  /** t has each buffer as often as s. */
  predicate SameCounts(t: State, s: State, b: nat) {
    OutputAt(t, b) == OutputAt(s, b) && InputAt(t, b) == InputAt(s, b)
  }

  // ----- no step loses or duplicates a buffer -----

  lemma PushMoves(s: State, a: Action, b: nat)
    requires Inv(s) && PushEnabled(s, a)
    ensures SameCounts(PushNext(s, a), s, b)
  {
    PushRoom(s);
    hide Inv, Parts, Occurs;
    match a
    case PushGet => if s.input != [] { GetInputMoves(s, b); }
    case PushPut => PutInputMoves(s, b);
    case PushUp =>
  }

  lemma GetInputMoves(s: State, b: nat)
    requires s.input != [] && s.pusher == [] && s.ups == 0
    ensures SameCounts(PushNext(s, PushGet), s, b)
  {
    Nowhere(b);
    Head(s.input, b);
    hide Parts, Occurs;
  }

  lemma PutInputMoves(s: State, b: nat)
    requires |s.pusher| == 1 && |s.inDone| < FRAME_SIZE
    ensures SameCounts(PushNext(s, PushPut), s, b)
  {
    Nowhere(b);
    Snoc(s.inDone, s.pusher[0], b);
    assert s.pusher == [s.pusher[0]];
    hide Parts, Occurs;
  }

  lemma PushRoom(s: State)
    requires Inv(s)
    ensures |s.pusher| <= 1 && (s.pusher != [] ==> |s.inDone| < FRAME_SIZE)
  {
  }

  lemma WorkerHolds(s: State)
    requires Inv(s)
    ensures |s.wOut| == One(HasOut(s.pc)) && |s.wIn| == One(HasIn(s.pc))
    ensures s.pc.PopIn? ==> s.inDone != []
  {
  }

  /** The steps up to the pairing touch output buffers only. */
  lemma FetchKeepsInputs(s: State, retry: bool, b: nat)
    requires WorkEnabled(s) && Fetching(s.pc)
    ensures InputAt(FetchNext(s, retry), b) == InputAt(s, b)
  {
    hide Occurs, Parts, InputIsFull, OutputIsFull, Put, Refused;
  }

  lemma GetOutMoves(s: State, b: nat)
    requires s.pc == GetOut && s.output != [] && s.wOut == []
    ensures OutputAt(FetchNext(s, false), b) == OutputAt(s, b)
  {
    Nowhere(b);
    Head(s.output, b);
    hide Parts, Occurs;
  }

  lemma PutBackMoves(s: State, b: nat)
    requires s.pc == PutBack && |s.wOut| == 1 && |s.output| < s.cap
    ensures OutputAt(FetchNext(s, false), b) == OutputAt(s, b)
  {
    Nowhere(b);
    Snoc(s.output, s.wOut[0], b);
    assert s.wOut == [s.wOut[0]];
    hide Parts, Occurs;
  }

  lemma WaitMoves(s: State, retry: bool, b: nat)
    requires WorkEnabled(s) && Fetching(s.pc) && s.pc != GetOut && s.pc != PutBack
    ensures OutputAt(FetchNext(s, retry), b) == OutputAt(s, b)
  {
    hide Parts, Occurs, InputIsFull, OutputIsFull, Put, Refused;
  }

  lemma FetchMoves(s: State, retry: bool, b: nat)
    requires Inv(s) && WorkEnabled(s) && Fetching(s.pc)
    ensures SameCounts(FetchNext(s, retry), s, b)
  {
    FetchKeepsInputs(s, retry, b);
    Room(s);
    WorkerHolds(s);
    hide Inv, InputAt, OutputAt;
    if s.pc == GetOut {
      if s.output != [] { GetOutMoves(s, b); } else { EmptyMoves(s, b); }
      assert FetchNext(s, retry) == FetchNext(s, false);
    } else if s.pc == PutBack {
      PutBackMoves(s, b);
      assert FetchNext(s, retry) == FetchNext(s, false);
    } else {
      WaitMoves(s, retry, b);
    }
    hide FetchNext;
  }

  lemma EmptyMoves(s: State, b: nat)
    requires s.pc == GetOut && s.output == []
    ensures OutputAt(FetchNext(s, false), b) == OutputAt(s, b)
  {
    hide Parts, Occurs;
  }

  lemma HandMoves(s: State, b: nat)
    requires Inv(s) && WorkEnabled(s) && !Fetching(s.pc)
    ensures SameCounts(HandNext(s), s, b)
  {
    Room(s);
    WorkerHolds(s);
    hide Inv;
    if s.pc == PutProcessing { PutMoves(s, b); } else { PopMoves(s, b); }
  }

  lemma PutMoves(s: State, b: nat)
    requires s.pc == PutProcessing && |s.wIn| == 1 && |s.wOut| == 1 && |s.processing| < s.cap
    ensures SameCounts(HandNext(s), s, b)
  {
    HandPut(s);
    var t := HandNext(s);
    hide HandNext, Parts, Occurs;
    Nowhere(b);
    assert s.wOut == [s.wOut[0]] && s.wIn == [s.wIn[0]];
    PartsSnoc(s.processing, Pair(s.wOut[0], s.wIn[0]), true, b);
    PartsSnoc(s.processing, Pair(s.wOut[0], s.wIn[0]), false, b);
    assert OutputAt(t, b) == OutputAt(s, b) by { hide InputAt; }
    hide OutputAt;
  }

  lemma PopMoves(s: State, b: nat)
    requires WorkEnabled(s) && !Fetching(s.pc) && s.pc != PutProcessing && |s.wIn| == One(HasIn(s.pc))
    requires s.pc.PopIn? ==> s.inDone != []
    ensures SameCounts(HandNext(s), s, b)
  {
    hide Parts, Occurs;
    if s.pc == PopIn { PopInMoves(s, b); }
    if s.pc == Feed { FeedMoves(s, b); }
  }

  lemma PopInMoves(s: State, b: nat)
    requires s.pc == PopIn && s.wIn == [] && s.inDone != []
    ensures SameCounts(HandNext(s), s, b)
  {
    Nowhere(b);
    Head(s.inDone, b);
    hide Parts, Occurs;
  }

  lemma FeedMoves(s: State, b: nat)
    requires s.pc == Feed && |s.wIn| == 1
    ensures SameCounts(HandNext(s), s, b)
  {
    Nowhere(b);
    assert s.wIn == [s.wIn[0]];
    Snoc(s.diIn, s.wIn[0], b);
    HandFeed(s);
    hide Parts, Occurs, HandNext;
  }

  lemma DiMoves(s: State, a: Action, b: nat)
    requires Inv(s) && DiEnabled(s, a)
    ensures SameCounts(DiNext(s, a), s, b)
  {
    match a
    case AnswerGet => GetMoves(s, b);
    case AnswerNext => hide Inv, SameCounts, AnswerStep; AnswerMoves(s, b);
    case GiveBack(i) => BackMoves(s, i, b);
  }

  lemma GetMoves(s: State, b: nat)
    requires Inv(s) && DiEnabled(s, AnswerGet)
    ensures SameCounts(DiNext(s, AnswerGet), s, b)
  {
    hide Inv, Parts, Occurs;
    if s.processing != [] {
      PartsHead(s.processing, true, b);
      PartsHead(s.processing, false, b);
      assert OutputAt(DiNext(s, AnswerGet), b) == OutputAt(s, b) by { hide InputAt; }
      hide OutputAt;
    }
  }

  lemma BackMoves(s: State, i: nat, b: nat)
    requires Inv(s) && DiEnabled(s, GiveBack(i))
    ensures SameCounts(DiNext(s, GiveBack(i)), s, b)
  {
    DiRoom(s);
    hide Inv;
    if s.prog { KeptMoves(s, i, b); } else { GivenMoves(s, i, b); }
  }

  lemma KeptMoves(s: State, i: nat, b: nat)
    requires s.prog && i < |s.diIn|
    ensures SameCounts(DiNext(s, GiveBack(i)), s, b)
  {
    hide Parts, Occurs, Without;
  }

  lemma GivenMoves(s: State, i: nat, b: nat)
    requires !s.prog && i < |s.diIn| && |s.input| < FRAME_SIZE
    ensures SameCounts(DiNext(s, GiveBack(i)), s, b)
  {
    OneOut(s.diIn, i, b);
    Snoc(s.input, s.diIn[i], b);
    hide Parts, Occurs, Without;
  }

  lemma DiRoom(s: State)
    requires Inv(s)
    ensures !s.prog && s.diIn != [] ==> |s.input| < FRAME_SIZE
    ensures s.callback.InputBack? ==> s.outDone != []
  {
  }

  lemma DoneMoves(s: State, b: nat)
    requires s.callback.Got? && |s.outDone| < FRAME_SIZE
    ensures SameCounts(AnswerStep(s), s, b)
  {
    AnswerFill(s);
    PartsSnoc(s.outDone, s.callback.pair, true, b);
    hide Parts, Occurs, AnswerStep;
  }

  lemma FreeMoves(s: State, b: nat)
    requires s.callback.Filled? && (s.prog ==> |s.input| < FRAME_SIZE)
    ensures SameCounts(AnswerStep(s), s, b)
  {
    AnswerFill(s);
    Snoc(s.input, s.callback.pair.inbuf, b);
    hide Parts, Occurs, AnswerStep;
  }

  lemma ShowMoves(s: State, b: nat)
    requires s.callback.InputBack? && s.outDone != []
    ensures SameCounts(AnswerStep(s), s, b)
  {
    AnswerFill(s);
    PartsHead(s.outDone, true, b);
    PartsSnoc(s.display, s.outDone[0], true, b);
    hide Parts, Occurs, AnswerStep;
  }

  lemma AnswerMoves(s: State, b: nat)
    requires Inv(s) && DiEnabled(s, AnswerNext)
    ensures SameCounts(AnswerStep(s), s, b)
  {
    Room(s);
    DiRoom(s);
    AnswerCount(s);
    hide Inv, Parts, Occurs, AnswerStep;
    if s.callback.Got? {
      DoneMoves(s, b);
    } else if s.callback.Filled? {
      FreeMoves(s, b);
    } else if s.callback.InputBack? {
      ShowMoves(s, b);
    }
  }

  lemma ReturnPuts(s: State, i: nat)
    requires i < |s.display| && |s.output| < s.cap && s.frames < s.cap
    ensures ReturnNext(s, Return(i))
            == s.(display := Without(s.display, i), output := s.output + [s.display[i].out], frames := s.frames + 1,
                  pendingUps := s.pendingUps + 1)
  {
    hide Without;
  }

  lemma ReturnMoves(s: State, a: Action, b: nat)
    requires Inv(s) && ReturnEnabled(s, a)
    ensures SameCounts(ReturnNext(s, a), s, b)
  {
    match a
    case Return(i) =>
      RoomToReturn(s);
      ReturnPuts(s, i);
      hide Inv, Parts, Occurs, Without, ReturnNext;
      PartsWithout(s.display, i, true, b);
      Snoc(s.output, s.display[i].out, b);
    case Up =>
  }

  lemma StepMoves(s: State, a: Action, b: nat)
    requires Inv(s) && Enabled(s, a)
    ensures SameCounts(Next(s, a), s, b)
  {
    hide Inv, SameCounts, PushNext, FetchNext, HandNext, DiNext, ReturnNext, WorkEnabled;
    match a
    case Work(retry) => if Fetching(s.pc) { FetchMoves(s, retry, b); } else { HandMoves(s, b); }
    case AnswerGet => DiMoves(s, a, b);
    case AnswerNext => DiMoves(s, a, b);
    case GiveBack(_) => DiMoves(s, a, b);
    case Return(_) => ReturnMoves(s, a, b);
    case Up => ReturnMoves(s, a, b);
    case _ => PushMoves(s, a, b);
  }

  lemma {:induction false} RunConserves(s0: State, acts: seq<Action>, s: State)
    requires Inv(s0) && Conserved(s0) && Run(s0, acts, s)
    ensures Conserved(s)
    decreases |acts|
  {
    hide Inv, Next, Enabled, OutputAt, InputAt;
    if acts != [] {
      var t := Next(s0, acts[0]);
      StepKeeps(s0, acts[0]);
      NextSameSize(s0, acts[0]);
      forall b: nat ensures OutputAt(t, b) == One(b < t.n) && InputAt(t, b) == One(b < FRAME_SIZE) {
        StepMoves(s0, acts[0], b);
        assert OutputAt(s0, b) == One(b < s0.n) && InputAt(s0, b) == One(b < FRAME_SIZE);
      }
      RunConserves(t, acts[1..], s);
    }
  }

  lemma InitConserves(n: nat, cap: nat, ibuf: nat, obuf: nat, prog: bool)
    ensures Conserved(Init(n, cap, ibuf, obuf, prog))
  {
    CountOnce(n);
    CountOnce(FRAME_SIZE);
    var s := Init(n, cap, ibuf, obuf, prog);
    hide Occurs;
    forall b: nat ensures OutputAt(s, b) == One(b < n) && InputAt(s, b) == One(b < FRAME_SIZE) {
      assert Occurs(Count(n), b) == One(b < n) && Occurs(Count(FRAME_SIZE), b) == One(b < FRAME_SIZE);
      Nowhere(b);
      assert Parts([], true) == [] && Parts([], false) == [];
    }
  }

  /** Over all interleavings in local-buffer mode every output buffer and every input buffer is in exactly
      one place. */
  lemma PoolsConserved(n: nat, cap: nat, ibuf: nat, obuf: nat, prog: bool, acts: seq<Action>, s: State)
    requires n <= cap && Run(Init(n, cap, ibuf, obuf, prog), acts, s)
    ensures Conserved(s) && s.n == n
  {
    InitConserves(n, cap, ibuf, obuf, prog);
    RunSameSize(Init(n, cap, ibuf, obuf, prog), acts, s);
    hide Run, Conserved;
    RunConserves(Init(n, cap, ibuf, obuf, prog), acts, s);
  }
}
