/** Back-pressure of drivers/amvdec_ports/aml_vcodec_vpp.c in local-buffer mode: what every interleaving
    keeps, and the functions over the real queues and counters. */
module Vpp {
  import opened Basics
  import opened Fifo
  import opened VppMachine

  // ----- where the counters stand -----

  predicate Uncounted(pc: Pc) { pc.Feed? || pc.CountIn? }

  predicate UncountedOut(pc: Pc) { pc.Feed? || pc.CountIn? || pc.CountOut? }

  /** The deinterlacer was found to have room and nothing was handed over since. */
  predicate PassedIn(pc: Pc) { pc.OutputFull? || PassedOut(pc) }

  predicate PassedOut(pc: Pc) {
    pc.GetOut? || pc.Bind? || pc.PutBack? || pc.PopIn? || pc.GetFrame? || pc.PutProcessing?
  }

  predicate OutPending(c: Callback) { !c.Idle? && !c.OutCounted? }

  predicate Counters(s: State) {
    && |s.processing| == s.fed + One(s.pc == Feed)
    && s.in0 - s.in1 == |s.processing| + One(!s.callback.Idle?) - One(Uncounted(s.pc))
    && s.out0 - s.out1 == |s.processing| + One(OutPending(s.callback)) - One(UncountedOut(s.pc))
  }

  predicate Bounded(s: State) {
    && |s.processing| <= Min(s.ibuf, s.obuf) + 1
    && (PassedIn(s.pc) ==> !InputIsFull(s)) && (PassedOut(s.pc) ==> !OutputIsFull(s))
  }

  // ----- where the buffers are -----

  predicate HasToken(pc: Pc) {
    || pc.Check? || pc.WaitOut? || pc.InputFull? || pc.OutputFull?
    || pc.GetOut? || pc.Bind? || pc.PutBack? || pc.PopIn?
  }

  predicate HasOut(pc: Pc) { pc.Bind? || pc.PutBack? || pc.PopIn? || pc.GetFrame? || pc.PutProcessing? }

  predicate HasIn(pc: Pc) { pc.GetFrame? || pc.PutProcessing? || pc.Feed? }

  predicate Held(s: State) {
    && |s.wOut| == One(HasOut(s.pc)) && |s.wIn| == One(HasIn(s.pc)) && |s.pusher| <= 1
    && |s.outDone| == One(s.callback.Filled? || s.callback.InputBack?)
  }

  predicate Waiting(s: State) {
    && |s.inDone| == s.semIn + One(HasToken(s.pc)) + s.ups
    && (s.pc == WaitOut ==> |s.output| <= s.semOut + s.pendingUps)
    && (s.pc.InputFull? || s.pc.OutputFull? || s.pc.GetOut? ==> s.output != [])
  }

  function OutputsSomewhere(s: State): nat {
    |s.output| + |s.wOut| + |s.processing| + One(s.callback.Got?) + |s.outDone| + |s.display|
  }

  function InputsSomewhere(s: State): nat {
    |s.input| + |s.pusher| + |s.inDone|
    + if s.prog then One(HasIn(s.pc) && s.pc != Feed) + |s.processing| + One(s.callback.Got? || s.callback.Filled?)
      else |s.wIn| + |s.diIn|
  }

  predicate Pools(s: State) {
    && s.n <= s.cap && OutputsSomewhere(s) == s.n && InputsSomewhere(s) == FRAME_SIZE
    && s.frames == |s.output| + One(HasOut(s.pc) && s.pc != PutProcessing)
  }

  /** Answers come back in the order the pairs were handed over. */
  predicate InOrder(s: State) {
    s.handed == s.answered + (if s.callback.Got? then [s.callback.pair] else []) + s.processing
  }

  /** No put was refused, no answer found processing empty, no "can not get" exit was taken. */
  predicate NeverFailed(s: State) {
    s.dropped == 0 && s.missed == 0 && !s.pc.NoOutput? && !s.pc.NoInput? && !s.pc.NoFrame?
  }

  predicate Inv(s: State) {
    Counters(s) && Bounded(s) && Held(s) && Waiting(s) && Pools(s) && InOrder(s) && NeverFailed(s)
  }

  /** The next put of the worker and of the callback finds room. */
  lemma Room(s: State)
    requires Inv(s)
    ensures s.pc.PutProcessing? ==> |s.processing| < s.cap && Refused(s.processing, s.cap) == 0
    ensures s.pc.PutBack? ==> |s.output| < s.cap
    ensures s.callback.Got? ==> |s.outDone| < FRAME_SIZE
    ensures s.prog && s.callback.Filled? ==> |s.input| < FRAME_SIZE
  {
  }

  /** What the next pop of the worker and of the callback finds. */
  lemma Ready(s: State)
    requires Inv(s)
    ensures s.pc.GetOut? ==> s.output != []
    ensures s.pc.PopIn? ==> s.inDone != []
    ensures s.pc.GetFrame? ==> s.frames > 0
    ensures s.callback.InputBack? ==> s.outDone != []
  {
  }

  lemma PushKeeps(s: State, a: Action)
    requires Inv(s) && PushEnabled(s, a)
    ensures Inv(PushNext(s, a))
  {
  }

  /** Waiting and taking an output buffer leaves the deinterlacer and the input side alone. */
  lemma FetchLeaves(s: State, retry: bool)
    requires WorkEnabled(s) && Fetching(s.pc)
    ensures var t := FetchNext(s, retry);
            && t == s.(semIn := t.semIn, semOut := t.semOut, output := t.output, dropped := t.dropped, wOut := t.wOut,
                       bound := t.bound, pc := t.pc)
            && (Fetching(t.pc) || t.pc.PopIn? || t.pc.NoOutput?)
  {
    hide InputIsFull, OutputIsFull, Put, Refused;
  }

  lemma FetchCounters(s: State, retry: bool)
    requires Inv(s) && WorkEnabled(s) && Fetching(s.pc)
    ensures Counters(FetchNext(s, retry))
  {
    FetchLeaves(s, retry);
    hide FetchNext, Pools, Waiting, InOrder, NeverFailed, Bounded, InputIsFull, OutputIsFull, Held;
  }

  lemma FetchBounds(s: State, retry: bool)
    requires Inv(s) && WorkEnabled(s) && Fetching(s.pc)
    ensures Bounded(FetchNext(s, retry))
  {
    Room(s);
    hide Pools, Waiting, InOrder, NeverFailed, Held;
  }

  lemma FetchHolds(s: State, retry: bool)
    requires Inv(s) && WorkEnabled(s) && Fetching(s.pc)
    ensures Held(FetchNext(s, retry)) && NeverFailed(FetchNext(s, retry))
  {
    Room(s);
    Ready(s);
    hide Pools, Waiting, InOrder, Counters, Bounded, InputIsFull, OutputIsFull;
  }

  lemma FetchWaits(s: State, retry: bool)
    requires Inv(s) && WorkEnabled(s) && Fetching(s.pc)
    ensures Waiting(FetchNext(s, retry))
  {
    Room(s);
    hide Pools, InOrder, Counters, Bounded, InputIsFull, OutputIsFull, NeverFailed;
  }

  /** The output queue, the worker's buffer and where the worker then is. */
  lemma FetchSizes(s: State, retry: bool)
    requires Inv(s) && WorkEnabled(s) && Fetching(s.pc)
    ensures var t := FetchNext(s, retry);
            && |t.output| + |t.wOut| == |s.output| + |s.wOut|
            && |t.wOut| == One(HasOut(t.pc)) && t.pc != PutProcessing
  {
    Room(s);
    Ready(s);
    hide Pools, Waiting, InOrder, Counters, Bounded, InputIsFull, OutputIsFull, NeverFailed, Refused;
  }

  lemma FetchPools(s: State, retry: bool)
    requires Inv(s) && WorkEnabled(s) && Fetching(s.pc)
    ensures Pools(FetchNext(s, retry))
  {
    FetchLeaves(s, retry);
    FetchSizes(s, retry);
    hide FetchNext, Waiting, InOrder, Counters, Bounded, InputIsFull, OutputIsFull, NeverFailed;
  }

  lemma FetchOrder(s: State, retry: bool)
    requires Inv(s) && WorkEnabled(s) && Fetching(s.pc)
    ensures InOrder(FetchNext(s, retry))
  {
    FetchLeaves(s, retry);
    hide FetchNext, Pools, Waiting, Counters, Bounded, InputIsFull, OutputIsFull, NeverFailed, Held;
  }

  lemma FetchKeeps(s: State, retry: bool)
    requires Inv(s) && WorkEnabled(s) && Fetching(s.pc)
    ensures Inv(FetchNext(s, retry))
  {
    hide Counters, Bounded, Held, Waiting, Pools, NeverFailed, InOrder, FetchNext;
    FetchCounters(s, retry);
    FetchBounds(s, retry);
    FetchHolds(s, retry);
    FetchWaits(s, retry);
    FetchPools(s, retry);
    FetchOrder(s, retry);
  }

  lemma HandCounters(s: State)
    requires Inv(s) && WorkEnabled(s) && !Fetching(s.pc)
    ensures Counters(HandNext(s))
  {
    Room(s);
    hide Pools, Waiting, InOrder, NeverFailed, Bounded, InputIsFull, OutputIsFull, Held;
  }

  lemma HandBounds(s: State)
    requires Inv(s) && WorkEnabled(s) && !Fetching(s.pc)
    ensures Bounded(HandNext(s))
  {
    Room(s);
    hide Pools, Waiting, InOrder, NeverFailed, Held;
  }

  lemma HandHolds(s: State)
    requires Inv(s) && WorkEnabled(s) && !Fetching(s.pc)
    ensures Held(HandNext(s)) && NeverFailed(HandNext(s))
  {
    Room(s);
    Ready(s);
    hide Pools, Waiting, InOrder, Counters, Bounded, InputIsFull, OutputIsFull;
  }

  lemma HandWaits(s: State)
    requires Inv(s) && WorkEnabled(s) && !Fetching(s.pc)
    ensures Waiting(HandNext(s))
  {
    Room(s);
    hide Pools, InOrder, Counters, Bounded, InputIsFull, OutputIsFull, NeverFailed;
  }

  lemma HandPools(s: State)
    requires Inv(s) && WorkEnabled(s) && !Fetching(s.pc)
    ensures Pools(HandNext(s))
  {
    Room(s);
    Ready(s);
    hide Waiting, InOrder, Counters, Bounded, InputIsFull, OutputIsFull, NeverFailed;
  }

  lemma HandOrder(s: State)
    requires Inv(s) && WorkEnabled(s) && !Fetching(s.pc)
    ensures InOrder(HandNext(s))
  {
    Room(s);
    hide Pools, Waiting, Counters, Bounded, InputIsFull, OutputIsFull, NeverFailed;
  }

  lemma HandKeeps(s: State)
    requires Inv(s) && WorkEnabled(s) && !Fetching(s.pc)
    ensures Inv(HandNext(s))
  {
    hide Counters, Bounded, Held, Waiting, Pools, NeverFailed, InOrder, HandNext;
    HandCounters(s);
    HandBounds(s);
    HandHolds(s);
    HandWaits(s);
    HandPools(s);
    HandOrder(s);
  }

  lemma AnswerGetKeeps(s: State)
    requires Inv(s) && DiEnabled(s, AnswerGet)
    ensures Inv(DiNext(s, AnswerGet))
  {
  }

  lemma AnswerCounters(s: State)
    requires Inv(s) && DiEnabled(s, AnswerNext)
    ensures Counters(AnswerStep(s))
  {
    Room(s);
    hide Pools, Waiting, InOrder, NeverFailed, Bounded, InputIsFull, OutputIsFull, Held;
  }

  lemma AnswerBounds(s: State)
    requires Inv(s) && DiEnabled(s, AnswerNext)
    ensures Bounded(AnswerStep(s))
  {
    Room(s);
    hide Pools, Waiting, InOrder, NeverFailed, Held;
  }

  lemma AnswerHolds(s: State)
    requires Inv(s) && DiEnabled(s, AnswerNext)
    ensures Held(AnswerStep(s)) && NeverFailed(AnswerStep(s))
  {
    Room(s);
    Ready(s);
    hide Pools, Waiting, InOrder, Counters, Bounded, InputIsFull, OutputIsFull;
  }

  lemma AnswerWaits(s: State)
    requires Inv(s) && DiEnabled(s, AnswerNext)
    ensures Waiting(AnswerStep(s))
  {
    Room(s);
    hide Pools, InOrder, Counters, Bounded, InputIsFull, OutputIsFull, NeverFailed;
  }

  lemma AnswerPools(s: State)
    requires Inv(s) && DiEnabled(s, AnswerNext)
    ensures Pools(AnswerStep(s))
  {
    Room(s);
    Ready(s);
    hide Waiting, InOrder, Counters, Bounded, InputIsFull, OutputIsFull, NeverFailed;
  }

  lemma AnswerOrder(s: State)
    requires Inv(s) && DiEnabled(s, AnswerNext)
    ensures InOrder(AnswerStep(s))
  {
    hide Pools, Waiting, Counters, Bounded, InputIsFull, OutputIsFull, NeverFailed;
  }

  lemma AnswerKeeps(s: State)
    requires Inv(s) && DiEnabled(s, AnswerNext)
    ensures Inv(AnswerStep(s))
  {
    hide Counters, Bounded, Held, Waiting, Pools, NeverFailed, InOrder, AnswerStep;
    AnswerCounters(s);
    AnswerBounds(s);
    AnswerHolds(s);
    AnswerWaits(s);
    AnswerPools(s);
    AnswerOrder(s);
  }

  lemma GiveBackKeeps(s: State, i: nat)
    requires Inv(s) && DiEnabled(s, GiveBack(i))
    ensures Inv(DiNext(s, GiveBack(i)))
  {
  }

  lemma ReturnKeeps(s: State, a: Action)
    requires Inv(s) && ReturnEnabled(s, a)
    ensures Inv(ReturnNext(s, a))
  {
  }

  lemma StepKeeps(s: State, a: Action)
    requires Inv(s) && Enabled(s, a)
    ensures Inv(Next(s, a))
  {
    hide Inv, FetchNext, HandNext, PushNext, AnswerStep, ReturnNext, WorkEnabled;
    match a
    case Work(retry) => if Fetching(s.pc) { FetchKeeps(s, retry); } else { HandKeeps(s); }
    case AnswerGet => AnswerGetKeeps(s);
    case AnswerNext => AnswerKeeps(s); assert Next(s, a) == AnswerStep(s);
    case GiveBack(i) => GiveBackKeeps(s, i);
    case Return(_) => ReturnKeeps(s, a);
    case Up => ReturnKeeps(s, a);
    case _ => PushKeeps(s, a);
  }

  lemma {:induction false} RunKeeps(s0: State, acts: seq<Action>, s: State)
    requires Inv(s0) && Run(s0, acts, s)
    ensures Inv(s)
    decreases |acts|
  {
    hide Inv, Next, Enabled;
    if acts != [] {
      StepKeeps(s0, acts[0]);
      RunKeeps(Next(s0, acts[0]), acts[1..], s);
    }
  }

  // ----- main results -----

  /** Over all interleavings: the deinterlacer is never given more than its smaller port plus one, and
      whenever neither side is between its two updates both counter differences are what it holds. */
  lemma BackPressure(n: nat, cap: nat, ibuf: nat, obuf: nat, prog: bool, acts: seq<Action>, s: State)
    requires n <= cap && Run(Init(n, cap, ibuf, obuf, prog), acts, s)
    ensures |s.processing| <= Min(s.ibuf, s.obuf) + 1
    ensures s.callback.Idle? && !UncountedOut(s.pc) ==>
              |s.processing| == s.in0 - s.in1 && |s.processing| == s.out0 - s.out1
  {
    hide Run;
    RunKeeps(Init(n, cap, ibuf, obuf, prog), acts, s);
  }

  /** Over all interleavings: no put is refused, every answer finds the pair handed over first, the
      "can not get" exits stay closed, and a worker waiting for an output buffer will be woken. */
  lemma NothingIsLost(n: nat, cap: nat, ibuf: nat, obuf: nat, prog: bool, acts: seq<Action>, s: State)
    requires n <= cap && Run(Init(n, cap, ibuf, obuf, prog), acts, s)
    ensures NeverFailed(s) && s.answered <= s.handed
    ensures OutputsSomewhere(s) == n && InputsSomewhere(s) == FRAME_SIZE
    ensures s.pc == WaitOut && s.output != [] ==> s.semOut + s.pendingUps > 0
  {
    hide Run;
    RunSameSize(Init(n, cap, ibuf, obuf, prog), acts, s);
    RunKeeps(Init(n, cap, ibuf, obuf, prog), acts, s);
  }

  lemma NextSameSize(s: State, a: Action)
    requires Enabled(s, a)
    ensures Next(s, a).n == s.n
  {
  }

  lemma {:induction false} RunSameSize(s0: State, acts: seq<Action>, s: State)
    requires Run(s0, acts, s)
    ensures s.n == s0.n
    decreases |acts|
  {
    hide Next, Enabled;
    if acts != [] {
      NextSameSize(s0, acts[0]);
      RunSameSize(Next(s0, acts[0]), acts[1..], s);
    }
  }

  // ----- the bound is reached -----

  ghost predicate Reaches(s: State, t: State) { exists acts :: Run(s, acts, t) }

  lemma {:induction false} RunStep(s: State, acts: seq<Action>, t: State, a: Action)
    requires Run(s, acts, t) && Enabled(t, a)
    ensures Run(s, acts + [a], Next(t, a))
    decreases |acts|
  {
    hide Next, Enabled;
    if acts == [] {
      assert Run(Next(s, a), [], Next(s, a));
      assert [a][1..] == [];
    } else {
      RunStep(Next(s, acts[0]), acts[1..], t, a);
      assert (acts + [a])[1..] == acts[1..] + [a];
    }
  }

  lemma Step(s: State, t: State, a: Action) returns (u: State)
    requires Reaches(s, t) && Enabled(t, a)
    ensures u == Next(t, a) && Reaches(s, u)
  {
    hide Next, Enabled, Run;
    var acts :| Run(s, acts, t);
    RunStep(s, acts, t, a);
    u := Next(t, a);
  }

  /** Every actor rests and the deinterlacer holds k frames. */
  predicate Resting(s: State, k: nat) {
    && (s.pc, s.callback, |s.pusher|, s.ups, s.semIn, |s.processing|, |s.output| + k) == (DownIn, Idle, 0, 0, 0, k, s.n)
    && |s.input| + k >= FRAME_SIZE
  }

  predicate SameBuffers(s: State, t: State) { (t.n, t.ibuf, t.obuf) == (s.n, s.ibuf, s.obuf) }

  lemma PushOne(s0: State, s: State) returns (u: State)
    requires Reaches(s0, s) && s.input != [] && s.pusher == [] && s.ups == 0 && |s.inDone| < FRAME_SIZE
    ensures Reaches(s0, u)
    ensures u == s.(input := s.input[1..], inDone := s.inDone + [s.input[0]], semIn := s.semIn + 1, pushed := u.pushed)
  {
    hide Reaches;
    u := Step(s0, s, PushGet);
    u := Step(s0, u, PushPut);
    u := Step(s0, u, PushUp);
  }

  lemma FetchOne(s0: State, s: State) returns (u: State)
    requires Reaches(s0, s) && s.pc == DownIn && s.semIn > 0 && s.output != []
    requires !InputIsFull(s) && !OutputIsFull(s)
    ensures Reaches(s0, u)
    ensures u == s.(semIn := s.semIn - 1, wOut := [s.output[0]], output := s.output[1..], bound := u.bound, pc := PopIn)
  {
    hide Reaches;
    u := Step(s0, s, Work(false));
    u := Step(s0, u, Work(false));
    u := Step(s0, u, Work(false));
    u := Step(s0, u, Work(false));
    u := Step(s0, u, Work(false));
    u := Step(s0, u, Work(false));
  }

  lemma PairOne(s0: State, s: State) returns (u: State)
    requires Reaches(s0, s) && s.pc == PopIn && s.inDone != [] && s.frames > 0 && s.wOut != []
    ensures Reaches(s0, u)
    ensures u == s.(inDone := s.inDone[1..], frames := s.frames - 1, wIn := [s.inDone[0]], pc := PutProcessing)
  {
    hide Reaches, FetchNext, PushEnabled, ReturnEnabled, DiEnabled;
    u := Step(s0, s, Work(false));
    u := Step(s0, u, Work(false));
  }

  lemma FeedOne(s0: State, s: State) returns (u: State)
    requires Reaches(s0, s) && s.pc == PutProcessing && |s.wIn| == 1 && s.wOut != [] && |s.processing| < s.cap
    ensures Reaches(s0, u)
    ensures u == s.(wIn := [], wOut := [], processing := s.processing + [Pair(s.wOut[0], s.wIn[0])],
                    handed := s.handed + [Pair(s.wOut[0], s.wIn[0])],
                    fed := s.fed + 1, diIn := s.diIn + s.wIn, in0 := s.in0 + 1, out0 := s.out0 + 1, pc := DownIn)
  {
    hide Reaches, FetchNext, PushEnabled, ReturnEnabled, DiEnabled;
    u := Step(s0, s, Work(false));
    u := Step(s0, u, Work(false));
    u := Step(s0, u, Work(false));
    u := Step(s0, u, Work(false));
  }

  lemma RestFacts(s0: State, s: State, k: nat)
    requires Inv(s0) && Reaches(s0, s) && Resting(s, k) && k <= Min(s.ibuf, s.obuf) && k < s.n
    ensures s.inDone == [] && s.frames > 0 && |s.processing| < s.cap && s.wIn == []
    ensures !InputIsFull(s) && !OutputIsFull(s)
  {
    var acts :| Run(s0, acts, s);
    hide Run;
    RunKeeps(s0, acts, s);
  }

  /** One frame pushed and carried up to the deinterlacer while nothing is answered. */
  lemma CarryOne(s0: State, s: State, k: nat) returns (u: State)
    requires Inv(s0) && Reaches(s0, s) && Resting(s, k)
    requires k <= Min(s.ibuf, s.obuf) && k < s.n && k < FRAME_SIZE
    ensures Reaches(s0, u) && Resting(u, k + 1) && SameBuffers(s, u)
  {
    hide Reaches, Inv;
    RestFacts(s0, s, k);
    hide InputIsFull, OutputIsFull;
    u := PushOne(s0, s);
    u := FetchOne(s0, u);
    u := PairOne(s0, u);
    u := FeedOne(s0, u);
  }

  lemma {:induction false} CarryMany(s0: State, s: State, k: nat) returns (u: State)
    requires Inv(s0) && Reaches(s0, s) && Resting(s, 0)
    requires k <= Min(s.ibuf, s.obuf) + 1 && k <= s.n && k <= FRAME_SIZE
    ensures Reaches(s0, u) && Resting(u, k) && SameBuffers(s, u)
  {
    hide Inv, Resting, Reaches;
    if k == 0 {
      u := s;
    } else {
      u := CarryMany(s0, s, k - 1);
      u := CarryOne(s0, u, k - 1);
    }
  }

  /** The plus one is needed: with buffers enough, some run gives the deinterlacer that many. */
  lemma BoundIsReached(n: nat, cap: nat, ibuf: nat, obuf: nat, prog: bool)
    requires n <= cap && Min(ibuf, obuf) < n && Min(ibuf, obuf) < FRAME_SIZE
    ensures exists s :: Reaches(Init(n, cap, ibuf, obuf, prog), s) && |s.processing| == Min(ibuf, obuf) + 1
  {
    var s0 := Init(n, cap, ibuf, obuf, prog);
    assert Run(s0, [], s0);
    assert Resting(s0, 0);
    hide Reaches;
    var u := CarryMany(s0, s0, Min(ibuf, obuf) + 1);
    assert |u.processing| == Min(ibuf, obuf) + 1;
  }

  // ----- the code over the real queues and counters -----

  /** m is the state of the machine; every method is a path of it. */
  class VppWrapper {
    var input: seq<nat>
    var inDone: seq<nat>
    var output: seq<nat>
    var frames: nat
    var outDone: seq<Pair>
    var processing: seq<Pair>
    var in0: int
    var in1: int
    var out0: int
    var out1: int
    var bound: set<nat>
    const cap: nat
    const diIbufNum: nat
    const diObufNum: nat
    const isProg: bool
    ghost var m: State

    ghost predicate Valid()
      reads this
    {
      && Inv(m) && cap == m.cap && diIbufNum == m.ibuf && diObufNum == m.obuf && isProg == m.prog
      && input == m.input && inDone == m.inDone && output == m.output && frames == m.frames
      && outDone == m.outDone && processing == m.processing
      && in0 == m.in0 && in1 == m.in1 && out0 == m.out0 && out1 == m.out1 && bound == m.bound
    }

    constructor (n: nat, cap: nat, ibuf: nat, obuf: nat, prog: bool)
      requires n <= cap
      ensures Valid() && m == Init(n, cap, ibuf, obuf, prog)
    {
      this.cap, diIbufNum, diObufNum, isProg := cap, ibuf, obuf, prog;
      input, inDone, output, frames := Count(FRAME_SIZE), [], Count(n), n;
      outDone, processing := [], [];
      in0, in1, out0, out1, bound := 0, 0, 0, 0, {};
      m := Init(n, cap, ibuf, obuf, prog);
    }

    ghost method Step(a: Action)
      requires Inv(m) && Enabled(m, a)
      modifies this`m
      ensures Inv(m) && m == Next(old(m), a)
    {
      StepKeeps(m, a);
      m := Next(m, a);
    }

    method IsDiInputBuffFull() returns (full: bool)
      requires Valid()
      ensures full == InputIsFull(m)
    {
      full := in0 - in1 > diIbufNum;
    }

    method IsDiOutputBuffFull() returns (full: bool)
      requires Valid()
      ensures full == OutputIsFull(m)
    {
      full := out0 - out1 > diObufNum;
    }

    ghost method Hand()
      requires Inv(m) && WorkEnabled(m) && !Fetching(m.pc)
      modifies this`m
      ensures Inv(m) && m == HandNext(old(m))
    {
      hide Inv, HandNext;
      Step(Work(false));
    }

    ghost method Answer()
      requires Inv(m) && DiEnabled(m, AnswerNext)
      modifies this`m
      ensures Inv(m) && m == AnswerStep(old(m))
    {
      hide Inv, AnswerStep;
      Step(AnswerNext);
    }

    /** Lines 621-640: one attempt to take an output buffer; a full deinterlacer leaves all unchanged. */
    method TryOutput() returns (got: bool, outBuf: nat)
      requires Valid() && m.pc == Check && output != []
      modifies this
      ensures Valid() && got == !(old(InputIsFull(m)) || old(OutputIsFull(m)))
      ensures !got ==> m == old(m)
      ensures got ==> m == old(m).(output := old(output)[1..], wOut := [outBuf], pc := Bind) && outBuf == old(output)[0]
    {
      hide Inv, Next, Enabled;
      got, outBuf := false, 0;
      FetchSteps(m);
      Step(Work(false));
      var full := IsDiInputBuffFull();
      FetchSteps(m);
      Step(Work(false));
      if full {
        return;
      }
      full := IsDiOutputBuffFull();
      FetchSteps(m);
      Step(Work(false));
      if full {
        return;
      }
      FetchSteps(m);
      got, outBuf := true, output[0];
      output := output[1..];
      Step(Work(false));
    }

    /** Lines 641-667: an interlaced frame needs a capture buffer and there is none; the output buffer goes back
        to the end of its queue. */
    method GiveBackOutput(outBuf: nat)
      requires Valid() && m.pc == Bind && m.wOut == [outBuf] && !isProg && outBuf !in bound
      modifies this
      ensures Valid() && m == old(m).(output := old(output) + [outBuf], wOut := [], pc := Check)
    {
      hide Inv, Next, Enabled;
      OutputHasRoom(m);
      BackSteps(m);
      Step(Work(true));
      BackSteps(m);
      output := Put(output, cap, outBuf);
      hide Put;
      Step(Work(true));
    }

    /** Lines 669-686: an interlaced frame gets its capture buffer. */
    method BindOutput(outBuf: nat)
      requires Valid() && m.pc == Bind && m.wOut == [outBuf]
      modifies this`bound, this`m
      ensures Valid() && bound == (if isProg then old(bound) else old(bound) + {outBuf})
      ensures m == old(m).(bound := bound, pc := PopIn)
    {
      hide Inv, Next, Enabled;
      PairSteps(m);
      if !isProg {
        bound := bound + {outBuf};
      }
      Step(Work(false));
    }

    /** Lines 688-703: take the oldest pushed input buffer and a vframe, neither of which can fail. */
    method PopInput() returns (inBuf: nat)
      requires Valid() && m.pc == PopIn
      modifies this`inDone, this`frames, this`m
      ensures Valid() && m.pc == PutProcessing && m.wOut == old(m.wOut) && m.wIn == [inBuf] && m.fed == old(m.fed)
      ensures [inBuf] + inDone == old(inDone) && frames + 1 == old(frames)
    {
      hide Inv, Next, Enabled;
      Ready(m);
      PairSteps(m);
      inBuf := inDone[0];
      inDone := inDone[1..];
      Step(Work(false));
      Ready(m);
      PairSteps(m);
      frames := frames - 1;
      Step(Work(false));
    }

    /** Lines 804-808: queued first, so that the answer finds the pair. */
    method Submit(inBuf: nat, outBuf: nat)
      requires Valid() && m.pc == PutProcessing && m.wIn == [inBuf] && m.wOut == [outBuf]
      modifies this`processing, this`m
      ensures Valid() && m.pc == CountIn && m.fed == old(m.fed) + 1
      ensures processing == old(processing) + [Pair(outBuf, inBuf)]
    {
      hide Inv;
      Room(m);
      HandPut(m);
      processing := Put(processing, cap, Pair(outBuf, inBuf));
      hide HandNext, Put;
      Hand();
      HandFeed(m);
      Hand();
    }

    /** Lines 787-822: the pair goes to the deinterlacer, and is counted after that. */
    method HandOver(inBuf: nat, outBuf: nat)
      requires Valid() && m.pc == PutProcessing && m.wIn == [inBuf] && m.wOut == [outBuf]
      modifies this
      ensures Valid() && m.pc == DownIn && m.fed == old(m.fed) + 1
      ensures processing == old(processing) + [Pair(outBuf, inBuf)]
      ensures in0 == old(in0) + 1 && out0 == old(out0) + 1 && in1 == old(in1) && out1 == old(out1)
    {
      hide Inv, HandNext;
      Submit(inBuf, outBuf);
      HandCount(m);
      in0 := in0 + 1;
      Hand();
      HandCount(m);
      out0 := out0 + 1;
      Hand();
    }

    /** v4l_vpp_fill_output_done_alloc_buffer. */
    method FillOutputDone() returns (found: bool)
      requires Valid() && m.callback == Idle && m.fed > 0
      modifies this
      ensures Valid() && found && m.callback == Idle && m.fed == old(m.fed) - 1
      ensures old(processing) != [] && processing == old(processing)[1..]
      ensures input == old(input) + if isProg then [old(processing)[0].inbuf] else []
      ensures m.display == old(m.display) + [old(processing)[0]]
      ensures in1 == old(in1) + 1 && out1 == old(out1) + 1 && in0 == old(in0) && out0 == old(out0)
    {
      hide Inv;
      FedIsProcessing(m);
      GetPair(m);
      hide AnswerStep, Next, Enabled;
      var vppBuf := processing[0];
      processing := processing[1..];
      Step(AnswerGet);
      Fill(vppBuf);
      AnswerCount(m);
      out1 := out1 + 1;
      Answer();
      AnswerCount(m);
      in1 := in1 + 1;
      Answer();
      found := true;
    }

    /** Lines 219-246 of the callback. */
    method Fill(vppBuf: Pair)
      requires Valid() && m.callback == Got(vppBuf)
      modifies this
      ensures Valid() && m.callback == Submitted(vppBuf) && m.fed == old(m.fed)
      ensures processing == old(processing) && input == old(input) + if isProg then [vppBuf.inbuf] else []
      ensures m.display == old(m.display) + [vppBuf]
      ensures in1 == old(in1) && out1 == old(out1) && in0 == old(in0) && out0 == old(out0)
    {
      hide Inv, AnswerStep;
      Room(m);
      NothingDone(m);
      AnswerFill(m);
      outDone := Put(outDone, FRAME_SIZE, vppBuf);
      Answer();
      Room(m);
      AnswerFill(m);
      if isProg {
        input := Put(input, FRAME_SIZE, vppBuf.inbuf);
      }
      hide Put;
      Answer();
      AnswerFill(m);
      outDone := outDone[1..];
      Answer();
    }

    /** The two puts and the up of vpp_vf_put, for one of the buffers the display has. */
    method VfPut(ghost i: nat, vppBuf: Pair)
      requires Valid() && i < |m.display| && m.display[i] == vppBuf
      modifies this
      ensures Valid() && m.display == Without(old(m.display), i)
      ensures output == old(output) + [vppBuf.out] && frames == old(frames) + 1 && m.semOut == old(m.semOut) + 1
    {
      RoomToReturn(m);
      hide Inv, PushEnabled, DiEnabled, WorkEnabled, PushNext, WorkNext, DiNext, Without;
      ReturnPut(m, i);
      if frames < cap {
        frames := frames + 1;
      }
      output := Put(output, cap, vppBuf.out);
      hide Put, ReturnNext, Next;
      Step(Return(i));
      UpCounts(m);
      Step(Up);
    }
  }

  lemma FetchSteps(s: State)
    requires (s.pc.Check? && s.output != []) || s.pc.InputFull? || s.pc.OutputFull? || (s.pc.GetOut? && s.output != [])
    ensures Enabled(s, Work(false))
    ensures var t := Next(s, Work(false));
            && (s.pc.Check? ==> t == s.(pc := InputFull))
            && (s.pc.InputFull? ==> t == s.(pc := if InputIsFull(s) then Check else OutputFull))
            && (s.pc.OutputFull? ==> t == s.(pc := if OutputIsFull(s) then Check else GetOut))
            && (s.pc.GetOut? ==> t == s.(wOut := [s.output[0]], output := s.output[1..], pc := Bind))
  {
    hide InputIsFull, OutputIsFull;
  }

  lemma OutputHasRoom(s: State)
    requires Inv(s) && s.pc.Bind?
    ensures |s.output| < s.cap
  {
  }

  lemma BackSteps(s: State)
    requires |s.wOut| == 1 && |s.output| < s.cap
    requires (s.pc.Bind? && !s.prog && s.wOut[0] !in s.bound) || s.pc.PutBack?
    ensures Enabled(s, Work(true))
    ensures s.pc.Bind? ==> Next(s, Work(true)) == s.(pc := PutBack)
    ensures s.pc.PutBack? ==> Next(s, Work(true)) == s.(output := s.output + [s.wOut[0]], wOut := [], pc := Check)
  {
  }

  lemma PairSteps(s: State)
    requires (s.pc.Bind? && s.wOut != []) || (s.pc.PopIn? && s.inDone != []) || (s.pc.GetFrame? && s.frames > 0)
    ensures Enabled(s, Work(false))
    ensures var t := Next(s, Work(false));
            && (s.pc.Bind? ==> t == s.(bound := if s.prog then s.bound else s.bound + {s.wOut[0]}, pc := PopIn))
            && (s.pc.PopIn? ==> t == s.(wIn := [s.inDone[0]], inDone := s.inDone[1..], pc := GetFrame))
            && (s.pc.GetFrame? ==> t == s.(frames := s.frames - 1, pc := PutProcessing))
  {
  }

  lemma GetPair(s: State)
    requires s.callback == Idle && s.fed > 0 && s.processing != []
    ensures Enabled(s, AnswerGet)
    ensures Next(s, AnswerGet)
            == s.(fed := s.fed - 1, processing := s.processing[1..], callback := Got(s.processing[0]))
  {
  }

  lemma ReturnPut(s: State, i: nat)
    requires i < |s.display| && |s.output| < s.cap && s.frames < s.cap
    ensures Next(s, Return(i)) == s.(display := Without(s.display, i), output := s.output + [s.display[i].out],
                                     frames := s.frames + 1, pendingUps := s.pendingUps + 1)
  {
  }

  lemma UpCounts(s: State)
    requires s.pendingUps > 0
    ensures Next(s, Up) == s.(semOut := s.semOut + 1, pendingUps := s.pendingUps - 1)
  {
  }

  lemma HandPut(s: State)
    requires s.pc == PutProcessing && |s.wIn| == 1 && |s.wOut| == 1 && |s.processing| < s.cap
    ensures var pair := Pair(s.wOut[0], s.wIn[0]);
            HandNext(s) == s.(processing := s.processing + [pair], handed := s.handed + [pair], wOut := [], pc := Feed)
  {
  }

  lemma HandFeed(s: State)
    requires s.pc == Feed && s.wIn != []
    ensures HandNext(s) == s.(fed := s.fed + 1, diIn := s.diIn + s.wIn, wIn := [], pc := CountIn)
  {
  }

  lemma HandCount(s: State)
    ensures s.pc == CountIn ==> HandNext(s) == s.(in0 := s.in0 + 1, pc := CountOut)
    ensures s.pc == CountOut ==> HandNext(s) == s.(out0 := s.out0 + 1, pc := DownIn)
  {
  }

  lemma AnswerFill(s: State)
    requires s.callback != Idle
    ensures s.callback.Got? && |s.outDone| < FRAME_SIZE ==>
              AnswerStep(s) == s.(outDone := s.outDone + [s.callback.pair],
                                  answered := s.answered + [s.callback.pair], callback := Filled(s.callback.pair))
    ensures s.callback.Filled? && !s.prog ==> AnswerStep(s) == s.(callback := InputBack(s.callback.pair))
    ensures s.callback.Filled? && s.prog && |s.input| < FRAME_SIZE ==>
              AnswerStep(s) == s.(input := s.input + [s.callback.pair.inbuf], callback := InputBack(s.callback.pair))
    ensures s.callback.InputBack? && s.outDone != [] ==>
              AnswerStep(s) == s.(display := s.display + [s.outDone[0]], outDone := s.outDone[1..],
                                  callback := Submitted(s.callback.pair))
  {
  }

  lemma AnswerCount(s: State)
    ensures s.callback.Submitted? ==> AnswerStep(s) == s.(out1 := s.out1 + 1, callback := OutCounted(s.callback.pair))
    ensures s.callback.OutCounted? ==> AnswerStep(s) == s.(in1 := s.in1 + 1, callback := Idle)
  {
  }

  lemma FedIsProcessing(s: State)
    requires Inv(s) && s.fed > 0
    ensures s.processing != []
  {
  }

  lemma NothingDone(s: State)
    requires Inv(s) && s.callback.Got?
    ensures s.outDone == []
  {
  }

  lemma RoomToReturn(s: State)
    requires Inv(s) && s.display != []
    ensures |s.output| < s.cap && s.frames < s.cap
  {
  }
}
