/** What every interleaving of push, worker and display keeps. */
module Ge2dSafety {
  import opened Basics
  import opened Fifo
  import opened Ge2dMachine

  // ----- who holds what -----

  function Ids(js: seq<Job>): (r: seq<nat>)
    ensures |r| == |js|
  {
    seq(|js|, i requires 0 <= i < |js| => js[i].buf)
  }

  function Srcs(js: seq<Job>): (r: seq<int>)
    ensures |r| == |js|
  {
    seq(|js|, i requires 0 <= i < |js| => js[i].src)
  }

  function Outs(ds: seq<Done>): (r: seq<nat>)
    ensures |r| == |ds|
  {
    seq(|ds|, i requires 0 <= i < |ds| => ds[i].buf)
  }

  function Frames(ds: seq<Done>): (r: seq<nat>)
    ensures |r| == |ds|
  {
    seq(|ds|, i requires 0 <= i < |ds| => ds[i].frame)
  }

  function SectionOuts(x: Section): seq<nat> {
    match x
    case Entered(d) => [d.buf]
    case FrameBack(b) => [b]
    case _ => []
  }

  function SectionFrames(x: Section): seq<nat> {
    if x.Entered? then [x.job.frame] else []
  }

  function InputAt(s: State, b: nat): nat {
    Occurs(s.input, b) + Occurs(Ids(s.pusher), b) + Occurs(Ids(s.inDone), b) + Occurs(Ids(s.wIn), b)
  }

  function OutputAt(s: State, b: nat): nat {
    Occurs(s.output, b) + Occurs(s.wOut, b) + Occurs(Outs(s.outDone), b) + Occurs(Outs(s.display), b)
    + Occurs(Outs(s.called), b) + Occurs(SectionOuts(s.section), b)
  }

  function FrameAt(s: State, b: nat): nat {
    Occurs(s.frame, b) + Occurs(s.wFrame, b) + Occurs(Frames(s.outDone), b) + Occurs(Frames(s.display), b)
    + Occurs(Frames(s.called), b) + Occurs(SectionFrames(s.section), b)
  }

  /** Every pool element sits in exactly one place. */
  ghost predicate Conserved(s: State) {
    && (forall b: nat :: InputAt(s, b) == One(b < FRAME_SIZE))
    && (forall b: nat :: OutputAt(s, b) == One(b < s.n))
    && (forall b: nat :: FrameAt(s, b) == One(b < s.n))
  }

  // ----- the worker's program point -----

  predicate HasToken(pc: Pc) {
    || pc.Check? || pc.WaitOut? || pc.LockGet? || pc.GetOut? || pc.UnlockGet? || pc.Bind?
    || pc.LockBack? || pc.PutBack? || pc.UnlockBack? || pc.PopIn?
  }

  predicate HasOut(pc: Pc) {
    || pc.UnlockGet? || pc.Bind? || pc.LockBack? || pc.PutBack? || pc.PopIn? || pc.LockFrame?
    || pc.GetFrame? || pc.UnlockFrame? || pc.Convert? || pc.FillDone? || pc.HardwareError?
  }

  predicate HasFrame(pc: Pc) { pc.UnlockFrame? || pc.Convert? || pc.FillDone? || pc.HardwareError? }

  predicate HasIn(pc: Pc) {
    || pc.LockFrame? || pc.GetFrame? || pc.UnlockFrame? || pc.Convert? || pc.FillDone? || pc.Submit?
    || pc.Recycle? || pc.PutInput? || pc.HardwareError?
  }

  predicate WorkerLocks(pc: Pc) {
    || pc.GetOut? || pc.UnlockGet? || pc.PutBack? || pc.UnlockBack? || pc.GetFrame? || pc.UnlockFrame?
  }

  predicate Held(s: State) {
    && |s.wOut| == One(HasOut(s.pc)) && |s.wFrame| == One(HasFrame(s.pc)) && |s.wIn| == One(HasIn(s.pc))
    && |s.outDone| == One(s.pc == Submit) && |s.pusher| <= 1
  }

  predicate Mutex(s: State) {
    && (s.lock <==> s.section != Nobody || WorkerLocks(s.pc))
    && !(s.section != Nobody && WorkerLocks(s.pc))
  }

  predicate Counted(s: State) {
    && |s.inDone| == s.semIn + One(HasToken(s.pc)) + s.ups
    && (s.pc == WaitOut ==> |s.output| <= s.semOut + s.pendingUps + One(s.section == BothBack))
    && ((s.pc.LockGet? || s.pc.GetOut?) ==> s.output != [])
  }

  /** Frames leave in the order they came, and each goes back to the decoder once. */
  predicate InOrder(s: State) {
    && s.pushed == s.returned + (if s.pc == PutInput then [] else Srcs(s.wIn)) + Srcs(s.inDone) + Srcs(s.pusher)
    && s.submitted == s.returned + (if s.pc == Recycle then Srcs(s.wIn) else [])
    && (s.pc == Submit && s.outDone != [] && s.wIn != [] ==> s.outDone[0].src == s.wIn[0].src)
  }

  /** No put was ever refused and none of the "can not get" exits was taken. */
  predicate NeverFailed(s: State) {
    s.dropped == 0 && !(s.pc.NoOutput? || s.pc.NoInput? || s.pc.NoFrame?)
  }

  /** Everything but the whereabouts of the pool elements. */
  predicate Control(s: State) {
    s.n <= s.cap && Held(s) && Mutex(s) && Counted(s) && InOrder(s) && NeverFailed(s)
  }

  ghost predicate Inv(s: State) {
    Conserved(s) && Control(s)
  }

  // ----- counting in queues -----

  lemma IdsHead(q: seq<Job>, b: nat)
    requires q != []
    ensures Occurs(Ids(q), b) == Occurs(Ids([q[0]]), b) + Occurs(Ids(q[1..]), b)
  {
    assert Ids(q) == [q[0].buf] + Ids(q[1..]);
    assert Ids([q[0]]) == [q[0].buf];
  }

  lemma IdsSnoc(q: seq<Job>, x: Job, b: nat)
    ensures Occurs(Ids(q + [x]), b) == Occurs(Ids(q), b) + Occurs(Ids([x]), b)
  {
    assert Ids(q + [x]) == Ids(q) + [x.buf];
    assert Ids([x]) == [x.buf];
  }

  lemma IdsOne(x: Job)
    ensures Ids([x]) == [x.buf] && Srcs([x]) == [x.src]
  {
  }

  lemma SrcsHead(q: seq<Job>)
    requires q != []
    ensures Srcs(q) == [q[0].src] + Srcs(q[1..])
  {
  }

  lemma SrcsSnoc(q: seq<Job>, x: Job)
    ensures Srcs(q + [x]) == Srcs(q) + [x.src]
  {
  }

  lemma DoneHead(q: seq<Done>, b: nat)
    requires q != []
    ensures Occurs(Outs(q), b) == Occurs([q[0].buf], b) + Occurs(Outs(q[1..]), b)
    ensures Occurs(Frames(q), b) == Occurs([q[0].frame], b) + Occurs(Frames(q[1..]), b)
  {
    assert Outs(q) == [q[0].buf] + Outs(q[1..]);
    assert Frames(q) == [q[0].frame] + Frames(q[1..]);
  }

  lemma DoneSnoc(q: seq<Done>, x: Done, b: nat)
    ensures Occurs(Outs(q + [x]), b) == Occurs(Outs(q), b) + Occurs([x.buf], b)
    ensures Occurs(Frames(q + [x]), b) == Occurs(Frames(q), b) + Occurs([x.frame], b)
  {
    assert Outs(q + [x]) == Outs(q) + [x.buf];
    assert Frames(q + [x]) == Frames(q) + [x.frame];
  }

  lemma DoneWithout(q: seq<Done>, i: nat, b: nat)
    requires i < |q|
    ensures Occurs(Outs(q), b) == Occurs([q[i].buf], b) + Occurs(Outs(Without(q, i)), b)
    ensures Occurs(Frames(q), b) == Occurs([q[i].frame], b) + Occurs(Frames(Without(q, i)), b)
  {
    assert Outs(q) == Outs(q[..i]) + [q[i].buf] + Outs(q[i + 1..]);
    assert Outs(Without(q, i)) == Outs(q[..i]) + Outs(q[i + 1..]);
    Middle(Outs(q[..i]), q[i].buf, Outs(q[i + 1..]), b);
    assert Frames(q) == Frames(q[..i]) + [q[i].frame] + Frames(q[i + 1..]);
    assert Frames(Without(q, i)) == Frames(q[..i]) + Frames(q[i + 1..]);
    Middle(Frames(q[..i]), q[i].frame, Frames(q[i + 1..]), b);
  }

  // ----- the invariant bounds every queue -----

  lemma Sizes(s: State)
    requires Conserved(s)
    ensures |s.input| + |s.pusher| + |s.inDone| + |s.wIn| == FRAME_SIZE
    ensures |s.output| + |s.wOut| + |s.outDone| + |s.display| + |s.called| + |SectionOuts(s.section)| == s.n
    ensures |s.frame| + |s.wFrame| + |s.outDone| + |s.display| + |s.called| + |SectionFrames(s.section)| == s.n
  {
    hide One;
    var ins := s.input + Ids(s.pusher) + Ids(s.inDone) + Ids(s.wIn);
    forall b: nat ensures Occurs(ins, b) == One(b < FRAME_SIZE) { assert InputAt(s, b) == One(b < FRAME_SIZE); }
    Pool(ins, FRAME_SIZE);
    var outs := s.output + s.wOut + Outs(s.outDone) + Outs(s.display) + Outs(s.called) + SectionOuts(s.section);
    forall b: nat ensures Occurs(outs, b) == One(b < s.n) { assert OutputAt(s, b) == One(b < s.n); }
    Pool(outs, s.n);
    var fs := s.frame + s.wFrame + Frames(s.outDone) + Frames(s.display) + Frames(s.called) + SectionFrames(s.section);
    forall b: nat ensures Occurs(fs, b) == One(b < s.n) { assert FrameAt(s, b) == One(b < s.n); }
    Pool(fs, s.n);
  }

  predicate Sized(s: State) {
    && s.n <= s.cap
    && |s.input| + |s.pusher| + |s.inDone| + |s.wIn| == FRAME_SIZE
    && |s.output| + |s.wOut| + |s.outDone| + |s.display| + |s.called| + |SectionOuts(s.section)| == s.n
    && |s.frame| + |s.wFrame| + |s.outDone| + |s.display| + |s.called| + |SectionFrames(s.section)| == s.n
  }

  // ----- no step loses or duplicates a pool element -----

  predicate SameCounts(t: State, s: State, b: nat) {
    && t.n == s.n && t.cap == s.cap
    && InputAt(t, b) == InputAt(s, b) && OutputAt(t, b) == OutputAt(s, b) && FrameAt(t, b) == FrameAt(s, b)
  }

  lemma PushMoves(s: State, a: Action, b: nat)
    requires Sized(s) && Held(s) && PushEnabled(s, a)
    ensures SameCounts(PushNext(s, a), s, b)
  {
    hide Occurs, Ids;
    match a
    case PushGet(src) => if s.input != [] { Head(s.input, b); IdsOne(Job(s.input[0], src)); IdsEmpty(); }
    case PushPut => IdsSnoc(s.inDone, s.pusher[0], b); IdsHead(s.pusher, b);
    case PushUp =>
  }

  lemma IdsEmpty()
    ensures Ids([]) == []
    ensures forall b: nat :: Occurs([], b) == 0
  {
  }

  lemma FetchMoves(s: State, b: nat)
    requires Held(s) && WorkEnabled(s)
    ensures SameCounts(FetchNext(s), s, b)
  {
    hide Occurs, Outs;
    IdsEmpty();
    if s.pc == GetOut && s.output != [] { Head(s.output, b); }
  }

  lemma BindMoves(s: State, retry: bool, b: nat)
    requires Sized(s) && Held(s) && WorkEnabled(s)
    ensures SameCounts(BindNext(s, retry), s, b)
  {
    hide Occurs, Outs;
    IdsEmpty();
    if s.pc == PutBack {
      assert s.wOut == [s.wOut[0]];
      Snoc(s.output, s.wOut[0], b);
    }
  }

  lemma PairMoves(s: State, hwError: bool, b: nat)
    requires Held(s) && WorkEnabled(s)
    ensures SameCounts(PairNext(s, hwError), s, b)
  {
    hide Occurs, Ids, Frames;
    IdsEmpty();
    if s.pc == PopIn && s.inDone != [] { IdsHead(s.inDone, b); }
    if s.pc == GetFrame && s.frame != [] { Head(s.frame, b); }
  }

  lemma FinishMoves(s: State, b: nat)
    requires Sized(s) && Held(s) && WorkEnabled(s) && HasIn(s.pc)
    ensures SameCounts(FinishNext(s), s, b)
  {
    hide Occurs, Ids, Outs, Frames;
    IdsEmpty();
    match s.pc
    case FillDone =>
      assert s.wOut == [s.wOut[0]] && s.wFrame == [s.wFrame[0]];
      DoneSnoc(s.outDone, Done(s.wOut[0], s.wFrame[0], s.wIn[0].src), b);
    case Submit => DoneHead(s.outDone, b); DoneSnoc(s.display, s.outDone[0], b);
    case PutInput =>
      assert s.wIn == [s.wIn[0]];
      Snoc(s.input, s.wIn[0].buf, b);
      IdsOne(s.wIn[0]);
    case _ =>
  }

  lemma ReturnMoves(s: State, a: Action, b: nat)
    requires Sized(s) && ReturnEnabled(s, a)
    ensures SameCounts(ReturnNext(s, a), s, b)
  {
    hide Occurs, Outs, Frames;
    IdsEmpty();
    match a
    case Return(i) => DoneWithout(s.display, i, b); DoneSnoc(s.called, s.display[i], b);
    case Enter(i) => DoneWithout(s.called, i, b);
    case Leave =>
      if s.section.Entered? { Snoc(s.frame, s.section.job.frame, b); }
      if s.section.FrameBack? { Snoc(s.output, s.section.buf, b); }
    case _ =>
  }


  // ----- every step keeps the rest -----

  lemma SrcsEmpty()
    ensures Srcs([]) == []
  {
  }

  lemma PushControls(s: State, a: Action)
    requires Sized(s) && Control(s) && PushEnabled(s, a)
    ensures Control(PushNext(s, a))
  {
    hide Srcs;
    SrcsEmpty();
    match a
    case PushGet(src) => if s.input != [] { IdsOne(Job(s.input[0], src)); }
    case PushPut =>
      SrcsSnoc(s.inDone, s.pusher[0]);
      SrcsHead(s.pusher);
    case PushUp =>
  }

  lemma FetchLocks(s: State)
    requires Sized(s) && Control(s) && WorkEnabled(s)
    ensures Mutex(FetchNext(s)) && Counted(FetchNext(s))
  {
    hide InOrder, NeverFailed;
  }

  lemma FetchHolds(s: State)
    requires Sized(s) && Control(s) && WorkEnabled(s)
    ensures Held(FetchNext(s)) && NeverFailed(FetchNext(s))
  {
    hide InOrder, Mutex;
  }

  lemma FetchControls(s: State)
    requires Sized(s) && Control(s) && WorkEnabled(s)
    ensures Control(FetchNext(s))
  {
    hide Srcs;
    FetchLocks(s);
    FetchHolds(s);
    hide Mutex, Counted, Held, NeverFailed;
  }

  lemma BindControls(s: State, retry: bool)
    requires Sized(s) && Control(s) && WorkEnabled(s)
    ensures Control(BindNext(s, retry))
  {
    hide Srcs;
  }

  lemma PairOrder(s: State, hwError: bool)
    requires Sized(s) && Control(s) && WorkEnabled(s)
    ensures InOrder(PairNext(s, hwError))
  {
    hide Srcs, Mutex, Counted;
    SrcsEmpty();
    if s.pc == PopIn && s.inDone != [] {
      SrcsHead(s.inDone);
      IdsOne(s.inDone[0]);
    }
  }

  lemma PairLocks(s: State, hwError: bool)
    requires Sized(s) && Control(s) && WorkEnabled(s)
    ensures Mutex(PairNext(s, hwError)) && Counted(PairNext(s, hwError))
  {
    hide InOrder, NeverFailed;
  }

  lemma PairHolds(s: State, hwError: bool)
    requires Sized(s) && Control(s) && WorkEnabled(s)
    ensures Held(PairNext(s, hwError)) && NeverFailed(PairNext(s, hwError))
  {
    hide InOrder, Mutex;
  }

  lemma PairControls(s: State, hwError: bool)
    requires Sized(s) && Control(s) && WorkEnabled(s)
    ensures Control(PairNext(s, hwError))
  {
    PairOrder(s, hwError);
    PairLocks(s, hwError);
    PairHolds(s, hwError);
    hide InOrder, Mutex, Counted, Held, NeverFailed;
  }

  lemma FinishControls(s: State)
    requires Sized(s) && Control(s) && WorkEnabled(s)
    ensures Control(FinishNext(s))
  {
    hide Srcs;
    SrcsEmpty();
    if s.wIn != [] {
      SrcsHead(s.wIn);
    }
    assert InOrder(FinishNext(s)) by { hide Mutex, Counted; }
    hide InOrder;
  }

  lemma ReturnControls(s: State, a: Action)
    requires Sized(s) && Control(s) && ReturnEnabled(s, a)
    ensures Control(ReturnNext(s, a))
  {
    hide Srcs, Without;
  }

  // ----- all runs -----

  lemma InitHolds(n: nat, cap: nat)
    requires n <= cap
    ensures Inv(Init(n, cap))
  {
    CountOnce(FRAME_SIZE);
    CountOnce(n);
    IdsEmpty();
  }

  lemma WorkMoves(s: State, retry: bool, hwError: bool, b: nat)
    requires Sized(s) && Held(s) && WorkEnabled(s)
    ensures SameCounts(WorkNext(s, retry, hwError), s, b)
  {
    hide SameCounts, FetchNext, BindNext, PairNext, FinishNext;
    if Fetching(s.pc) {
      FetchMoves(s, b);
    } else if Binding(s.pc) {
      BindMoves(s, retry, b);
    } else if Pairing(s.pc) {
      PairMoves(s, hwError, b);
    } else {
      FinishMoves(s, b);
    }
  }

  lemma StepMoves(s: State, a: Action, b: nat)
    requires Sized(s) && Held(s) && Enabled(s, a)
    ensures SameCounts(Next(s, a), s, b)
  {
    hide SameCounts, WorkNext, PushNext, ReturnNext;
    if a.Work? {
      WorkMoves(s, a.retry, a.hwError, b);
    } else if PushEnabled(s, a) {
      PushMoves(s, a, b);
    } else {
      ReturnMoves(s, a, b);
    }
  }

  lemma StepControls(s: State, a: Action)
    requires Sized(s) && Control(s) && Enabled(s, a)
    ensures Control(Next(s, a))
  {
    hide Control, Sized, PushNext, FetchNext, BindNext, PairNext, FinishNext, ReturnNext;
    if a.Work? {
      if Fetching(s.pc) {
        FetchControls(s);
      } else if Binding(s.pc) {
        BindControls(s, a.retry);
      } else if Pairing(s.pc) {
        PairControls(s, a.hwError);
      } else {
        FinishControls(s);
      }
    } else if PushEnabled(s, a) {
      PushControls(s, a);
    } else {
      ReturnControls(s, a);
    }
  }

  lemma StepKeeps(s: State, a: Action)
    requires Inv(s) && Enabled(s, a)
    ensures Inv(Next(s, a))
  {
    hide Next, Enabled, InputAt, OutputAt, FrameAt;
    Sizes(s);
    StepControls(s, a);
    forall b: nat
      ensures InputAt(Next(s, a), b) == One(b < FRAME_SIZE)
      ensures OutputAt(Next(s, a), b) == One(b < Next(s, a).n)
      ensures FrameAt(Next(s, a), b) == One(b < Next(s, a).n)
    {
      StepMoves(s, a, b);
      assert InputAt(s, b) == One(b < FRAME_SIZE) && OutputAt(s, b) == One(b < s.n) && FrameAt(s, b) == One(b < s.n);
    }
  }

  lemma {:induction false} RunKeeps(s0: State, acts: seq<Action>, s: State)
    requires Inv(s0) && Run(s0, acts, s)
    ensures Inv(s)
    decreases |acts|
  {
    hide Inv, Next, Enabled;
    if acts != [] {
      StepKeeps(s0, acts[0]);
      RunKeeps(Next(s0, acts[0]), acts[1..], s);
    }
  }

  /** In every interleaving: each buffer and vframe in one place, nothing dropped, no "can not get", frames
      in order, and a worker blocked on sem_out with an output buffer there has a wake-up on its way. */
  lemma Safety(n: nat, cap: nat, acts: seq<Action>, s: State)
    requires n <= cap && Run(Init(n, cap), acts, s)
    ensures Conserved(s) && NeverFailed(s)
    ensures s.returned <= s.submitted <= s.pushed
    ensures s.pc == WaitOut && s.output != [] ==> s.semOut > 0 || s.pendingUps > 0 || s.section == BothBack
  {
    InitHolds(n, cap);
    hide Conserved;
    RunKeeps(Init(n, cap), acts, s);
  }

  /** The actors other than the decoder and the viewer have nothing left to do. */
  predicate Quiet(s: State) {
    && !PushEnabled(s, PushPut) && !PushEnabled(s, PushUp)
    && !WorkEnabled(s)
    && !ReturnEnabled(s, Enter(0)) && !ReturnEnabled(s, Leave) && !ReturnEnabled(s, Up)
  }

  /** No deadlock and no lost wake-up: when nothing moves, either all work is done, or every output
      buffer is on display and the next returned one wakes the worker, or the hardware failed. */
  lemma QuietMeansDone(n: nat, cap: nat, acts: seq<Action>, s: State)
    requires n <= cap && Run(Init(n, cap), acts, s) && Quiet(s)
    ensures s.pc.DownIn? || s.pc.WaitOut? || s.pc.HardwareError?
    ensures s.pc == DownIn ==> s.pushed == s.submitted == s.returned && |s.input| == FRAME_SIZE
    ensures s.pc == WaitOut ==> s.output == [] && |s.display| == n
  {
    InitHolds(n, cap);
    RunSameSize(Init(n, cap), acts, s);
    hide Inv, Run;
    RunKeeps(Init(n, cap), acts, s);
    RestingPlaces(s);
  }

  lemma RestingPlaces(s: State)
    requires Inv(s) && Quiet(s)
    ensures s.pc.DownIn? || s.pc.WaitOut? || s.pc.HardwareError?
    ensures s.pc == DownIn ==> s.pushed == s.submitted == s.returned && |s.input| == FRAME_SIZE
    ensures s.pc == WaitOut ==> s.output == [] && |s.display| == s.n
  {
    Sizes(s);
    hide Conserved, Occurs;
    assert !ReturnEnabled(s, Leave) && s.section == Nobody;
    assert s.pusher == [] && s.ups == 0 && s.pendingUps == 0;
    assert (s.pc.DownIn? || s.pc.WaitOut? || s.pc.HardwareError?);
    assert !s.lock && s.called == [];
  }

  lemma NextSameSize(s: State, a: Action)
    requires Enabled(s, a)
    ensures Next(s, a).n == s.n
  {
  }

  lemma {:induction false} RunSameSize(s0: State, acts: seq<Action>, s: State)
    requires Run(s0, acts, s)
    ensures s.n == s0.n
    decreases |acts|
  {
    hide Next, Enabled;
    if acts != [] {
      NextSameSize(s0, acts[0]);
      RunSameSize(Next(s0, acts[0]), acts[1..], s);
    }
  }

  /** What the recycling threads still have to do for the worker blocked on sem_out. */
  function WakeUp(s: State): seq<Action> {
    if s.semOut > 0 then [] else if s.pendingUps > 0 then [Up] else [Leave, Up]
  }

  /** In every interleaving: with an output buffer there, the worker blocked on sem_out goes on after at most
      the two remaining steps of a recycling thread, which nobody can hold up. */
  lemma WaitingIsRight(n: nat, cap: nat, acts: seq<Action>, s: State) returns (t: State)
    requires n <= cap && Run(Init(n, cap), acts, s) && s.pc == WaitOut && s.output != []
    ensures Run(s, WakeUp(s), t) && t.pc == WaitOut && t.semOut > 0 && WorkEnabled(t)
  {
    Safety(n, cap, acts, s);
    hide Conserved, NeverFailed;
    if s.semOut > 0 {
      t := s;
    } else if s.pendingUps > 0 {
      t := Next(s, Up);
      assert [Up][1..] == [] && Run(t, [], t);
    } else {
      var u := Next(s, Leave);
      t := Next(u, Up);
      assert [Leave, Up][1..] == [Up] && [Up][1..] == [] && Run(t, [], t);
      assert Run(u, [Up], t);
    }
  }
}
