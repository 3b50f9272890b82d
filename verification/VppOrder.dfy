/** The order of the frames in the VPP wrapper, and where it comes to rest. */
module VppOrder {
  import opened Basics
  import opened Fifo
  import opened VppMachine
  import opened Vpp

  function Inputs(ps: seq<Pair>): (r: seq<nat>)
    ensures |r| == |ps|
  {
    seq(|ps|, i requires 0 <= i < |ps| => ps[i].inbuf)
  }

  /** Popped by the worker and not handed over yet. */
  predicate Popped(pc: Pc) { pc.GetFrame? || pc.PutProcessing? }

  predicate InPushOrder(s: State) {
    s.pushed == Inputs(s.handed) + (if Popped(s.pc) then s.wIn else []) + s.inDone + s.pusher
  }

  lemma HandedNext(ps: seq<Pair>, p: Pair)
    ensures Inputs(ps + [p]) == Inputs(ps) + [p.inbuf]
  {
  }

  lemma PushOrders(s: State, a: Action)
    requires Inv(s) && InPushOrder(s) && PushEnabled(s, a)
    ensures InPushOrder(PushNext(s, a))
  {
    PushRoom(s);
    hide Inv, Inputs;
    if a == PushPut { assert s.inDone + s.pusher == s.inDone + [s.pusher[0]]; }
  }

  lemma PushRoom(s: State)
    requires Inv(s)
    ensures |s.pusher| <= 1 && (s.pusher != [] ==> |s.inDone| < FRAME_SIZE)
  {
  }

  lemma WorkOrders(s: State, retry: bool)
    requires Inv(s) && InPushOrder(s) && WorkEnabled(s)
    ensures InPushOrder(WorkNext(s, retry))
  {
    if Fetching(s.pc) {
      FetchLeaves(s, retry);
      hide Inv, FetchNext, HandNext, Inputs;
    } else {
      OneIn(s);
      if s.pc == PutProcessing { HandedNext(s.handed, Pair(s.wOut[0], s.wIn[0])); }
      hide Inv, FetchNext, Inputs, Put, Refused;
    }
  }

  lemma OneIn(s: State)
    requires Inv(s)
    ensures s.pc.PutProcessing? ==> |s.wIn| == 1
    ensures s.pc.PopIn? ==> s.inDone != []
  {
  }

  /** The deinterlacer and the display leave the input side alone. */
  lemma OthersLeave(s: State, a: Action)
    requires Enabled(s, a) && !PushEnabled(s, a) && !a.Work?
    ensures var t := Next(s, a); (t.pushed, t.handed, t.pc, t.wIn, t.inDone, t.pusher)
                                 == (s.pushed, s.handed, s.pc, s.wIn, s.inDone, s.pusher)
  {
    hide Put, Refused, Without;
  }

  lemma StepOrders(s: State, a: Action)
    requires Inv(s) && InPushOrder(s) && Enabled(s, a)
    ensures InPushOrder(Next(s, a))
  {
    hide Inv, PushNext, WorkNext, Inputs;
    if PushEnabled(s, a) {
      PushOrders(s, a);
    } else if a.Work? {
      WorkOrders(s, a.retry);
    } else {
      OthersLeave(s, a);
      hide Next;
    }
  }

  lemma {:induction false} RunOrders(s0: State, acts: seq<Action>, s: State)
    requires Inv(s0) && InPushOrder(s0) && Run(s0, acts, s)
    ensures InPushOrder(s)
    decreases |acts|
  {
    hide Inv, InPushOrder, Next, Enabled;
    if acts != [] {
      StepOrders(s0, acts[0]);
      StepKeeps(s0, acts[0]);
      RunOrders(Next(s0, acts[0]), acts[1..], s);
    }
  }

  /** In every interleaving: the deinterlacer is given the input buffers in the order in which they were pushed,
      and its answers meet the pairs in the order in which it was given them. */
  lemma FirstPushedFirstServed(n: nat, cap: nat, ibuf: nat, obuf: nat, prog: bool, acts: seq<Action>, s: State)
    requires n <= cap && Run(Init(n, cap, ibuf, obuf, prog), acts, s)
    ensures Inputs(s.handed) <= s.pushed && s.answered <= s.handed
  {
    var s0 := Init(n, cap, ibuf, obuf, prog);
    assert Inv(s0) && InPushOrder(s0);
    RunOrders(s0, acts, s);
    RunKeeps(s0, acts, s);
    hide Run, Counters, Bounded, Waiting, Pools, NeverFailed;
  }

  // ----- no lost wake-up -----

  /** Neither push nor worker nor a return has anything left to do. */
  predicate Quiet(s: State) {
    !PushEnabled(s, PushPut) && !PushEnabled(s, PushUp) && !WorkEnabled(s) && !ReturnEnabled(s, Up)
  }

  lemma RestingPlaces(s: State)
    requires Inv(s) && Quiet(s)
    ensures (s.pc == DownIn && s.inDone == []) || (s.pc == WaitOut && s.output == [])
  {
    assert s.pusher == [] && s.ups == 0 && s.pendingUps == 0;
    hide Counters, Bounded, Pools, InOrder;
  }

  /** In every run: when only decoder, deinterlacer and display can still move, every pushed frame was given to the
      deinterlacer, or there is no output buffer left. */
  lemma QuietMeansDone(n: nat, cap: nat, ibuf: nat, obuf: nat, prog: bool, acts: seq<Action>, s: State)
    requires n <= cap && Run(Init(n, cap, ibuf, obuf, prog), acts, s) && Quiet(s)
    ensures (s.pc == DownIn && s.pushed == Inputs(s.handed)) || (s.pc == WaitOut && s.output == [])
  {
    var s0 := Init(n, cap, ibuf, obuf, prog);
    assert Inv(s0) && InPushOrder(s0);
    hide Inv, InPushOrder, Run, Quiet, Inputs;
    RunOrders(s0, acts, s);
    RunKeeps(s0, acts, s);
    RestingPlaces(s);
    if s.pc == DownIn { NothingLeft(s); }
  }

  lemma NothingLeft(s: State)
    requires InPushOrder(s) && Quiet(s) && s.pc == DownIn && s.inDone == []
    ensures s.pushed == Inputs(s.handed)
  {
    assert s.pusher == [];
    hide Inputs;
  }

  /** In every run: with an output buffer there, the worker blocked on sem_out goes on, at the latest after the up
      that some return still owes. */
  lemma WaitingIsRight(n: nat, cap: nat, ibuf: nat, obuf: nat, prog: bool, acts: seq<Action>, s: State)
    requires n <= cap && Run(Init(n, cap, ibuf, obuf, prog), acts, s) && s.pc == WaitOut && s.output != []
    ensures WorkEnabled(s) || (Enabled(s, Up) && WorkEnabled(Next(s, Up)))
  {
    var s0 := Init(n, cap, ibuf, obuf, prog);
    assert Inv(s0);
    RunKeeps(s0, acts, s);
    hide Run, Counters, Bounded, Pools, InOrder;
  }
}
