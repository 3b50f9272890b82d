/** Capture buffers in the VPP wrapper: interlaced frames are deinterlaced into bound output buffers only, and an
    output buffer that cannot be bound yet goes to the end of its queue. */
module VppBinding {
  import opened Basics
  import opened Fifo
  import opened VppMachine
  import opened Vpp

  predicate PastBinding(pc: Pc) { pc.PopIn? || pc.GetFrame? || pc.PutProcessing? }

  predicate AllBound(ps: seq<Pair>, bound: set<nat>) { forall i :: 0 <= i < |ps| ==> ps[i].out in bound }

  /** For interlaced frames: what is paired, queued, answered and shown is bound. */
  predicate Bindings(s: State) {
    && (PastBinding(s.pc) ==> forall i :: 0 <= i < |s.wOut| ==> s.wOut[i] in s.bound)
    && AllBound(s.processing, s.bound) && AllBound(s.outDone, s.bound) && AllBound(s.display, s.bound)
    && (s.callback.Got? || s.callback.Filled? ==> s.callback.pair.out in s.bound)
  }

  /** The worker puts back only what needs a capture buffer and has none. */
  predicate PutsBackUnbound(s: State) {
    s.pc.PutBack? ==> !s.prog && (s.wOut != [] ==> s.wOut[0] !in s.bound)
  }

  lemma PushBinds(s: State, a: Action)
    requires PushEnabled(s, a) && PutsBackUnbound(s)
    ensures PutsBackUnbound(PushNext(s, a)) && PushNext(s, a).prog == s.prog
    ensures Bindings(s) ==> Bindings(PushNext(s, a))
  {
    hide Put, Refused;
  }

  lemma FetchBinds(s: State, retry: bool)
    requires WorkEnabled(s) && Fetching(s.pc) && PutsBackUnbound(s)
    ensures PutsBackUnbound(FetchNext(s, retry)) && FetchNext(s, retry).prog == s.prog
    ensures Bindings(s) && !s.prog && Held(s) ==> Bindings(FetchNext(s, retry))
  {
    hide Put, Refused, InputIsFull, OutputIsFull;
  }

  lemma HandBinds(s: State)
    requires WorkEnabled(s) && !Fetching(s.pc) && PutsBackUnbound(s)
    ensures PutsBackUnbound(HandNext(s)) && HandNext(s).prog == s.prog
    ensures Bindings(s) ==> Bindings(HandNext(s))
  {
  }

  lemma DiBinds(s: State, a: Action)
    requires DiEnabled(s, a) && PutsBackUnbound(s)
    ensures PutsBackUnbound(DiNext(s, a)) && DiNext(s, a).prog == s.prog
    ensures Bindings(s) ==> Bindings(DiNext(s, a))
  {
  }

  lemma ReturnBinds(s: State, a: Action)
    requires ReturnEnabled(s, a) && PutsBackUnbound(s)
    ensures PutsBackUnbound(ReturnNext(s, a)) && ReturnNext(s, a).prog == s.prog
    ensures Bindings(s) ==> Bindings(ReturnNext(s, a))
  {
  }

  lemma StepParts(s: State, a: Action)
    requires Enabled(s, a)
    ensures PushEnabled(s, a) ==> Next(s, a) == PushNext(s, a)
    ensures a.Work? ==> !PushEnabled(s, a) && WorkEnabled(s) && Next(s, a) == WorkNext(s, a.retry)
    ensures DiEnabled(s, a) ==> !PushEnabled(s, a) && !a.Work? && Next(s, a) == DiNext(s, a)
    ensures !PushEnabled(s, a) && !a.Work? && !DiEnabled(s, a) ==> ReturnEnabled(s, a) && Next(s, a) == ReturnNext(s, a)
  {
    hide PushNext, WorkNext, ReturnNext, DiNext, WorkEnabled;
  }

  lemma StepBinds(s: State, a: Action)
    requires Enabled(s, a) && PutsBackUnbound(s)
    ensures PutsBackUnbound(Next(s, a)) && Next(s, a).prog == s.prog
    ensures Bindings(s) && !s.prog && Held(s) ==> Bindings(Next(s, a))
  {
    StepParts(s, a);
    if a.Work? { WorkParts(s, a.retry); }
    hide *;
    if PushEnabled(s, a) {
      PushBinds(s, a);
    } else if a.Work? {
      if Fetching(s.pc) { FetchBinds(s, a.retry); } else { HandBinds(s); }
    } else if DiEnabled(s, a) {
      DiBinds(s, a);
    } else {
      ReturnBinds(s, a);
    }
  }

  lemma WorkParts(s: State, retry: bool)
    requires WorkEnabled(s)
    ensures WorkNext(s, retry) == if Fetching(s.pc) then FetchNext(s, retry) else HandNext(s)
  {
    hide FetchNext, HandNext;
  }

  lemma {:induction false} RunBinds(s0: State, acts: seq<Action>, s: State)
    requires Inv(s0) && PutsBackUnbound(s0) && (!s0.prog ==> Bindings(s0)) && Run(s0, acts, s)
    ensures PutsBackUnbound(s) && s.prog == s0.prog && (!s.prog ==> Bindings(s))
    decreases |acts|
  {
    if acts != [] {
      assert Held(s0);
      hide Inv, Bindings, PutsBackUnbound, Held, Next, Enabled;
      StepBinds(s0, acts[0]);
      StepKeeps(s0, acts[0]);
      RunBinds(Next(s0, acts[0]), acts[1..], s);
    }
  }

  /** In every interleaving: the worker puts an output buffer back only if the frames are interlaced and it has no
      capture buffer; and with interlaced frames whatever the deinterlacer holds or the display shows has one. */
  lemma BindingIsRight(n: nat, cap: nat, ibuf: nat, obuf: nat, prog: bool, acts: seq<Action>, s: State)
    requires n <= cap && Run(Init(n, cap, ibuf, obuf, prog), acts, s)
    ensures s.pc == PutBack ==> !prog && |s.wOut| == 1 && s.wOut[0] !in s.bound
    ensures !prog && s.pc == PutProcessing ==> |s.wOut| == 1 && s.wOut[0] in s.bound
    ensures !prog ==> forall i :: 0 <= i < |s.processing| ==> s.processing[i].out in s.bound
    ensures !prog ==> forall i :: 0 <= i < |s.display| ==> s.display[i].out in s.bound
  {
    var s0 := Init(n, cap, ibuf, obuf, prog);
    assert Inv(s0);
    assert Bindings(s0) && PutsBackUnbound(s0);
    RunKeeps(s0, acts, s);
    RunBinds(s0, acts, s);
    hide Run, Counters, Bounded, Waiting, Pools, InOrder, NeverFailed;
  }

  // ----- retries -----

  /** The worker looks for an output buffer, the deinterlacer has room, the frames are interlaced and the first k
      output buffers have no capture buffer. */
  predicate AtRetry(s: State, k: nat) {
    && s.pc == Check && s.wOut == [] && !s.prog && k <= |s.output| <= s.cap
    && !InputIsFull(s) && !OutputIsFull(s)
    && forall i :: 0 <= i < k ==> s.output[i] !in s.bound
  }

  lemma TakeStep(s: State, w: Action)
    requires w.Work? && s.output != [] && !InputIsFull(s) && !OutputIsFull(s)
    requires s.pc.Check? || s.pc.InputFull? || s.pc.OutputFull? || s.pc.GetOut?
    ensures Enabled(s, w)
    ensures s.pc.Check? ==> Next(s, w) == s.(pc := InputFull)
    ensures s.pc.InputFull? ==> Next(s, w) == s.(pc := OutputFull)
    ensures s.pc.OutputFull? ==> Next(s, w) == s.(pc := GetOut)
    ensures s.pc.GetOut? ==> Next(s, w) == s.(wOut := [s.output[0]], output := s.output[1..], pc := Bind)
  {
  }

  /** The four steps up to the binding: look, room for an input, room for an output, take. */
  lemma Take(s: State, w: Action)
    requires AtRetry(s, 1) && w.Work?
    ensures Run(s, [w, w, w, w], s.(wOut := [s.output[0]], output := s.output[1..], pc := Bind))
  {
    var t := s.(pc := InputFull);
    var u := s.(pc := OutputFull);
    var v := s.(pc := GetOut);
    var x := s.(wOut := [s.output[0]], output := s.output[1..], pc := Bind);
    hide Next, Enabled;
    TakeStep(s, w);
    TakeStep(t, w);
    TakeStep(u, w);
    TakeStep(v, w);
    hide InputIsFull, OutputIsFull;
    assert Run(x, [], x);
    assert [w][1..] == [] && [w, w][1..] == [w] && [w, w, w][1..] == [w, w] && [w, w, w, w][1..] == [w, w, w];
    assert Run(v, [w], x);
    assert Run(u, [w, w], x);
    assert Run(t, [w, w, w], x);
  }

  /** And two of giving up: no capture buffer, put back. */
  lemma GiveUp(s: State, w: Action)
    requires s.pc == Bind && |s.wOut| == 1 && !s.prog && s.wOut[0] !in s.bound && |s.output| < s.cap
    requires w.Work? && w.retry
    ensures Run(s, [w, w], s.(output := s.output + [s.wOut[0]], wOut := [], pc := Check))
  {
    var t := s.(pc := PutBack);
    var x := s.(output := s.output + [s.wOut[0]], wOut := [], pc := Check);
    assert Next(s, w) == t && Next(t, w) == x;
    hide Next;
    assert Run(x, [], x);
    assert [w][1..] == [] && [w, w][1..] == [w];
    assert Run(t, [w], x);
  }

  lemma {:induction false} RunsJoin(s: State, a: seq<Action>, t: State, b: seq<Action>, u: State)
    requires Run(s, a, t) && Run(t, b, u)
    ensures Run(s, a + b, u)
    decreases |a|
  {
    hide Enabled, Next;
    if a == [] {
      assert a + b == b;
    } else {
      RunsJoin(Next(s, a[0]), a[1..], t, b, u);
      assert (a + b)[1..] == a[1..] + b;
    }
  }

  /** An attempt that fails moves the output buffer from the front of the queue to its end, and changes nothing
      else. */
  lemma RetryRotates(s: State, w: Action)
    requires AtRetry(s, 1) && w.Work? && w.retry
    ensures Run(s, [w, w, w, w] + [w, w], s.(output := s.output[1..] + [s.output[0]]))
  {
    var m := s.(wOut := [s.output[0]], output := s.output[1..], pc := Bind);
    var t := m.(output := m.output + [m.wOut[0]], wOut := [], pc := Check);
    assert t == s.(output := s.output[1..] + [s.output[0]]);
    Take(s, w);
    GiveUp(m, w);
    hide Run;
    RunsJoin(s, [w, w, w, w], m, [w, w], t);
  }

  lemma Rotated(s: State, k: nat)
    requires 1 <= k && AtRetry(s, k)
    ensures AtRetry(s, 1) && AtRetry(s.(output := s.output[1..] + [s.output[0]]), k - 1)
  {
  }

  /** After k failed attempts the first k output buffers stand behind the others in their old order: after
      |output| of them each was tried once and the queue is as it was. */
  lemma {:induction false} RetriesRotate(s: State, k: nat, w: Action) returns (acts: seq<Action>)
    requires AtRetry(s, k) && w.Work? && w.retry
    ensures |acts| == 6 * k && Run(s, acts, s.(output := s.output[k..] + s.output[..k]))
    decreases k
  {
    if k == 0 {
      acts := [];
      assert s.output[0..] + s.output[..0] == s.output;
      assert s.(output := s.output) == s;
    } else {
      var t := s.(output := s.output[1..] + [s.output[0]]);
      Rotated(s, k);
      RetryRotates(s, w);
      assert t.output[k - 1..] + t.output[..k - 1] == s.output[k..] + s.output[..k];
      hide Run, AtRetry;
      var rest := RetriesRotate(t, k - 1, w);
      acts := [w, w, w, w] + [w, w] + rest;
      RunsJoin(s, [w, w, w, w] + [w, w], t, rest, s.(output := s.output[k..] + s.output[..k]));
    }
  }
}
