/** Capture buffers in the GE2D wrapper: what is converted and shown is bound, and an output buffer that cannot be
    bound yet goes to the end of its queue. */
module Ge2dBinding {
  import opened Basics
  import opened Fifo
  import opened Ge2dMachine
  import opened Ge2dSafety

  // ----- bound and not bound -----

  /** The worker is past the binding of its output buffer. */
  predicate PastBinding(pc: Pc) {
    || pc.PopIn? || pc.LockFrame? || pc.GetFrame? || pc.UnlockFrame? || pc.Convert? || pc.FillDone?
    || pc.HardwareError?
  }

  predicate AllBound(ds: seq<Done>, bound: set<nat>) { forall i :: 0 <= i < |ds| ==> ds[i].buf in bound }

  /** The worker converts into bound buffers only and puts back unbound ones only; all that is shown or comes back
      is bound. */
  predicate Bindings(s: State) {
    && (PastBinding(s.pc) ==> forall i :: 0 <= i < |s.wOut| ==> s.wOut[i] in s.bound)
    && (s.pc.LockBack? || s.pc.PutBack? ==> forall i :: 0 <= i < |s.wOut| ==> s.wOut[i] !in s.bound)
    && AllBound(s.outDone, s.bound) && AllBound(s.display, s.bound) && AllBound(s.called, s.bound)
    && (s.section.Entered? ==> s.section.job.buf in s.bound) && (s.section.FrameBack? ==> s.section.buf in s.bound)
  }

  lemma PushBinds(s: State, a: Action)
    requires Bindings(s) && PushEnabled(s, a)
    ensures Bindings(PushNext(s, a))
  {
  }

  lemma FetchBinds(s: State)
    requires Bindings(s) && Held(s) && WorkEnabled(s) && Fetching(s.pc)
    ensures Bindings(FetchNext(s))
  {
  }

  lemma BindBinds(s: State, retry: bool)
    requires Bindings(s) && Held(s) && WorkEnabled(s) && Binding(s.pc)
    ensures Bindings(BindNext(s, retry))
  {
    hide Put, Refused;
  }

  lemma PairBinds(s: State, hwError: bool)
    requires Bindings(s) && Held(s) && WorkEnabled(s) && Pairing(s.pc)
    ensures Bindings(PairNext(s, hwError))
  {
  }

  lemma FinishBinds(s: State)
    requires Bindings(s) && Held(s) && WorkEnabled(s) && !Fetching(s.pc) && !Binding(s.pc) && !Pairing(s.pc)
    ensures Bindings(FinishNext(s))
  {
    if s.pc == FillDone { assert s.wOut[0] in s.bound; }
  }

  lemma WorkBinds(s: State, retry: bool, hwError: bool)
    requires Bindings(s) && Held(s) && WorkEnabled(s)
    ensures Bindings(WorkNext(s, retry, hwError))
  {
    hide Bindings, Held, WorkEnabled, FetchNext, BindNext, PairNext, FinishNext, Fetching, Binding, Pairing;
    if Fetching(s.pc) {
      FetchBinds(s);
    } else if Binding(s.pc) {
      BindBinds(s, retry);
    } else if Pairing(s.pc) {
      PairBinds(s, hwError);
    } else {
      FinishBinds(s);
    }
  }

  lemma ReturnBinds(s: State, a: Action)
    requires Bindings(s) && ReturnEnabled(s, a)
    ensures Bindings(ReturnNext(s, a))
  {
  }

  lemma StepBinds(s: State, a: Action)
    requires Bindings(s) && Held(s) && Enabled(s, a)
    ensures Bindings(Next(s, a))
  {
    StepParts(s, a);
    hide *;
    if PushEnabled(s, a) {
      PushBinds(s, a);
    } else if a.Work? {
      WorkBinds(s, a.retry, a.hwError);
    } else {
      ReturnBinds(s, a);
    }
  }

  /** Whose step it is. */
  lemma StepParts(s: State, a: Action)
    requires Enabled(s, a)
    ensures PushEnabled(s, a) ==> Next(s, a) == PushNext(s, a)
    ensures a.Work? ==> !PushEnabled(s, a) && WorkEnabled(s) && Next(s, a) == WorkNext(s, a.retry, a.hwError)
    ensures !PushEnabled(s, a) && !a.Work? ==> ReturnEnabled(s, a) && Next(s, a) == ReturnNext(s, a)
  {
    hide PushNext, WorkNext, ReturnNext, WorkEnabled;
  }

  lemma {:induction false} RunBinds(s0: State, acts: seq<Action>, s: State)
    requires Inv(s0) && Bindings(s0) && Run(s0, acts, s)
    ensures Bindings(s)
    decreases |acts|
  {
    if acts != [] {
      assert Held(s0);
      hide Inv, Bindings, Held, Next, Enabled;
      StepBinds(s0, acts[0]);
      StepKeeps(s0, acts[0]);
      RunBinds(Next(s0, acts[0]), acts[1..], s);
    }
  }

  /** In every interleaving: the worker never puts a bound buffer back, never converts into an unbound one, and
      every frame on its way to the display or back is in a bound buffer. */
  lemma BindingIsRight(n: nat, cap: nat, acts: seq<Action>, s: State)
    requires n <= cap && Run(Init(n, cap), acts, s)
    ensures s.pc == PutBack ==> |s.wOut| == 1 && s.wOut[0] !in s.bound
    ensures s.pc == Convert || s.pc == FillDone ==> |s.wOut| == 1 && s.wOut[0] in s.bound
    ensures forall i :: 0 <= i < |s.display| ==> s.display[i].buf in s.bound
    ensures forall i :: 0 <= i < |s.outDone| ==> s.outDone[i].buf in s.bound
    ensures forall i :: 0 <= i < |s.called| ==> s.called[i].buf in s.bound
  {
    InitHolds(n, cap);
    assert Bindings(Init(n, cap));
    hide Conserved, Run;
    RunBinds(Init(n, cap), acts, s);
    RunKeeps(Init(n, cap), acts, s);
  }

  // ----- retries -----

  /** The worker looks for an output buffer, nobody else is at the queue, and the first ones have no capture
      buffer. */
  predicate AtRetry(s: State, k: nat) {
    && s.pc == Check && s.wOut == [] && !s.lock && k <= |s.output| <= s.cap
    && forall i :: 0 <= i < k ==> s.output[i] !in s.bound
  }

  lemma TakeStep(s: State, w: Action)
    requires w.Work? && s.output != [] && (s.pc.Check? || (s.pc.LockGet? && !s.lock) || s.pc.GetOut? || s.pc.UnlockGet?)
    ensures Enabled(s, w)
    ensures s.pc.Check? ==> Next(s, w) == s.(pc := LockGet)
    ensures s.pc.LockGet? ==> Next(s, w) == s.(lock := true, pc := GetOut)
    ensures s.pc.GetOut? ==> Next(s, w) == s.(wOut := [s.output[0]], output := s.output[1..], pc := UnlockGet)
  {
  }

  lemma UnlockStep(s: State, w: Action)
    requires w.Work? && (s.pc.UnlockGet? || s.pc.UnlockBack?)
    ensures Enabled(s, w) && Next(s, w) == s.(lock := false, pc := if s.pc.UnlockGet? then Bind else Check)
  {
  }

  lemma GiveUpStep(s: State, w: Action)
    requires w.Work? && w.retry && |s.wOut| == 1 && |s.output| < s.cap
    requires (s.pc.Bind? && s.wOut[0] !in s.bound) || (s.pc.LockBack? && !s.lock) || s.pc.PutBack?
    ensures Enabled(s, w)
    ensures s.pc.Bind? ==> Next(s, w) == s.(pc := LockBack)
    ensures s.pc.LockBack? ==> Next(s, w) == s.(lock := true, pc := PutBack)
    ensures s.pc.PutBack? ==> Next(s, w) == s.(output := s.output + [s.wOut[0]], wOut := [], pc := UnlockBack)
  {
  }

  /** The worker's four steps up to the binding: look, lock, take, unlock. */
  lemma Take(s: State, w: Action)
    requires AtRetry(s, 1) && w.Work?
    ensures Run(s, [w, w, w, w], s.(wOut := [s.output[0]], output := s.output[1..], pc := Bind))
  {
    var t := s.(pc := LockGet);
    var u := t.(lock := true, pc := GetOut);
    var v := u.(wOut := [s.output[0]], output := s.output[1..], pc := UnlockGet);
    var x := v.(lock := false, pc := Bind);
    hide Next, Enabled;
    TakeStep(s, w);
    TakeStep(t, w);
    TakeStep(u, w);
    UnlockStep(v, w);
    RunsOn4(s, t, u, v, x, w);
  }

  /** And the four steps of giving up: no capture buffer, lock, put back, unlock. */
  lemma GiveUp(s: State, w: Action)
    requires s.pc == Bind && |s.wOut| == 1 && s.wOut[0] !in s.bound && !s.lock && |s.output| < s.cap
    requires w.Work? && w.retry
    ensures Run(s, [w, w, w, w], s.(output := s.output + [s.wOut[0]], wOut := [], pc := Check))
  {
    var t := s.(pc := LockBack);
    var u := t.(lock := true, pc := PutBack);
    var v := u.(output := s.output + [s.wOut[0]], wOut := [], pc := UnlockBack);
    var x := v.(lock := false, pc := Check);
    hide Next, Enabled;
    GiveUpStep(s, w);
    GiveUpStep(t, w);
    GiveUpStep(u, w);
    UnlockStep(v, w);
    RunsOn4(s, t, u, v, x, w);
  }

  lemma RunsOn4(s: State, t: State, u: State, v: State, x: State, w: Action)
    requires Enabled(s, w) && Next(s, w) == t && Enabled(t, w) && Next(t, w) == u
    requires Enabled(u, w) && Next(u, w) == v && Enabled(v, w) && Next(v, w) == x
    ensures Run(s, [w, w, w, w], x)
  {
    hide Enabled, Next;
    assert Run(x, [], x);
    assert [w][1..] == [] && [w, w][1..] == [w] && [w, w, w][1..] == [w, w] && [w, w, w, w][1..] == [w, w, w];
    assert Run(v, [w], x);
    assert Run(u, [w, w], x);
    assert Run(t, [w, w, w], x);
  }

  lemma {:induction false} RunsJoin(s: State, a: seq<Action>, t: State, b: seq<Action>, u: State)
    requires Run(s, a, t) && Run(t, b, u)
    ensures Run(s, a + b, u)
    decreases |a|
  {
    hide Enabled, Next;
    if a == [] {
      assert a + b == b;
    } else {
      RunsJoin(Next(s, a[0]), a[1..], t, b, u);
      assert (a + b)[1..] == a[1..] + b;
    }
  }

  /** An attempt that fails moves the output buffer from the front of the queue to its end, and changes nothing
      else. */
  lemma RetryRotates(s: State, w: Action)
    requires AtRetry(s, 1) && w.Work? && w.retry
    ensures Run(s, [w, w, w, w] + [w, w, w, w], s.(output := s.output[1..] + [s.output[0]]))
  {
    var m := s.(wOut := [s.output[0]], output := s.output[1..], pc := Bind);
    var t := m.(output := m.output + [m.wOut[0]], wOut := [], pc := Check);
    assert t == s.(output := s.output[1..] + [s.output[0]]);
    Take(s, w);
    GiveUp(m, w);
    hide Run;
    RunsJoin(s, [w, w, w, w], m, [w, w, w, w], t);
  }

  lemma Rotated(s: State)
    requires AtRetry(s, 1)
    ensures forall k: nat :: 1 <= k && AtRetry(s, k) ==> AtRetry(s.(output := s.output[1..] + [s.output[0]]), k - 1)
  {
  }

  /** After k failed attempts the first k output buffers stand behind the others in their old order: after
      |output| of them each was tried once and the queue is as it was. */
  lemma {:induction false} RetriesRotate(s: State, k: nat, w: Action) returns (acts: seq<Action>)
    requires AtRetry(s, k) && w.Work? && w.retry
    ensures |acts| == 8 * k && Run(s, acts, s.(output := s.output[k..] + s.output[..k]))
    decreases k
  {
    if k == 0 {
      acts := [];
      assert s.output[0..] + s.output[..0] == s.output;
      assert s.(output := s.output) == s;
    } else {
      var t := s.(output := s.output[1..] + [s.output[0]]);
      RetryRotates(s, w);
      Rotated(s);
      var rest := RetriesRotate(t, k - 1, w);
      acts := [w, w, w, w] + [w, w, w, w] + rest;
      assert t.output[k - 1..] + t.output[..k - 1] == s.output[k..] + s.output[..k];
      hide Run;
      RunsJoin(s, [w, w, w, w] + [w, w, w, w], t, rest, s.(output := s.output[k..] + s.output[..k]));
    }
  }
}
