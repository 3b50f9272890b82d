/** The functions of drivers/amvdec_ports/aml_vcodec_ge2d.c over the real queues, each shown to be a
    path of the state machine; ghost field m is the machine's state. */
module Ge2d {
  import opened Fifo
  import opened Ge2dMachine
  import opened Ge2dSafety

  class Ge2dWrapper {
    var input: seq<nat>
    var inDone: seq<Job>
    var output: seq<nat>
    var frame: seq<nat>
    var outDone: seq<Done>
    var semIn: nat
    var semOut: nat
    var lock: bool
    var bound: set<nat>
    const cap: nat
    ghost var m: State

    ghost predicate Valid()
      reads this
    {
      && Inv(m) && cap == m.cap
      && input == m.input && inDone == m.inDone && output == m.output && frame == m.frame
      && outDone == m.outDone && semIn == m.semIn && semOut == m.semOut && lock == m.lock && bound == m.bound
    }

    /** The pool set-up of aml_v4l2_ge2d_init, lines 800-823. */
    constructor (n: nat, cap: nat)
      requires n <= cap
      ensures Valid() && m == Init(n, cap)
    {
      this.cap := cap;
      input, inDone, output, frame, outDone := [], [], [], [], [];
      semIn, semOut, lock, bound := 0, 0, false, {};
      m := Init(n, cap);
      new;
      for i := 0 to FRAME_SIZE
        invariant input == Count(i)
        invariant inDone == [] && output == [] && frame == [] && outDone == []
        invariant semIn == 0 && semOut == 0 && !lock && bound == {} && m == Init(n, cap)
      {
        input := Put(input, FRAME_SIZE, i);
      }
      for i := 0 to n
        invariant input == Count(FRAME_SIZE) && output == Count(i) && frame == Count(i)
        invariant inDone == [] && outDone == []
        invariant semIn == 0 && semOut == 0 && !lock && bound == {} && m == Init(n, cap)
      {
        output := Put(output, cap, i);
        frame := Put(frame, cap, i);
      }
      InitHolds(n, cap);
    }

    ghost method Step(a: Action)
      requires Inv(m) && Enabled(m, a)
      modifies this`m
      ensures Inv(m) && m == Next(old(m), a)
    {
      StepKeeps(m, a);
      m := Next(m, a);
    }

    /** aml_v4l2_ge2d_push_vframe. */
    method PushVframe(src: int) returns (ret: int)
      requires Valid() && m.pusher == [] && m.ups == 0
      modifies this
      ensures Valid()
      ensures ret == if old(input) == [] then -1 else 0
      ensures ret != 0 ==> m == old(m)
      ensures ret == 0 ==> m == PushNext(PushNext(PushNext(old(m), PushGet(src)), PushPut), PushUp)
      ensures ret == 0 ==> inDone == old(inDone) + [Job(old(input)[0], src)] && semIn == old(semIn) + 1
    {
      hide Inv, WorkNext, ReturnNext, WorkEnabled, ReturnEnabled;
      if input == [] {
        return -1;
      }
      var inBuf := Job(input[0], src);
      input := input[1..];
      Step(PushGet(src));
      NeverFull(m);
      inDone := Put(inDone, FRAME_SIZE, inBuf);
      Step(PushPut);
      semIn := semIn + 1;
      Step(PushUp);
      ret := 0;
    }

    /** Lines 362-363, inside the mutex. */
    method PutBoth(buf: Done)
      requires Valid() && m.section == Entered(buf)
      modifies this
      ensures Valid() && m.section == BothBack
      ensures output == old(output) + [buf.buf] && frame == old(frame) + [buf.frame]
      ensures semOut == old(semOut) && m.display == old(m.display) && lock == old(lock)
    {
      hide Inv, WorkNext, PushNext, WorkEnabled, PushEnabled;
      NeverFull(m);
      frame := Put(frame, cap, buf.frame);
      Step(Leave);
      NeverFull(m);
      output := Put(output, cap, buf.buf);
      Step(Leave);
    }

    /** ge2d_vf_put, once the display has handed buffer i of those it shows back. */
    method VfPut(ghost i: nat, buf: Done)
      requires Valid() && !lock && m.section == Nobody
      requires i < |m.display| && m.display[i] == buf
      modifies this
      ensures Valid() && !lock
      ensures output == old(output) + [buf.buf] && frame == old(frame) + [buf.frame] && semOut == old(semOut) + 1
      ensures m.display == Without(old(m.display), i)
    {
      hide Inv, Next, Enabled, Without;
      ReturnSteps(m, i);
      Step(Return(i));
      EnterSteps(m, |m.called| - 1);
      lock := true;
      Step(Enter(|m.called| - 1));
      PutBoth(buf);
      LeaveSteps(m);
      lock := false;
      Step(Leave);
      UpSteps(m);
      semOut := semOut + 1;
      Step(Up);
    }

    /** Lines 405-417: take the next output buffer once one is there. */
    method TakeOutput() returns (outBuf: nat)
      requires Valid() && m.pc == Check && output != [] && !lock
      modifies this
      ensures Valid() && m.pc == Bind && m.wOut == [outBuf] && !lock
      ensures [outBuf] + output == old(output)
      ensures inDone == old(inDone) && frame == old(frame) && input == old(input) && outDone == old(outDone)
      ensures m.display == old(m.display) && m.wIn == old(m.wIn)
      ensures m.submitted == old(m.submitted) && m.returned == old(m.returned) && bound == old(bound)
    {
      hide Inv, Next, Enabled;
      FetchSteps(m);
      Step(Work(false, false));
      FetchSteps(m);
      lock := true;
      Step(Work(false, false));
      FetchSteps(m);
      outBuf := output[0];
      output := output[1..];
      Step(Work(false, false));
      FetchSteps(m);
      lock := false;
      Step(Work(false, false));
    }

    /** Lines 423-444: no capture buffer can be bound yet; the output buffer goes back to the end. */
    method GiveBackOutput(outBuf: nat)
      requires Valid() && m.pc == Bind && m.wOut == [outBuf] && outBuf !in bound && !lock
      modifies this
      ensures Valid() && m.pc == Check && !lock
      ensures output == old(output) + [outBuf]
    {
      hide Inv, Next, Enabled;
      BackSteps(m);
      Step(Work(true, false));
      BackSteps(m);
      lock := true;
      Step(Work(true, false));
      NeverFull(m);
      BackSteps(m);
      output := Put(output, cap, outBuf);
      hide Put;
      Step(Work(true, false));
      BackSteps(m);
      lock := false;
      Step(Work(true, false));
    }

    /** Lines 447-463: bind, then pop the oldest input buffer, which cannot fail. */
    method PopInput(outBuf: nat) returns (inBuf: Job)
      requires Valid() && m.pc == Bind && m.wOut == [outBuf] && !lock
      modifies this
      ensures Valid() && m.pc == LockFrame && m.wOut == [outBuf] && m.wIn == [inBuf] && !lock
      ensures [inBuf] + inDone == old(inDone)
      ensures frame == old(frame) && output == old(output) && outDone == old(outDone) && input == old(input)
      ensures m.display == old(m.display)
      ensures m.submitted == old(m.submitted) && m.returned == old(m.returned)
    {
      hide Inv, Next, Enabled;
      PopsCannotFail(m);
      BindSteps(m);
      bound := bound + {outBuf};
      Step(Work(false, false));
      PopSteps(m);
      inBuf := inDone[0];
      inDone := inDone[1..];
      Step(Work(false, false));
    }

    /** Lines 465-472: take a vframe under the mutex, which cannot fail either. */
    method PopFrame() returns (vfOut: nat)
      requires Valid() && m.pc == LockFrame && !lock
      modifies this
      ensures Valid() && m.pc == Convert && m.wOut == old(m.wOut) && m.wIn == old(m.wIn) && m.wFrame == [vfOut] && !lock
      ensures [vfOut] + frame == old(frame)
      ensures inDone == old(inDone) && output == old(output) && outDone == old(outDone) && input == old(input)
      ensures m.display == old(m.display)
      ensures m.submitted == old(m.submitted) && m.returned == old(m.returned)
    {
      hide Inv, Next, Enabled;
      PopsCannotFail(m);
      FrameSteps(m);
      lock := true;
      Step(Work(false, false));
      FrameSteps(m);
      vfOut := frame[0];
      frame := frame[1..];
      Step(Work(false, false));
      FrameSteps(m);
      lock := false;
      Step(Work(false, false));
    }

    /** v4l_ge2d_fill_output_done; its submit pops out_done_q again and shows the frame. */
    method FillOutputDone(outBuf: Done)
      requires Valid() && m.pc == FillDone && m.wOut == [outBuf.buf] && m.wFrame == [outBuf.frame]
      requires |m.wIn| == 1 && m.wIn[0].src == outBuf.src
      modifies this
      ensures Valid() && m.pc == Recycle && m.wIn == old(m.wIn)
      ensures m.display == old(m.display) + [outBuf] && m.submitted == old(m.submitted) + [outBuf.src]
      ensures m.returned == old(m.returned) && input == old(input) && outDone == []
      ensures output == old(output) && inDone == old(inDone) && frame == old(frame) && lock == old(lock)
    {
      hide Inv, Next, Enabled;
      HeldOf(m);
      DoneSteps(m);
      outDone := Put(outDone, FRAME_SIZE, outBuf);
      hide Put;
      Step(Work(false, false));
      DoneSteps(m);
      outDone := outDone[1..];
      Step(Work(false, false));
    }

    /** v4l_ge2d_empty_input_done: the decoder's frame first, then the input buffer. */
    method EmptyInputDone(inBuf: Job)
      requires Valid() && m.pc == Recycle && m.wIn == [inBuf]
      modifies this
      ensures Valid() && m.pc == DownIn
      ensures input == old(input) + [inBuf.buf] && m.returned == old(m.returned) + [inBuf.src]
      ensures m.display == old(m.display) && m.submitted == old(m.submitted)
      ensures output == old(output) && inDone == old(inDone) && frame == old(frame) && outDone == old(outDone)
    {
      hide Inv, FetchNext, BindNext, PairNext, PushNext, ReturnNext, PushEnabled, ReturnEnabled;
      Step(Work(false, false));
      NeverFull(m);
      input := Put(input, FRAME_SIZE, inBuf.buf);
      Step(Work(false, false));
    }

    /** One pass of aml_v4l2_ge2d_thread without waiting: the oldest pushed frame is converted into
        the oldest free output buffer, shown, and returned to the decoder. */
    method ThreadPass()
      requires Valid() && m.pc == DownIn && semIn > 0 && output != [] && !lock
      modifies this
      ensures Valid() && m.pc == DownIn
      ensures old(inDone) != [] && old(frame) != []
      ensures var job := old(inDone)[0];
              && inDone == old(inDone)[1..] && output == old(output)[1..] && frame == old(frame)[1..]
              && m.display == old(m.display) + [Done(old(output)[0], old(frame)[0], job.src)]
              && m.submitted == old(m.submitted) + [job.src] && m.returned == old(m.returned) + [job.src]
              && input == old(input) + [job.buf]
    {
      hide Inv, Next, Enabled;
      DownSteps(m);
      semIn := semIn - 1;
      Step(Work(false, false));
      var outBuf := TakeOutput();
      var inBuf := PopInput(outBuf);
      var vfOut := PopFrame();
      DownSteps(m);
      Step(Work(false, false));
      FillOutputDone(Done(outBuf, vfOut, inBuf.src));
      EmptyInputDone(inBuf);
    }
  }

  /** Whoever is about to put finds room. */
  lemma NeverFull(s: State)
    requires Inv(s)
    ensures s.pusher != [] ==> |s.inDone| < FRAME_SIZE
    ensures s.section.Entered? ==> |s.frame| < s.cap
    ensures s.section.FrameBack? || s.wOut != [] ==> |s.output| < s.cap
    ensures s.wIn != [] ==> |s.input| < FRAME_SIZE
  {
    Sizes(s);
  }

  lemma PopsCannotFail(s: State)
    requires Inv(s)
    ensures (s.pc.Bind? || s.pc.PopIn?) ==> s.inDone != []
    ensures (s.pc.LockFrame? || s.pc.GetFrame?) ==> s.frame != []
  {
    Sizes(s);
  }

  lemma FetchSteps(s: State)
    requires (s.pc == Check && s.output != []) || (s.pc == LockGet && !s.lock) || (s.pc == GetOut && s.output != [])
             || s.pc == UnlockGet
    ensures Enabled(s, Work(false, false))
    ensures var t := Next(s, Work(false, false));
            && (s.pc == Check ==> t == s.(pc := LockGet))
            && (s.pc == LockGet ==> t == s.(lock := true, pc := GetOut))
            && (s.pc == GetOut ==> t == s.(wOut := [s.output[0]], output := s.output[1..], pc := UnlockGet))
            && (s.pc == UnlockGet ==> t == s.(lock := false, pc := Bind))
  {
  }

  lemma DoneSteps(s: State)
    requires (s.pc == FillDone && |s.wIn| == 1 && s.wOut != [] && s.wFrame != [] && s.outDone == [])
             || (s.pc == Submit && s.outDone != [])
    ensures Enabled(s, Work(false, false))
    ensures var t := Next(s, Work(false, false));
            && (s.pc == FillDone ==>
                  t == s.(outDone := [Done(s.wOut[0], s.wFrame[0], s.wIn[0].src)], wOut := [], wFrame := [],
                          pc := Submit))
            && (s.pc == Submit ==>
                  t == s.(display := s.display + [s.outDone[0]], outDone := s.outDone[1..],
                          submitted := s.submitted + [s.outDone[0].src], pc := Recycle))
  {
  }

  lemma BindSteps(s: State)
    requires s.pc == Bind && s.wOut != []
    ensures Enabled(s, Work(false, false))
    ensures Next(s, Work(false, false)) == s.(bound := s.bound + {s.wOut[0]}, pc := PopIn)
  {
  }

  lemma BackSteps(s: State)
    requires (s.pc == Bind && s.wOut != [] && s.wOut[0] !in s.bound) || (s.pc == LockBack && !s.lock)
             || (s.pc == PutBack && s.wOut != [] && |s.output| < s.cap) || s.pc == UnlockBack
    ensures Enabled(s, Work(true, false))
    ensures var t := Next(s, Work(true, false));
            && (s.pc == Bind ==> t == s.(pc := LockBack))
            && (s.pc == LockBack ==> t == s.(lock := true, pc := PutBack))
            && (s.pc == PutBack ==> t == s.(output := s.output + [s.wOut[0]], wOut := [], pc := UnlockBack))
            && (s.pc == UnlockBack ==> t == s.(lock := false, pc := Check))
  {
  }

  lemma ReturnSteps(s: State, i: nat)
    requires i < |s.display|
    ensures Enabled(s, Return(i))
    ensures Next(s, Return(i)) == s.(display := Without(s.display, i), called := s.called + [s.display[i]])
  {
  }

  lemma EnterSteps(s: State, i: nat)
    requires i < |s.called| && !s.lock && s.section == Nobody
    ensures Enabled(s, Enter(i))
    ensures Next(s, Enter(i)) == s.(called := Without(s.called, i), section := Entered(s.called[i]), lock := true)
  {
  }

  lemma LeaveSteps(s: State)
    requires s.section == BothBack
    ensures Enabled(s, Leave)
    ensures Next(s, Leave) == s.(lock := false, section := Nobody, pendingUps := s.pendingUps + 1)
  {
  }

  lemma UpSteps(s: State)
    requires s.pendingUps > 0
    ensures Enabled(s, Up) && Next(s, Up) == s.(semOut := s.semOut + 1, pendingUps := s.pendingUps - 1)
  {
  }

  lemma PopSteps(s: State)
    requires s.pc == PopIn && s.inDone != []
    ensures Enabled(s, Work(false, false))
    ensures Next(s, Work(false, false)) == s.(wIn := [s.inDone[0]], inDone := s.inDone[1..], pc := LockFrame)
  {
  }

  lemma FrameSteps(s: State)
    requires (s.pc == LockFrame && !s.lock) || (s.pc == GetFrame && s.frame != []) || s.pc == UnlockFrame
    ensures Enabled(s, Work(false, false))
    ensures var t := Next(s, Work(false, false));
            && (s.pc == LockFrame ==> t == s.(lock := true, pc := GetFrame))
            && (s.pc == GetFrame ==> t == s.(wFrame := [s.frame[0]], frame := s.frame[1..], pc := UnlockFrame))
            && (s.pc == UnlockFrame ==> t == s.(lock := false, pc := Convert))
  {
  }

  lemma DownSteps(s: State)
    requires (s.pc == DownIn && s.semIn > 0) || (s.pc == Convert && s.wIn != [] && s.wOut != [] && s.wFrame != [])
    ensures Enabled(s, Work(false, false))
    ensures var t := Next(s, Work(false, false));
            && (s.pc == DownIn ==> t == s.(semIn := s.semIn - 1, pc := Check))
            && (s.pc == Convert ==> t == s.(pc := FillDone))
  {
  }

  lemma HeldOf(s: State)
    requires Inv(s)
    ensures s.pc != Submit ==> s.outDone == []
  {
  }
}
