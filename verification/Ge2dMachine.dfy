/** The GE2D wrapper as a state machine: one step per queue, semaphore or mutex operation of
    the decoder's push, the worker thread and the display's recycling threads. */
module Ge2dMachine {
  import opened Fifo

  const FRAME_SIZE: nat := 64

  /** An input buffer carrying a decoder frame (in_buf->vf). */
  datatype Job = Job(buf: nat, src: int)

  /** An output buffer with its vframe, filled from decoder frame src (out_buf->vf). */
  datatype Done = Done(buf: nat, frame: nat, src: int)

  /** Where the recycling thread inside the output_lock section stands. */
  datatype Section = Nobody | Entered(job: Done) | FrameBack(buf: nat) | BothBack

  /** The worker's next operation. */
  datatype Pc =
    | DownIn | Check | WaitOut | LockGet | GetOut | UnlockGet | Bind | LockBack | PutBack | UnlockBack
    | PopIn | LockFrame | GetFrame | UnlockFrame | Convert | FillDone | Submit | Recycle | PutInput
    | NoOutput | NoInput | NoFrame | HardwareError

  /** cap is the rounded-up size of the output and frame fifos; dropped counts refused puts. */
  datatype State = State(
    n: nat, cap: nat,
    input: seq<nat>, inDone: seq<Job>, output: seq<nat>, frame: seq<nat>, outDone: seq<Done>,
    semIn: nat, semOut: nat, lock: bool,
    pc: Pc, wIn: seq<Job>, wOut: seq<nat>, wFrame: seq<nat>, bound: set<nat>,
    pusher: seq<Job>, ups: nat,
    display: seq<Done>, called: seq<Done>, section: Section, pendingUps: nat,
    dropped: nat,
    pushed: seq<int>, submitted: seq<int>, returned: seq<int>)

  /** What the environment decides: the frames pushed, the retries of an unbound buffer, hardware
      failures, which buffer the display returns and which returning thread gets the mutex. */
  datatype Action =
    | PushGet(src: int) | PushPut | PushUp
    | Work(retry: bool, hwError: bool)
    | Return(i: nat) | Enter(i: nat) | Leave | Up

  /** aml_v4l2_ge2d_init: all buffers free, both semaphores at 0. */
  function Init(n: nat, cap: nat): State {
    State(n, cap, Count(FRAME_SIZE), [], Count(n), Count(n), [],
          0, 0, false, DownIn, [], [], [], {}, [], 0, [], [], Nobody, 0, 0, [], [], [])
  }

  // ----- the decoder: aml_v4l2_ge2d_push_vframe -----

  predicate PushEnabled(s: State, a: Action) {
    match a
    case PushGet(_) => s.pusher == [] && s.ups == 0
    case PushPut => s.pusher != []
    case PushUp => s.ups > 0
    case _ => false
  }

  function PushNext(s: State, a: Action): State
    requires PushEnabled(s, a)
  {
    match a
    case PushGet(src) =>
      if s.input == [] then s
      else s.(input := s.input[1..], pusher := [Job(s.input[0], src)], pushed := s.pushed + [src])
    case PushPut =>
      s.(inDone := Put(s.inDone, FRAME_SIZE, s.pusher[0]), dropped := s.dropped + Refused(s.inDone, FRAME_SIZE),
         pusher := s.pusher[1..], ups := s.ups + 1)
    case PushUp => s.(semIn := s.semIn + 1, ups := s.ups - 1)
  }

  // ----- the worker: aml_v4l2_ge2d_thread -----

  predicate WorkEnabled(s: State) {
    match s.pc
    case DownIn => s.semIn > 0
    case WaitOut => s.semOut > 0
    case LockGet => !s.lock
    case LockBack => !s.lock
    case LockFrame => !s.lock
    case NoOutput => false
    case NoInput => false
    case NoFrame => false
    case HardwareError => false
    case Bind => s.wOut != []
    case PutBack => s.wOut != []
    case Convert => s.wIn != [] && s.wOut != [] && s.wFrame != []
    case FillDone => s.wIn != [] && s.wOut != [] && s.wFrame != []
    case Submit => s.outDone != []
    case Recycle => s.wIn != []
    case PutInput => s.wIn != []
    case _ => true
  }

  /** Waiting for work, then taking an output buffer. */
  function FetchNext(s: State): State
    requires WorkEnabled(s)
  {
    match s.pc
    case DownIn => s.(semIn := s.semIn - 1, pc := Check)
    case Check => s.(pc := if s.output == [] then WaitOut else LockGet)
    case WaitOut => s.(semOut := s.semOut - 1, pc := Check)
    case LockGet => s.(lock := true, pc := GetOut)
    case GetOut =>
      if s.output == [] then s.(lock := false, pc := NoOutput)
      else s.(wOut := [s.output[0]], output := s.output[1..], pc := UnlockGet)
    case UnlockGet => s.(lock := false, pc := Bind)
    case _ => s
  }

  /** Binding a capture buffer, or putting the output buffer back and trying again. */
  function BindNext(s: State, retry: bool): State
    requires WorkEnabled(s)
  {
    match s.pc
    case Bind =>
      if s.wOut[0] !in s.bound && retry then s.(pc := LockBack)
      else s.(bound := s.bound + {s.wOut[0]}, pc := PopIn)
    case LockBack => s.(lock := true, pc := PutBack)
    case PutBack =>
      s.(output := Put(s.output, s.cap, s.wOut[0]), dropped := s.dropped + Refused(s.output, s.cap),
         wOut := [], pc := UnlockBack)
    case UnlockBack => s.(lock := false, pc := Check)
    case _ => s
  }

  /** Pairing the output buffer with an input buffer and a vframe. */
  function PairNext(s: State, hwError: bool): State
    requires WorkEnabled(s)
  {
    match s.pc
    case PopIn =>
      if s.inDone == [] then s.(pc := NoInput)
      else s.(wIn := [s.inDone[0]], inDone := s.inDone[1..], pc := LockFrame)
    case LockFrame => s.(lock := true, pc := GetFrame)
    case GetFrame =>
      if s.frame == [] then s.(lock := false, pc := NoFrame)
      else s.(wFrame := [s.frame[0]], frame := s.frame[1..], pc := UnlockFrame)
    case UnlockFrame => s.(lock := false, pc := Convert)
    case Convert => s.(pc := if hwError then HardwareError else FillDone)
    case _ => s
  }

  /** v4l_ge2d_fill_output_done and v4l_ge2d_empty_input_done. */
  function FinishNext(s: State): State
    requires WorkEnabled(s)
  {
    match s.pc
    case FillDone =>
      s.(outDone := Put(s.outDone, FRAME_SIZE, Done(s.wOut[0], s.wFrame[0], s.wIn[0].src)),
         dropped := s.dropped + Refused(s.outDone, FRAME_SIZE), wOut := [], wFrame := [], pc := Submit)
    case Submit =>
      s.(display := s.display + [s.outDone[0]], outDone := s.outDone[1..],
         submitted := s.submitted + [s.outDone[0].src], pc := Recycle)
    case Recycle => s.(returned := s.returned + [s.wIn[0].src], pc := PutInput)
    case PutInput =>
      s.(input := Put(s.input, FRAME_SIZE, s.wIn[0].buf), dropped := s.dropped + Refused(s.input, FRAME_SIZE),
         wIn := [], pc := DownIn)
    case _ => s
  }

  predicate Fetching(pc: Pc) {
    pc.DownIn? || pc.Check? || pc.WaitOut? || pc.LockGet? || pc.GetOut? || pc.UnlockGet?
  }

  predicate Binding(pc: Pc) { pc.Bind? || pc.LockBack? || pc.PutBack? || pc.UnlockBack? }

  predicate Pairing(pc: Pc) { pc.PopIn? || pc.LockFrame? || pc.GetFrame? || pc.UnlockFrame? || pc.Convert? }

  function WorkNext(s: State, retry: bool, hwError: bool): State
    requires WorkEnabled(s)
  {
    if Fetching(s.pc) then FetchNext(s)
    else if Binding(s.pc) then BindNext(s, retry)
    else if Pairing(s.pc) then PairNext(s, hwError)
    else FinishNext(s)
  }

  // ----- the display: ge2d_vf_put, called by any number of threads -----

  predicate ReturnEnabled(s: State, a: Action) {
    match a
    case Return(i) => i < |s.display|
    case Enter(i) => i < |s.called| && !s.lock && s.section == Nobody
    case Leave => s.section != Nobody
    case Up => s.pendingUps > 0
    case _ => false
  }

  function ReturnNext(s: State, a: Action): State
    requires ReturnEnabled(s, a)
  {
    match a
    case Return(i) => s.(display := Without(s.display, i), called := s.called + [s.display[i]])
    case Enter(i) => s.(called := Without(s.called, i), section := Entered(s.called[i]), lock := true)
    case Leave =>
      (match s.section
       case Entered(d) =>
         s.(frame := Put(s.frame, s.cap, d.frame), dropped := s.dropped + Refused(s.frame, s.cap),
            section := FrameBack(d.buf))
       case FrameBack(b) =>
         s.(output := Put(s.output, s.cap, b), dropped := s.dropped + Refused(s.output, s.cap), section := BothBack)
       case BothBack => s.(lock := false, section := Nobody, pendingUps := s.pendingUps + 1)
       case Nobody => s)
    case Up => s.(semOut := s.semOut + 1, pendingUps := s.pendingUps - 1)
  }

  // ----- runs -----

  predicate Enabled(s: State, a: Action) {
    PushEnabled(s, a) || (a.Work? && WorkEnabled(s)) || ReturnEnabled(s, a)
  }

  function Next(s: State, a: Action): State
    requires Enabled(s, a)
  {
    match a
    case PushGet(_) => PushNext(s, a)
    case PushPut => PushNext(s, a)
    case PushUp => PushNext(s, a)
    case Work(retry, hwError) => WorkNext(s, retry, hwError)
    case _ => ReturnNext(s, a)
  }

  /** s can be reached from the initial state by any interleaving of the actors. */
  predicate Run(s0: State, acts: seq<Action>, s: State)
    decreases |acts|
  {
    if acts == [] then s == s0
    else Enabled(s0, acts[0]) && Run(Next(s0, acts[0]), acts[1..], s)
  }
}
