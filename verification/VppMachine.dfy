/** The VPP wrapper in its local-buffer mode as a state machine: one step per operation of the decoder's
    push, the worker thread, the deinterlacer's callbacks and the display's returns. */
module VppMachine {
  import opened Fifo

  const FRAME_SIZE: nat := 64

  /** An output buffer and the input buffer it was paired with (out_buf->inbuf). */
  datatype Pair = Pair(out: nat, inbuf: nat)

  /** The worker's next operation. */
  datatype Pc =
    | DownIn | Check | WaitOut | InputFull | OutputFull | GetOut | Bind | PutBack
    | PopIn | GetFrame | PutProcessing | Feed | CountIn | CountOut
    | NoOutput | NoInput | NoFrame

  /** Where the callback that answers one fed input stands. */
  datatype Callback =
    | Idle | Got(pair: Pair) | Filled(pair: Pair) | InputBack(pair: Pair) | Submitted(pair: Pair)
    | OutCounted(pair: Pair)

  /** ibuf and obuf are di_ibuf_num and di_obuf_num; frames is the length of the vframe fifo; bound are the output
      buffers with a capture buffer of their own, which interlaced frames need; fed counts
      the inputs the deinterlacer has not answered, diIn are those it has not given back; in0, in1,
      out0, out1 are in_num and out_num; dropped counts refused puts; handed, answered and pushed are the pairs
      given to the deinterlacer, those it answered, and the input buffers pushed, in order. */
  datatype State = State(
    n: nat, cap: nat, ibuf: nat, obuf: nat, prog: bool,
    input: seq<nat>, inDone: seq<nat>, output: seq<nat>, frames: nat, outDone: seq<Pair>,
    processing: seq<Pair>, semIn: nat, semOut: nat,
    pc: Pc, wIn: seq<nat>, wOut: seq<nat>, bound: set<nat>,
    pusher: seq<nat>, ups: nat,
    fed: nat, diIn: seq<nat>, callback: Callback,
    display: seq<Pair>, pendingUps: nat,
    in0: int, in1: int, out0: int, out1: int,
    dropped: nat, missed: nat, handed: seq<Pair>, answered: seq<Pair>, pushed: seq<nat>)

  /** retry: no capture buffer can be bound yet, should one be needed. */
  datatype Action =
    | PushGet | PushPut | PushUp
    | Work(retry: bool)
    | AnswerGet | AnswerNext | GiveBack(i: nat)
    | Return(i: nat) | Up

  /** aml_v4l2_vpp_init. */
  function Init(n: nat, cap: nat, ibuf: nat, obuf: nat, prog: bool): State {
    State(n, cap, ibuf, obuf, prog, Count(FRAME_SIZE), [], Count(n), n, [], [], 0, 0, DownIn, [], [], {},
          [], 0, 0, [], Idle, [], 0, 0, 0, 0, 0, 0, 0, [], [], [])
  }

  predicate InputIsFull(s: State) { s.in0 - s.in1 > s.ibuf }

  predicate OutputIsFull(s: State) { s.out0 - s.out1 > s.obuf }

  // ----- the decoder: aml_v4l2_vpp_push_vframe -----

  predicate PushEnabled(s: State, a: Action) {
    match a
    case PushGet => s.pusher == [] && s.ups == 0
    case PushPut => s.pusher != []
    case PushUp => s.ups > 0
    case _ => false
  }

  function PushNext(s: State, a: Action): State
    requires PushEnabled(s, a)
  {
    match a
    case PushGet =>
      if s.input == [] then s
      else s.(input := s.input[1..], pusher := [s.input[0]], pushed := s.pushed + [s.input[0]])
    case PushPut =>
      s.(inDone := Put(s.inDone, FRAME_SIZE, s.pusher[0]), dropped := s.dropped + Refused(s.inDone, FRAME_SIZE),
         pusher := [], ups := s.ups + 1)
    case PushUp => s.(semIn := s.semIn + 1, ups := s.ups - 1)
  }

  // ----- the worker: aml_v4l2_vpp_thread -----

  predicate WorkEnabled(s: State) {
    match s.pc
    case DownIn => s.semIn > 0
    case WaitOut => s.semOut > 0
    case NoOutput => false
    case NoInput => false
    case NoFrame => false
    case Bind => s.wOut != []
    case PutBack => s.wOut != []
    case PutProcessing => s.wIn != [] && s.wOut != []
    case Feed => s.wIn != []
    case _ => true
  }

  /** Waiting for work, then for the deinterlacer, then taking an output buffer. */
  function FetchNext(s: State, retry: bool): State
    requires WorkEnabled(s)
  {
    match s.pc
    case DownIn => s.(semIn := s.semIn - 1, pc := Check)
    case Check => s.(pc := if s.output == [] then WaitOut else InputFull)
    case WaitOut => s.(semOut := s.semOut - 1, pc := Check)
    case InputFull => s.(pc := if InputIsFull(s) then Check else OutputFull)
    case OutputFull => s.(pc := if OutputIsFull(s) then Check else GetOut)
    case GetOut =>
      if s.output == [] then s.(pc := NoOutput)
      else s.(wOut := [s.output[0]], output := s.output[1..], pc := Bind)
    case Bind =>
      if s.prog then s.(pc := PopIn)
      else if s.wOut[0] !in s.bound && retry then s.(pc := PutBack)
      else s.(bound := s.bound + {s.wOut[0]}, pc := PopIn)
    case PutBack =>
      s.(output := Put(s.output, s.cap, s.wOut[0]), dropped := s.dropped + Refused(s.output, s.cap),
         wOut := [], pc := Check)
    case _ => s
  }

  /** Pairing the buffers, handing them to the deinterlacer, then counting. */
  function HandNext(s: State): State
    requires WorkEnabled(s)
  {
    match s.pc
    case PopIn =>
      if s.inDone == [] then s.(pc := NoInput)
      else s.(wIn := [s.inDone[0]], inDone := s.inDone[1..], pc := GetFrame)
    case GetFrame =>
      if s.frames == 0 then s.(pc := NoFrame) else s.(frames := s.frames - 1, pc := PutProcessing)
    case PutProcessing =>
      var pair := Pair(s.wOut[0], s.wIn[0]);
      s.(processing := Put(s.processing, s.cap, pair), dropped := s.dropped + Refused(s.processing, s.cap),
         handed := s.handed + [pair], wOut := [], pc := Feed)
    case Feed => s.(fed := s.fed + 1, diIn := s.diIn + s.wIn, wIn := [], pc := CountIn)
    case CountIn => s.(in0 := s.in0 + 1, pc := CountOut)
    case CountOut => s.(out0 := s.out0 + 1, pc := DownIn)
    case _ => s
  }

  predicate Fetching(pc: Pc) {
    pc.DownIn? || pc.Check? || pc.WaitOut? || pc.InputFull? || pc.OutputFull? || pc.GetOut? || pc.Bind? || pc.PutBack?
  }

  function WorkNext(s: State, retry: bool): State
    requires WorkEnabled(s)
  {
    if Fetching(s.pc) then FetchNext(s, retry) else HandNext(s)
  }

  // ----- the deinterlacer -----

  /** Each fed input is answered at most once, one callback at a time, and given back at most once. */
  predicate DiEnabled(s: State, a: Action) {
    match a
    case AnswerGet => s.fed > 0 && s.callback == Idle
    case AnswerNext => s.callback != Idle
    case GiveBack(i) => i < |s.diIn|
    case _ => false
  }

  /** v4l_vpp_fill_output_done_alloc_buffer from its kfifo_put of out_done_q on. */
  function AnswerStep(s: State): State
    requires DiEnabled(s, AnswerNext)
  {
    match s.callback
    case Got(p) =>
      s.(outDone := Put(s.outDone, FRAME_SIZE, p), dropped := s.dropped + Refused(s.outDone, FRAME_SIZE),
         answered := s.answered + [p], callback := Filled(p))
    case Filled(p) =>
      if s.prog then
        s.(input := Put(s.input, FRAME_SIZE, p.inbuf), dropped := s.dropped + Refused(s.input, FRAME_SIZE),
           callback := InputBack(p))
      else s.(callback := InputBack(p))
    case InputBack(p) =>
      if s.outDone == [] then s.(callback := Submitted(p))
      else s.(display := s.display + [s.outDone[0]], outDone := s.outDone[1..], callback := Submitted(p))
    case Submitted(p) => s.(out1 := s.out1 + 1, callback := OutCounted(p))
    case OutCounted(_) => s.(in1 := s.in1 + 1, callback := Idle)
    case Idle => s
  }

  /** The two callbacks; missed counts answers that find nothing in processing. */
  function DiNext(s: State, a: Action): State
    requires DiEnabled(s, a)
  {
    match a
    case AnswerGet =>
      if s.processing == [] then s.(fed := s.fed - 1, missed := s.missed + 1)
      else s.(fed := s.fed - 1, processing := s.processing[1..], callback := Got(s.processing[0]))
    case AnswerNext => AnswerStep(s)
    case GiveBack(i) =>
      if s.prog then s.(diIn := Without(s.diIn, i))
      else
        s.(diIn := Without(s.diIn, i), input := Put(s.input, FRAME_SIZE, s.diIn[i]),
           dropped := s.dropped + Refused(s.input, FRAME_SIZE))
  }

  // ----- the display: vpp_vf_put -----

  predicate ReturnEnabled(s: State, a: Action) {
    match a
    case Return(i) => i < |s.display|
    case Up => s.pendingUps > 0
    case _ => false
  }

  function ReturnNext(s: State, a: Action): State
    requires ReturnEnabled(s, a)
  {
    match a
    case Return(i) =>
      s.(display := Without(s.display, i), output := Put(s.output, s.cap, s.display[i].out),
         frames := if s.frames < s.cap then s.frames + 1 else s.frames,
         dropped := s.dropped + Refused(s.output, s.cap) + (if s.frames < s.cap then 0 else 1),
         pendingUps := s.pendingUps + 1)
    case Up => s.(semOut := s.semOut + 1, pendingUps := s.pendingUps - 1)
  }

  // ----- runs -----

  predicate Enabled(s: State, a: Action) {
    PushEnabled(s, a) || (a.Work? && WorkEnabled(s)) || DiEnabled(s, a) || ReturnEnabled(s, a)
  }

  function Next(s: State, a: Action): State
    requires Enabled(s, a)
  {
    match a
    case PushGet => PushNext(s, a)
    case PushPut => PushNext(s, a)
    case PushUp => PushNext(s, a)
    case Work(retry) => WorkNext(s, retry)
    case AnswerGet => DiNext(s, a)
    case AnswerNext => DiNext(s, a)
    case GiveBack(_) => DiNext(s, a)
    case _ => ReturnNext(s, a)
  }

  /** s can be reached from s0 by the interleaving acts. */
  predicate Run(s0: State, acts: seq<Action>, s: State)
    decreases |acts|
  {
    if acts == [] then s == s0
    else Enabled(s0, acts[0]) && Run(Next(s0, acts[0]), acts[1..], s)
  }
}
