/** A direct admin session as a state machine over its tasks' steps: the reader, the session loop,
    the dispatch task, the writer, and the teardown that ties their ends together. */
module Session {
  import opened Wrappers
  import opened Utf8
  import opened Framing

  const FILE_CHANNEL_DEPTH := 4

  /** An inbound work item for the dispatch task. */
  datatype Work = Command(bytes: Bytes) | TextCommand(text: string)

  /** What the reader task puts on the session's queue. */
  datatype Item = Got(frame: Inbound) | Ended(end: Ending)

  datatype Phase = Serving | Draining | Closing

  datatype WriterState = Writing | Broken | Closed

  datatype Source = Ctrl | File

  /** A frame the writer chose; `seen` control frames had been accepted by then. */
  datatype Taken = Taken(from: Source, frame: Outbound, seen: nat)

  datatype State = State(
    input: Bytes,
    reading: bool,
    inbound: seq<Item>,
    phase: Phase,
    shutdown: bool,
    work: seq<Work>,
    busy: bool,
    ctrl: seq<Outbound>,
    file: seq<Outbound>,
    writer: WriterState,
    wire: Bytes,
    // What happened so far.
    received: seq<Inbound>,
    ended: Option<Ending>,
    begun: seq<Work>,
    ctrlSent: seq<Outbound>,
    fileSent: seq<Outbound>,
    taken: seq<Taken>,
    partial: Bytes)

  /** Which binary frames are commands: input events and frames that decode as nothing are not. */
  datatype Peer = Peer(isCommand: Bytes -> bool)

  function WorkOf(peer: Peer, frame: Inbound): seq<Work> {
    match frame
    case InBinary(b) => if peer.isCommand(b) then [Command(b)] else []
    case InText(t) => [TextCommand(t)]
    case InPing(_) => []
    case InShapeFp(_) => []
  }

  function WorksOf(peer: Peer, frames: seq<Inbound>): seq<Work> {
    if frames == [] then []
    else WorksOf(peer, frames[..|frames| - 1]) + WorkOf(peer, frames[|frames| - 1])
  }

  function Start(input: Bytes, fingerprint: Bytes): State {
    var hello := [ShapeFp(fingerprint)];
    State(input, true, [], Serving, false, [], false, hello, [], Writing, [], [], None, [], hello, [], [], [])
  }

  // ----- Steps -----

  datatype Step =
    | Read
    | Handle
    | Forward(bytes: Bytes)
    | SignalShutdown
    | BreakOff
    | Begin
    | EmitCtrl(c: Outbound)
    | EmitFile(f: Outbound)
    | Finish
    | DispatchEnds
    | AbortDispatch
    | Write
    | WriteFails(written: nat)
    | CloseStream

  /** The writer's biased choice: the file queue is looked at only when the control queue is empty. */
  function Chosen(s: State): Option<(Source, Outbound)> {
    if s.ctrl != [] then Some((Ctrl, s.ctrl[0]))
    else if s.file != [] then Some((File, s.file[0]))
    else None
  }

  predicate Enabled(s: State, step: Step) {
    match step
    case Read => s.reading
    case Handle => s.phase == Serving && !s.shutdown && s.inbound != []
    case Forward(_) => s.phase == Serving && !s.shutdown
    case SignalShutdown => true
    case BreakOff => s.phase == Serving && s.shutdown
    case Begin => s.phase != Closing && !s.busy && s.work != []
    case EmitCtrl(_) => s.phase != Closing && s.busy
    case EmitFile(_) => s.phase != Closing && s.busy && (s.writer == Writing ==> |s.file| < FILE_CHANNEL_DEPTH)
    case Finish => s.phase != Closing && s.busy
    case DispatchEnds => s.phase == Draining && !s.busy && s.work == []
    case AbortDispatch => s.phase == Draining && s.shutdown
    case Write => s.writer == Writing && Chosen(s).Some?
    case WriteFails(n) =>
      && s.writer == Writing && Chosen(s).Some?
      && var raw := Raw(Chosen(s).value.1);
      FitsCap(raw) && n < |EncodeFrame(raw)|
    case CloseStream => s.writer == Writing && s.phase == Closing && s.ctrl == [] && s.file == []
  }

  /** A send on the control queue; once the writer is gone it goes nowhere. */
  function SendCtrl(s: State, f: Outbound): State {
    if s.writer == Writing then s.(ctrl := s.ctrl + [f], ctrlSent := s.ctrlSent + [f]) else s
  }

  function SendFile(s: State, f: Outbound): State {
    if s.writer == Writing then s.(file := s.file + [f], fileSent := s.fileSent + [f]) else s
  }

  function Take(s: State): State
    requires Chosen(s).Some?
  {
    var (from, frame) := Chosen(s).value;
    var t := s.(taken := s.taken + [Taken(from, frame, |s.ctrlSent|)]);
    if from == Ctrl then t.(ctrl := s.ctrl[1..]) else t.(file := s.file[1..])
  }

  /** The session loop ends: the reader task is aborted and no more work is accepted. */
  function EndLoop(s: State, end: Option<Ending>): State {
    s.(phase := Draining, reading := false, ended := end)
  }

  function HandleItem(peer: Peer, s: State, item: Item): State {
    match item
    case Ended(end) => EndLoop(s, Some(end))
    case Got(frame) =>
      var t := s.(received := s.received + [frame], work := s.work + WorkOf(peer, frame));
      if frame.InPing? then SendCtrl(t, Pong(frame.b)) else t
  }

  function ReadItem(s: State): State {
    match ReadFrame(s.input)
    case Frame(f, rest) => s.(input := rest, inbound := s.inbound + [Got(f)])
    case Eof => s.(reading := false, inbound := s.inbound + [Ended(CleanEnd)])
    case Failed(why) => s.(reading := false, inbound := s.inbound + [Ended(ErrorEnd(why))])
  }

  function Apply(peer: Peer, s: State, step: Step): State
    requires Enabled(s, step)
  {
    match step
    case Read => ReadItem(s)
    case Handle => HandleItem(peer, s.(inbound := s.inbound[1..]), s.inbound[0])
    case Forward(b) => SendCtrl(s, Binary(b))
    case SignalShutdown => s.(shutdown := true)
    case BreakOff => EndLoop(s, None)
    case Begin => s.(work := s.work[1..], busy := true, begun := s.begun + [s.work[0]])
    case EmitCtrl(f) => SendCtrl(s, f)
    case EmitFile(f) => SendFile(s, f)
    case Finish => s.(busy := false)
    case DispatchEnds => s.(phase := Closing)
    case AbortDispatch => s.(phase := Closing, busy := false, work := [])
    case Write =>
      var raw := Raw(Chosen(s).value.1);
      if FitsCap(raw) then Take(s).(wire := s.wire + EncodeFrame(raw)) else Take(s)
    case WriteFails(n) =>
      var bytes := EncodeFrame(Raw(Chosen(s).value.1));
      Take(s).(writer := Broken, wire := s.wire + bytes[..n], partial := bytes[..n])
    case CloseStream => s.(writer := Closed)
  }

  /** Every step of a run is enabled when it is taken. */
  ghost predicate CanRun(peer: Peer, s: State, steps: seq<Step>)
    decreases |steps|
  {
    steps != [] ==> Enabled(s, steps[0]) && CanRun(peer, Apply(peer, s, steps[0]), steps[1..])
  }

  function Run(peer: Peer, s: State, steps: seq<Step>): State
    requires CanRun(peer, s, steps)
    decreases |steps|
  {
    if steps == [] then s else Run(peer, Apply(peer, s, steps[0]), steps[1..])
  }

  // ----- What every step keeps -----

  /** The frames taken from one queue, in the order taken. */
  function From(taken: seq<Taken>, q: Source): seq<Outbound> {
    if taken == [] then []
    else
      var last := taken[|taken| - 1];
      From(taken[..|taken| - 1], q) + if last.from == q then [last.frame] else []
  }

  /** The frames that were written whole. */
  function Fitting(taken: seq<Taken>): seq<RawFrame> {
    if taken == [] then []
    else
      var last := Raw(taken[|taken| - 1].frame);
      Fitting(taken[..|taken| - 1]) + if FitsCap(last) then [last] else []
  }

  lemma FittingFits(taken: seq<Taken>)
    ensures AllFit(Fitting(taken))
  {
  }

  /** What the reader has yet to hand over: queued items, then what is unread. */
  function Pending(inbound: seq<Item>, reading: bool, input: Bytes): (seq<Inbound>, Option<Ending>)
    decreases |inbound|
  {
    if inbound == [] then
      if reading then (ReadAll(input).0, Some(ReadAll(input).1)) else ([], None)
    else
      match inbound[0]
      case Ended(end) => ([], Some(end))
      case Got(f) =>
        var (more, end) := Pending(inbound[1..], reading, input);
        ([f] + more, end)
  }

  /** Each file frame was chosen after every control frame accepted by then. */
  ghost predicate CtrlFirst(taken: seq<Taken>, ctrlSent: seq<Outbound>) {
    forall i :: 0 <= i < |taken| && taken[i].from == File ==>
      taken[i].seen <= |ctrlSent| && From(taken[..i], Ctrl) == ctrlSent[..taken[i].seen]
  }

  ghost predicate QueuesAgree(s: State) {
    && s.ctrlSent == From(s.taken, Ctrl) + s.ctrl
    && s.fileSent == From(s.taken, File) + s.file
    && CtrlFirst(s.taken, s.ctrlSent)
    && |s.file| <= FILE_CHANNEL_DEPTH
  }

  /** The shape fingerprint was accepted before anything else, and before anything was chosen. */
  ghost predicate Greeted(fingerprint: Bytes, s: State) {
    && s.ctrlSent != [] && s.ctrlSent[0] == ShapeFp(fingerprint)
    && forall i :: 0 <= i < |s.taken| ==> s.taken[i].seen > 0
  }

  /** A broken wire ends inside the frame chosen last. */
  ghost predicate BreaksInside(taken: seq<Taken>, wire: Bytes, partial: Bytes) {
    && taken != []
    && var last := Raw(taken[|taken| - 1].frame);
    var whole := Fitting(taken[..|taken| - 1]);
    && AllFit(whole) && FitsCap(last)
    && partial < EncodeFrame(last)
    && wire == Wire(whole) + partial
  }

  ghost predicate WireHolds(taken: seq<Taken>, broken: bool, wire: Bytes, partial: Bytes) {
    AllFit(Fitting(taken)) &&
    if broken then BreaksInside(taken, wire, partial) else wire == Wire(Fitting(taken))
  }

  ghost predicate WireAgrees(s: State) { WireHolds(s.taken, s.writer == Broken, s.wire, s.partial) }

  ghost predicate WorkAgrees(peer: Peer, s: State) {
    if s.phase == Closing && s.shutdown then s.begun <= WorksOf(peer, s.received)
    else WorksOf(peer, s.received) == s.begun + s.work
  }

  /** What was received and what is still to come is what the stream holds. */
  ghost predicate InputAgrees(whole: Bytes, s: State) {
    if s.phase == Serving then
      var (more, end) := Pending(s.inbound, s.reading, s.input);
      ReadAll(whole).0 == s.received + more && end == Some(ReadAll(whole).1)
    else
      && s.received <= ReadAll(whole).0
      && (s.ended.Some? ==> s.received == ReadAll(whole).0 && s.ended == Some(ReadAll(whole).1))
      && (s.ended.None? ==> s.shutdown)
  }

  ghost predicate Teardown(s: State) {
    && (s.phase != Serving ==> !s.reading)
    && (s.phase == Closing ==> !s.busy && s.work == [])
    && (s.writer == Closed ==> s.phase == Closing && s.ctrl == [] && s.file == [])
  }

  ghost predicate Inv(peer: Peer, whole: Bytes, fingerprint: Bytes, s: State) {
    && QueuesAgree(s) && Greeted(fingerprint, s) && WireAgrees(s)
    && WorkAgrees(peer, s) && InputAgrees(whole, s) && Teardown(s)
  }
}
