/** What a session makes of each frame it receives: the pings it answers and the commands it runs. */
module SessionReplies {
  import opened Sequences
  import opened Utf8
  import opened Framing
  import opened Session
  import opened SessionRuns

  // ----- Pings and pongs -----

  /** The payloads of the pings among `frames`, in order. */
  function PingsOf(frames: seq<Inbound>): seq<Bytes> {
    if frames == [] then []
    else
      var last := frames[|frames| - 1];
      PingsOf(frames[..|frames| - 1]) + if last.InPing? then [last.b] else []
  }

  /** The payloads of the pongs among `frames`, in order. */
  function PongsOf(frames: seq<Outbound>): seq<Bytes> {
    if frames == [] then []
    else
      var last := frames[|frames| - 1];
      PongsOf(frames[..|frames| - 1]) + if last.Pong? then [last.b] else []
  }

  /** The payloads of the frames with the pong's tag, in order. */
  function PongPayloads(frames: seq<RawFrame>): seq<Bytes> {
    if frames == [] then []
    else
      var last := frames[|frames| - 1];
      PongPayloads(frames[..|frames| - 1]) + if last.tag == 0x04 then [last.payload] else []
  }

  /** The payloads that fit into a frame with their tag. */
  function Small(payloads: seq<Bytes>): seq<Bytes> {
    if payloads == [] then []
    else
      var last := payloads[|payloads| - 1];
      Small(payloads[..|payloads| - 1]) + if |last| < 67_108_864 then [last] else []
  }

  lemma PongsSnoc(frames: seq<Outbound>, f: Outbound)
    ensures PongsOf(frames + [f]) == PongsOf(frames) + if f.Pong? then [f.b] else []
  {
    assert (frames + [f])[..|frames|] == frames;
  }

  lemma PingsSnoc(frames: seq<Inbound>, f: Inbound)
    ensures PingsOf(frames + [f]) == PingsOf(frames) + if f.InPing? then [f.b] else []
  {
    assert (frames + [f])[..|frames|] == frames;
  }

  lemma PongPayloadsSnoc(frames: seq<RawFrame>, f: RawFrame)
    ensures PongPayloads(frames + [f]) == PongPayloads(frames) + if f.tag == 0x04 then [f.payload] else []
  {
    assert (frames + [f])[..|frames|] == frames;
  }

  lemma SmallSnoc(payloads: seq<Bytes>, b: Bytes)
    ensures Small(payloads + [b]) == Small(payloads) + if |b| < 67_108_864 then [b] else []
  {
    assert (payloads + [b])[..|payloads|] == payloads;
  }

  /** The handlers send no pongs of their own. */
  predicate Answers(step: Step) { !(step.EmitCtrl? && step.c.Pong?) && !(step.EmitFile? && step.f.Pong?) }

  /** Every ping handled while the writer was alive has its pong among the accepted frames, in order, and no
      other pong is there. */
  ghost predicate Answered(s: State) {
    && PongsOf(s.fileSent) == []
    && PongsOf(s.ctrlSent) <= PingsOf(s.received)
    && (s.writer != Broken ==> PongsOf(s.ctrlSent) == PingsOf(s.received))
  }

  lemma {:induction false} SameAnswers(s: State, t: State)
    requires Answered(s) && t.fileSent == s.fileSent && t.ctrlSent == s.ctrlSent && t.received == s.received
    requires t.writer != Broken ==> s.writer != Broken
    ensures Answered(t)
  {
  }

  lemma {:induction false} SendAnswers(s: State, f: Outbound)
    requires Answered(s) && !f.Pong?
    ensures Answered(SendCtrl(s, f)) && Answered(SendFile(s, f))
  {
    PongsSnoc(s.ctrlSent, f);
    PongsSnoc(s.fileSent, f);
    assert PongsOf(s.ctrlSent) + [] == PongsOf(s.ctrlSent) && PongsOf(s.fileSent) + [] == PongsOf(s.fileSent);
  }

  /** What handling a received frame does to what was sent and received. */
  lemma {:induction false} HandledFrame(peer: Peer, s: State, f: Inbound)
    requires Enabled(s, Handle) && s.inbound[0] == Got(f)
    ensures var t := Apply(peer, s, Handle);
      && t.received == s.received + [f] && t.writer == s.writer && t.fileSent == s.fileSent
      && t.ctrlSent == s.ctrlSent + if f.InPing? && s.writer == Writing then [Pong(f.b)] else []
  {
    assert s.ctrlSent + [] == s.ctrlSent;
  }

  lemma {:induction false} AnsweredIs(t: State, sent: seq<Outbound>, received: seq<Inbound>, f: Inbound, writing: bool)
    requires PongsOf(t.fileSent) == [] && PongsOf(sent) <= PingsOf(received)
    requires writing ==> PongsOf(sent) == PingsOf(received)
    requires t.received == received + [f] && t.ctrlSent == sent + if f.InPing? && writing then [Pong(f.b)] else []
    requires t.writer != Broken ==> writing
    ensures Answered(t)
  {
    PingsSnoc(received, f);
    assert sent + [] == sent && PingsOf(received) + [] == PingsOf(received);
    if f.InPing? {
      PongsSnoc(sent, Pong(f.b));
    }
  }

  lemma {:induction false} HandleAnswers(peer: Peer, s: State)
    requires Answered(s) && Teardown(s) && Enabled(s, Handle)
    ensures Answered(Apply(peer, s, Handle))
  {
    var t := Apply(peer, s, Handle);
    match s.inbound[0]
    case Ended(_) => SameAnswers(s, t);
    case Got(f) =>
      HandledFrame(peer, s, f);
      AnsweredIs(t, s.ctrlSent, s.received, f, s.writer == Writing);
  }

  lemma {:induction false} QuietWrite(peer: Peer, s: State, step: Step)
    requires Enabled(s, step) && (step.Write? || step.WriteFails?)
    ensures var t := Apply(peer, s, step);
      t.ctrlSent == s.ctrlSent && t.fileSent == s.fileSent && t.received == s.received && s.writer != Broken
  {
  }

  lemma {:induction false} QuietStep(peer: Peer, s: State, step: Step)
    requires Enabled(s, step) && !Sends(step)
    ensures var t := Apply(peer, s, step);
      && t.ctrlSent == s.ctrlSent && t.fileSent == s.fileSent && t.received == s.received
      && (t.writer != Broken ==> s.writer != Broken)
  {
    if step.Write? || step.WriteFails? {
      QuietWrite(peer, s, step);
    } else {
      SameQueues(peer, s, step);
    }
  }

  lemma {:induction false} StepAnswers(peer: Peer, s: State, step: Step)
    requires Answered(s) && Teardown(s) && Enabled(s, step) && Answers(step)
    ensures Answered(Apply(peer, s, step))
  {
    match step
    case Handle => HandleAnswers(peer, s);
    case Forward(b) => SendAnswers(s, Binary(b));
    case EmitCtrl(f) => SendAnswers(s, f);
    case EmitFile(f) => SendAnswers(s, f);
    case _ =>
      QuietStep(peer, s, step);
      SameAnswers(s, Apply(peer, s, step));
  }

  lemma {:induction false} RunAnswers(peer: Peer, s: State, steps: seq<Step>)
    requires Answered(s) && Teardown(s) && CanRun(peer, s, steps) && forall step :: step in steps ==> Answers(step)
    ensures Answered(Run(peer, s, steps))
    decreases |steps|
  {
    if steps != [] {
      StepAnswers(peer, s, steps[0]);
      StepKeepsTeardown(peer, s, steps[0]);
      RunAnswers(peer, Apply(peer, s, steps[0]), steps[1..]);
    }
  }

  /** In every interleaving, while no write has failed, the pongs accepted for the wire answer exactly the pings
      received, in order and with their payloads; after a failed write they answer the first of them. */
  lemma {:induction false} PingsAreAnswered(
    peer: Peer, input: Bytes, fingerprint: Bytes, steps: seq<Step>, s: State)
    requires IsRun(peer, input, fingerprint, steps, s) && forall step :: step in steps ==> Answers(step)
    ensures s.writer != Broken ==> PongsOf(s.ctrlSent) == PingsOf(s.received)
    ensures PongsOf(s.ctrlSent) <= PingsOf(s.received) && PongsOf(s.fileSent) == []
  {
    var start := Start(input, fingerprint);
    assert start.ctrlSent[..0] == [] && PongsOf([]) == [];
    RunAnswers(peer, start, steps);
  }

  /** The pongs among the frames written whole are those of the control queue that fit. */
  lemma {:induction false} WrittenPongs(taken: seq<Taken>)
    requires PongsOf(From(taken, File)) == []
    ensures PongPayloads(Fitting(taken)) == Small(PongsOf(From(taken, Ctrl)))
    decreases |taken|
  {
    if taken != [] {
      var n := |taken| - 1;
      var front, last := taken[..n], taken[n];
      assert taken == front + [last];
      FromSnoc(front, last, Ctrl);
      FromSnoc(front, last, File);
      FittingSnoc(front, last);
      WrittenFileFrame(front, last);
      WrittenPongs(front);
      OneWrittenPong(Fitting(front), PongsOf(From(front, Ctrl)), last.frame);
      if last.from == Ctrl {
        PongsSnoc(From(front, Ctrl), last.frame);
      }
    }
  }

  lemma {:induction false} WrittenFileFrame(front: seq<Taken>, last: Taken)
    requires PongsOf(From(front, File) + if last.from == File then [last.frame] else []) == []
    ensures PongsOf(From(front, File)) == []
    ensures last.from == File ==>
      !last.frame.Pong? && From(front, Ctrl) + [] == From(front, Ctrl)
      && PongsOf(From(front, Ctrl)) + [] == PongsOf(From(front, Ctrl))
  {
    assert From(front, File) + [] == From(front, File);
    if last.from == File {
      PongsSnoc(From(front, File), last.frame);
    }
  }

  lemma {:induction false} OneWrittenPong(written: seq<RawFrame>, pongs: seq<Bytes>, f: Outbound)
    requires PongPayloads(written) == Small(pongs)
    ensures PongPayloads(written + if FitsCap(Raw(f)) then [Raw(f)] else [])
      == Small(pongs + if f.Pong? then [f.b] else [])
  {
    PongPayloadsSnoc(written, Raw(f));
    assert written + [] == written && pongs + [] == pongs;
    if f.Pong? {
      SmallSnoc(pongs, f.b);
    }
    assert Small(pongs) + [] == Small(pongs);
  }

  /** At a clean end the pongs on the wire are exactly those of the input's pings that fit into a frame. */
  lemma {:induction false} CleanEndAnswersEveryPing(
    peer: Peer, input: Bytes, fingerprint: Bytes, steps: seq<Step>, s: State)
    requires IsRun(peer, input, fingerprint, steps, s) && forall step :: step in steps ==> Answers(step)
    requires s.writer == Closed && !s.shutdown
    ensures AllFit(Fitting(s.taken)) && s.wire == Wire(Fitting(s.taken))
    ensures PongPayloads(Fitting(s.taken)) == Small(PingsOf(ReadAll(input).0))
  {
    PingsAreAnswered(peer, input, fingerprint, steps, s);
    CleanEndDeliversEverything(peer, input, fingerprint, steps, s);
    RunInvariant(peer, input, fingerprint, steps, s);
    WrittenPongs(s.taken);
  }

  // ----- What is offered is accepted -----

  /** The frames that are no pongs, in order. */
  function NonPongs(frames: seq<Outbound>): seq<Outbound> {
    if frames == [] then []
    else
      var last := frames[|frames| - 1];
      NonPongs(frames[..|frames| - 1]) + if last.Pong? then [] else [last]
  }

  lemma NonPongsSnoc(frames: seq<Outbound>, f: Outbound)
    ensures NonPongs(frames + [f]) == NonPongs(frames) + if f.Pong? then [] else [f]
  {
    assert (frames + [f])[..|frames|] == frames;
  }

  /** What a step offers to the control queue: a frame from elsewhere, or one of a handler's. */
  function CtrlOf(step: Step): seq<Outbound> {
    match step
    case Forward(b) => [Binary(b)]
    case EmitCtrl(f) => [f]
    case _ => []
  }

  function FileOf(step: Step): seq<Outbound> { if step.EmitFile? then [step.f] else [] }

  function CtrlOffered(steps: seq<Step>): seq<Outbound> {
    if steps == [] then [] else CtrlOf(steps[0]) + CtrlOffered(steps[1..])
  }

  function FileOffered(steps: seq<Step>): seq<Outbound> {
    if steps == [] then [] else FileOf(steps[0]) + FileOffered(steps[1..])
  }

  /** What a step adds to the accepted frames, pongs aside, while the writer is alive. */
  lemma {:induction false} StepAccepts(peer: Peer, s: State, step: Step)
    requires Enabled(s, step) && Answers(step) && Teardown(s) && s.writer != Broken
    ensures var t := Apply(peer, s, step);
      NonPongs(t.ctrlSent) == NonPongs(s.ctrlSent) + CtrlOf(step) && t.fileSent == s.fileSent + FileOf(step)
  {
    assert NonPongs(s.ctrlSent) + [] == NonPongs(s.ctrlSent) && s.fileSent + [] == s.fileSent;
    match step
    case Handle => HandleAccepts(peer, s);
    case Forward(b) => NonPongsSnoc(s.ctrlSent, Binary(b));
    case EmitCtrl(f) => NonPongsSnoc(s.ctrlSent, f);
    case EmitFile(f) =>
    case _ => QuietStep(peer, s, step);
  }

  lemma {:induction false} HandleAccepts(peer: Peer, s: State)
    requires Enabled(s, Handle)
    ensures var t := Apply(peer, s, Handle); NonPongs(t.ctrlSent) == NonPongs(s.ctrlSent) && t.fileSent == s.fileSent
  {
    match s.inbound[0]
    case Ended(_) =>
    case Got(f) =>
      HandledFrame(peer, s, f);
      assert s.ctrlSent + [] == s.ctrlSent && NonPongs(s.ctrlSent) + [] == NonPongs(s.ctrlSent);
      if f.InPing? {
        NonPongsSnoc(s.ctrlSent, Pong(f.b));
      }
  }

  lemma {:induction false} WriterStaysBroken(peer: Peer, s: State, step: Step)
    requires Enabled(s, step) && s.writer == Broken
    ensures Apply(peer, s, step).writer == Broken
  {
  }

  lemma {:induction false} RunWasUnbroken(peer: Peer, s: State, steps: seq<Step>)
    requires CanRun(peer, s, steps) && Run(peer, s, steps).writer != Broken
    ensures s.writer != Broken
    decreases |steps|
  {
    if steps != [] && s.writer == Broken {
      WriterStaysBroken(peer, s, steps[0]);
      RunWasUnbroken(peer, Apply(peer, s, steps[0]), steps[1..]);
    }
  }

  lemma {:induction false} RunAccepts(peer: Peer, s: State, steps: seq<Step>)
    requires CanRun(peer, s, steps) && Teardown(s) && (forall step :: step in steps ==> Answers(step))
    requires Run(peer, s, steps).writer != Broken
    ensures var t := Run(peer, s, steps);
      && NonPongs(t.ctrlSent) == NonPongs(s.ctrlSent) + CtrlOffered(steps)
      && t.fileSent == s.fileSent + FileOffered(steps)
    decreases |steps|
  {
    if steps == [] {
      assert NonPongs(s.ctrlSent) + [] == NonPongs(s.ctrlSent) && s.fileSent + [] == s.fileSent;
    } else {
      RunWasUnbroken(peer, s, steps);
      StepAccepts(peer, s, steps[0]);
      StepKeepsTeardown(peer, s, steps[0]);
      RunAccepts(peer, Apply(peer, s, steps[0]), steps[1..]);
      Associates(NonPongs(s.ctrlSent), CtrlOf(steps[0]), CtrlOffered(steps[1..]));
      Associates(s.fileSent, FileOf(steps[0]), FileOffered(steps[1..]));
    }
  }

  /** In every interleaving without a failed write the accepted control frames other than pongs are the shape
      fingerprint and then every frame forwarded or sent by a handler, in order, and the accepted file frames are
      every file frame sent by a handler. */
  lemma {:induction false} OfferedFramesAreAccepted(
    peer: Peer, input: Bytes, fingerprint: Bytes, steps: seq<Step>, s: State)
    requires IsRun(peer, input, fingerprint, steps, s) && (forall step :: step in steps ==> Answers(step))
    requires s.writer != Broken
    ensures NonPongs(s.ctrlSent) == [ShapeFp(fingerprint)] + CtrlOffered(steps)
    ensures s.fileSent == FileOffered(steps)
  {
    var start := Start(input, fingerprint);
    RunAccepts(peer, start, steps);
    assert start.ctrlSent[..0] == [] && NonPongs(start.ctrlSent) == [] + [ShapeFp(fingerprint)];
    assert [] + FileOffered(steps) == FileOffered(steps);
  }

  // ----- Commands -----

  /** The work item is what the frame asks for: a binary command, or a line of text. */
  predicate AsksFor(peer: Peer, f: Inbound, w: Work) {
    || (f.InBinary? && peer.isCommand(f.b) && w == Command(f.b))
    || (f.InText? && w == TextCommand(f.t))
  }

  predicate AsksForNothing(peer: Peer, f: Inbound) {
    f.InPing? || f.InShapeFp? || (f.InBinary? && !peer.isCommand(f.b))
  }

  /** The items at the places `picks`, which go up, are what the frames there ask for, and no other frame asks
      for anything. */
  ghost predicate Serves(peer: Peer, frames: seq<Inbound>, works: seq<Work>, picks: seq<nat>) {
    && |picks| == |works|
    && (forall k :: 0 <= k < |picks| ==> picks[k] < |frames| && AsksFor(peer, frames[picks[k]], works[k]))
    && (forall j, k :: 0 <= j < k < |picks| ==> picks[j] < picks[k])
    && (forall i :: 0 <= i < |frames| && i !in picks ==> AsksForNothing(peer, frames[i]))
  }

  lemma {:induction false} WorksServe(peer: Peer, frames: seq<Inbound>) returns (picks: seq<nat>)
    ensures Serves(peer, frames, WorksOf(peer, frames), picks)
    decreases |frames|
  {
    picks := [];
    if frames != [] {
      var n := |frames| - 1;
      var front := WorksServe(peer, frames[..n]);
      picks := if WorkOf(peer, frames[n]) == [] then front else front + [n];
      ServesOneMore(peer, frames, WorksOf(peer, frames[..n]), front, n, WorkOf(peer, frames[n]));
    }
  }

  lemma {:induction false} ServesNoMore(peer: Peer, frames: seq<Inbound>, works: seq<Work>, picks: seq<nat>, n: nat)
    requires n + 1 == |frames| && Serves(peer, frames[..n], works, picks) && AsksForNothing(peer, frames[n])
    ensures Serves(peer, frames, works, picks)
  {
    assert forall i :: 0 <= i < n ==> frames[..n][i] == frames[i];
  }

  lemma {:induction false} ServesNext(
    peer: Peer, frames: seq<Inbound>, works: seq<Work>, picks: seq<nat>, n: nat, w: Work)
    requires n + 1 == |frames| && Serves(peer, frames[..n], works, picks) && AsksFor(peer, frames[n], w)
    ensures Serves(peer, frames, works + [w], picks + [n])
  {
    assert forall i :: 0 <= i < n ==> frames[..n][i] == frames[i];
    assert forall i :: i in picks + [n] <==> i in picks || i == n;
  }

  lemma {:induction false} WorkIs(peer: Peer, f: Inbound)
    ensures WorkOf(peer, f) == [] ==> AsksForNothing(peer, f)
    ensures WorkOf(peer, f) != [] ==> |WorkOf(peer, f)| == 1 && AsksFor(peer, f, WorkOf(peer, f)[0])
  {
  }

  lemma {:induction false} ServesOneMore(
    peer: Peer, frames: seq<Inbound>, works: seq<Work>, picks: seq<nat>, n: nat, more: seq<Work>)
    requires n + 1 == |frames| && Serves(peer, frames[..n], works, picks) && more == WorkOf(peer, frames[n])
    ensures Serves(peer, frames, works + more, if more == [] then picks else picks + [n])
  {
    WorkIs(peer, frames[n]);
    if more == [] {
      assert works + more == works;
      ServesNoMore(peer, frames, works, picks, n);
    } else {
      assert more == [more[0]];
      ServesNext(peer, frames, works, picks, n, more[0]);
    }
  }

  /** In every interleaving the commands begun are, in order, what the first frames received ask for; at a clean
      end they are what every frame of the input asks for. */
  lemma {:induction false} CommandsAreServed(
    peer: Peer, input: Bytes, fingerprint: Bytes, steps: seq<Step>, s: State) returns (picks: seq<nat>)
    requires IsRun(peer, input, fingerprint, steps, s)
    ensures exists works :: s.begun <= works && Serves(peer, s.received, works, picks)
    ensures s.writer == Closed && !s.shutdown ==> Serves(peer, ReadAll(input).0, s.begun, picks)
  {
    picks := WorksServe(peer, s.received);
    WireIsAlwaysAPrefix(peer, input, fingerprint, steps, s);
    if s.writer == Closed && !s.shutdown {
      CleanEndDeliversEverything(peer, input, fingerprint, steps, s);
      RunInvariant(peer, input, fingerprint, steps, s);
      assert s.received == ReadAll(input).0;
    }
  }
}
