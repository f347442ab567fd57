/** What holds over every run of a direct admin session. */
module SessionRuns {
  import opened Sequences
  import opened Wrappers
  import opened Utf8
  import opened Framing
  import opened Session

  // ----- One step -----

  lemma {:induction false} SendKeepsQueues(s: State, q: Source, f: Outbound)
    requires QueuesAgree(s) && (q == File && s.writer == Writing ==> |s.file| < FILE_CHANNEL_DEPTH)
    ensures QueuesAgree(if q == Ctrl then SendCtrl(s, f) else SendFile(s, f))
  {
    assert From(s.taken, Ctrl) + s.ctrl + [f] == From(s.taken, Ctrl) + (s.ctrl + [f]);
    assert From(s.taken, File) + s.file + [f] == From(s.taken, File) + (s.file + [f]);
    forall n: nat | n <= |s.ctrlSent|
      ensures s.ctrlSent[..n] == (s.ctrlSent + [f])[..n]
    {
    }
  }

  lemma {:induction false} FromSnoc(taken: seq<Taken>, t: Taken, q: Source)
    ensures From(taken + [t], q) == From(taken, q) + if t.from == q then [t.frame] else []
  {
    assert (taken + [t])[..|taken|] == taken;
  }

  lemma {:induction false} FittingSnoc(taken: seq<Taken>, t: Taken)
    ensures Fitting(taken + [t]) == Fitting(taken) + if FitsCap(Raw(t.frame)) then [Raw(t.frame)] else []
  {
    assert (taken + [t])[..|taken|] == taken;
  }

  lemma {:induction false} TakeMoves(taken: seq<Taken>, queue: seq<Outbound>, q: Source, seen: nat)
    requires queue != []
    ensures var after := taken + [Taken(q, queue[0], seen)];
      && From(after, q) + queue[1..] == From(taken, q) + queue
      && forall p: Source :: p != q ==> From(after, p) == From(taken, p)
  {
    var t := Taken(q, queue[0], seen);
    FromSnoc(taken, t, Ctrl);
    FromSnoc(taken, t, File);
    assert queue == [queue[0]] + queue[1..];
    Associates(From(taken, q), [queue[0]], queue[1..]);
  }

  lemma {:induction false} TakeKeepsCtrlFirst(taken: seq<Taken>, ctrlSent: seq<Outbound>, t: Taken)
    requires CtrlFirst(taken, ctrlSent) && t.seen == |ctrlSent|
    requires t.from == File ==> From(taken, Ctrl) == ctrlSent
    ensures CtrlFirst(taken + [t], ctrlSent)
  {
    var after := taken + [t];
    assert ctrlSent[..|ctrlSent|] == ctrlSent;
    forall i | 0 <= i < |after| && after[i].from == File
      ensures after[i].seen <= |ctrlSent| && From(after[..i], Ctrl) == ctrlSent[..after[i].seen]
    {
      assert after[..i] == if i < |taken| then taken[..i] else taken;
    }
  }

  lemma {:induction false} TakeKeepsQueues(s: State)
    requires QueuesAgree(s) && Chosen(s).Some?
    ensures QueuesAgree(Take(s))
  {
    var (from, frame) := Chosen(s).value;
    TakeMoves(s.taken, if from == Ctrl then s.ctrl else s.file, from, |s.ctrlSent|);
    assert from == File ==> From(s.taken, Ctrl) + [] == From(s.taken, Ctrl);
    TakeKeepsCtrlFirst(s.taken, s.ctrlSent, Taken(from, frame, |s.ctrlSent|));
  }

  /** The queues and what was taken from them, as in a state that agrees on them. */
  lemma {:induction false} QueuesCarry(s: State, t: State)
    requires QueuesAgree(s) && t.ctrl == s.ctrl && t.file == s.file && t.taken == s.taken
    requires t.ctrlSent == s.ctrlSent && t.fileSent == s.fileSent
    ensures QueuesAgree(t)
  {
  }

  predicate Sends(step: Step) { step.Handle? || step.Forward? || step.EmitCtrl? || step.EmitFile? }

  lemma {:induction false} SameQueues(peer: Peer, s: State, step: Step)
    requires Enabled(s, step) && !Sends(step) && !step.Write? && !step.WriteFails?
    ensures var t := Apply(peer, s, step);
      && t.ctrl == s.ctrl && t.file == s.file && t.taken == s.taken
      && t.ctrlSent == s.ctrlSent && t.fileSent == s.fileSent
  {
  }

  lemma {:induction false} HandleKeepsQueues(peer: Peer, s: State)
    requires QueuesAgree(s) && Enabled(s, Handle)
    ensures QueuesAgree(Apply(peer, s, Handle))
  {
    if s.inbound[0].Got? && s.inbound[0].frame.InPing? {
      var t := s.(inbound := s.inbound[1..], received := s.received + [s.inbound[0].frame],
        work := s.work + WorkOf(peer, s.inbound[0].frame));
      QueuesCarry(s, t);
      SendKeepsQueues(t, Ctrl, Pong(s.inbound[0].frame.b));
    } else {
      QueuesCarry(s, Apply(peer, s, Handle));
    }
  }

  lemma {:induction false} WriteKeepsQueues(peer: Peer, s: State, step: Step)
    requires QueuesAgree(s) && Enabled(s, step) && (step.Write? || step.WriteFails?)
    ensures QueuesAgree(Apply(peer, s, step))
  {
    TakeKeepsQueues(s);
    QueuesCarry(Take(s), Apply(peer, s, step));
  }

  lemma {:induction false} StepKeepsQueues(peer: Peer, s: State, step: Step)
    requires QueuesAgree(s) && Enabled(s, step)
    ensures QueuesAgree(Apply(peer, s, step))
  {
    match step
    case Handle => HandleKeepsQueues(peer, s);
    case Forward(b) => SendKeepsQueues(s, Ctrl, Binary(b));
    case EmitCtrl(f) => SendKeepsQueues(s, Ctrl, f);
    case EmitFile(f) => SendKeepsQueues(s, File, f);
    case Write => WriteKeepsQueues(peer, s, step);
    case WriteFails(_) => WriteKeepsQueues(peer, s, step);
    case _ =>
      SameQueues(peer, s, step);
      QueuesCarry(s, Apply(peer, s, step));
  }

  lemma {:induction false} SendKeepsGreeted(fingerprint: Bytes, s: State, f: Outbound)
    requires Greeted(fingerprint, s)
    ensures Greeted(fingerprint, SendCtrl(s, f))
  {
  }

  lemma {:induction false} TakeKeepsGreeted(fingerprint: Bytes, s: State)
    requires Greeted(fingerprint, s) && Chosen(s).Some?
    ensures Greeted(fingerprint, Take(s))
  {
  }

  lemma {:induction false} SameGreeting(peer: Peer, s: State, step: Step)
    requires Enabled(s, step) && !step.Write? && !step.WriteFails?
    requires !step.Handle? && !step.Forward? && !step.EmitCtrl?
    ensures Apply(peer, s, step).ctrlSent == s.ctrlSent && Apply(peer, s, step).taken == s.taken
  {
  }

  lemma {:induction false} StepKeepsGreeted(peer: Peer, fingerprint: Bytes, s: State, step: Step)
    requires Greeted(fingerprint, s) && Enabled(s, step)
    ensures Greeted(fingerprint, Apply(peer, s, step))
  {
    match step
    case Handle =>
      if s.inbound[0].Got? && s.inbound[0].frame.InPing? {
        SendKeepsGreeted(fingerprint, s, Pong(s.inbound[0].frame.b));
      }
    case Forward(b) => SendKeepsGreeted(fingerprint, s, Binary(b));
    case EmitCtrl(f) => SendKeepsGreeted(fingerprint, s, f);
    case Write => TakeKeepsGreeted(fingerprint, s);
    case WriteFails(_) => TakeKeepsGreeted(fingerprint, s);
    case _ => SameGreeting(peer, s, step);
  }

  lemma {:induction false} WriteKeepsWire(taken: seq<Taken>, t: Taken, wire: Bytes, partial: Bytes)
    requires WireHolds(taken, false, wire, partial)
    ensures var after := if FitsCap(Raw(t.frame)) then wire + EncodeFrame(Raw(t.frame)) else wire;
      WireHolds(taken + [t], false, after, partial)
  {
    FittingFits(taken + [t]);
    FittingSnoc(taken, t);
    if FitsCap(Raw(t.frame)) {
      WireSnoc(Fitting(taken), Raw(t.frame));
    } else {
      assert Fitting(taken) + [] == Fitting(taken);
    }
  }

  lemma {:induction false} FailedWriteKeepsWire(taken: seq<Taken>, t: Taken, wire: Bytes, n: nat, partial: Bytes)
    requires WireHolds(taken, false, wire, partial)
    requires FitsCap(Raw(t.frame)) && n < |EncodeFrame(Raw(t.frame))|
    ensures var cut := EncodeFrame(Raw(t.frame))[..n]; WireHolds(taken + [t], true, wire + cut, cut)
  {
    FittingFits(taken + [t]);
    assert (taken + [t])[..|taken|] == taken;
  }

  /** The wire holds what it held, in a state that agrees on it. */
  lemma {:induction false} WireCarries(s: State, t: State)
    requires WireAgrees(s) && t.taken == s.taken && t.wire == s.wire && t.partial == s.partial
    requires t.writer == Broken <==> s.writer == Broken
    ensures WireAgrees(t)
  {
  }

  lemma {:induction false} WireAgreesOf(t: State, taken: seq<Taken>, broken: bool, wire: Bytes, partial: Bytes)
    requires WireHolds(taken, broken, wire, partial) && t.taken == taken && t.wire == wire && t.partial == partial
    requires broken <==> t.writer == Broken
    ensures WireAgrees(t)
  {
  }

  /** What the writer's step leaves, `frame` being the one it chose. */
  lemma {:induction false} WriteLeaves(peer: Peer, s: State, from: Source, frame: Outbound)
    requires Enabled(s, Write) && Chosen(s) == Some((from, frame))
    ensures var t := Apply(peer, s, Write);
      && t.taken == s.taken + [Taken(from, frame, |s.ctrlSent|)] && t.writer == s.writer && t.partial == s.partial
      && t.wire == if FitsCap(Raw(frame)) then s.wire + EncodeFrame(Raw(frame)) else s.wire
  {
  }

  lemma {:induction false} WriteStepKeepsWire(peer: Peer, s: State)
    requires WireAgrees(s) && Enabled(s, Write)
    ensures WireAgrees(Apply(peer, s, Write))
  {
    var (from, frame) := Chosen(s).value;
    var t, taken := Apply(peer, s, Write), Taken(from, frame, |s.ctrlSent|);
    WriteLeaves(peer, s, from, frame);
    WriteKeepsWire(s.taken, taken, s.wire, s.partial);
    WireAgreesOf(t, s.taken + [taken], false, t.wire, s.partial);
  }

  lemma {:induction false} FailStepKeepsWire(peer: Peer, s: State, n: nat)
    requires WireAgrees(s) && Enabled(s, WriteFails(n))
    ensures WireAgrees(Apply(peer, s, WriteFails(n)))
  {
    var (from, frame) := Chosen(s).value;
    var t, taken := Apply(peer, s, WriteFails(n)), Taken(from, frame, |s.ctrlSent|);
    FailedWriteKeepsWire(s.taken, taken, s.wire, n, s.partial);
    WireAgreesOf(t, s.taken + [taken], true, t.wire, t.partial);
  }

  lemma {:induction false} StepKeepsWire(peer: Peer, s: State, step: Step)
    requires WireAgrees(s) && Enabled(s, step)
    ensures WireAgrees(Apply(peer, s, step))
  {
    match step
    case Write => WriteStepKeepsWire(peer, s);
    case WriteFails(n) => FailStepKeepsWire(peer, s, n);
    case _ =>
      SameWire(peer, s, step);
      WireCarries(s, Apply(peer, s, step));
  }

  lemma {:induction false} SameWire(peer: Peer, s: State, step: Step)
    requires Enabled(s, step) && !step.Write? && !step.WriteFails?
    ensures var t := Apply(peer, s, step);
      t.taken == s.taken && t.wire == s.wire && t.partial == s.partial && (t.writer == Broken <==> s.writer == Broken)
  {
  }

  lemma {:induction false} WorksSnoc(peer: Peer, frames: seq<Inbound>, f: Inbound)
    ensures WorksOf(peer, frames + [f]) == WorksOf(peer, frames) + WorkOf(peer, f)
  {
    assert (frames + [f])[..|frames|] == frames;
  }

  lemma {:induction false} ReceivedAddsWork(
    peer: Peer, received: seq<Inbound>, begun: seq<Work>, work: seq<Work>, f: Inbound)
    requires WorksOf(peer, received) == begun + work
    ensures WorksOf(peer, received + [f]) == begun + (work + WorkOf(peer, f))
  {
    WorksSnoc(peer, received, f);
    Associates(begun, work, WorkOf(peer, f));
  }

  lemma {:induction false} BeginMovesWork(begun: seq<Work>, work: seq<Work>)
    requires work != []
    ensures (begun + [work[0]]) + work[1..] == begun + work
  {
    assert work == [work[0]] + work[1..];
  }

  lemma {:induction false} HandleKeepsWork(peer: Peer, s: State)
    requires WorkAgrees(peer, s) && Enabled(s, Handle)
    ensures WorkAgrees(peer, Apply(peer, s, Handle))
  {
    if s.inbound[0].Got? {
      ReceivedAddsWork(peer, s.received, s.begun, s.work, s.inbound[0].frame);
    }
  }

  predicate Writes(step: Step) { step.Write? || step.WriteFails? || step.CloseStream? }

  /** No work is taken, begun or received, and the session goes on as it was. */
  predicate KeepsWork(s: State, t: State) {
    && t.phase == s.phase && t.shutdown == s.shutdown
    && t.begun == s.begun && t.work == s.work && t.received == s.received
  }

  lemma {:induction false} WriterKeepsWork(peer: Peer, s: State, step: Step)
    requires Enabled(s, step) && Writes(step)
    ensures KeepsWork(s, Apply(peer, s, step))
  {
  }

  lemma {:induction false} SameWork(peer: Peer, s: State, step: Step)
    requires Enabled(s, step) && !step.Handle? && !step.Begin?
    requires !step.SignalShutdown? && !step.BreakOff? && !step.DispatchEnds? && !step.AbortDispatch?
    ensures KeepsWork(s, Apply(peer, s, step))
  {
    if Writes(step) {
      WriterKeepsWork(peer, s, step);
    }
  }

  lemma {:induction false} EndingKeepsWork(peer: Peer, s: State, step: Step)
    requires WorkAgrees(peer, s) && Teardown(s) && Enabled(s, step)
    requires step.SignalShutdown? || step.BreakOff? || step.DispatchEnds? || step.AbortDispatch?
    ensures WorkAgrees(peer, Apply(peer, s, step))
  {
  }

  lemma {:induction false} StepKeepsWork(peer: Peer, s: State, step: Step)
    requires WorkAgrees(peer, s) && Teardown(s) && Enabled(s, step)
    ensures WorkAgrees(peer, Apply(peer, s, step))
  {
    match step
    case Handle => HandleKeepsWork(peer, s);
    case Begin => BeginMovesWork(s.begun, s.work);
    case SignalShutdown => EndingKeepsWork(peer, s, step);
    case BreakOff => EndingKeepsWork(peer, s, step);
    case DispatchEnds => EndingKeepsWork(peer, s, step);
    case AbortDispatch => EndingKeepsWork(peer, s, step);
    case _ => SameWork(peer, s, step);
  }

  lemma PendingAppend(inbound: seq<Item>, s: State, item: Item, reading: bool, rest: Bytes)
    requires Pending([], true, s.input) == Pending([item], reading, rest)
    requires forall i :: 0 <= i < |inbound| ==> inbound[i].Got?
    ensures Pending(inbound, true, s.input) == Pending(inbound + [item], reading, rest)
    decreases |inbound|
  {
    if inbound == [] {
      assert inbound + [item] == [item];
    } else {
      PendingAppend(inbound[1..], s, item, reading, rest);
      assert (inbound + [item])[1..] == inbound[1..] + [item];
    }
  }

  /** While the reader reads, nothing queued ends the stream. */
  ghost predicate StillReading(s: State) {
    s.reading ==> forall i :: 0 <= i < |s.inbound| ==> s.inbound[i].Got?
  }

  lemma {:induction false} ReadKeepsPending(s: State)
    requires s.reading && StillReading(s)
    ensures var t := ReadItem(s);
      Pending(t.inbound, t.reading, t.input) == Pending(s.inbound, s.reading, s.input) && StillReading(t)
  {
    var t := ReadItem(s);
    var item := t.inbound[|s.inbound|];
    assert [item][1..] == [];
    assert Pending([], t.reading, t.input) ==
      if t.reading then (ReadAll(t.input).0, Some(ReadAll(t.input).1)) else ([], None);
    PendingAppend(s.inbound, s, item, t.reading, t.input);
  }

  lemma {:induction false} HandleKeepsInput(peer: Peer, whole: Bytes, s: State)
    requires InputAgrees(whole, s) && StillReading(s) && Enabled(s, Handle)
    ensures InputAgrees(whole, Apply(peer, s, Handle)) && StillReading(Apply(peer, s, Handle))
  {
    if s.inbound[0].Got? {
      var (more, end) := Pending(s.inbound[1..], s.reading, s.input);
      Associates(s.received, [s.inbound[0].frame], more);
    } else {
      assert s.received + [] == s.received;
    }
  }

  lemma {:induction false} BreakOffKeepsInput(peer: Peer, whole: Bytes, s: State)
    requires InputAgrees(whole, s) && Enabled(s, BreakOff)
    ensures InputAgrees(whole, Apply(peer, s, BreakOff)) && StillReading(Apply(peer, s, BreakOff))
  {
  }

  lemma {:induction false} WriterKeepsStream(peer: Peer, s: State, step: Step)
    requires Enabled(s, step) && Writes(step)
    ensures var t := Apply(peer, s, step);
      t.input == s.input && t.reading == s.reading && t.inbound == s.inbound && t.received == s.received
  {
  }

  lemma {:induction false} SameStream(peer: Peer, s: State, step: Step)
    requires Enabled(s, step) && !step.Read? && !step.Handle? && !step.BreakOff?
    ensures var t := Apply(peer, s, step);
      t.input == s.input && t.reading == s.reading && t.inbound == s.inbound && t.received == s.received
  {
    if Writes(step) {
      WriterKeepsStream(peer, s, step);
    }
  }

  lemma {:induction false} SamePhase(peer: Peer, s: State, step: Step)
    requires Enabled(s, step) && !step.Read? && !step.Handle? && !step.BreakOff?
    ensures var t := Apply(peer, s, step);
      t.ended == s.ended && (t.phase == Serving <==> s.phase == Serving) && (s.shutdown ==> t.shutdown)
  {
  }

  lemma {:induction false} StepKeepsInput(peer: Peer, whole: Bytes, s: State, step: Step)
    requires InputAgrees(whole, s) && Teardown(s) && StillReading(s) && Enabled(s, step)
    ensures InputAgrees(whole, Apply(peer, s, step)) && StillReading(Apply(peer, s, step))
  {
    match step
    case Read => ReadKeepsPending(s);
    case Handle => HandleKeepsInput(peer, whole, s);
    case BreakOff => BreakOffKeepsInput(peer, whole, s);
    case _ =>
      SameStream(peer, s, step);
      SamePhase(peer, s, step);
  }

  lemma {:induction false} StepKeepsReaderDown(peer: Peer, s: State, step: Step)
    requires Teardown(s) && Enabled(s, step)
    ensures var t := Apply(peer, s, step); t.phase != Serving ==> !t.reading
  {
  }

  lemma {:induction false} StepKeepsWorkDone(peer: Peer, s: State, step: Step)
    requires Teardown(s) && Enabled(s, step)
    ensures var t := Apply(peer, s, step); t.phase == Closing ==> !t.busy && t.work == []
  {
  }

  lemma {:induction false} StepKeepsQueuesDrained(peer: Peer, s: State, step: Step)
    requires Teardown(s) && Enabled(s, step)
    ensures var t := Apply(peer, s, step); t.writer == Closed ==> t.phase == Closing && t.ctrl == [] && t.file == []
  {
  }

  lemma {:induction false} StepKeepsTeardown(peer: Peer, s: State, step: Step)
    requires Teardown(s) && Enabled(s, step)
    ensures Teardown(Apply(peer, s, step))
  {
    StepKeepsReaderDown(peer, s, step);
    StepKeepsWorkDone(peer, s, step);
    StepKeepsQueuesDrained(peer, s, step);
  }

  // ----- Every run -----

  ghost predicate Reached(peer: Peer, input: Bytes, fingerprint: Bytes, s: State) {
    Inv(peer, input, fingerprint, s) && StillReading(s)
  }

  lemma {:induction false} StartReached(peer: Peer, input: Bytes, fingerprint: Bytes)
    ensures Reached(peer, input, fingerprint, Start(input, fingerprint))
  {
    var s := Start(input, fingerprint);
    assert Fitting(s.taken) == [] && Wire([]) == [];
    assert From(s.taken, Ctrl) == [] && From(s.taken, File) == [];
    assert [] + ReadAll(input).0 == ReadAll(input).0;
  }

  lemma {:induction false} RunReached(peer: Peer, input: Bytes, fingerprint: Bytes, s: State, steps: seq<Step>)
    requires Reached(peer, input, fingerprint, s) && CanRun(peer, s, steps)
    ensures Reached(peer, input, fingerprint, Run(peer, s, steps))
    decreases |steps|
  {
    if steps != [] {
      var step := steps[0];
      StepKeepsQueues(peer, s, step);
      StepKeepsGreeted(peer, fingerprint, s, step);
      StepKeepsWire(peer, s, step);
      StepKeepsWork(peer, s, step);
      StepKeepsInput(peer, input, s, step);
      StepKeepsTeardown(peer, s, step);
      RunReached(peer, input, fingerprint, Apply(peer, s, step), steps[1..]);
    }
  }

  ghost predicate IsRun(peer: Peer, input: Bytes, fingerprint: Bytes, steps: seq<Step>, s: State) {
    var start := Start(input, fingerprint);
    CanRun(peer, start, steps) && s == Run(peer, start, steps)
  }

  lemma {:induction false} RunInvariant(peer: Peer, input: Bytes, fingerprint: Bytes, steps: seq<Step>, s: State)
    requires IsRun(peer, input, fingerprint, steps, s)
    ensures Reached(peer, input, fingerprint, s)
  {
    StartReached(peer, input, fingerprint);
    RunReached(peer, input, fingerprint, Start(input, fingerprint), steps);
  }

  /** In every interleaving the frames chosen for the wire merge the two queues, each in the order
      it was filled; a file frame is chosen only after every control frame accepted by then; the
      shape fingerprint comes first of all; and at most four file frames wait. */
  lemma {:induction false} ChosenFramesMergeTheQueues(
    peer: Peer, input: Bytes, fingerprint: Bytes, steps: seq<Step>, s: State)
    requires IsRun(peer, input, fingerprint, steps, s)
    ensures From(s.taken, Ctrl) + s.ctrl == s.ctrlSent
    ensures From(s.taken, File) + s.file == s.fileSent && |s.file| <= 4
    ensures forall i :: 0 <= i < |s.taken| && s.taken[i].from == File ==>
      s.taken[i].seen <= |s.ctrlSent| && From(s.taken[..i], Ctrl) == s.ctrlSent[..s.taken[i].seen]
    ensures s.taken != [] ==> s.taken[0].frame == ShapeFp(fingerprint)
  {
    RunInvariant(peer, input, fingerprint, steps, s);
    if s.taken != [] {
      assert From(s.taken[..0], Ctrl) == [];
      FromStarts(s.taken);
    }
  }

  lemma {:induction false} FromStarts(taken: seq<Taken>)
    requires taken != [] && taken[0].from == Ctrl
    ensures From(taken, Ctrl) != [] && From(taken, Ctrl)[0] == taken[0].frame
    decreases |taken|
  {
    if |taken| > 1 {
      FromStarts(taken[..|taken| - 1]);
    } else {
      assert taken[..0] == [];
    }
  }

  lemma {:induction false} FittingNeverMalformed(taken: seq<Taken>)
    ensures AllFit(Fitting(taken)) && NoneMalformed(Fitting(taken))
    decreases |taken|
  {
    if taken != [] {
      FittingNeverMalformed(taken[..|taken| - 1]);
      WrittenNeverMalformed(taken[|taken| - 1].frame);
    }
  }

  /** A session that ends without a shutdown and without a failed write has run every command its
      input carries, in order, and written every accepted frame that fits the cap before closing
      the stream: a reader of the stream gets all of those it knows and a clean end. */
  lemma {:induction false} CleanEndDeliversEverything(
    peer: Peer, input: Bytes, fingerprint: Bytes, steps: seq<Step>, s: State)
    requires IsRun(peer, input, fingerprint, steps, s)
    requires s.writer == Closed && !s.shutdown
    ensures s.begun == WorksOf(peer, ReadAll(input).0)
    ensures s.ended == Some(ReadAll(input).1)
    ensures From(s.taken, Ctrl) == s.ctrlSent && From(s.taken, File) == s.fileSent
    ensures AllFit(Fitting(s.taken)) && s.wire == Wire(Fitting(s.taken))
    ensures ReadAll(s.wire) == (Kept(Fitting(s.taken)), CleanEnd)
  {
    RunInvariant(peer, input, fingerprint, steps, s);
    FittingNeverMalformed(s.taken);
    WireReadsBack(Fitting(s.taken));
    assert s.begun + [] == s.begun;
    assert From(s.taken, Ctrl) + [] == From(s.taken, Ctrl);
    assert From(s.taken, File) + [] == From(s.taken, File);
  }

  /** So a peer that writes any frames and ends the stream has its commands run in order. */
  lemma WrittenCommandsRunInOrder(
    peer: Peer, frames: seq<RawFrame>, fingerprint: Bytes, steps: seq<Step>, s: State)
    requires AllFit(frames) && NoneMalformed(frames)
    requires IsRun(peer, Wire(frames), fingerprint, steps, s)
    requires s.writer == Closed && !s.shutdown
    ensures s.begun == WorksOf(peer, Kept(frames)) && s.ended == Some(CleanEnd)
  {
    WireReadsBack(frames);
    CleanEndDeliversEverything(peer, Wire(frames), fingerprint, steps, s);
  }

  lemma {:induction false} FittingFront(taken: seq<Taken>, n: nat)
    requires taken != [] && n == |taken| - 1
    ensures Kept(Fitting(taken[..n])) <= Kept(Fitting(taken))
  {
    var whole := Fitting(taken[..n]);
    assert taken == taken[..n] + [taken[n]];
    FittingSnoc(taken[..n], taken[n]);
    KeptPrefix(Fitting(taken), |whole|);
    assert Fitting(taken)[..|whole|] == whole;
  }

  lemma {:induction false} BrokenWireIs(whole: seq<RawFrame>, last: RawFrame, wire: Bytes, partial: Bytes)
    requires AllFit(whole) && NoneMalformed(whole) && FitsCap(last)
    requires partial < EncodeFrame(last) && wire == Wire(whole) + partial
    ensures ReadAll(wire).0 == Kept(whole)
  {
    assert partial == EncodeFrame(last)[..|partial|];
    CutWireReadsBack(whole, last, |partial|);
  }

  /** What a wire broken inside a frame reads as. */
  lemma {:induction false} BrokenWireReads(taken: seq<Taken>, wire: Bytes, partial: Bytes)
    requires BreaksInside(taken, wire, partial)
    ensures ReadAll(wire).0 <= Kept(Fitting(taken))
  {
    var n := |taken| - 1;
    FittingNeverMalformed(taken[..n]);
    BrokenWireIs(Fitting(taken[..n]), Raw(taken[n].frame), wire, partial);
    FittingFront(taken, n);
  }

  /** At any moment, whether or not a write failed part-way, what a reader gets from the wire is a
      prefix of the frames chosen, and commands were begun in the order they were received. */
  lemma {:induction false} WireIsAlwaysAPrefix(peer: Peer, input: Bytes, fingerprint: Bytes, steps: seq<Step>, s: State)
    requires IsRun(peer, input, fingerprint, steps, s)
    ensures ReadAll(s.wire).0 <= Kept(Fitting(s.taken))
    ensures s.writer != Broken ==> ReadAll(s.wire) == (Kept(Fitting(s.taken)), CleanEnd)
    ensures s.begun <= WorksOf(peer, s.received) && s.received <= ReadAll(input).0
  {
    RunInvariant(peer, input, fingerprint, steps, s);
    FittingNeverMalformed(s.taken);
    if s.writer == Broken {
      BrokenWireReads(s.taken, s.wire, s.partial);
    } else {
      WireReadsBack(Fitting(s.taken));
    }
  }

  // ----- Teardown can always finish -----

  lemma {:induction false} RunConcat(peer: Peer, s: State, a: seq<Step>, b: seq<Step>)
    requires CanRun(peer, s, a) && CanRun(peer, Run(peer, s, a), b)
    ensures CanRun(peer, s, a + b) && Run(peer, s, a + b) == Run(peer, Run(peer, s, a), b)
    decreases |a|
  {
    if a == [] {
      assert a + b == b;
    } else {
      assert (a + b)[1..] == a[1..] + b && (a + b)[0] == a[0];
      RunConcat(peer, Apply(peer, s, a[0]), a[1..], b);
    }
  }

  lemma {:induction false} OneStep(peer: Peer, s: State, step: Step, rest: seq<Step>)
    requires Enabled(s, step) && CanRun(peer, Apply(peer, s, step), rest)
    ensures CanRun(peer, s, [step] + rest)
    ensures Run(peer, s, [step] + rest) == Run(peer, Apply(peer, s, step), rest)
  {
    assert ([step] + rest)[1..] == rest;
  }

  /** Once the session loop has ended, the session can always run to a closed stream: the queued
      work drains, then the frames, then the stream closes. */
  lemma {:induction false} TeardownCanFinish(peer: Peer, s: State) returns (steps: seq<Step>)
    requires s.phase != Serving && s.writer == Writing && Teardown(s)
    ensures CanRun(peer, s, steps) && Run(peer, s, steps).writer == Closed
    ensures Run(peer, s, steps).shutdown == s.shutdown
    decreases s.phase != Closing, |s.work|, s.busy, |s.ctrl| + |s.file|
  {
    var step :=
      if s.phase == Draining then
        if s.busy then Finish else if s.work != [] then Begin else DispatchEnds
      else if Chosen(s).Some? then Write else CloseStream;
    var t := Apply(peer, s, step);
    if step.CloseStream? {
      steps := [step];
      OneStep(peer, s, step, []);
    } else {
      var rest := TeardownCanFinish(peer, t);
      steps := [step] + rest;
      OneStep(peer, s, step, rest);
    }
  }

  /** And a session still serving can be shut down at any time, and then runs to a closed stream too. */
  lemma {:induction false} ShutdownCanFinish(peer: Peer, s: State) returns (steps: seq<Step>)
    requires s.phase == Serving && s.writer == Writing && Teardown(s)
    ensures CanRun(peer, s, [SignalShutdown, BreakOff] + steps)
    ensures Run(peer, s, [SignalShutdown, BreakOff] + steps).writer == Closed
  {
    var signalled := Apply(peer, s, SignalShutdown);
    var t := Apply(peer, signalled, BreakOff);
    StepKeepsTeardown(peer, s, SignalShutdown);
    StepKeepsTeardown(peer, signalled, BreakOff);
    steps := TeardownCanFinish(peer, t);
    OneStep(peer, signalled, BreakOff, steps);
    OneStep(peer, s, SignalShutdown, [BreakOff] + steps);
    assert [SignalShutdown] + ([BreakOff] + steps) == [SignalShutdown, BreakOff] + steps;
  }

  lemma {:induction false} StepAfterShutdown(peer: Peer, s: State, step: Step)
    requires Enabled(s, step) && s.shutdown
    ensures Apply(peer, s, step).shutdown && Apply(peer, s, step).received == s.received
  {
    if Writes(step) {
      WriterKeepsWork(peer, s, step);
    }
  }

  /** After the shutdown is signalled no frame is handled any more. */
  lemma {:induction false} NothingIsReceivedAfterShutdown(peer: Peer, s: State, steps: seq<Step>)
    requires CanRun(peer, s, [SignalShutdown] + steps)
    ensures Run(peer, s, [SignalShutdown] + steps).received == s.received
  {
    assert ([SignalShutdown] + steps)[1..] == steps;
    ShutdownStays(peer, Apply(peer, s, SignalShutdown), steps);
  }

  lemma {:induction false} ShutdownStays(peer: Peer, s: State, steps: seq<Step>)
    requires CanRun(peer, s, steps) && s.shutdown
    ensures Run(peer, s, steps).received == s.received
    decreases |steps|
  {
    if steps != [] {
      StepAfterShutdown(peer, s, steps[0]);
      ShutdownStays(peer, Apply(peer, s, steps[0]), steps[1..]);
    }
  }
}
