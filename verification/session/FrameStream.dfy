/** The byte stream of a direct admin session, read and written in place: the handshake, the
    reader task and the bytes of one written frame. */
module FrameStream {
  import opened Sequences
  import opened Wrappers
  import opened Text
  import opened Utf8
  import opened Framing

  const HANDSHAKE_MAGIC: Bytes := [0x4D, 0x54, 0x52, 0x58]
  const HANDSHAKE_VERSION_V1: Byte := 1
  const HANDSHAKE_VERSION_CURRENT: Byte := 2
  const MAX_ID_BYTES := 1024

  predicate IsSupportedVersion(v: Byte) { HANDSHAKE_VERSION_V1 <= v <= HANDSHAKE_VERSION_CURRENT }

  // ----- What the handshake accepts -----

  datatype Refusal = BadMagic | EndOfStream | BadVersion(v: Byte) | IdTooLong(n: nat) | IdNotUtf8 | IdMismatch

  datatype Handshake = Authenticated | Probe | Refused(why: Refusal)

  /** What an admin that knows the machine's id sends first. */
  function Preamble(v: Byte, id: string): Bytes
    requires Utf8Len(id) <= MAX_ID_BYTES
  {
    EncodeLength(id);
    HANDSHAKE_MAGIC + ([v] + (Le32(|Encode(id)|) + Encode(id)))
  }

  /** The outcome for the bytes a peer sends before it stops sending. */
  function Greeting(s: Bytes, id: string): Handshake {
    if |s| < 4 then Probe
    else if s[..4] != HANDSHAKE_MAGIC then Refused(BadMagic)
    else if |s| < 5 then Refused(EndOfStream)
    else if !IsSupportedVersion(s[4]) then Refused(BadVersion(s[4]))
    else IdOutcome(s[5..], id)
  }

  function IdOutcome(s: Bytes, id: string): Handshake {
    if |s| < 4 then Refused(EndOfStream)
    else if FromLe32(s) > MAX_ID_BYTES then Refused(IdTooLong(FromLe32(s)))
    else if |s| < 4 + FromLe32(s) then Refused(EndOfStream)
    else ClaimOutcome(s[4..4 + FromLe32(s)], id)
  }

  function ClaimOutcome(claim: Bytes, id: string): Handshake {
    match Decode(claim)
    case None => Refused(IdNotUtf8)
    case Some(text) => if text == id then Authenticated else Refused(IdMismatch)
  }

  lemma ClaimMatchesIff(claim: Bytes, id: string)
    ensures ClaimOutcome(claim, id).Authenticated? <==> claim == Encode(id)
  {
    DecodeInvertsEncode(id);
    if Decode(claim).Some? {
      EncodeInvertsDecode(claim);
    }
  }

  lemma {:induction false} IdMatchesIff(s: Bytes, id: string)
    ensures IdOutcome(s, id).Authenticated? <==>
      Utf8Len(id) <= MAX_ID_BYTES && (EncodeLength(id); Le32(|Encode(id)|) + Encode(id) <= s)
  {
    EncodeLength(id);
    if IdOutcome(s, id).Authenticated? {
      IdAdmitted(s, id);
    }
    if Utf8Len(id) <= MAX_ID_BYTES && Le32(|Encode(id)|) + Encode(id) <= s {
      NamedIsAdmitted(s, id);
    }
  }

  lemma {:induction false} NamedIsAdmitted(s: Bytes, id: string)
    requires |Encode(id)| <= MAX_ID_BYTES && Le32(|Encode(id)|) + Encode(id) <= s
    ensures IdOutcome(s, id).Authenticated?
  {
    var n := |Encode(id)|;
    assert s == Le32(n) + s[4..];
    Le32RoundTrip(n, s[4..]);
    assert s[4..4 + n] == Encode(id);
    ClaimMatchesIff(Encode(id), id);
  }

  /** The preamble: `MTRX`, the version, and the id behind its length. */
  lemma PreambleIs(v: Byte, id: string)
    requires Utf8Len(id) <= 1024
    ensures var claim := Encode(id);
      && |claim| <= 1024
      && Preamble(v, id) == [0x4D, 0x54, 0x52, 0x58, v, |claim| % 256, |claim| / 256, 0, 0] + claim
  {
    EncodeLength(id);
  }

  /** Who sends fewer than four bytes is a probe; who starts otherwise than with `MTRX`, or with a version that is
      neither 1 nor 2, is told so; and a claimed id longer than 1024 bytes is not waited for. */
  lemma GreetingSays(s: Bytes, id: string)
    ensures Greeting(s, id) == Probe <==> |s| < 4
    ensures Greeting(s, id) == Refused(BadMagic) <==> |s| >= 4 && s[..4] != [0x4D, 0x54, 0x52, 0x58]
    ensures forall v :: Greeting(s, id) == Refused(BadVersion(v)) <==>
      |s| > 4 && s[..4] == [0x4D, 0x54, 0x52, 0x58] && s[4] == v && v != 1 && v != 2
    ensures forall n :: Greeting(s, id) == Refused(IdTooLong(n)) ==> |s| >= 9 && n == FromLe32(s[5..]) && n > 1024
  {
  }

  /** A peer is admitted exactly when it sends the magic, a supported version and this machine's
      own id, and that id is short enough to be sent at all. */
  lemma AuthenticatedIff(s: Bytes, id: string)
    ensures Greeting(s, id).Authenticated? <==>
      Utf8Len(id) <= 1024 && (Preamble(1, id) <= s || Preamble(2, id) <= s)
  {
    EncodeLength(id);
    if |s| >= 5 {
      IdMatchesIff(s[5..], id);
      if Utf8Len(id) <= MAX_ID_BYTES {
        PreambleSplits(s, HANDSHAKE_VERSION_V1, id);
        PreambleSplits(s, HANDSHAKE_VERSION_CURRENT, id);
      }
    }
  }

  lemma PreambleSplits(s: Bytes, v: Byte, id: string)
    requires Utf8Len(id) <= MAX_ID_BYTES && |s| >= 5
    ensures Preamble(v, id) <= s <==>
      s[..4] == HANDSHAKE_MAGIC && s[4] == v && (EncodeLength(id); Le32(|Encode(id)|) + Encode(id) <= s[5..])
  {
    EncodeLength(id);
    var body := Le32(|Encode(id)|) + Encode(id);
    var whole := HANDSHAKE_MAGIC + ([v] + body);
    assert whole == HANDSHAKE_MAGIC + [v] + body;
    if whole <= s {
      assert s[..4] == whole[..4] && s[4] == whole[4];
      assert s[5..][..|body|] == whole[5..];
    }
    if s[..4] == HANDSHAKE_MAGIC && s[4] == v && body <= s[5..] {
      assert s == s[..4] + ([s[4]] + s[5..]);
    }
  }

  // ----- Reading in place -----

  datatype Next = NextFrame(frame: Inbound) | NextEof | NextFailed(why: Failure)

  function Seen(r: ReadResult): Next {
    match r
    case Frame(f, _) => NextFrame(f)
    case Eof => NextEof
    case Failed(why) => NextFailed(why)
  }

  /** The read half: `rest` is what the peer will have sent before it stops sending. */
  class Stream {
    var rest: Bytes

    constructor (bytes: Bytes)
      ensures rest == bytes
    {
      rest := bytes;
    }

    /** Fills exactly `n` bytes, or consumes what is left and reports the end of the stream. */
    method ReadExact(n: nat) returns (r: Option<Bytes>)
      modifies this
      ensures |old(rest)| < n ==> r == None && rest == []
      ensures n <= |old(rest)| ==> r == Some(old(rest)[..n]) && rest == old(rest)[n..]
    {
      if |rest| < n {
        r, rest := None, [];
      } else {
        r, rest := Some(rest[..n]), rest[n..];
      }
    }

    method ReadU8() returns (r: Option<Byte>)
      modifies this
      ensures old(rest) == [] ==> r == None && rest == []
      ensures old(rest) != [] ==> r == Some(old(rest)[0]) && rest == old(rest)[1..]
    {
      var b := ReadExact(1);
      match b
      case None => r := None;
      case Some(one) => r := Some(one[0]);
    }

    method ReadU32Le() returns (r: Option<nat>)
      modifies this
      ensures |old(rest)| < 4 ==> r == None && rest == []
      ensures 4 <= |old(rest)| ==> r == Some(FromLe32(old(rest))) && rest == old(rest)[4..]
    {
      var b := ReadExact(4);
      match b
      case None => r := None;
      case Some(four) => r := Some(FromLe32(four));
    }

    /** One frame the session understands; unknown tags are read past. */
    method NextKnownFrame() returns (r: Next)
      modifies this
      ensures r == Seen(ReadFrame(old(rest)))
      ensures r.NextFrame? ==> rest == ReadFrame(old(rest)).rest
      decreases |rest|
    {
      ghost var s := rest;
      var totalLen := ReadU32Le();
      if totalLen.None? {
        return NextEof;
      }
      if totalLen.value == 0 {
        return NextFailed(ZeroLength);
      }
      if totalLen.value > MAX_FRAME_BYTES {
        return NextFailed(TooLarge(totalLen.value));
      }
      var tag := ReadU8();
      if tag.None? {
        return NextFailed(Truncated);
      }
      assert rest == s[5..];
      var payload := ReadExact(totalLen.value - 1);
      if payload.None? {
        return NextFailed(Truncated);
      }
      assert payload.value == s[5..4 + totalLen.value] && rest == s[4 + totalLen.value..];
      assert CutFrame(s) == Whole(RawFrame(tag.value, payload.value), rest);
      match Judge(RawFrame(tag.value, payload.value))
      case Known(frame) => return NextFrame(frame);
      case Malformed => return NextFailed(NotUtf8);
      case Unknown => r := NextKnownFrame();
    }

    /** Serializes every inbound frame onto the session's queue, until the end or an error. */
    method ReadTask() returns (sent: seq<Inbound>, end: Ending)
      modifies this
      ensures (sent, end) == ReadAll(old(rest))
    {
      sent := [];
      ghost var all := ReadAll(rest);
      assert [] + all.0 == all.0;
      while true
        invariant all == (sent + ReadAll(rest).0, ReadAll(rest).1)
        decreases |rest|
      {
        ghost var before := rest;
        var frame := NextKnownFrame();
        match frame
        case NextEof =>
          assert sent + [] == sent;
          return sent, CleanEnd;
        case NextFailed(why) =>
          assert sent + [] == sent;
          return sent, ErrorEnd(why);
        case NextFrame(f) =>
          Shift(sent, f, ReadAll(rest).0);
          sent := sent + [f];
      }
    }

    /** Admits an admin, recognises a bare connect-and-close, or refuses; an admitted session's
        frames start right behind the preamble. */
    method PerformHandshake(expectedId: string) returns (r: Handshake)
      modifies this
      ensures r == Greeting(old(rest), expectedId)
      ensures r.Authenticated? ==> exists v: Byte ::
        IsSupportedVersion(v) && Utf8Len(expectedId) <= MAX_ID_BYTES && old(rest) == Preamble(v, expectedId) + rest
    {
      ghost var s := rest;
      var magic := ReadExact(4);
      if magic.None? {
        return Probe;
      }
      if magic.value != HANDSHAKE_MAGIC {
        return Refused(BadMagic);
      }
      var version := ReadU8();
      if version.None? {
        return Refused(EndOfStream);
      }
      if !IsSupportedVersion(version.value) {
        return Refused(BadVersion(version.value));
      }
      assert rest == s[5..];
      var idLen := ReadU32Le();
      if idLen.None? {
        return Refused(EndOfStream);
      }
      if idLen.value > MAX_ID_BYTES {
        return Refused(IdTooLong(idLen.value));
      }
      var idBytes := ReadExact(idLen.value);
      if idBytes.None? {
        return Refused(EndOfStream);
      }
      assert idBytes.value == s[5..][4..4 + idLen.value] && rest == s[5..][4 + idLen.value..];
      var claimedId := Decode(idBytes.value);
      if claimedId.None? {
        return Refused(IdNotUtf8);
      }
      if claimedId.value != expectedId {
        return Refused(IdMismatch);
      }
      AdmittedBytes(s, expectedId, s[5..], rest);
      return Authenticated;
    }
  }

  lemma {:induction false} IdAdmitted(body: Bytes, id: string)
    requires IdOutcome(body, id).Authenticated?
    ensures |Encode(id)| == FromLe32(body) <= MAX_ID_BYTES && 4 + FromLe32(body) <= |body|
    ensures body == (Le32(FromLe32(body)) + Encode(id)) + body[4 + FromLe32(body)..]
  {
    var n := FromLe32(body);
    ClaimMatchesIff(body[4..4 + n], id);
    FromLe32Inverts(body);
  }

  lemma {:induction false} FourAndOne(s: Bytes)
    requires |s| >= 5
    ensures s == s[..4] + ([s[4]] + s[5..])
  {
  }

  lemma {:induction false} AdmittedBytes(s: Bytes, id: string, body: Bytes, rest: Bytes)
    requires Greeting(s, id).Authenticated? && body == s[5..]
    requires 4 + FromLe32(body) <= |body| && rest == body[4 + FromLe32(body)..]
    ensures Utf8Len(id) <= MAX_ID_BYTES && s == Preamble(s[4], id) + rest
  {
    IdAdmitted(body, id);
    EncodeLength(id);
    var named := Le32(|Encode(id)|) + Encode(id);
    FourAndOne(s);
    Associates([s[4]], named, rest);
    Associates(HANDSHAKE_MAGIC, [s[4]] + named, rest);
  }

  // ----- Writing in place -----

  /** The bytes the writer sends for a frame in one write; none for one over the size cap. */
  method FrameBytes(frame: Outbound) returns (bytes: Bytes)
    ensures FitsCap(Raw(frame)) ==> bytes == EncodeFrame(Raw(frame))
    ensures !FitsCap(Raw(frame)) ==> bytes == []
  {
    var raw := Raw(frame);
    var totalLen := |raw.payload| + 1;
    if totalLen > MAX_FRAME_BYTES {
      return [];
    }
    bytes := Le32(totalLen);
    bytes := bytes + [raw.tag];
    bytes := bytes + raw.payload;
    Associates(Le32(totalLen), [raw.tag], raw.payload);
  }

  /** What reaches the wire of a queue: the frames that fit the cap, in order. */
  function FittingOf(frames: seq<Outbound>): seq<RawFrame> {
    if frames == [] then []
    else (if FitsCap(Raw(frames[0])) then [Raw(frames[0])] else []) + FittingOf(frames[1..])
  }

  lemma FittingOfFits(frames: seq<Outbound>)
    ensures AllFit(FittingOf(frames))
  {
  }

  ghost function WireOf(frames: seq<Outbound>): Bytes {
    FittingOfFits(frames);
    Wire(FittingOf(frames))
  }

  lemma {:induction false} WireOfCons(frames: seq<Outbound>)
    requires frames != []
    ensures WireOf(frames) ==
      (if FitsCap(Raw(frames[0])) then EncodeFrame(Raw(frames[0])) else []) + WireOf(frames[1..])
  {
    FittingOfFits(frames[1..]);
    if FitsCap(Raw(frames[0])) {
      WireCons(Raw(frames[0]), FittingOf(frames[1..]));
    } else {
      assert [] + FittingOf(frames[1..]) == FittingOf(frames[1..]);
    }
  }

  /** The writer's two queues and the write half. */
  class Writer {
    var ctrl: seq<Outbound>
    var file: seq<Outbound>
    var wire: Bytes
    var closed: bool

    constructor (control: seq<Outbound>, files: seq<Outbound>)
      ensures ctrl == control && file == files && wire == [] && !closed
    {
      ctrl, file, wire, closed := control, files, [], false;
    }

    /** Once every sender is gone: all control frames, then all file frames, then the close. */
    method DrainAndClose()
      modifies this
      ensures ctrl == [] && file == [] && closed
      ensures wire == old(wire) + WireOf(old(ctrl) + old(file))
    {
      ghost var all := ctrl + file;
      ghost var start := wire;
      while ctrl != [] || file != []
        invariant start + WireOf(all) == wire + WireOf(ctrl + file)
        decreases |ctrl| + |file|
      {
        ghost var left := ctrl + file;
        var frame;
        if ctrl != [] {
          frame, ctrl := ctrl[0], ctrl[1..];
        } else {
          frame, file := file[0], file[1..];
        }
        assert left[0] == frame && left[1..] == ctrl + file;
        WireOfCons(left);
        var bytes := FrameBytes(frame);
        Associates(wire, bytes, WireOf(ctrl + file));
        wire := wire + bytes;
      }
      assert ctrl + file == [] && wire + [] == wire;
      closed := true;
    }
  }
}
