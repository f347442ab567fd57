/** Length-prefixed frames of the direct admin session: how they are written, how they are
    read back, and the handshake before them. */
module Framing {
  import opened Sequences
  import opened Wrappers
  import opened Utf8

  const TAG_BINARY: Byte := 0x01
  const TAG_TEXT: Byte := 0x02
  const TAG_PING: Byte := 0x03
  const TAG_PONG: Byte := 0x04
  const TAG_SHAPE_FP: Byte := 0x0B

  const MAX_FRAME_BYTES := 64 * 1024 * 1024

  // ----- Little-endian words -----

  function Le32(n: nat): (r: Bytes)
    requires n < 0x1_0000_0000
    ensures |r| == 4
  {
    [n % 256, n / 256 % 256, n / 256 / 256 % 256, n / 256 / 256 / 256]
  }

  function FromLe32(b: Bytes): nat
    requires |b| >= 4
  {
    var b0: int, b1: int, b2: int, b3: int := b[0], b[1], b[2], b[3];
    b0 + 256 * (b1 + 256 * (b2 + 256 * b3))
  }

  /** The lowest byte comes first. */
  lemma Le32IsLittleEndian(b0: Byte, b1: Byte, b2: Byte, b3: Byte, t: Bytes)
    ensures FromLe32([b0, b1, b2, b3] + t) ==
      (b0 as int) + 256 * (b1 as int) + 65536 * (b2 as int) + 16777216 * (b3 as int)
  {
    var b := [b0, b1, b2, b3] + t;
    assert b[0] == b0 && b[1] == b1 && b[2] == b2 && b[3] == b3;
  }

  lemma SplitByte(n: nat)
    ensures n % 256 + 256 * (n / 256) == n
  {
  }

  lemma Le32RoundTrip(n: nat, t: Bytes)
    requires n < 0x1_0000_0000
    ensures FromLe32(Le32(n) + t) == n
  {
    SplitByte(n);
    SplitByte(n / 256);
    SplitByte(n / 256 / 256);
  }

  lemma FromLe32Inverts(b: Bytes)
    requires |b| >= 4
    ensures FromLe32(b) < 0x1_0000_0000 && Le32(FromLe32(b)) == b[..4]
  {
    var b0: int, b1: int, b2: int, b3: int := b[0], b[1], b[2], b[3];
    var high := b1 + 256 * (b2 + 256 * b3);
    var top := b2 + 256 * b3;
    assert FromLe32(b) == b0 + 256 * high;
    assert FromLe32(b) / 256 == high && high / 256 == top && top / 256 == b3;
  }

  // ----- Writing -----

  /** A frame as it travels: tag byte and payload. */
  datatype RawFrame = RawFrame(tag: Byte, payload: Bytes)

  datatype Outbound = Binary(b: Bytes) | Text(t: string) | Pong(b: Bytes) | ShapeFp(b: Bytes)

  function Raw(f: Outbound): RawFrame {
    match f
    case Binary(b) => RawFrame(TAG_BINARY, b)
    case Text(t) => RawFrame(TAG_TEXT, Encode(t))
    case Pong(b) => RawFrame(TAG_PONG, b)
    case ShapeFp(b) => RawFrame(TAG_SHAPE_FP, b)
  }

  predicate FitsCap(f: RawFrame) { |f.payload| + 1 <= MAX_FRAME_BYTES }

  function EncodeFrame(f: RawFrame): (r: Bytes)
    requires FitsCap(f)
    ensures |r| == 5 + |f.payload|
  {
    Le32(|f.payload| + 1) + ([f.tag] + f.payload)
  }

  predicate AllFit(frames: seq<RawFrame>) { forall f :: f in frames ==> FitsCap(f) }

  function Wire(frames: seq<RawFrame>): Bytes
    requires AllFit(frames)
  {
    if frames == [] then [] else EncodeFrame(frames[0]) + Wire(frames[1..])
  }

  // ----- Reading -----

  datatype Inbound = InBinary(b: Bytes) | InText(t: string) | InPing(b: Bytes) | InShapeFp(b: Bytes)

  datatype Failure = ZeroLength | TooLarge(n: nat) | Truncated | NotUtf8

  datatype ReadResult = Frame(frame: Inbound, rest: Bytes) | Eof | Failed(why: Failure)

  /** What the reader makes of a complete frame; unknown tags are skipped. */
  datatype Verdict = Known(frame: Inbound) | Unknown | Malformed

  function Judge(f: RawFrame): Verdict {
    if f.tag == TAG_BINARY then Known(InBinary(f.payload))
    else if f.tag == TAG_TEXT then
      match Decode(f.payload)
      case None => Malformed
      case Some(t) => Known(InText(t))
    else if f.tag == TAG_PING then Known(InPing(f.payload))
    else if f.tag == TAG_SHAPE_FP then Known(InShapeFp(f.payload))
    else Unknown
  }

  /** What each kind of frame travels as, and what each tag is read as. */
  lemma TagsAre(b: Bytes, t: string)
    ensures Raw(Binary(b)) == RawFrame(1, b) && Raw(Text(t)) == RawFrame(2, Encode(t))
    ensures Raw(Pong(b)) == RawFrame(4, b) && Raw(ShapeFp(b)) == RawFrame(11, b)
    ensures Judge(RawFrame(1, b)) == Known(InBinary(b)) && Judge(RawFrame(3, b)) == Known(InPing(b))
    ensures Judge(RawFrame(11, b)) == Known(InShapeFp(b)) && Judge(RawFrame(2, Encode(t))) == Known(InText(t))
    ensures forall tag: Byte :: tag !in {1, 2, 3, 11} ==> Judge(RawFrame(tag, b)) == Unknown
  {
    DecodeInvertsEncode(t);
  }

  /** A frame fits when its tag and payload take at most 64 MiB. */
  lemma CapIs(f: RawFrame)
    ensures FitsCap(f) <==> |f.payload| < 67_108_864
  {
  }

  /** The next complete frame's bytes, or why there is none. */
  datatype Cut = Whole(f: RawFrame, rest: Bytes) | NoPrefix | Bad(why: Failure)

  function CutFrame(s: Bytes): (r: Cut)
    ensures r.Whole? ==> |r.rest| < |s|
  {
    if |s| < 4 then NoPrefix
    else
      var n := FromLe32(s);
      if n == 0 then Bad(ZeroLength)
      else if n > MAX_FRAME_BYTES then Bad(TooLarge(n))
      else if |s| < 4 + n then Bad(Truncated)
      else Whole(RawFrame(s[4], s[5..4 + n]), s[4 + n..])
  }

  /** The next frame the reader knows: end of stream inside a length prefix is a clean end, any
      later truncation an error, and any number of unknown frames is skipped. */
  function ReadFrame(s: Bytes): (r: ReadResult)
    ensures r.Frame? ==> |r.rest| < |s|
    decreases |s|
  {
    match CutFrame(s)
    case NoPrefix => Eof
    case Bad(why) => Failed(why)
    case Whole(f, rest) =>
      match Judge(f)
      case Known(frame) => Frame(frame, rest)
      case Malformed => Failed(NotUtf8)
      case Unknown => ReadFrame(rest)
  }

  datatype Ending = CleanEnd | ErrorEnd(why: Failure)

  /** Every frame up to the end of the stream or the first error. */
  function ReadAll(s: Bytes): (seq<Inbound>, Ending)
    decreases |s|
  {
    match ReadFrame(s)
    case Eof => ([], CleanEnd)
    case Failed(why) => ([], ErrorEnd(why))
    case Frame(frame, rest) =>
      var (more, end) := ReadAll(rest);
      ([frame] + more, end)
  }

  // ----- What the reader gets of what was written -----

  /** The frames a reader keeps of `frames`. */
  function Kept(frames: seq<RawFrame>): seq<Inbound> {
    if frames == [] then []
    else (if Judge(frames[0]).Known? then [Judge(frames[0]).frame] else []) + Kept(frames[1..])
  }

  predicate NoneMalformed(frames: seq<RawFrame>) { forall f :: f in frames ==> !Judge(f).Malformed? }

  lemma FrameCutsBack(f: RawFrame, t: Bytes)
    requires FitsCap(f)
    ensures CutFrame(EncodeFrame(f) + t) == Whole(f, t)
  {
    var n := |f.payload| + 1;
    var s := EncodeFrame(f) + t;
    assert s == Le32(n) + ([f.tag] + f.payload + t);
    Le32RoundTrip(n, [f.tag] + f.payload + t);
    assert s[5..4 + n] == f.payload;
    assert s[4 + n..] == t;
  }

  /** A proper prefix of a frame is a clean end inside its length prefix and truncated after. */
  lemma PartialFrameEnds(f: RawFrame, k: nat)
    requires FitsCap(f) && k < 5 + |f.payload|
    ensures CutFrame(EncodeFrame(f)[..k]) == if k < 4 then NoPrefix else Bad(Truncated)
  {
    var n := |f.payload| + 1;
    if k >= 4 {
      var s := EncodeFrame(f)[..k];
      assert s[..4] == Le32(n);
      assert s == Le32(n) + s[4..];
      Le32RoundTrip(n, s[4..]);
    }
  }

  lemma AllFitRest(frames: seq<RawFrame>)
    requires frames != [] && AllFit(frames)
    ensures FitsCap(frames[0]) && AllFit(frames[1..])
    ensures NoneMalformed(frames) ==> !Judge(frames[0]).Malformed? && NoneMalformed(frames[1..])
  {
    assert forall f :: f in frames[1..] ==> f in frames;
  }

  lemma KeptCons(frames: seq<RawFrame>)
    requires frames != []
    ensures Kept(frames) == Kept([frames[0]]) + Kept(frames[1..])
  {
    assert [frames[0]][1..] == [];
    assert Kept([]) == [];
  }

  lemma {:induction false} FrameThenRest(f: RawFrame, t: Bytes)
    requires FitsCap(f) && !Judge(f).Malformed?
    ensures ReadAll(EncodeFrame(f) + t) == (Kept([f]) + ReadAll(t).0, ReadAll(t).1)
  {
    FrameCutsBack(f, t);
    var s := EncodeFrame(f) + t;
    assert Kept([f]) == if Judge(f).Known? then [Judge(f).frame] else [];
    if Judge(f).Unknown? {
      assert ReadFrame(s) == ReadFrame(t);
      assert [] + ReadAll(t).0 == ReadAll(t).0;
    }
  }

  /** Reading what was written for any frames, cut off anywhere in the one that follows, gives
      exactly the frames the reader knows, in order; the end is clean when at most part of a
      length prefix is left over and a truncation error when more is. */
  lemma {:induction false} CutWireReadsBack(frames: seq<RawFrame>, next: RawFrame, k: nat)
    requires AllFit(frames) && NoneMalformed(frames) && FitsCap(next) && k < 5 + |next.payload|
    ensures ReadAll(Wire(frames) + EncodeFrame(next)[..k]) ==
      (Kept(frames), if k < 4 then CleanEnd else ErrorEnd(Truncated))
    decreases |frames|
  {
    var left := EncodeFrame(next)[..k];
    if frames == [] {
      assert Wire(frames) + left == left;
      PartialFrameEnds(next, k);
    } else {
      AllFitRest(frames);
      CutWireReadsBack(frames[1..], next, k);
      Associates(EncodeFrame(frames[0]), Wire(frames[1..]), left);
      FrameThenRest(frames[0], Wire(frames[1..]) + left);
      KeptCons(frames);
    }
  }

  /** Reading everything written gives exactly the known frames, then a clean end. */
  lemma WireReadsBack(frames: seq<RawFrame>)
    requires AllFit(frames) && NoneMalformed(frames)
    ensures ReadAll(Wire(frames)) == (Kept(frames), CleanEnd)
  {
    var next := RawFrame(0, []);
    CutWireReadsBack(frames, next, 0);
    assert EncodeFrame(next)[..0] == [];
    assert Wire(frames) + [] == Wire(frames);
  }

  lemma {:induction false} CutLater(first: Bytes, rest: Bytes, k: nat, whole: Bytes, cut: Bytes)
    requires |first| <= k < |first| + |rest| && rest[..k - |first|] == whole + cut
    ensures k <= |first + rest| && (first + rest)[..k] == (first + whole) + cut
  {
    assert (first + rest)[..k] == first + rest[..k - |first|];
    Associates(first, whole, cut);
  }

  lemma {:induction false} WireTake(frames: seq<RawFrame>, m: nat)
    requires AllFit(frames) && m < |frames|
    ensures AllFit(frames[..m + 1]) && AllFit(frames[1..][..m])
    ensures Wire(frames[..m + 1]) == EncodeFrame(frames[0]) + Wire(frames[1..][..m])
  {
    assert frames[..m + 1][0] == frames[0] && frames[..m + 1][1..] == frames[1..][..m];
  }

  /** Every cut of a wire falls after some whole frames and before the end of the next. */
  lemma {:induction false} EveryCutIsPartial(frames: seq<RawFrame>, k: nat) returns (m: nat, j: nat)
    requires AllFit(frames) && k < |Wire(frames)|
    ensures m < |frames| && AllFit(frames[..m]) && j < 5 + |frames[m].payload|
    ensures Wire(frames)[..k] == Wire(frames[..m]) + EncodeFrame(frames[m])[..j]
    decreases |frames|
  {
    var first := EncodeFrame(frames[0]);
    if k < |first| {
      m, j := 0, k;
      assert Wire(frames)[..k] == first[..k];
      assert Wire(frames[..0]) + first[..k] == first[..k];
    } else {
      assert forall f :: f in frames[1..] ==> f in frames;
      var m';
      m', j := EveryCutIsPartial(frames[1..], k - |first|);
      m := m' + 1;
      CutLater(first, Wire(frames[1..]), k, Wire(frames[1..][..m']), EncodeFrame(frames[m])[..j]);
      WireTake(frames, m');
    }
  }

  /** Cutting the wire anywhere loses a suffix of the frames and invents none. */
  lemma CutWireKeepsAPrefix(frames: seq<RawFrame>, k: nat)
    requires AllFit(frames) && NoneMalformed(frames) && k <= |Wire(frames)|
    ensures ReadAll(Wire(frames)[..k]).0 <= Kept(frames)
    ensures ReadAll(Wire(frames)[..k]).1 in {CleanEnd, ErrorEnd(Truncated)}
  {
    if k == |Wire(frames)| {
      assert Wire(frames)[..k] == Wire(frames);
      WireReadsBack(frames);
    } else {
      var m, j := EveryCutIsPartial(frames, k);
      CutWireReadsBack(frames[..m], frames[m], j);
      KeptPrefix(frames, m);
    }
  }

  lemma {:induction false} KeptPrefix(frames: seq<RawFrame>, m: nat)
    requires m <= |frames|
    ensures Kept(frames[..m]) <= Kept(frames)
    decreases m
  {
    if m > 0 {
      KeptPrefix(frames[1..], m - 1);
      assert frames[..m][1..] == frames[1..][..m - 1] && frames[..m][0] == frames[0];
    }
  }

  lemma CutIsWhole(s: Bytes)
    requires CutFrame(s).Whole?
    ensures var w := CutFrame(s); FitsCap(w.f) && s == EncodeFrame(w.f) + w.rest
  {
    var n := FromLe32(s);
    FromLe32Inverts(s);
    assert s == s[..4] + ([s[4]] + s[5..4 + n] + s[4 + n..]);
  }

  /** Why reading stops at `left`. */
  function StopsAt(left: Bytes): Option<Ending> {
    match CutFrame(left)
    case NoPrefix => Some(CleanEnd)
    case Bad(why) => Some(ErrorEnd(why))
    case Whole(f, _) => if Judge(f).Malformed? then Some(ErrorEnd(NotUtf8)) else None
  }

  /** Whatever bytes arrive, what the reader returns is exactly what some whole frames at the
      front of the stream carry, and it stops at the first bytes that begin no further frame. */
  lemma {:induction false} ReadIsAWire(s: Bytes) returns (frames: seq<RawFrame>, left: Bytes)
    ensures AllFit(frames) && NoneMalformed(frames)
    ensures s == Wire(frames) + left
    ensures StopsAt(left).Some? && ReadAll(s) == (Kept(frames), StopsAt(left).value)
    decreases |s|
  {
    if StopsAt(s).Some? {
      frames, left := [], s;
      assert Wire(frames) + left == left;
    } else {
      var w := CutFrame(s);
      CutIsWhole(s);
      var more, left' := ReadIsAWire(w.rest);
      frames, left := [w.f] + more, left';
      WireCons(w.f, more);
      Associates(EncodeFrame(w.f), Wire(more), left);
      FrameThenRest(w.f, w.rest);
      assert frames[1..] == more && frames[0] == w.f;
      KeptCons(frames);
    }
  }

  lemma WireCons(f: RawFrame, more: seq<RawFrame>)
    requires FitsCap(f) && AllFit(more)
    ensures AllFit([f] + more) && Wire([f] + more) == EncodeFrame(f) + Wire(more)
  {
    assert ([f] + more)[1..] == more;
  }

  lemma {:induction false} WireSnoc(frames: seq<RawFrame>, f: RawFrame)
    requires AllFit(frames) && FitsCap(f)
    ensures AllFit(frames + [f]) && Wire(frames + [f]) == Wire(frames) + EncodeFrame(f)
    decreases |frames|
  {
    if frames == [] {
      assert frames + [f] == [f] && [f][1..] == [];
      assert EncodeFrame(f) + [] == EncodeFrame(f);
    } else {
      AllFitRest(frames);
      WireSnoc(frames[1..], f);
      assert frames + [f] == [frames[0]] + (frames[1..] + [f]);
      WireCons(frames[0], frames[1..] + [f]);
      Associates(EncodeFrame(frames[0]), Wire(frames[1..]), EncodeFrame(f));
    }
  }

  /** Text frames the writer emits always decode. */
  lemma WrittenNeverMalformed(f: Outbound)
    ensures !Judge(Raw(f)).Malformed?
  {
    if f.Text? {
      DecodeInvertsEncode(f.t);
    }
  }
}
