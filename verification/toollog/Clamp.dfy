/** The size limit on a logged payload: the middle of an oversized text is replaced by a byte
    count, on character boundaries. */
module Clamp {
  import opened Text
  import opened Utf8
  import opened Numbers
  import opened Sequences

  const MAX_PAYLOAD_BYTES := 8 * 1024

  /** A Rust string: bytes that are valid UTF-8. */
  predicate IsText(s: Bytes) { Decode(s).Some? }

  /** `str::is_char_boundary`. */
  predicate IsBoundary(s: Bytes, i: nat) { i == 0 || i == |s| || (i < |s| && !IsContinuation(s[i])) }

  // ----- Where the boundaries are -----

  lemma EncodedContinues(c: char, i: nat)
    requires 0 < i < Utf8Width(c)
    ensures !IsBoundary(EncodeChar(c), i)
  {
  }

  /** Every index lies in the first four bytes from some character's start. */
  lemma {:induction false} CharAround(text: string, i: nat) returns (k: nat)
    requires i < |Encode(text)|
    ensures k < |text| && |Encode(text[..k])| <= i < |Encode(text[..k])| + Utf8Width(text[k])
    ensures Encode(text) == Encode(text[..k]) + (EncodeChar(text[k]) + Encode(text[k + 1..]))
    decreases |text|
  {
    var first := EncodeChar(text[0]);
    if i < |first| {
      k := 0;
      assert text[..0] == "" && [] + Encode(text) == Encode(text);
    } else {
      var k' := CharAround(text[1..], i - |first|);
      k := k' + 1;
      assert text[..k] == [text[0]] + text[1..][..k'];
      assert text[1..][k' + 1..] == text[k + 1..];
      Associates(first, Encode(text[1..][..k']), EncodeChar(text[k]) + Encode(text[k + 1..]));
    }
  }

  /** Around an index inside a text there is a character start at most 3 bytes before and one at
      most 3 bytes after, and at a boundary the text splits into texts. */
  lemma {:induction false} BoundariesAround(s: Bytes, i: nat) returns (lo: nat, hi: nat)
    requires IsText(s) && i < |s|
    ensures IsBoundary(s, lo) && lo <= i < hi <= |s| && hi <= lo + 4 && IsBoundary(s, hi)
    ensures IsBoundary(s, i) ==> IsText(s[..i]) && IsText(s[i..])
  {
    var text := Decode(s).value;
    EncodeInvertsDecode(s);
    var k := CharAround(text, i);
    var before, at, after := Encode(text[..k]), EncodeChar(text[k]), Encode(text[k + 1..]);
    lo, hi := |before|, |before| + |at|;
    StartsClean(text[k], after);
    assert s[lo..] == at + after;
    if text[k + 1..] != "" {
      StartsClean(text[k + 1], Encode(text[k + 1..][1..]));
      assert s[hi] == after[0];
    }
    if i != lo {
      EncodedContinues(text[k], i - lo);
      assert s[i] == at[i - lo];
    } else {
      assert s[..i] == before && s[i..] == Encode(text[k..]) by { assert text[k..][1..] == text[k + 1..]; }
      DecodeInvertsEncode(text[..k]);
      DecodeInvertsEncode(text[k..]);
    }
  }

  lemma StartsClean(c: char, t: Bytes)
    ensures !IsContinuation((EncodeChar(c) + t)[0])
  {
  }

  // ----- The two boundary searches -----

  /** `r` is the largest index at most `mark` on a boundary. */
  predicate IsFloor(s: Bytes, mark: nat, r: nat) {
    r <= mark && IsBoundary(s, r) && forall j :: r < j <= mark ==> !IsBoundary(s, j)
  }

  /** `r` is the smallest index at least `mark` on a boundary. */
  predicate IsCeil(s: Bytes, mark: nat, r: nat) {
    mark <= r <= |s| && IsBoundary(s, r) && forall j :: mark <= j < r ==> !IsBoundary(s, j)
  }

  function FloorIndex(s: Bytes, mark: nat): (r: nat)
    ensures r <= mark
  {
    if IsBoundary(s, mark) then mark else FloorIndex(s, mark - 1)
  }

  function CeilIndex(s: Bytes, mark: nat): (r: nat)
    requires mark <= |s|
    ensures mark <= r <= |s|
    decreases |s| - mark
  {
    if IsBoundary(s, mark) then mark else CeilIndex(s, mark + 1)
  }

  lemma {:induction false} FloorIs(s: Bytes, mark: nat)
    ensures IsFloor(s, mark, FloorIndex(s, mark))
    decreases mark
  {
    if !IsBoundary(s, mark) {
      FloorIs(s, mark - 1);
    }
  }

  lemma {:induction false} CeilIs(s: Bytes, mark: nat)
    requires mark <= |s|
    ensures IsCeil(s, mark, CeilIndex(s, mark))
    decreases |s| - mark
  {
    if !IsBoundary(s, mark) {
      CeilIs(s, mark + 1);
    }
  }

  method FloorBoundary(s: Bytes, i: nat) returns (r: nat)
    ensures i >= |s| ==> r == |s|
    ensures i < |s| ==> r == FloorIndex(s, i)
  {
    if i >= |s| {
      return |s|;
    }
    r := i;
    while r > 0 && !IsBoundary(s, r)
      invariant r <= i && FloorIndex(s, r) == FloorIndex(s, i)
    {
      r := r - 1;
    }
  }

  method CeilBoundary(s: Bytes, i: nat) returns (r: nat)
    ensures i >= |s| ==> r == i
    ensures i <= |s| ==> r == CeilIndex(s, i)
  {
    r := i;
    while r < |s| && !IsBoundary(s, r)
      invariant i <= r && (i <= |s| ==> r <= |s| && CeilIndex(s, r) == CeilIndex(s, i))
      invariant i >= |s| ==> r == i
    {
      r := r + 1;
    }
  }

  // ----- The clamp -----

  function Notice(cut: nat, whole: nat): string {
    "\n\U{2026} [" + Decimal(cut) + " of " + Decimal(whole) + " bytes truncated] \U{2026}\n"
  }

  /** The first and last `keep` bytes or a few less, around a notice of what is missing. */
  function KeepEnds(s: Bytes, keep: nat): Bytes
    requires 2 * keep <= |s|
  {
    var head := FloorIndex(s, keep);
    var tail := CeilIndex(s, |s| - keep);
    s[..head] + (Encode(Notice(tail - head, |s|)) + s[tail..])
  }

  /** What is stored of a payload. */
  function Clamped(s: Bytes): Bytes {
    if |s| <= MAX_PAYLOAD_BYTES then s else KeepEnds(s, MAX_PAYLOAD_BYTES / 2)
  }

  method ClampPayload(s: Bytes) returns (r: Bytes)
    ensures r == Clamped(s)
  {
    if |s| <= MAX_PAYLOAD_BYTES {
      return s;
    }
    r := CutMiddle(s, MAX_PAYLOAD_BYTES / 2);
  }

  method CutMiddle(s: Bytes, keep: nat) returns (r: Bytes)
    requires 2 * keep < |s|
    ensures r == KeepEnds(s, keep)
  {
    var head := FloorBoundary(s, keep);
    var tail := CeilBoundary(s, |s| - keep);
    r := s[..head];
    r := r + (Encode(Notice(tail - head, |s|)) + s[tail..]);
  }

  lemma {:induction false} FrontIsText(s: Bytes, mark: nat, head: nat)
    requires IsText(s) && mark < |s| && head == FloorIndex(s, mark)
    ensures head <= mark && IsText(s[..head])
  {
    FloorIs(s, mark);
    var lo, hi := BoundariesAround(s, head);
  }

  lemma {:induction false} BackIsText(s: Bytes, mark: nat, tail: nat)
    requires IsText(s) && mark <= |s| && tail == CeilIndex(s, mark)
    ensures mark <= tail <= |s| && IsText(s[tail..])
  {
    CeilIs(s, mark);
    TailIsText(s, tail);
  }

  lemma {:induction false} KeepEndsIs(s: Bytes, keep: nat, head: nat, tail: nat, r: Bytes) returns (notice: string)
    requires 2 * keep <= |s| && head == FloorIndex(s, keep) && tail == CeilIndex(s, |s| - keep)
    requires r == KeepEnds(s, keep)
    ensures head <= |s| && tail <= |s| && r == s[..head] + (Encode(notice) + s[tail..])
  {
    notice := Notice(tail - head, |s|);
  }

  lemma {:induction false} JoinedEndsAreText(s: Bytes, head: nat, tail: nat, notice: string, r: Bytes)
    requires head <= |s| && tail <= |s| && IsText(s[..head]) && IsText(s[tail..])
    requires r == s[..head] + (Encode(notice) + s[tail..])
    ensures IsText(r)
  {
    TextsJoin(s[..head], notice, s[tail..]);
  }

  /** Keeping both ends of a text leaves a text. */
  lemma {:induction false} EndsAreText(s: Bytes, keep: nat)
    requires IsText(s) && 0 < 2 * keep < |s|
    ensures IsText(KeepEnds(s, keep))
  {
    var head, tail, r := FloorIndex(s, keep), CeilIndex(s, |s| - keep), KeepEnds(s, keep);
    FrontIsText(s, keep, head);
    BackIsText(s, |s| - keep, tail);
    var notice := KeepEndsIs(s, keep, head, tail, r);
    JoinedEndsAreText(s, head, tail, notice, r);
  }

  /** A clamped text is a text. */
  lemma {:induction false} ClampedIsText(s: Bytes)
    requires IsText(s)
    ensures IsText(Clamped(s))
  {
    if |s| > MAX_PAYLOAD_BYTES {
      EndsAreText(s, MAX_PAYLOAD_BYTES / 2);
    }
  }

  lemma {:induction false} FloorIsNear(s: Bytes, mark: nat)
    requires IsText(s) && mark < |s|
    ensures mark - 3 <= FloorIndex(s, mark) <= mark
  {
    FloorIs(s, mark);
    var lo, hi := BoundariesAround(s, mark);
  }

  lemma {:induction false} CeilIsNear(s: Bytes, mark: nat)
    requires IsText(s) && mark < |s|
    ensures mark <= CeilIndex(s, mark) <= mark + 3
  {
    CeilIs(s, mark);
    if !IsBoundary(s, mark) {
      var lo, hi := BoundariesAround(s, mark);
      assert lo < mark;
    }
  }

  lemma {:induction false} EndsAreNearTheMarks(s: Bytes, keep: nat) returns (head: nat, tail: nat)
    requires IsText(s) && 0 < 2 * keep < |s|
    ensures keep - 3 <= head <= keep && |s| - keep <= tail <= |s| - keep + 3 && head <= tail <= |s|
    ensures KeepEnds(s, keep) == s[..head] + (Encode(Notice(tail - head, |s|)) + s[tail..])
    ensures head + NumberOf(Decimal(tail - head), 10) + (|s| - tail) == |s|
    ensures NumberOf(Decimal(|s|), 10) == |s|
  {
    head, tail := FloorIndex(s, keep), CeilIndex(s, |s| - keep);
    FloorIsNear(s, keep);
    CeilIsNear(s, |s| - keep);
    DigitsRoundTrip(tail - head, 10);
    DigitsRoundTrip(|s|, 10);
  }

  /** A payload of at most 8 KiB is not touched. */
  lemma SmallPayloadsStay(s: Bytes)
    requires |s| <= 8192
    ensures Clamped(s) == s
  {
  }

  /** An oversized text keeps a true prefix and suffix, each cut within 3 bytes of its 4 KiB mark,
      and the digits in the notice count exactly the bytes between them. */
  lemma {:induction false} ClampKeepsBothEnds(s: Bytes) returns (head: nat, tail: nat)
    requires IsText(s) && |s| > 8192
    ensures 4093 <= head <= 4096 && |s| - 4096 <= tail <= |s| - 4093
    ensures var (cut, whole) := (Decimal(tail - head), Decimal(|s|));
      var notice := "\n\U{2026} [" + cut + " of " + whole + " bytes truncated] \U{2026}\n";
      Clamped(s) == s[..head] + (Encode(notice) + s[tail..])
    ensures head + NumberOf(Decimal(tail - head), 10) + (|s| - tail) == |s|
    ensures NumberOf(Decimal(|s|), 10) == |s|
  {
    head, tail := EndsAreNearTheMarks(s, MAX_PAYLOAD_BYTES / 2);
  }

  lemma TailIsText(s: Bytes, i: nat)
    requires IsText(s) && i <= |s| && IsBoundary(s, i)
    ensures IsText(s[i..])
  {
    if i < |s| {
      var lo, hi := BoundariesAround(s, i);
    }
  }

  lemma TextsJoin(a: Bytes, notice: string, b: Bytes)
    requires IsText(a) && IsText(b)
    ensures IsText(a + (Encode(notice) + b))
  {
    EncodeInvertsDecode(a);
    EncodeInvertsDecode(b);
    var x, y := Decode(a).value, Decode(b).value;
    EncodeConcat(notice, y);
    EncodeConcat(x, notice + y);
    DecodeInvertsEncode(x + (notice + y));
  }
}
