/** UTF-8 (section 3 of RFC 3629). */
module Utf8 {
  import opened Wrappers
  import opened Text

  type Byte = b: int | 0 <= b < 256

  type Bytes = seq<Byte>

  predicate IsContinuation(b: Byte) { 0x80 <= b < 0xC0 }

  function EncodeChar(c: char): (r: Bytes)
    ensures |r| == Utf8Width(c) && 1 <= |r| <= 4
  {
    var n := c as int;
    if n < 0x80 then [n]
    else if n < 0x800 then [0xC0 + n / 64, 0x80 + n % 64]
    else if n < 0x10000 then [0xE0 + n / 64 / 64, 0x80 + n / 64 % 64, 0x80 + n % 64]
    else [0xF0 + n / 64 / 64 / 64, 0x80 + n / 64 / 64 % 64, 0x80 + n / 64 % 64, 0x80 + n % 64]
  }

  function Encode(s: string): Bytes {
    if s == "" then [] else EncodeChar(s[0]) + Encode(s[1..])
  }

  /** A lead byte and `k` continuation bytes, as a number. */
  predicate Continued(b: Bytes, k: nat) {
    |b| > k && forall i :: 1 <= i <= k ==> IsContinuation(b[i])
  }

  /** Six more bits. */
  function More(n: nat, b: Byte): nat
    requires IsContinuation(b)
  {
    n * 64 + (b - 0x80)
  }

  /** The number the first sequence of `b` encodes and its length, when it is well formed: no
      overlong forms, no surrogates, nothing above U+10FFFF. */
  function LeadNumber(b: Bytes): Option<(nat, nat)> {
    if b == [] then None
    else if b[0] < 0x80 then Some((b[0], 1))
    else if 0xC0 <= b[0] < 0xE0 && Continued(b, 1) then
      var n := More(b[0] - 0xC0, b[1]);
      if n >= 0x80 then Some((n, 2)) else None
    else if 0xE0 <= b[0] < 0xF0 && Continued(b, 2) then
      var n := More(More(b[0] - 0xE0, b[1]), b[2]);
      if n >= 0x800 && !(0xD800 <= n < 0xE000) then Some((n, 3)) else None
    else if 0xF0 <= b[0] < 0xF8 && Continued(b, 3) then
      var n := More(More(More(b[0] - 0xF0, b[1]), b[2]), b[3]);
      if 0x10000 <= n <= 0x10FFFF then Some((n, 4)) else None
    else None
  }

  lemma MoreSplits(n: nat, b: Byte)
    requires IsContinuation(b)
    ensures More(n, b) / 64 == n && More(n, b) % 64 == b - 0x80
  {
  }

  lemma SplitMore(n: nat)
    ensures More(n / 64, 0x80 + n % 64) == n
  {
  }

  lemma LeadNumberIsChar(b: Bytes)
    requires LeadNumber(b).Some?
    ensures var (n, k) := LeadNumber(b).value;
      && (n < 0xD800 || 0xE000 <= n <= 0x10FFFF)
      && 1 <= k <= |b| && EncodeChar(n as char) == b[..k]
  {
    var (n, k) := LeadNumber(b).value;
    if k == 2 {
      MoreSplits(b[0] - 0xC0, b[1]);
    } else if k == 3 {
      var m := More(b[0] - 0xE0, b[1]);
      MoreSplits(b[0] - 0xE0, b[1]);
      MoreSplits(m, b[2]);
    } else if k == 4 {
      var m := More(b[0] - 0xF0, b[1]);
      MoreSplits(b[0] - 0xF0, b[1]);
      MoreSplits(m, b[2]);
      MoreSplits(More(m, b[2]), b[3]);
    }
  }

  /** `String::from_utf8`. */
  function Decode(b: Bytes): Option<string>
    decreases |b|
  {
    if b == [] then Some("")
    else
      match LeadNumber(b)
      case None => None
      case Some((n, k)) =>
        LeadNumberIsChar(b);
        match Decode(b[k..])
        case None => None
        case Some(rest) => Some([n as char] + rest)
  }

  lemma EncodedLeads(c: char, t: Bytes)
    ensures LeadNumber(EncodeChar(c) + t) == Some((c as int, Utf8Width(c)))
    ensures (EncodeChar(c) + t)[Utf8Width(c)..] == t
  {
    var n := c as int;
    SplitMore(n);
    if n >= 0x800 {
      SplitMore(n / 64);
    }
    if n >= 0x10000 {
      SplitMore(n / 64 / 64);
    }
  }

  /** Decoding what was encoded gives the text back. */
  lemma {:induction false} DecodeInvertsEncode(s: string)
    ensures Decode(Encode(s)) == Some(s)
    decreases |s|
  {
    if s != "" {
      EncodedLeads(s[0], Encode(s[1..]));
      DecodeInvertsEncode(s[1..]);
      assert s == [s[0]] + s[1..];
    }
  }

  lemma EncodeCons(c: char, rest: string)
    ensures Encode([c] + rest) == EncodeChar(c) + Encode(rest)
  {
    assert ([c] + rest)[1..] == rest;
  }

  /** What decoding takes off the front: one character's bytes. */
  lemma {:induction false} DecodeStep(b: Bytes) returns (c: char, rest: string, head: Bytes, tail: Bytes)
    requires b != [] && Decode(b).Some?
    ensures b == head + tail && |tail| < |b| && EncodeChar(c) == head
    ensures Decode(tail) == Some(rest) && Decode(b) == Some([c] + rest)
  {
    LeadNumberIsChar(b);
    var (n, k) := LeadNumber(b).value;
    c, head, tail := n as char, b[..k], b[k..];
    rest := Decode(tail).value;
  }

  lemma {:induction false} EncodesBack(b: Bytes, c: char, rest: string, head: Bytes, tail: Bytes, all: string)
    requires all == [c] + rest && EncodeChar(c) == head && Encode(rest) == tail && b == head + tail
    ensures Encode(all) == b
  {
    EncodeCons(c, rest);
  }

  /** Bytes that decode are the encoding of what they decode to. */
  lemma {:induction false} EncodeInvertsDecode(b: Bytes)
    requires Decode(b).Some?
    ensures Encode(Decode(b).value) == b
    decreases |b|
  {
    if b != [] {
      var c, rest, head, tail := DecodeStep(b);
      EncodeInvertsDecode(tail);
      EncodesBack(b, c, rest, head, tail, Decode(b).value);
    }
  }

  lemma {:induction false} EncodeConcat(a: string, b: string)
    ensures Encode(a + b) == Encode(a) + Encode(b)
    decreases |a|
  {
    if a == "" {
      assert a + b == b;
    } else {
      assert (a + b)[1..] == a[1..] + b;
      EncodeConcat(a[1..], b);
    }
  }

  lemma {:induction false} EncodeLength(s: string)
    ensures |Encode(s)| == Utf8Len(s)
    decreases |s|
  {
    if s != "" {
      EncodeLength(s[1..]);
    }
  }
}
