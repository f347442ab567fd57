/** Character references and tags of the crash context (sections 4.1 and 4.6 of XML 1.0). */
module XmlText {
  import opened Sequences
  import opened Wrappers
  import opened Text
  import opened Numbers

  // ----- Numbers -----

  const U32_MAX := 0xFFFF_FFFF

  /** `u32::from_str_radix`: one leading plus sign is allowed, and the value must fit. */
  function ParseU32(s: string, radix: nat): Option<nat> {
    var t := if s != "" && s[0] == '+' then s[1..] else s;
    if t != "" && AllDigits(t, radix) && NumberOf(t, radix) <= U32_MAX then Some(NumberOf(t, radix)) else None
  }

  function CharOf(n: nat): Option<char> {
    if n < 0xD800 || 0xE000 <= n <= 0x10FFFF then Some(n as char) else None
  }

  // ----- Decoding -----

  /** What stands between `&` and `;`. */
  function DecodeEntity(entity: string): Option<char> {
    if entity == "amp" then Some('&')
    else if entity == "lt" then Some('<')
    else if entity == "gt" then Some('>')
    else if entity == "quot" then Some('"')
    else if entity == "apos" then Some('\'')
    else if entity != "" && entity[0] == '#' then DecodeNumber(entity[1..])
    else None
  }

  function DecodeNumber(s: string): Option<char> {
    var n := if s != "" && s[0] in {'x', 'X'} then ParseU32(s[1..], 16) else ParseU32(s, 10);
    match n
    case None => None
    case Some(code) => CharOf(code)
  }

  /** The longest entity a reference may hold. */
  const MAX_ENTITY := 9

  /** The character a reference after `&` stands for, and what follows its `;`. */
  function Reference(after: string): (r: Option<(char, string)>)
    ensures r.Some? ==> |r.value.1| < |after|
  {
    match SplitOnce(after, ';')
    case None => None
    case Some((entity, rest)) =>
      if |entity| > MAX_ENTITY then None
      else
        match DecodeEntity(entity)
        case None => None
        case Some(c) => Some((c, rest))
  }

  function Unescaped(s: string): string
    decreases |s|
  {
    match SplitOnce(s, '&')
    case None => s
    case Some((lit, after)) =>
      match Reference(after)
      case None => lit + ("&" + Unescaped(after))
      case Some((c, rest)) => lit + ([c] + Unescaped(rest))
  }

  lemma Splice(out: string, front: string, middle: string, back: string)
    ensures out + (front + (middle + back)) == (out + front + middle) + back
  {
  }

  method UnescapeXml(s: string) returns (out: string)
    ensures out == Unescaped(s)
  {
    out := "";
    var rest := s;
    ghost var goal := Unescaped(s);
    assert "" + goal == goal;
    while true
      invariant out + Unescaped(rest) == goal
      decreases |rest|
    {
      var cut := SplitOnce(rest, '&');
      if cut.None? {
        return out + rest;
      }
      var (lit, after) := cut.value;
      var decoded := Reference(after);
      if decoded.Some? {
        Splice(out, lit, [decoded.value.0], Unescaped(decoded.value.1));
        out := out + lit + [decoded.value.0];
        rest := decoded.value.1;
      } else {
        Splice(out, lit, "&", Unescaped(after));
        out := out + lit + "&";
        rest := after;
      }
    }
  }

  // ----- Encoding -----

  /** A character as it may be written: itself, a predefined entity, or its number. */
  datatype Written = Raw(c: char) | Named(c: char) | Decimal(c: char) | Hexadecimal(c: char)

  predicate WellWritten(w: Written) {
    match w
    case Raw(c) => c != '&'
    case Named(c) => c in {'&', '<', '>', '"', '\''}
    case Decimal(_) => true
    case Hexadecimal(_) => true
  }

  function EntityName(c: char): string {
    if c == '&' then "amp"
    else if c == '<' then "lt"
    else if c == '>' then "gt"
    else if c == '"' then "quot"
    else "apos"
  }

  function Entity(w: Written): string {
    match w
    case Raw(c) => [c]
    case Named(c) => EntityName(c)
    case Decimal(c) => "#" + Digits(c as int, 10)
    case Hexadecimal(c) => "#x" + Digits(c as int, 16)
  }

  function Write(w: Written, tail: string): string {
    if w.Raw? then [w.c] + tail else "&" + (Entity(w) + (";" + tail))
  }

  function WriteAll(ws: seq<Written>): string {
    if ws == [] then "" else Write(ws[0], WriteAll(ws[1..]))
  }

  function TextOf(ws: seq<Written>): string {
    if ws == [] then "" else [ws[0].c] + TextOf(ws[1..])
  }

  // ----- Numbers read back -----

  lemma CodeFits(c: char)
    ensures c as int < Power(10, 7) && c as int < Power(16, 6)
  {
    assert Power(10, 7) == 10000000;
    assert Power(16, 6) == 16777216;
  }

  lemma CodeIsChar(c: char)
    ensures CharOf(c as int) == Some(c)
  {
  }

  lemma NumberReadsBack(c: char, radix: nat)
    requires radix == 10 || radix == 16
    ensures ParseU32(Digits(c as int, radix), radix) == Some(c as int)
    ensures Digits(c as int, radix)[0] !in {'x', 'X', '+'} && ';' !in Digits(c as int, radix)
    ensures |Digits(c as int, radix)| <= 7
  {
    var digits := Digits(c as int, radix);
    DigitsRoundTrip(c as int, radix);
    assert digits[0] in digits;
    CodeFits(c);
    DigitsFit(c as int, radix, if radix == 10 then 7 else 6);
  }

  lemma {:induction false} NameDecodes(c: char, name: string)
    requires c in {'&', '<', '>', '"', '\''} && name == EntityName(c)
    ensures DecodeEntity(name) == Some(c) && ';' !in name && |name| <= 9
  {
  }

  lemma {:induction false} DecimalDecodes(c: char, digits: string, entity: string)
    requires digits == Digits(c as int, 10) && entity == "#" + digits
    ensures DecodeEntity(entity) == Some(c) && ';' !in entity && |entity| <= 9
  {
    NumberReadsBack(c, 10);
    CodeIsChar(c);
    NumberEntity(digits, c);
  }

  lemma {:induction false} HexadecimalDecodes(c: char, digits: string, entity: string)
    requires digits == Digits(c as int, 16) && entity == "#x" + digits
    ensures DecodeEntity(entity) == Some(c) && ';' !in entity && |entity| <= 9
  {
    NumberReadsBack(c, 16);
    CodeIsChar(c);
    assert ("x" + digits)[1..] == digits;
    assert entity == "#" + ("x" + digits);
    NumberEntity("x" + digits, c);
  }

  /** Every written entity decodes to its character. */
  lemma EntityDecodes(w: Written)
    requires WellWritten(w) && !w.Raw?
    ensures DecodeEntity(Entity(w)) == Some(w.c) && ';' !in Entity(w) && |Entity(w)| <= 9
  {
    match w
    case Named(c) => NameDecodes(c, EntityName(c));
    case Decimal(c) => DecimalDecodes(c, Digits(c as int, 10), Entity(w));
    case Hexadecimal(c) => HexadecimalDecodes(c, Digits(c as int, 16), Entity(w));
  }

  lemma NumberEntity(s: string, c: char)
    requires DecodeNumber(s) == Some(c)
    ensures DecodeEntity("#" + s) == Some(c)
  {
    assert ("#" + s)[0] == '#' && ("#" + s)[1..] == s;
  }

  // ----- Round trip -----

  lemma WrittenDecodes(w: Written, tail: string)
    requires WellWritten(w)
    ensures Unescaped(Write(w, tail)) == [w.c] + Unescaped(tail)
  {
    if w.Raw? {
      RawPasses(w.c, tail);
    } else {
      EntityDecodes(w);
      SplitOnceAt("", '&', Entity(w) + (";" + tail));
      assert "" + ("&" + (Entity(w) + (";" + tail))) == "&" + (Entity(w) + (";" + tail));
      SplitOnceAt(Entity(w), ';', tail);
      assert "" + ([w.c] + Unescaped(tail)) == [w.c] + Unescaped(tail);
    }
  }

  lemma RawPasses(c: char, tail: string)
    requires c != '&'
    ensures Unescaped([c] + tail) == [c] + Unescaped(tail)
  {
    SplitOnceParts(tail, '&');
    if SplitOnce(tail, '&').None? {
      SplitOnceParts([c] + tail, '&');
    } else {
      var (lit, after) := SplitOnce(tail, '&').value;
      RawBeforeReference(c, lit, after);
    }
  }

  /** What a reference, or a bare `&`, becomes together with all that follows. */
  function AfterAmp(after: string): string {
    match Reference(after)
    case None => "&" + Unescaped(after)
    case Some((d, rest)) => [d] + Unescaped(rest)
  }

  lemma AmpSplits(lit: string, after: string)
    requires '&' !in lit
    ensures Unescaped(lit + ("&" + after)) == lit + AfterAmp(after)
  {
    SplitOnceAt(lit, '&', after);
  }

  lemma RawBeforeReference(c: char, lit: string, after: string)
    requires c != '&' && '&' !in lit
    ensures Unescaped([c] + (lit + ("&" + after))) == [c] + Unescaped(lit + ("&" + after))
  {
    AmpSplits(lit, after);
    AmpSplits([c] + lit, after);
    Associates([c], lit, "&" + after);
    Associates([c], lit, AfterAmp(after));
  }

  /** However each character is written, decoding in one pass gives the text back. */
  lemma {:induction false} UnescapeInvertsEscape(ws: seq<Written>)
    requires forall w :: w in ws ==> WellWritten(w)
    ensures Unescaped(WriteAll(ws)) == TextOf(ws)
    decreases |ws|
  {
    if ws == [] {
      SplitOnceParts("", '&');
    } else {
      WrittenDecodes(ws[0], WriteAll(ws[1..]));
      UnescapeInvertsEscape(ws[1..]);
    }
  }

  /** The usual escaping: the five predefined entities for their characters, the rest as is. */
  function Escaping(s: string): seq<Written> {
    if s == "" then []
    else [if s[0] in {'&', '<', '>', '"', '\''} then Named(s[0]) else Raw(s[0])] + Escaping(s[1..])
  }

  lemma EscapingSpells(s: string)
    ensures TextOf(Escaping(s)) == s
    ensures forall w :: w in Escaping(s) ==> WellWritten(w)
  {
  }

  /** Escaping any text and decoding it gives the text back. */
  lemma EscapedTextRoundTrips(s: string)
    ensures Unescaped(WriteAll(Escaping(s))) == s
  {
    EscapingSpells(s);
    UnescapeInvertsEscape(Escaping(s));
  }

  // ----- Numbers that are references -----

  /** A number in digits of its radix stands for the character with that code, if there is one. */
  function CharacterOf(digits: string, radix: nat): Option<char> {
    var n := NumberOf(digits, radix);
    if n < 0xD800 || 0xE000 <= n <= 0x10FFFF then Some(n as char) else None
  }

  lemma {:induction false} DigitsParse(digits: string, radix: nat)
    requires digits != "" && AllDigits(digits, radix) && radix <= 16
    ensures var n := NumberOf(digits, radix); ParseU32(digits, radix) == if n < 0x1_0000_0000 then Some(n) else None
  {
    assert digits[0] in digits;
    assert DigitValue('+') == 99;
  }

  lemma {:induction false} NumberBehindMark(s: string)
    ensures DecodeEntity("#" + s) == DecodeNumber(s)
  {
    assert ("#" + s)[0] == '#' && ("#" + s)[1..] == s;
  }

  lemma {:induction false} CodeIs(digits: string, radix: nat)
    requires digits != "" && AllDigits(digits, radix) && radix in {10, 16}
    ensures var n := ParseU32(digits, radix);
      (if n.None? then None else CharOf(n.value)) == CharacterOf(digits, radix)
  {
    DigitsParse(digits, radix);
  }

  lemma {:induction false} DecimalNumber(digits: string)
    requires digits != "" && AllDigits(digits, 10)
    ensures DecodeNumber(digits) == CharacterOf(digits, 10)
  {
    assert digits[0] in digits && DigitValue('x') == 99 && DigitValue('X') == 99;
    CodeIs(digits, 10);
  }

  lemma {:induction false} HexadecimalNumber(digits: string, mark: char)
    requires digits != "" && AllDigits(digits, 16) && mark in {'x', 'X'}
    ensures DecodeNumber([mark] + digits) == CharacterOf(digits, 16)
  {
    assert ([mark] + digits)[1..] == digits;
    CodeIs(digits, 16);
  }

  /** `#` and decimal digits stand for the character with that code, if there is one. */
  lemma {:induction false} DecimalNumbersDecode(digits: string)
    requires digits != "" && AllDigits(digits, 10)
    ensures DecodeEntity("#" + digits) == CharacterOf(digits, 10)
  {
    NumberBehindMark(digits);
    DecimalNumber(digits);
  }

  /** So do `#x` or `#X` and hexadecimal digits, in either case. */
  lemma {:induction false} HexadecimalNumbersDecode(digits: string, mark: char)
    requires digits != "" && AllDigits(digits, 16) && mark in {'x', 'X'}
    ensures DecodeEntity("#" + ([mark] + digits)) == CharacterOf(digits, 16)
  {
    NumberBehindMark([mark] + digits);
    HexadecimalNumber(digits, mark);
  }

  // ----- What is no reference -----

  /** The text up to the first semicolon is no name or number that a reference can hold. */
  ghost predicate NoReference(after: string) {
    forall entity: string, rest: string :: after == entity + ([';'] + rest) && ';' !in entity ==>
      |entity| > 9 || NamesNothing(entity)
  }

  predicate NamesNothing(entity: string) {
    entity !in {"amp", "lt", "gt", "quot", "apos"} && (entity == "" || entity[0] != '#')
  }

  lemma {:induction false} NothingDecoded(entity: string)
    requires NamesNothing(entity)
    ensures DecodeEntity(entity) == None
  {
  }

  lemma {:induction false} NothingReferred(after: string)
    requires NoReference(after)
    ensures Reference(after) == None
  {
    SplitOnceParts(after, ';');
    if SplitOnce(after, ';').Some? {
      var (entity, rest) := SplitOnce(after, ';').value;
      assert |entity| > 9 || NamesNothing(entity);
      if |entity| <= 9 {
        NothingDecoded(entity);
      }
    }
  }

  /** An ampersand that starts no reference stays, and what follows it is read on. */
  lemma {:induction false} OtherAmpersandsStay(lit: string, after: string)
    requires '&' !in lit && NoReference(after)
    ensures Unescaped(lit + (['&'] + after)) == lit + ("&" + Unescaped(after))
  {
    SplitOnceAt(lit, '&', after);
    NothingReferred(after);
  }

  // ----- Tags -----

  function StripPrefix(s: string, prefix: string): (r: Option<string>)
    ensures r.Some? ==> |r.value| + |prefix| == |s|
  {
    if prefix == "" then Some(s)
    else if s != "" && s[0] == prefix[0] then StripPrefix(s[1..], prefix[1..])
    else None
  }

  /** What comes before and after the first occurrence of `mark`. */
  function CutAt(s: string, mark: string): Option<(string, string)> {
    var here := StripPrefix(s, mark);
    if here.Some? then Some(("", here.value))
    else if s == "" then None
    else
      match CutAt(s[1..], mark)
      case None => None
      case Some((before, after)) => Some(([s[0]] + before, after))
  }

  function OpenTag(name: string): string { "<" + (name + ">") }

  function CloseTag(name: string): string { "<" + ("/" + (name + ">")) }

  /** Inner text of the first such element, unescaped and trimmed; none when that is empty. */
  function Tag(xml: string, name: string): Option<string> {
    match CutAt(xml, OpenTag(name))
    case None => None
    case Some((_, rest)) =>
      match CutAt(rest, CloseTag(name))
      case None => None
      case Some((inner, _)) =>
        var v := Unescaped(Trim(inner));
        if v == "" then None else Some(v)
  }

  lemma {:induction false} PrefixStrips(prefix: string, t: string)
    ensures StripPrefix(prefix + t, prefix) == Some(t)
    decreases |prefix|
  {
    if prefix == "" {
      assert prefix + t == t;
    } else {
      assert (prefix + t)[1..] == prefix[1..] + t;
      PrefixStrips(prefix[1..], t);
    }
  }

  lemma {:induction false} StripIsPrefix(s: string, prefix: string)
    ensures StripPrefix(s, prefix).Some? ==> s == prefix + StripPrefix(s, prefix).value
    decreases |prefix|
  {
    if prefix != "" && s != "" && s[0] == prefix[0] {
      StripIsPrefix(s[1..], prefix[1..]);
      assert s == [s[0]] + s[1..] && prefix == [prefix[0]] + prefix[1..];
    }
  }

  lemma {:induction false} CutIsAtMark(s: string, mark: string)
    ensures CutAt(s, mark).Some? ==> s == CutAt(s, mark).value.0 + (mark + CutAt(s, mark).value.1)
    decreases |s|
  {
    StripIsPrefix(s, mark);
    if StripPrefix(s, mark).None? && s != "" {
      CutIsAtMark(s[1..], mark);
      assert s == [s[0]] + s[1..];
    }
  }

  /** A text with a value for a tag has the element: its opening, the value around which blanks are cut, and its
      close; without them there is none. */
  lemma {:induction false} TagNeedsItsElement(xml: string, name: string)
    returns (before: string, inner: string, after: string)
    ensures Tag(xml, name).Some? ==>
      && xml == before + (OpenTag(name) + (inner + (CloseTag(name) + after)))
      && Tag(xml, name).value == Unescaped(Trim(inner)) != ""
  {
    before, inner, after := "", "", "";
    CutIsAtMark(xml, OpenTag(name));
    if CutAt(xml, OpenTag(name)).Some? {
      var (first, rest) := CutAt(xml, OpenTag(name)).value;
      CutIsAtMark(rest, CloseTag(name));
      if CutAt(rest, CloseTag(name)).Some? {
        before, inner, after := first, CutAt(rest, CloseTag(name)).value.0, CutAt(rest, CloseTag(name)).value.1;
      }
    }
  }

  lemma {:induction false} CutsAtFirst(body: string, mark: string, after: string)
    requires mark != "" && mark[0] !in body
    ensures CutAt(body + (mark + after), mark) == Some((body, after))
    decreases |body|
  {
    if body == "" {
      assert body + (mark + after) == mark + after;
      PrefixStrips(mark, after);
    } else {
      assert (body + (mark + after))[1..] == body[1..] + (mark + after);
      CutsAtFirst(body[1..], mark, after);
      assert body == [body[0]] + body[1..];
    }
  }

  lemma {:induction false} TrimDropsPadding(a: string, v: string, b: string)
    requires (forall c :: c in a || c in b ==> IsWhitespace(c)) && Trimmed(v) && v != ""
    ensures Trim(a + (v + b)) == v
    decreases |a|, |b|
  {
    var s := a + (v + b);
    if a != "" {
      assert s[1..] == a[1..] + (v + b) && s[0] in a;
      TrimDropsPadding(a[1..], v, b);
    } else {
      assert s == v + b;
      TrimEndDrops(v, b);
    }
  }

  lemma {:induction false} TrimEndDrops(v: string, b: string)
    requires (forall c :: c in b ==> IsWhitespace(c)) && Trimmed(v) && v != ""
    ensures TrimEnd(v + b, IsWhitespace) == v
    decreases |b|
  {
    if b == "" {
      assert v + b == v;
    } else {
      assert (v + b)[..|v + b| - 1] == v + b[..|b| - 1] && b[|b| - 1] in b;
      TrimEndDrops(v, b[..|b| - 1]);
    }
  }

  /** The value written, padded, between the first opening tag and its close is recovered. */
  lemma TagRecoversValue(before: string, name: string, a: string, ws: seq<Written>, b: string, after: string)
    requires forall w :: w in ws ==> WellWritten(w) && w != Raw('<')
    requires forall c :: c in a || c in b ==> IsWhitespace(c)
    requires ws != [] && Trimmed(WriteAll(ws))
    requires var element := a + (WriteAll(ws) + b) + (CloseTag(name) + after);
      CutAt(before + (OpenTag(name) + element), OpenTag(name)) == Some((before, element))
    ensures Tag(before + (OpenTag(name) + (a + (WriteAll(ws) + b) + (CloseTag(name) + after))), name)
      == Some(TextOf(ws))
  {
    var body := a + (WriteAll(ws) + b);
    WrittenHasNoAngle(ws);
    assert '<' !in body;
    CutsAtFirst(body, CloseTag(name), after);
    assert WriteAll(ws) != "";
    TrimDropsPadding(a, WriteAll(ws), b);
    UnescapeInvertsEscape(ws);
  }

  lemma {:induction false} WrittenHasNoAngle(ws: seq<Written>)
    requires forall w :: w in ws ==> WellWritten(w) && w != Raw('<')
    ensures '<' !in WriteAll(ws)
    decreases |ws|
  {
    if ws != [] {
      WrittenHasNoAngle(ws[1..]);
      EntityHasNoAngle(ws[0]);
    }
  }

  lemma EntityHasNoAngle(w: Written)
    requires WellWritten(w) && w != Raw('<')
    ensures '<' !in Entity(w)
  {
    match w
    case Raw(_) =>
    case Named(_) =>
    case Decimal(c) => DigitsRoundTrip(c as int, 10);
    case Hexadecimal(c) => DigitsRoundTrip(c as int, 16);
  }
}
