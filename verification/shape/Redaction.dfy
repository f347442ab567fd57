/** Log rendering of a command that keeps sensitive fields out of the text. */
module Redaction {
  import opened Sequences
  import opened Text
  import opened Utf8
  import opened Numbers

  const MAX_DEPTH := 12

  datatype FieldsKind = Named | Positional

  datatype Field = Field(name: string, sensitive: bool, value: Value)

  /** A reflected value; `Scalar` carries its own debug text. */
  datatype Value =
    | Absent
    | Present(inner: Value)
    | ByteList(bytes: Bytes)
    | ListOf(items: seq<Value>)
    | MapOf(entries: seq<(Value, Value)>)
    | StructOf(name: string, kind: FieldsKind, fields: seq<Field>)
    | EnumOf(variant: string, kind: FieldsKind, fields: seq<Field>)
    | Scalar(text: string)

  // ----- The rendered text -----

  function Rendered(v: Value, depth: nat): string
    decreases v, 1, 0
  {
    if depth >= MAX_DEPTH then ".."
    else
      match v
      case Present(inner) => Rendered(inner, depth)
      case Absent => "None"
      case ByteList(bytes) => "<" + Decimal(|bytes|) + " bytes>"
      case ListOf(items) => "[" + ItemsFrom(v, items, 0, depth) + "]"
      case MapOf(entries) => "{" + Decimal(|entries|) + " entries}"
      case StructOf(name, kind, fields) => name + Fields(v, kind, fields, depth)
      case EnumOf(variant, kind, fields) => variant + Fields(v, kind, fields, depth)
      case Scalar(text) => text
  }

  function ItemsFrom(v: Value, items: seq<Value>, i: nat, depth: nat): string
    requires v.ListOf? && v.items == items && i <= |items|
    decreases v, 0, |items| - i
  {
    if i == |items| then ""
    else (if i > 0 then ", " else "") + (Rendered(items[i], depth + 1) + ItemsFrom(v, items, i + 1, depth))
  }

  predicate HasFields(v: Value, fields: seq<Field>) {
    (v.StructOf? && v.fields == fields) || (v.EnumOf? && v.fields == fields)
  }

  function Opening(kind: FieldsKind, i: nat): string {
    if i > 0 then ", " else if kind == Named then " { " else "("
  }

  function Label(kind: FieldsKind, f: Field): string { if kind == Named then f.name + ": " else "" }

  function Fields(v: Value, kind: FieldsKind, fields: seq<Field>, depth: nat): string
    requires HasFields(v, fields)
    decreases v, 0, |fields| + 1
  {
    FieldsFrom(v, kind, fields, 0, depth) +
    if fields == [] then "" else if kind == Named then " }" else ")"
  }

  function FieldsFrom(v: Value, kind: FieldsKind, fields: seq<Field>, i: nat, depth: nat): string
    requires HasFields(v, fields) && i <= |fields|
    decreases v, 0, |fields| - i
  {
    if i == |fields| then ""
    else
      var f := fields[i];
      Opening(kind, i) + (Label(kind, f) + (Shown(f, depth) + FieldsFrom(v, kind, fields, i + 1, depth)))
  }

  function Shown(f: Field, depth: nat): string
    decreases f, 0
  {
    if f.sensitive then "<redacted>" else Rendered(f.value, depth + 1)
  }

  // ----- The formatter -----

  class Formatter {
    var text: string

    constructor ()
      ensures text == ""
    {
      text := "";
    }

    method Write(s: string)
      modifies this
      ensures text == old(text) + s
    {
      text := text + s;
    }

    method Render(v: Value, depth: nat)
      modifies this
      ensures text == old(text) + Rendered(v, depth)
      decreases v, 1, 0
    {
      if depth >= MAX_DEPTH {
        Write("..");
        return;
      }
      match v
      case Present(inner) => Render(inner, depth);
      case Absent => Write("None");
      case ByteList(bytes) => Write("<" + Decimal(|bytes|) + " bytes>");
      case ListOf(items) => RenderItems(v, items, depth);
      case MapOf(entries) => Write("{" + Decimal(|entries|) + " entries}");
      case StructOf(name, kind, fields) =>
        Write(name);
        RenderFields(v, kind, fields, depth);
        Append(old(text), name, Fields(v, kind, fields, depth));
      case EnumOf(variant, kind, fields) =>
        Write(variant);
        RenderFields(v, kind, fields, depth);
        Append(old(text), variant, Fields(v, kind, fields, depth));
      case Scalar(t) => Write(t);
    }

    method RenderItems(v: Value, items: seq<Value>, depth: nat)
      requires v.ListOf? && v.items == items
      modifies this
      ensures text == old(text) + ("[" + ItemsFrom(v, items, 0, depth) + "]")
      decreases v, 0
    {
      ghost var start := text;
      Write("[");
      ghost var inside := text;
      for i := 0 to |items|
        invariant text + ItemsFrom(v, items, i, depth) == inside + ItemsFrom(v, items, 0, depth)
      {
        ghost var before, rest := text, ItemsFrom(v, items, i + 1, depth);
        if i > 0 {
          Write(", ");
        }
        ghost var item := Rendered(items[i], depth + 1);
        Render(items[i], depth + 1);
        Append3(before, if i > 0 then ", " else "", item, rest);
      }
      Write("]");
      Bracketed(start, ItemsFrom(v, items, 0, depth));
    }

    method RenderField(kind: FieldsKind, f: Field, first: bool, depth: nat)
      modifies this
      ensures text == old(text) + (Opening(kind, if first then 0 else 1) + (Label(kind, f) + Shown(f, depth)))
      decreases f, 0
    {
      ghost var before := text;
      ghost var opening := Opening(kind, if first then 0 else 1);
      Write(if first then if kind == Named then " { " else "(" else ", ");
      if kind == Named {
        Write(f.name + ": ");
      } else {
        assert before + opening == before + opening + Label(kind, f);
      }
      assert text == before + opening + Label(kind, f);
      if f.sensitive {
        Write("<redacted>");
      } else {
        Render(f.value, depth + 1);
      }
      Append3(before, opening, Label(kind, f), Shown(f, depth));
    }

    method RenderFields(v: Value, kind: FieldsKind, fields: seq<Field>, depth: nat)
      requires HasFields(v, fields)
      modifies this
      ensures text == old(text) + Fields(v, kind, fields, depth)
      decreases v, 0
    {
      ghost var start := text;
      var first := true;
      for i := 0 to |fields|
        invariant first <==> i == 0
        invariant text + FieldsFrom(v, kind, fields, i, depth) == start + FieldsFrom(v, kind, fields, 0, depth)
      {
        ghost var before, rest := text, FieldsFrom(v, kind, fields, i + 1, depth);
        RenderField(kind, fields[i], first, depth);
        first := false;
        Listed(before, Opening(kind, i), Label(kind, fields[i]), Shown(fields[i], depth), rest, text);
      }
      if !first {
        Write(if kind == Named then " }" else ")");
      }
      var close := if fields == [] then "" else if kind == Named then " }" else ")";
      Append(start, FieldsFrom(v, kind, fields, 0, depth), close);
    }
  }

  lemma Bracketed(start: string, items: string)
    ensures start + "[" + items + "]" == start + ("[" + items + "]")
  {
  }

  lemma Append(a: string, b: string, c: string)
    ensures a + (b + c) == a + b + c
  {
  }

  lemma Append3(a: string, b: string, c: string, d: string)
    ensures a + (b + (c + d)) == a + b + c + d
    ensures a + b == (if b == "" then a else a + b)
  {
  }

  lemma Listed(a: string, b: string, c: string, d: string, e: string, text: string)
    requires text == a + (b + (c + d))
    ensures text + e == a + (b + (c + (d + e)))
  {
  }

  // ----- What the text is -----

  /** A field as it is listed: with its name when the fields are named, and only a mark when it is sensitive. */
  function FieldText(kind: FieldsKind, f: Field, depth: nat): string {
    (if kind == Named then f.name + ": " else "") + if f.sensitive then "<redacted>" else Rendered(f.value, depth)
  }

  function FieldTexts(kind: FieldsKind, fields: seq<Field>, depth: nat): seq<string> {
    seq(|fields|, i requires 0 <= i < |fields| => FieldText(kind, fields[i], depth))
  }

  function ItemTexts(items: seq<Value>, depth: nat): seq<string> {
    seq(|items|, i requires 0 <= i < |items| => Rendered(items[i], depth))
  }

  /** The fields between their brackets, separated by commas; nothing at all when there are none. */
  function Braced(kind: FieldsKind, texts: seq<string>): string {
    if texts == [] then ""
    else if kind == Named then " { " + JoinWith(texts, ", ") + " }"
    else "(" + JoinWith(texts, ", ") + ")"
  }

  lemma {:induction false} JoinSplits(texts: seq<string>, i: nat)
    requires i < |texts|
    ensures JoinWith(texts[i..], ", ") ==
      texts[i] + if i + 1 < |texts| then ", " + JoinWith(texts[i + 1..], ", ") else ""
  {
    assert texts[i..][0] == texts[i] && texts[i..][1..] == texts[i + 1..];
    if i + 1 < |texts| {
      assert texts[i] + ", " + JoinWith(texts[i + 1..], ", ") == texts[i] + (", " + JoinWith(texts[i + 1..], ", "));
    } else {
      assert texts[i] + "" == texts[i];
    }
  }

  lemma {:induction false} ItemsAreJoined(v: Value, items: seq<Value>, i: nat, depth: nat)
    requires v.ListOf? && v.items == items && i < |items|
    ensures ItemsFrom(v, items, i, depth) ==
      (if i > 0 then ", " else "") + JoinWith(ItemTexts(items, depth + 1)[i..], ", ")
    decreases |items| - i
  {
    var texts := ItemTexts(items, depth + 1);
    JoinSplits(texts, i);
    if i + 1 < |items| {
      ItemsAreJoined(v, items, i + 1, depth);
    }
  }

  lemma {:induction false} FieldsAreJoined(v: Value, kind: FieldsKind, fields: seq<Field>, i: nat, depth: nat)
    requires HasFields(v, fields) && i < |fields|
    ensures FieldsFrom(v, kind, fields, i, depth) ==
      Opening(kind, i) + JoinWith(FieldTexts(kind, fields, depth + 1)[i..], ", ")
    decreases |fields| - i
  {
    var texts := FieldTexts(kind, fields, depth + 1);
    JoinSplits(texts, i);
    var rest := if i + 1 < |fields| then ", " + JoinWith(texts[i + 1..], ", ") else "";
    if i + 1 < |fields| {
      FieldsAreJoined(v, kind, fields, i + 1, depth);
    }
    assert FieldsFrom(v, kind, fields, i + 1, depth) == rest;
    Associates(Label(kind, fields[i]), Shown(fields[i], depth), rest);
    assert texts[i] == Label(kind, fields[i]) + Shown(fields[i], depth);
  }

  lemma {:induction false} FieldsAreBraced(v: Value, kind: FieldsKind, fields: seq<Field>, depth: nat)
    requires HasFields(v, fields)
    ensures Fields(v, kind, fields, depth) == Braced(kind, FieldTexts(kind, fields, depth + 1))
  {
    var texts := FieldTexts(kind, fields, depth + 1);
    if fields != [] {
      FieldsAreJoined(v, kind, fields, 0, depth);
      assert texts[0..] == texts;
    }
  }

  /** Every value's text, part by part: the parts of lists and fields are one level deeper, and from the twelfth
      level on only two dots are left. */
  lemma {:induction false} TextsAre(v: Value, depth: nat)
    ensures Rendered(v, depth) ==
      if depth >= 12 then ".."
      else
        match v
        case Present(inner) => Rendered(inner, depth)
        case Absent => "None"
        case ByteList(bytes) => "<" + Decimal(|bytes|) + " bytes>"
        case ListOf(items) => "[" + JoinWith(ItemTexts(items, depth + 1), ", ") + "]"
        case MapOf(entries) => "{" + Decimal(|entries|) + " entries}"
        case StructOf(name, kind, fields) => name + Braced(kind, FieldTexts(kind, fields, depth + 1))
        case EnumOf(variant, kind, fields) => variant + Braced(kind, FieldTexts(kind, fields, depth + 1))
        case Scalar(text) => text
  {
    if depth < MAX_DEPTH {
      match v
      case ListOf(items) =>
        var texts := ItemTexts(items, depth + 1);
        if items != [] {
          ItemsAreJoined(v, items, 0, depth);
          assert texts[0..] == texts;
        }
      case StructOf(name, kind, fields) => FieldsAreBraced(v, kind, fields, depth);
      case EnumOf(variant, kind, fields) => FieldsAreBraced(v, kind, fields, depth);
      case _ =>
    }
  }

  // ----- What the text does not depend on -----

  /** From this depth on the two values differ at most in what is sensitive, counted or too deep: inside
      sensitive fields, in map entries and bytes as many on both sides, and at or below the depth limit. */
  predicate SameShown(v: Value, w: Value, depth: nat)
    decreases v
  {
    depth >= MAX_DEPTH ||
    match v
    case Present(x) => w.Present? && SameShown(x, w.inner, depth)
    case ByteList(bytes) => w.ByteList? && |w.bytes| == |bytes|
    case ListOf(items) =>
      && w.ListOf? && |w.items| == |items|
      && forall i :: 0 <= i < |items| ==> SameShown(items[i], w.items[i], depth + 1)
    case MapOf(entries) => w.MapOf? && |w.entries| == |entries|
    case StructOf(name, kind, fields) =>
      && w.StructOf? && w.name == name && w.kind == kind && |w.fields| == |fields|
      && forall i :: 0 <= i < |fields| ==> SameField(fields[i], w.fields[i], depth + 1)
    case EnumOf(variant, kind, fields) =>
      && w.EnumOf? && w.variant == variant && w.kind == kind && |w.fields| == |fields|
      && forall i :: 0 <= i < |fields| ==> SameField(fields[i], w.fields[i], depth + 1)
    case _ => v == w
  }

  predicate SameField(f: Field, g: Field, depth: nat)
    decreases f
  {
    f.name == g.name && f.sensitive == g.sensitive && (f.sensitive || SameShown(f.value, g.value, depth))
  }

  /** Values that differ only in what is sensitive, counted or too deep render to the same text. */
  lemma {:induction false} RedactionIsNonInterfering(v: Value, w: Value, depth: nat)
    requires SameShown(v, w, depth)
    ensures Rendered(v, depth) == Rendered(w, depth)
    decreases v, 1, 0
  {
    if depth < MAX_DEPTH {
      match v
      case Present(x) => RedactionIsNonInterfering(x, w.inner, depth);
      case ListOf(items) => SameItems(v, w, 0, depth);
      case StructOf(_, kind, fields) => SameFields(v, w, kind, fields, w.fields, 0, depth);
      case EnumOf(_, kind, fields) => SameFields(v, w, kind, fields, w.fields, 0, depth);
      case _ =>
    }
  }

  lemma {:induction false} SameItems(v: Value, w: Value, i: nat, depth: nat)
    requires v.ListOf? && w.ListOf? && depth < MAX_DEPTH && SameShown(v, w, depth) && i <= |v.items|
    ensures ItemsFrom(v, v.items, i, depth) == ItemsFrom(w, w.items, i, depth)
    decreases v, 0, |v.items| - i
  {
    if i < |v.items| {
      RedactionIsNonInterfering(v.items[i], w.items[i], depth + 1);
      SameItems(v, w, i + 1, depth);
    }
  }

  lemma {:induction false} SameFields(
    v: Value, w: Value, kind: FieldsKind, fs: seq<Field>, gs: seq<Field>, i: nat, depth: nat)
    requires HasFields(v, fs) && HasFields(w, gs) && |fs| == |gs| && i <= |fs|
    requires forall k :: 0 <= k < |fs| ==> SameField(fs[k], gs[k], depth + 1)
    ensures FieldsFrom(v, kind, fs, i, depth) == FieldsFrom(w, kind, gs, i, depth)
    decreases v, 0, |fs| - i
  {
    if i < |fs| {
      SameOneField(fs[i], gs[i], depth);
      SameFields(v, w, kind, fs, gs, i + 1, depth);
    }
  }

  lemma {:induction false} SameOneField(f: Field, g: Field, depth: nat)
    requires SameField(f, g, depth + 1)
    ensures f.name == g.name && Shown(f, depth) == Shown(g, depth)
    decreases f, 0
  {
    if !f.sensitive {
      RedactionIsNonInterfering(f.value, g.value, depth + 1);
    }
  }

  // ----- What the text does show -----

  /** `t` is the text of a scalar above the depth limit, outside sensitive fields, maps and bytes. */
  predicate Reveals(v: Value, t: string, depth: nat)
    decreases v
  {
    depth < MAX_DEPTH &&
    match v
    case Present(x) => Reveals(x, t, depth)
    case Scalar(text) => text == t
    case ListOf(items) => exists i :: 0 <= i < |items| && Reveals(items[i], t, depth + 1)
    case StructOf(_, _, fields) => exists i :: 0 <= i < |fields| && FieldReveals(fields[i], t, depth + 1)
    case EnumOf(_, _, fields) => exists i :: 0 <= i < |fields| && FieldReveals(fields[i], t, depth + 1)
    case _ => false
  }

  predicate FieldReveals(f: Field, t: string, depth: nat)
    decreases f
  {
    !f.sensitive && Reveals(f.value, t, depth)
  }

  ghost predicate IsInfix(t: string, s: string) { exists a, b :: s == a + (t + b) }

  lemma Surround(t: string, a: string, s: string, b: string)
    requires IsInfix(t, s)
    ensures IsInfix(t, a + (s + b)) && IsInfix(t, a + s) && IsInfix(t, s + b)
  {
    var x, y :| s == x + (t + y);
    assert a + (s + b) == (a + x) + (t + (y + b));
    assert a + s == (a + x) + (t + y);
    assert s + b == x + (t + (y + b));
  }

  /** Nothing but what is sensitive, counted or too deep is hidden: every other scalar's text is
      in the output. */
  lemma {:induction false} VisibleScalarsAppear(v: Value, t: string, depth: nat)
    requires Reveals(v, t, depth)
    ensures IsInfix(t, Rendered(v, depth))
    decreases v, 1, 0
  {
    match v
    case Present(x) => VisibleScalarsAppear(x, t, depth);
    case Scalar(text) => assert t == "" + (t + "");
    case ListOf(items) =>
      var k :| 0 <= k < |items| && Reveals(items[k], t, depth + 1);
      ItemAppears(v, k, 0, t, depth);
      Surround(t, "[", ItemsFrom(v, items, 0, depth), "]");
      assert "[" + ItemsFrom(v, items, 0, depth) + "]" == "[" + (ItemsFrom(v, items, 0, depth) + "]");
    case StructOf(name, kind, fields) =>
      var k :| 0 <= k < |fields| && FieldReveals(fields[k], t, depth + 1);
      AllFieldsAppear(v, kind, fields, k, t, depth);
      Surround(t, name, Fields(v, kind, fields, depth), "");
    case EnumOf(variant, kind, fields) =>
      var k :| 0 <= k < |fields| && FieldReveals(fields[k], t, depth + 1);
      AllFieldsAppear(v, kind, fields, k, t, depth);
      Surround(t, variant, Fields(v, kind, fields, depth), "");
  }

  lemma {:induction false} AllFieldsAppear(
    v: Value, kind: FieldsKind, fields: seq<Field>, k: nat, t: string, depth: nat)
    requires HasFields(v, fields) && k < |fields| && FieldReveals(fields[k], t, depth + 1)
    ensures IsInfix(t, Fields(v, kind, fields, depth))
    decreases v, 0, |fields| + 1
  {
    FieldAppears(v, kind, fields, k, 0, t, depth);
    Surround(t, "", FieldsFrom(v, kind, fields, 0, depth), if kind == Named then " }" else ")");
  }

  lemma {:induction false} ItemAppears(v: Value, k: nat, i: nat, t: string, depth: nat)
    requires v.ListOf? && i <= k < |v.items| && Reveals(v.items[k], t, depth + 1)
    ensures IsInfix(t, ItemsFrom(v, v.items, i, depth))
    decreases v, 0, |v.items| - i
  {
    var rest := ItemsFrom(v, v.items, i + 1, depth);
    var sep := if i > 0 then ", " else "";
    if i == k {
      VisibleScalarsAppear(v.items[k], t, depth + 1);
      Surround(t, sep, Rendered(v.items[k], depth + 1), rest);
    } else {
      ItemAppears(v, k, i + 1, t, depth);
      Surround(t, Rendered(v.items[i], depth + 1), rest, "");
      Surround(t, sep, Rendered(v.items[i], depth + 1) + rest, "");
    }
  }

  lemma {:induction false} FieldAppears(
    v: Value, kind: FieldsKind, fields: seq<Field>, k: nat, i: nat, t: string, depth: nat)
    requires HasFields(v, fields) && i <= k < |fields| && FieldReveals(fields[k], t, depth + 1)
    ensures IsInfix(t, FieldsFrom(v, kind, fields, i, depth))
    decreases v, 0, |fields| - i
  {
    var rest := FieldsFrom(v, kind, fields, i + 1, depth);
    var shown := Shown(fields[i], depth);
    if i == k {
      VisibleScalarsAppear(fields[k].value, t, depth + 1);
      Surround(t, "", shown, rest);
    } else {
      FieldAppears(v, kind, fields, k, i + 1, t, depth);
      Surround(t, shown, rest, "");
    }
    Surround(t, Label(kind, fields[i]), shown + rest, "");
    Surround(t, Opening(kind, i), Label(kind, fields[i]) + (shown + rest), "");
  }
}
