/** `%NAME%` substitution: the scanning passes, and what they mean on tokens. */
module Substitution {
  import opened Wrappers
  import opened Text

  type Vars = map<string, string>

  /** How often the text is scanned at most. */
  const EXPAND_PASSES := 8

  /** Names are looked up without regard to ASCII case. */
  predicate IsSet(vars: Vars, name: string) { Lower(name) in vars }

  // ----- The scan -----

  /** One pass: the new text and the names that were not set. */
  function Substituted(vars: Vars, s: string): (string, seq<string>)
    decreases |s|
  {
    match SplitOnce(s, '%')
    case None => (s, [])
    case Some((lit, after)) =>
      match SplitOnce(after, '%')
      case None => (s, [])
      case Some((name, rest)) =>
        var (text, missing) := Substituted(vars, rest);
        (lit + (ValueOf(vars, name) + text), if IsSet(vars, name) then missing else [name] + missing)
  }

  /** What one reference becomes: the value, or the reference itself when unset. */
  function ValueOf(vars: Vars, name: string): string {
    if IsSet(vars, name) then vars[Lower(name)] else "%" + (name + "%")
  }

  /** The first reference of a text: the value of its name, in any case, or the reference itself, which is then
      reported; and the pass goes on behind it. */
  lemma {:induction false} FirstReferenceIs(vars: Vars, lit: string, name: string, rest: string)
    requires '%' !in lit && '%' !in name
    ensures var (text, missing) := Substituted(vars, rest);
      Substituted(vars, lit + (['%'] + (name + (['%'] + rest)))) ==
        if Lower(name) in vars then (lit + (vars[Lower(name)] + text), missing)
        else (lit + ("%" + (name + "%") + text), [name] + missing)
  {
    SplitOnceAt(lit, '%', name + (['%'] + rest));
    SplitOnceAt(name, '%', rest);
  }

  method Substitute(vars: Vars, line: string) returns (out: string, unresolved: seq<string>)
    ensures (out, unresolved) == Substituted(vars, line)
  {
    out, unresolved := "", [];
    var rest := line;
    ghost var goal := Substituted(vars, line);
    while true
      invariant out + Substituted(vars, rest).0 == goal.0
      invariant unresolved + Substituted(vars, rest).1 == goal.1
      decreases |rest|
    {
      var cut := SplitOnce(rest, '%');
      if cut.None? {
        assert unresolved + [] == unresolved;
        return out + rest, unresolved;
      }
      var (lit, after) := cut.value;
      var close := SplitOnce(after, '%');
      if close.None? {
        SplitOnceParts(rest, '%');
        MoveFront(out, rest, lit, "%" + after);
        assert unresolved + [] == unresolved;
        return out + lit + ("%" + after), unresolved;
      }
      var (name, next) := close.value;
      Advance(vars, rest, lit, after, name, next, out, unresolved);
      out := out + lit;
      if IsSet(vars, name) {
        out := out + vars[Lower(name)];
      } else {
        out := out + ("%" + (name + "%"));
        unresolved := unresolved + [name];
      }
      rest := next;
    }
  }

  lemma Cons<T>(a: T, s: seq<T>)
    ensures ([a] + s)[0] == a && ([a] + s)[1..] == s
    ensures forall x :: x in [a] + s <==> x == a || x in s
  {
  }

  lemma ScanStep(vars: Vars, s: string, lit: string, after: string, name: string, rest: string)
    requires SplitOnce(s, '%') == Some((lit, after)) && SplitOnce(after, '%') == Some((name, rest))
    ensures Substituted(vars, s).0 == lit + (ValueOf(vars, name) + Substituted(vars, rest).0)
    ensures Substituted(vars, s).1 ==
      if IsSet(vars, name) then Substituted(vars, rest).1 else [name] + Substituted(vars, rest).1
  {
  }

  /** Moving the front of `whole` to the end of `out`. */
  lemma MoveFront<T>(out: seq<T>, whole: seq<T>, front: seq<T>, back: seq<T>)
    requires whole == front + back
    ensures out + whole == (out + front) + back
  {
  }

  lemma Advance(vars: Vars, s: string, lit: string, after: string, name: string, rest: string,
      out: string, found: seq<string>)
    requires SplitOnce(s, '%') == Some((lit, after)) && SplitOnce(after, '%') == Some((name, rest))
    ensures out + Substituted(vars, s).0 == (out + lit + ValueOf(vars, name)) + Substituted(vars, rest).0
    ensures IsSet(vars, name) ==> Substituted(vars, s).1 == Substituted(vars, rest).1
    ensures !IsSet(vars, name) ==> found + Substituted(vars, s).1 == (found + [name]) + Substituted(vars, rest).1
  {
    ScanStep(vars, s, lit, after, name, rest);
    var value, text := ValueOf(vars, name), Substituted(vars, rest).0;
    MoveFront(out, Substituted(vars, s).0, lit, value + text);
    MoveFront(out + lit, value + text, value, text);
    if !IsSet(vars, name) {
      MoveFront(found, Substituted(vars, s).1, [name], Substituted(vars, rest).1);
    }
  }

  /** Passes until nothing changes or the budget is spent; `found` is the last pass's report. */
  function Rounds(vars: Vars, s: string, found: seq<string>, passes: nat): (string, seq<string>)
    decreases passes, |s|
  {
    if passes == 0 then (s, found)
    else
      var (next, missing) := Substituted(vars, s);
      if next == s then (s, missing) else Rounds(vars, next, missing, passes - 1)
  }

  function Expanded(vars: Vars, s: string): (string, seq<string>) { Rounds(vars, s, [], EXPAND_PASSES) }

  method ExpandVars(vars: Vars, line: string) returns (out: string, unresolved: seq<string>)
    ensures (out, unresolved) == Expanded(vars, line)
  {
    out, unresolved := ExpandWithin(vars, line, EXPAND_PASSES);
  }

  method ExpandWithin(vars: Vars, line: string, passes: nat) returns (out: string, unresolved: seq<string>)
    ensures (out, unresolved) == Rounds(vars, line, [], passes)
  {
    out, unresolved := line, [];
    for pass := 0 to passes
      invariant Rounds(vars, out, unresolved, passes - pass) == Rounds(vars, line, [], passes)
    {
      var next, missing := Substitute(vars, out);
      unresolved := missing;
      if next == out {
        return;
      }
      out := next;
    }
  }

  // ----- Tokens -----

  /** A text as literals and references, up to its end or to an unpaired `%`. */
  datatype Parsed =
    | Last(lit: string)
    | Unpaired(lit: string, tail: string)
    | Chunk(lit: string, name: string, rest: Parsed)

  predicate PercentFree(s: string) { '%' !in s }

  predicate WellFormed(t: Parsed) {
    match t
    case Last(lit) => PercentFree(lit)
    case Unpaired(lit, tail) => PercentFree(lit) && PercentFree(tail)
    case Chunk(lit, name, rest) => PercentFree(lit) && PercentFree(name) && WellFormed(rest)
  }

  function Show(t: Parsed): string {
    match t
    case Last(lit) => lit
    case Unpaired(lit, tail) => lit + ("%" + tail)
    case Chunk(lit, name, rest) => lit + ("%" + (name + ("%" + Show(rest))))
  }

  function Parse(s: string): Parsed
    decreases |s|
  {
    match SplitOnce(s, '%')
    case None => Last(s)
    case Some((lit, after)) =>
      match SplitOnce(after, '%')
      case None => Unpaired(lit, after)
      case Some((name, rest)) => Chunk(lit, name, Parse(rest))
  }

  /** Replace each reference to a set variable by its value. */
  function Replaced(vars: Vars, t: Parsed): string {
    match t
    case Last(lit) => lit
    case Unpaired(lit, tail) => lit + ("%" + tail)
    case Chunk(lit, name, rest) => lit + (ValueOf(vars, name) + Replaced(vars, rest))
  }

  /** Names referred to, in order. */
  function RefNames(t: Parsed): seq<string> {
    match t
    case Last(_) => []
    case Unpaired(_, _) => []
    case Chunk(_, name, rest) => [name] + RefNames(rest)
  }

  function Unset(vars: Vars, names: seq<string>): seq<string> {
    if names == [] then []
    else (if IsSet(vars, names[0]) then [] else [names[0]]) + Unset(vars, names[1..])
  }

  /** Parsing a text and showing it are inverse. */
  lemma {:induction false} ParsedShowsBack(s: string)
    ensures WellFormed(Parse(s)) && Show(Parse(s)) == s
    decreases |s|
  {
    SplitOnceParts(s, '%');
    match SplitOnce(s, '%')
    case None =>
    case Some((lit, after)) =>
      SplitOnceParts(after, '%');
      match SplitOnce(after, '%') {
        case None =>
        case Some((name, rest)) => ParsedShowsBack(rest);
      }
  }

  lemma {:induction false} ShownParsesBack(t: Parsed)
    requires WellFormed(t)
    ensures Parse(Show(t)) == t
  {
    match t
    case Last(lit) => SplitOnceParts(lit, '%');
    case Unpaired(lit, tail) => 
      SplitOnceAt(lit, '%', tail);
      SplitOnceParts(tail, '%');
    case Chunk(lit, name, rest) =>
      SplitOnceAt(lit, '%', name + ("%" + Show(rest)));
      SplitOnceAt(name, '%', Show(rest));
      ShownParsesBack(rest);
  }

  lemma UnsetCons(vars: Vars, name: string, names: seq<string>)
    ensures Unset(vars, [name] + names) == if IsSet(vars, name) then Unset(vars, names) else [name] + Unset(vars, names)
  {
    Cons(name, names);
  }

  lemma {:induction false} ShownSubstitutes(vars: Vars, t: Parsed)
    requires WellFormed(t)
    ensures Substituted(vars, Show(t)) == (Replaced(vars, t), Unset(vars, RefNames(t)))
  {
    match t
    case Last(lit) => SplitOnceParts(lit, '%');
    case Unpaired(lit, tail) => 
      SplitOnceAt(lit, '%', tail);
      SplitOnceParts(tail, '%');
    case Chunk(lit, name, rest) =>
      SplitOnceAt(lit, '%', name + ("%" + Show(rest)));
      SplitOnceAt(name, '%', Show(rest));
      ShownSubstitutes(vars, rest);
      ScanStep(vars, Show(t), lit, name + ("%" + Show(rest)), name, Show(rest));
      UnsetCons(vars, name, RefNames(rest));
  }

  /** On every text one scanning pass is token replacement, and it reports exactly the
      references to unset names, in order. */
  lemma SubstituteReplacesTokens(vars: Vars, s: string)
    ensures Substituted(vars, s) == (Replaced(vars, Parse(s)), Unset(vars, References(s)))
  {
    ParsedShowsBack(s);
    ShownSubstitutes(vars, Parse(s));
  }

  // ----- Concatenation -----

  function References(s: string): seq<string> { RefNames(Parse(s)) }

  /** Every `%` opens or closes a reference. */
  predicate Paired(s: string) { Ends(Parse(s)) }

  predicate Ends(t: Parsed) {
    match t
    case Last(_) => true
    case Unpaired(_, _) => false
    case Chunk(_, _, rest) => Ends(rest)
  }

  function Prefixed(lit: string, t: Parsed): Parsed {
    match t
    case Last(l) => Last(lit + l)
    case Unpaired(l, tail) => Unpaired(lit + l, tail)
    case Chunk(l, name, rest) => Chunk(lit + l, name, rest)
  }

  function Spliced(t: Parsed, u: Parsed): Parsed {
    match t
    case Last(lit) => Prefixed(lit, u)
    case Unpaired(_, _) => u
    case Chunk(lit, name, rest) => Chunk(lit, name, Spliced(rest, u))
  }

  lemma {:induction false} SplicedShows(t: Parsed, u: Parsed)
    requires WellFormed(t) && WellFormed(u) && Ends(t)
    ensures WellFormed(Spliced(t, u)) && Show(Spliced(t, u)) == Show(t) + Show(u)
    ensures RefNames(Spliced(t, u)) == RefNames(t) + RefNames(u)
    ensures Ends(Spliced(t, u)) == Ends(u)
  {
    match t
    case Last(lit) =>
    case Chunk(lit, name, rest) =>
      SplicedShows(rest, u);
      var a := Show(rest);
      var b := Show(u);
      assert (lit + ("%" + (name + ("%" + a)))) + b == lit + ("%" + (name + ("%" + (a + b))));
  }

  /** A paired text does not disturb the references of what follows it. */
  lemma ReferencesConcat(a: string, b: string)
    requires Paired(a)
    ensures References(a + b) == References(a) + References(b)
    ensures Paired(a + b) == Paired(b)
  {
    ParsedShowsBack(a);
    ParsedShowsBack(b);
    SplicedShows(Parse(a), Parse(b));
    ShownParsesBack(Spliced(Parse(a), Parse(b)));
  }

  lemma NoReferences(lit: string)
    requires PercentFree(lit)
    ensures Paired(lit) && References(lit) == []
  {
    SplitOnceParts(lit, '%');
  }

  lemma {:induction false} ShownReference(name: string, one: string)
    requires one == "%" + name + "%"
    ensures Show(Chunk("", name, Last(""))) == one
  {
    assert Show(Last("")) == "";
    assert "%" + "" == "%" && "" + ("%" + (name + "%")) == one;
  }

  lemma {:induction false} OneReference(name: string)
    requires PercentFree(name)
    ensures Paired("%" + name + "%") && References("%" + name + "%") == [name]
  {
    var t, one := Chunk("", name, Last("")), "%" + name + "%";
    ShownReference(name, one);
    ShownParsesBack(t);
    assert Parse(one) == t;
    assert RefNames(t) == [name] + RefNames(Last(""));
  }

  // ----- Chains of variables -----

  predicate ValuesPaired(vars: Vars) { forall k :: k in vars ==> Paired(vars[k]) }

  /** The references a pass leaves in place of `name`. */
  function NextOf(vars: Vars, name: string): seq<string> {
    if IsSet(vars, name) then References(vars[Lower(name)]) else [name]
  }

  function Successors(vars: Vars, names: seq<string>): seq<string> {
    if names == [] then [] else NextOf(vars, names[0]) + Successors(vars, names[1..])
  }

  lemma SuccessorsCons(vars: Vars, name: string, names: seq<string>)
    ensures Successors(vars, [name] + names) == NextOf(vars, name) + Successors(vars, names)
  {
    Cons(name, names);
  }

  /** Following values from `name` reaches only unset names within `n` steps. */
  predicate ChainWithin(vars: Vars, name: string, n: nat)
    decreases n
  {
    !IsSet(vars, name)
    || (n > 0 && forall r :: r in References(vars[Lower(name)]) ==> ChainWithin(vars, r, n - 1))
  }

  predicate ChainsWithin(vars: Vars, names: seq<string>, n: nat) {
    forall r :: r in names ==> ChainWithin(vars, r, n)
  }

  function Pass(vars: Vars, s: string, n: nat): string
    decreases n, |s|
  {
    if n == 0 then s else Pass(vars, Substituted(vars, s).0, n - 1)
  }

  /** No reference names a set variable. */
  predicate Settled(vars: Vars, s: string) {
    forall r :: r in References(s) ==> !IsSet(vars, r)
  }

  lemma {:induction false} ReplacedReferences(vars: Vars, t: Parsed)
    requires ValuesPaired(vars) && WellFormed(t)
    ensures References(Replaced(vars, t)) == Successors(vars, RefNames(t))
  {
    match t
    case Last(lit) => NoReferences(lit);
    case Unpaired(lit, tail) => 
      SplitOnceAt(lit, '%', tail);
      SplitOnceParts(tail, '%');
    case Chunk(lit, name, rest) =>
      ReplacedReferences(vars, rest);
      NoReferences(lit);
      ValueReferences(vars, name);
      ReferencesConcat(ValueOf(vars, name), Replaced(vars, rest));
      ReferencesConcat(lit, ValueOf(vars, name) + Replaced(vars, rest));
      SuccessorsCons(vars, name, RefNames(rest));
  }

  lemma ValueReferences(vars: Vars, name: string)
    requires ValuesPaired(vars) && PercentFree(name)
    ensures Paired(ValueOf(vars, name)) && References(ValueOf(vars, name)) == NextOf(vars, name)
  {
    OneReference(name);
    assert "%" + (name + "%") == "%" + name + "%";
  }

  /** One pass replaces each name referred to by the names its value refers to. */
  lemma PassStepsEachReference(vars: Vars, s: string)
    requires ValuesPaired(vars)
    ensures References(Substituted(vars, s).0) == Successors(vars, References(s))
  {
    SubstituteReplacesTokens(vars, s);
    ParsedShowsBack(s);
    ReplacedReferences(vars, Parse(s));
  }

  lemma ChainStep(vars: Vars, name: string, n: nat)
    requires n > 0
    ensures ChainsWithin(vars, NextOf(vars, name), n - 1) <==> ChainWithin(vars, name, n)
  {
    if !IsSet(vars, name) {
      assert ChainWithin(vars, name, n - 1);
    }
  }

  lemma {:induction false} ChainsStep(vars: Vars, names: seq<string>, n: nat)
    requires n > 0
    ensures ChainsWithin(vars, Successors(vars, names), n - 1) <==> ChainsWithin(vars, names, n)
    decreases |names|
  {
    if names != [] {
      ChainStep(vars, names[0], n);
      ChainsStep(vars, names[1..], n);
      assert names == [names[0]] + names[1..];
    }
  }

  lemma {:induction false} NoStepsAreUnset(vars: Vars, names: seq<string>)
    ensures ChainsWithin(vars, names, 0) <==> forall r :: r in names ==> !IsSet(vars, r)
  {
  }

  lemma {:induction false} SettledIs(vars: Vars, s: string)
    ensures Settled(vars, s) <==> ChainsWithin(vars, References(s), 0)
  {
    NoStepsAreUnset(vars, References(s));
  }

  lemma {:induction false} PassFirst(vars: Vars, s: string, n: nat)
    ensures Pass(vars, s, n + 1) == Pass(vars, Substituted(vars, s).0, n)
  {
  }

  /** One more pass, and chains one step longer. */
  lemma {:induction false} OneMoreStep(vars: Vars, names: seq<string>, next: seq<string>, n: nat, settled: bool)
    requires next == Successors(vars, names) && (settled <==> ChainsWithin(vars, next, n))
    ensures settled <==> ChainsWithin(vars, names, n + 1)
  {
    ChainsStep(vars, names, n + 1);
  }

  /** After `n` passes no reference to a set variable is left exactly when every chain of
      variables starting in the text ends within `n` steps. */
  lemma {:induction false} PassesSettleExactlyBoundedChains(vars: Vars, s: string, n: nat)
    requires ValuesPaired(vars)
    ensures Settled(vars, Pass(vars, s, n)) <==> ChainsWithin(vars, References(s), n)
    decreases n
  {
    if n == 0 {
      SettledIs(vars, s);
    } else {
      var next, m := Substituted(vars, s).0, n - 1;
      PassStepsEachReference(vars, s);
      PassesSettleExactlyBoundedChains(vars, next, m);
      PassFirst(vars, s, m);
      OneMoreStep(vars, References(s), References(next), m, Settled(vars, Pass(vars, next, m)));
    }
  }

  lemma {:induction false} LonePercentIsUnpaired(vars: Vars, k: string)
    requires k in vars && vars[k] == "%"
    ensures References("%") == [] && !ValuesPaired(vars)
  {
    var t := Unpaired("", "");
    ShownParsesBack(t);
    assert Show(t) == "%";
  }

  lemma {:induction false} ShownJoined(vars: Vars, k: string, t: Parsed, s: string, one: string)
    requires IsSet(vars, k) && ValueOf(vars, k) == "%" && t == Chunk("", k, Unpaired(k, ""))
    requires s == "%" + (k + ("%" + (k + "%"))) && one == "%" + k + "%"
    ensures Show(t) == s && Replaced(vars, t) == one && RefNames(t) == [k]
  {
    var rest := Unpaired(k, "");
    assert "%" + "" == "%";
    assert Show(rest) == k + "%" && Replaced(vars, rest) == k + "%" && RefNames(rest) == [];
    assert "" + s == s && "" + ("%" + (k + "%")) == one;
  }

  lemma {:induction false} JoinedPass(vars: Vars, k: string, s: string)
    requires PercentFree(k) && Lower(k) in vars && vars[Lower(k)] == "%" && s == "%" + (k + ("%" + (k + "%")))
    ensures References(s) == [k] && Substituted(vars, s).0 == "%" + k + "%"
  {
    var t := Chunk("", k, Unpaired(k, ""));
    ShownJoined(vars, k, t, s, "%" + k + "%");
    ShownParsesBack(t);
    SubstituteReplacesTokens(vars, s);
  }

  /** Where a value's percent signs do not pair up, two of them can join into a reference that no chain
      starts with: `%k%k%` with `k` set to a percent sign is `%k%` after one pass. */
  lemma {:induction false} UnpairedValueJoins(vars: Vars, k: string, s: string)
    requires PercentFree(k) && Lower(k) in vars && vars[Lower(k)] == "%" && s == "%" + (k + ("%" + (k + "%")))
    ensures !ValuesPaired(vars)
    ensures ChainsWithin(vars, References(s), 1) && !Settled(vars, Pass(vars, s, 1))
  {
    LonePercentIsUnpaired(vars, Lower(k));
    JoinedPass(vars, k, s);
    PassFirst(vars, s, 0);
    OneReference(k);
    assert ChainWithin(vars, k, 1);
    assert k in References("%" + k + "%") && IsSet(vars, k);
  }

  lemma {:induction false} FixpointStays(vars: Vars, s: string, n: nat)
    requires Substituted(vars, s).0 == s
    ensures Pass(vars, s, n) == s
    decreases n
  {
    if n > 0 {
      FixpointStays(vars, s, n - 1);
    }
  }

  /** Stopping early changes nothing: the text is that of all the passes. */
  lemma {:induction false} RoundsArePasses(vars: Vars, s: string, found: seq<string>, passes: nat)
    ensures Rounds(vars, s, found, passes).0 == Pass(vars, s, passes)
    decreases passes
  {
    if passes > 0 {
      var next := Substituted(vars, s);
      if next.0 == s {
        FixpointStays(vars, s, passes);
      } else {
        RoundsArePasses(vars, next.0, next.1, passes - 1);
      }
    }
  }

  /** Expansion removes every reference to a set variable exactly when no chain of variables
      from the text is longer than eight. */
  lemma ExpansionSettlesExactlyBoundedChains(vars: Vars, s: string)
    requires ValuesPaired(vars)
    ensures Settled(vars, Expanded(vars, s).0) <==> ChainsWithin(vars, References(s), 8)
  {
    RoundsArePasses(vars, s, [], EXPAND_PASSES);
    PassesSettleExactlyBoundedChains(vars, s, EXPAND_PASSES);
  }

  // ----- The report -----

  /** Whatever following values from `name` for `n` steps reaches is quiet. */
  predicate QuietAfter(vars: Vars, name: string, n: nat)
    decreases n
  {
    IsSet(vars, name) ==>
      if n == 0 then References(vars[Lower(name)]) == []
      else forall r :: r in References(vars[Lower(name)]) ==> QuietAfter(vars, r, n - 1)
  }

  predicate AllQuietAfter(vars: Vars, names: seq<string>, n: nat) {
    forall r :: r in names ==> QuietAfter(vars, r, n)
  }

  lemma {:induction false} QuietHead(vars: Vars, names: seq<string>)
    requires names != []
    ensures AllQuietAfter(vars, names, 0) <==> QuietAfter(vars, names[0], 0) && AllQuietAfter(vars, names[1..], 0)
  {
    assert names == [names[0]] + names[1..];
    Cons(names[0], names[1..]);
  }

  /** A pass leaves at least the references it reports, and no others exactly when all are quiet. */
  lemma {:induction false} QuietIsReported(vars: Vars, names: seq<string>)
    ensures |Unset(vars, names)| <= |Successors(vars, names)|
    ensures |Unset(vars, names)| == |Successors(vars, names)| <==> AllQuietAfter(vars, names, 0)
    decreases |names|
  {
    if names != [] {
      QuietHead(vars, names);
      QuietIsReported(vars, names[1..]);
    }
  }

  lemma {:induction false} QuietPass(vars: Vars, names: seq<string>)
    requires AllQuietAfter(vars, names, 0)
    ensures Unset(vars, names) == Successors(vars, names)
    decreases |names|
  {
    if names != [] {
      QuietHead(vars, names);
      QuietPass(vars, names[1..]);
    }
  }

  lemma {:induction false} QuietStep(vars: Vars, names: seq<string>, n: nat)
    requires n > 0
    ensures AllQuietAfter(vars, Successors(vars, names), n - 1) <==> AllQuietAfter(vars, names, n)
    decreases |names|
  {
    if names != [] {
      var name, rest := names[0], names[1..];
      QuietStep(vars, rest, n);
      SuccessorsCons(vars, name, rest);
      assert names == [name] + rest;
      Cons(name, rest);
      assert AllQuietAfter(vars, NextOf(vars, name), n - 1) <==> QuietAfter(vars, name, n);
    }
  }

  /** One pass reports exactly what it leaves when all it sees is quiet. */
  lemma {:induction false} PassReportsIff(vars: Vars, u: string)
    requires ValuesPaired(vars)
    ensures var r := Substituted(vars, u);
      && (ExactReport(r) <==> AllQuietAfter(vars, References(u), 0))
      && (ExactReport(r) ==> Settled(vars, r.0))
  {
    var names := References(u);
    SubstituteReplacesTokens(vars, u);
    PassStepsEachReference(vars, u);
    QuietIsReported(vars, names);
    UnsetAreUnset(vars, names);
    if AllQuietAfter(vars, names, 0) {
      QuietPass(vars, names);
    }
  }

  lemma {:induction false} UnsetAreUnset(vars: Vars, names: seq<string>)
    ensures forall r :: r in Unset(vars, names) ==> !IsSet(vars, r)
    decreases |names|
  {
    if names != [] {
      UnsetAreUnset(vars, names[1..]);
    }
  }

  lemma {:induction false} UnchangedStaysQuiet(vars: Vars, names: seq<string>, n: nat)
    requires Successors(vars, names) == names
    ensures AllQuietAfter(vars, names, n) <==> AllQuietAfter(vars, names, 0)
    decreases n
  {
    if n > 0 {
      QuietStep(vars, names, n);
      UnchangedStaysQuiet(vars, names, n - 1);
    }
  }

  lemma {:induction false} PassShiftsQuiet(vars: Vars, s: string, n: nat)
    requires ValuesPaired(vars) && n > 0
    ensures AllQuietAfter(vars, References(Substituted(vars, s).0), n - 1) <==> AllQuietAfter(vars, References(s), n)
  {
    PassStepsEachReference(vars, s);
    QuietStep(vars, References(s), n);
  }

  lemma {:induction false} FixpointQuiet(vars: Vars, s: string, n: nat)
    requires ValuesPaired(vars) && Substituted(vars, s).0 == s
    ensures AllQuietAfter(vars, References(s), n) <==> AllQuietAfter(vars, References(s), 0)
  {
    PassStepsEachReference(vars, s);
    UnchangedStaysQuiet(vars, References(s), n);
  }

  /** The text before the last of `n + 1` passes, whose report is the report. */
  function LastText(vars: Vars, s: string, n: nat): string
    decreases n
  {
    var next := Substituted(vars, s).0;
    if next == s || n == 0 then s else LastText(vars, next, n - 1)
  }

  lemma {:induction false} OneRound(
    vars: Vars, s: string, found: seq<string>, n: nat, next: string, missing: seq<string>)
    requires (next, missing) == Substituted(vars, s)
    ensures Rounds(vars, s, found, n + 1) == if next == s then (s, missing) else Rounds(vars, next, missing, n)
  {
  }

  lemma {:induction false} RoundsEndAtLastText(vars: Vars, s: string, found: seq<string>, n: nat)
    ensures Rounds(vars, s, found, n + 1) == Substituted(vars, LastText(vars, s, n))
    decreases n
  {
    var (next, missing) := Substituted(vars, s);
    OneRound(vars, s, found, n, next, missing);
    if next != s && n > 0 {
      var m := n - 1;
      RoundsEndAtLastText(vars, next, missing, m);
      LastTextNext(vars, s, m, next, LastText(vars, next, m));
    }
  }

  lemma {:induction false} LastTextNext(vars: Vars, s: string, n: nat, next: string, last: string)
    requires next == Substituted(vars, s).0 && next != s && last == LastText(vars, next, n)
    ensures LastText(vars, s, n + 1) == last
  {
  }

  /** The text before the last pass, one pass earlier. */
  lemma {:induction false} QuietOnePassEarlier(vars: Vars, s: string, next: string, m: nat, last: string, quiet: bool)
    requires ValuesPaired(vars) && next == Substituted(vars, s).0 && next != s && last == LastText(vars, next, m)
    requires quiet <==> AllQuietAfter(vars, References(next), m)
    ensures LastText(vars, s, m + 1) == last && (quiet <==> AllQuietAfter(vars, References(s), m + 1))
  {
    PassShiftsQuiet(vars, s, m + 1);
  }

  lemma {:induction false} LastTextQuiet(vars: Vars, s: string, n: nat)
    requires ValuesPaired(vars)
    ensures AllQuietAfter(vars, References(LastText(vars, s, n)), 0) <==> AllQuietAfter(vars, References(s), n)
    decreases n
  {
    var next := Substituted(vars, s).0;
    if next == s {
      FixpointQuiet(vars, s, n);
    } else if n > 0 {
      var m := n - 1;
      var last := LastText(vars, next, m);
      LastTextQuiet(vars, next, m);
      QuietOnePassEarlier(vars, s, next, m, last, AllQuietAfter(vars, References(last), 0));
    }
  }

  /** The report `r.1` lists exactly the references left in `r.0`. */
  predicate ExactReport(r: (string, seq<string>)) { r.1 == References(r.0) }

  lemma {:induction false} RoundsReportIff(vars: Vars, s: string, n: nat)
    requires ValuesPaired(vars)
    ensures ExactReport(Rounds(vars, s, [], n + 1)) <==> AllQuietAfter(vars, References(s), n)
    ensures ExactReport(Rounds(vars, s, [], n + 1)) ==> Settled(vars, Rounds(vars, s, [], n + 1).0)
  {
    RoundsEndAtLastText(vars, s, [], n);
    LastTextQuiet(vars, s, n);
    PassReportsIff(vars, LastText(vars, s, n));
  }

  /** The report lists exactly the references left in the text exactly when every value that is
      seven steps of references away has none itself; the text is then settled. */
  lemma {:induction false} ReportIsExactIff(vars: Vars, s: string)
    requires ValuesPaired(vars)
    ensures var r := Expanded(vars, s);
      && (ExactReport(r) <==> AllQuietAfter(vars, References(s), 7))
      && (ExactReport(r) ==> Settled(vars, r.0))
  {
    RoundsReportIff(vars, s, EXPAND_PASSES - 1);
  }

  /** A variable that names itself stops the passes at once and is reported by no pass, so an
      empty report does not say that every reference was resolved. */
  lemma SelfReferenceGoesUnreported(vars: Vars, name: string)
    requires PercentFree(name) && IsSet(vars, name) && vars[Lower(name)] == "%" + name + "%"
    ensures Expanded(vars, "%" + name + "%") == ("%" + name + "%", [])
    ensures !Settled(vars, "%" + name + "%")
  {
    var s := "%" + name + "%";
    var t := Chunk("", name, Last(""));
    assert Show(t) == s;
    ShownSubstitutes(vars, t);
    ShownParsesBack(t);
    assert RefNames(t) == [name];
    assert Replaced(vars, t) == s;
    assert Substituted(vars, s) == (s, []);
    assert name in References(s);
  }
}
