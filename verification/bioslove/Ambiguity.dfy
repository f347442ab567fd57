/** Name collisions in an index: the tokens under which more than one entry would answer. */
module Ambiguity {
  import opened Sequences
  import opened Text
  import opened Ordering

  datatype Side = Laptop | Desktop

  /** The parts of an index entry the matcher looks at. */
  datatype Entry = Entry(folder: string, side: Side, aliases: seq<string>, patterns: seq<string>)

  // ----- The matching rules -----

  function Upper(s: string): (r: string)
    ensures |r| == |s|
  {
    if s == "" then "" else [UpperChar(s[0])] + Upper(s[1..])
  }

  function Normalize(s: string): string { Upper(FilterChars(s, IsAsciiAlnum)) }

  function NormalizePattern(s: string): string { Upper(FilterChars(s, c => IsAsciiAlnum(c) || c == '?')) }

  /** Equal lengths, and each pattern character is `?` or the name's own. */
  predicate PatternMatches(pattern: string, value: string) {
    |pattern| == |value| && forall i :: 0 <= i < |pattern| ==> pattern[i] == '?' || pattern[i] == value[i]
  }

  function NamesOf(e: Entry): seq<string> { [e.folder] + e.aliases }

  /** The normalized names long enough to match on. */
  function LongTokens(names: seq<string>): seq<string> {
    if names == [] then []
    else (if |Normalize(names[0])| >= 3 then [Normalize(names[0])] else []) + LongTokens(names[1..])
  }

  /** The names of an entry that are long enough to be tokens, in order and each once. */
  function ExactTokens(e: Entry): seq<string> { Dedup(Sorted(LongTokens(NamesOf(e)))) }

  function OfSide(entries: seq<Entry>, side: Side): seq<Entry> {
    if entries == [] then []
    else (if entries[0].side == side then [entries[0]] else []) + OfSide(entries[1..], side)
  }

  // ----- The table of exact tokens -----

  /** An ordered map from tokens to the folders that claim them. */
  type Table = seq<(string, seq<string>)>

  predicate TableOk(t: Table) {
    && (forall i, j :: 0 <= i < j < |t| ==> Less(t[i].0, t[j].0))
    && (forall i :: 0 <= i < |t| ==> t[i].1 != [])
  }

  function Claim(t: Table, token: string, folder: string): Table {
    if t == [] then [(token, [folder])]
    else if t[0].0 == token then [(token, t[0].1 + [folder])] + t[1..]
    else if Less(token, t[0].0) then [(token, [folder])] + t
    else [t[0]] + Claim(t[1..], token, folder)
  }

  function ClaimAll(t: Table, tokens: seq<string>, folder: string): Table
    decreases |tokens|
  {
    if tokens == [] then t else ClaimAll(Claim(t, tokens[0], folder), tokens[1..], folder)
  }

  function TableFrom(t: Table, entries: seq<Entry>): Table
    decreases |entries|
  {
    if entries == [] then t
    else TableFrom(ClaimAll(t, ExactTokens(entries[0]), entries[0].folder), entries[1..])
  }

  // ----- Collisions -----

  datatype Kind = SharedExact | PatternSwallowsExact

  datatype Collision = Collision(kind: Kind, side: Side, token: string, folders: seq<string>)

  function SharedIn(t: Table, side: Side): seq<Collision> {
    if t == [] then []
    else
      var (token, folders) := t[0];
      (if |folders| > 1 then [Collision(SharedExact, side, token, Sorted(folders))] else []) + SharedIn(t[1..], side)
  }

  function AllBut(folders: seq<string>, folder: string): seq<string> {
    if folders == [] then []
    else (if folders[0] != folder then [folders[0]] else []) + AllBut(folders[1..], folder)
  }

  /** Folders, other than `folder`, that claim a token the pattern matches. */
  function Matched(t: Table, pattern: string, folder: string): seq<string> {
    if t == [] then []
    else (if PatternMatches(pattern, t[0].0) then AllBut(t[0].1, folder) else []) + Matched(t[1..], pattern, folder)
  }

  function Swallowed(t: Table, p: string, folder: string): seq<string> {
    if NormalizePattern(p) == "" then [] else Dedup(Sorted(Matched(t, NormalizePattern(p), folder)))
  }

  function SwallowedBy(t: Table, patterns: seq<string>, folder: string, side: Side): seq<Collision> {
    if patterns == [] then []
    else
      var folders := Swallowed(t, patterns[0], folder);
      (if folders != [] then [Collision(PatternSwallowsExact, side, patterns[0], folders)] else [])
      + SwallowedBy(t, patterns[1..], folder, side)
  }

  function SwallowedIn(t: Table, entries: seq<Entry>, side: Side): seq<Collision> {
    if entries == [] then []
    else SwallowedBy(t, entries[0].patterns, entries[0].folder, side) + SwallowedIn(t, entries[1..], side)
  }

  function CollisionsOn(entries: seq<Entry>, side: Side): seq<Collision> {
    var own := OfSide(entries, side);
    var table := TableFrom([], own);
    SharedIn(table, side) + SwallowedIn(table, own, side)
  }

  function CollisionsOf(entries: seq<Entry>): seq<Collision> {
    CollisionsOn(entries, Laptop) + CollisionsOn(entries, Desktop)
  }

  /** How many folders are named for the token. */
  function NamedFor(folders: seq<string>, token: string): nat {
    if folders == [] then 0
    else (if Normalize(folders[0]) == token then 1 else 0) + NamedFor(folders[1..], token)
  }

  predicate SettledByName(c: Collision) { NamedFor(c.folders, c.token) == 1 }

  // ----- The loops -----

  method Collisions(entries: seq<Entry>) returns (out: seq<Collision>)
    ensures out == CollisionsOf(entries)
  {
    out := [];
    var sides := [Laptop, Desktop];
    for k := 0 to 2
      invariant out == if k == 0 then [] else if k == 1 then CollisionsOn(entries, Laptop) else CollisionsOf(entries)
    {
      var found := CollisionsOfSide(entries, sides[k]);
      out := out + found;
    }
  }

  method CollisionsOfSide(entries: seq<Entry>, side: Side) returns (out: seq<Collision>)
    ensures out == CollisionsOn(entries, side)
  {
    var own := OfSide(entries, side);
    var byToken := BuildTable(own);
    out := [];
    for i := 0 to |byToken|
      invariant out + SharedIn(byToken[i..], side) == SharedIn(byToken, side)
    {
      var (token, folders) := byToken[i];
      assert byToken[i..][1..] == byToken[i + 1..];
      if |folders| > 1 {
        Shift(out, Collision(SharedExact, side, token, Sorted(folders)), SharedIn(byToken[i + 1..], side));
        out := out + [Collision(SharedExact, side, token, Sorted(folders))];
      } else {
        assert [] + SharedIn(byToken[i + 1..], side) == SharedIn(byToken[i + 1..], side);
      }
    }
    assert out + [] == out;
    ghost var shared := out;
    for i := 0 to |own|
      invariant out + SwallowedIn(byToken, own[i..], side) == shared + SwallowedIn(byToken, own, side)
    {
      assert own[i..][1..] == own[i + 1..];
      var found := SwallowedByOne(byToken, own[i], side);
      Associates(out, found, SwallowedIn(byToken, own[i + 1..], side));
      out := out + found;
    }
    assert out + [] == out;
  }

  method BuildTable(own: seq<Entry>) returns (byToken: Table)
    ensures byToken == TableFrom([], own)
  {
    byToken := [];
    for i := 0 to |own|
      invariant TableFrom(byToken, own[i..]) == TableFrom([], own)
    {
      var tokens := ExactTokens(own[i]);
      ghost var goal := ClaimAll(byToken, tokens, own[i].folder);
      for k := 0 to |tokens|
        invariant ClaimAll(byToken, tokens[k..], own[i].folder) == goal
      {
        assert tokens[k..][1..] == tokens[k + 1..];
        byToken := Claim(byToken, tokens[k], own[i].folder);
      }
      assert own[i..][1..] == own[i + 1..];
    }
  }

  method SwallowedByOne(byToken: Table, e: Entry, side: Side) returns (out: seq<Collision>)
    ensures out == SwallowedBy(byToken, e.patterns, e.folder, side)
  {
    out := [];
    for i := 0 to |e.patterns|
      invariant out + SwallowedBy(byToken, e.patterns[i..], e.folder, side)
        == SwallowedBy(byToken, e.patterns, e.folder, side)
    {
      ghost var left := SwallowedBy(byToken, e.patterns[i + 1..], e.folder, side);
      assert e.patterns[i..][1..] == e.patterns[i + 1..];
      assert [] + left == left;
      var pat := NormalizePattern(e.patterns[i]);
      if pat == "" {
        continue;
      }
      var swallowed := Matched(byToken, pat, e.folder);
      swallowed := Sorted(swallowed);
      swallowed := Dedup(swallowed);
      if swallowed != [] {
        Shift(out, Collision(PatternSwallowsExact, side, e.patterns[i], swallowed), left);
        out := out + [Collision(PatternSwallowsExact, side, e.patterns[i], swallowed)];
      }
    }
    assert out + [] == out;
  }
}
