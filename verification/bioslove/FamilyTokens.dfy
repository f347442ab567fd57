/** Family tokens: which characters of a chassis name are wildcards, and which names the pattern made
    of them then accepts. */
module FamilyTokens {
  import opened Wrappers
  import opened Sequences
  import opened Text
  import opened Ambiguity

  /** A lower-case letter other than x makes the token a branding variant. */
  predicate Branded(t: string) { exists c :: c in t && IsAsciiLower(c) && c != 'x' }

  predicate Shouty(c: char) { IsAsciiUpper(c) || IsAsciiDigit(c) || c == 'x' || c == '#' }

  predicate IsWild(t: string, i: nat)
    requires i < |t|
  {
    || t[i] == '#'
    || (t[i] == 'x' && !Branded(t) && i > 0 && Shouty(t[i - 1]) && (i + 1 == |t| || Shouty(t[i + 1])))
  }

  predicate HasWild(t: string) { exists i :: 0 <= i < |t| && IsWild(t, i) }

  /** The token from position `i`, its wildcards marked. */
  function Marked(t: string, i: nat): string
    requires i <= |t|
    decreases |t| - i
  {
    if i == |t| then "" else [if IsWild(t, i) then '?' else t[i]] + Marked(t, i + 1)
  }

  function PatternOf(t: string): Option<string> { if HasWild(t) then Some(Marked(t, 0)) else None }

  method WildcardPattern(t: string) returns (r: Option<string>)
    ensures r == PatternOf(t)
  {
    var branded := exists c :: c in t && IsAsciiLower(c) && c != 'x';
    var out, wild := "", false;
    for i := 0 to |t|
      invariant out + Marked(t, i) == Marked(t, 0)
      invariant wild <==> exists j :: 0 <= j < i && IsWild(t, j)
    {
      var isWild := match t[i]
        case '#' => true
        case 'x' => !branded && i > 0 && Shouty(t[i - 1]) && (i + 1 == |t| || Shouty(t[i + 1]))
        case _ => false;
      assert isWild == IsWild(t, i);
      wild := wild || isWild;
      MarkedNext(out, t, i);
      out := out + [if isWild then '?' else t[i]];
    }
    assert out + "" == out;
    r := if wild then Some(out) else None;
  }

  lemma {:induction false} MarkedNext(out: string, t: string, i: nat)
    requires i < |t|
    ensures out + Marked(t, i) == (out + [if IsWild(t, i) then '?' else t[i]]) + Marked(t, i + 1)
  {
  }

  predicate Loud(c: char) { 'A' <= c <= 'Z' || '0' <= c <= '9' || c in "x#" }

  /** A placeholder always stands for any character; a lower-case x does behind a capital, a digit, an x or a
      placeholder, at the end or before another of these, in a name with no other lower-case letter. */
  lemma {:induction false} WildcardsAre(t: string, i: nat)
    requires i < |t|
    ensures IsWild(t, i) <==>
      || t[i] == '#'
      || (t[i] == 'x' && i > 0 && Loud(t[i - 1]) && (i + 1 < |t| ==> Loud(t[i + 1]))
          && forall c :: c in t && 'a' <= c <= 'z' ==> c == 'x')
  {
  }

  // ----- What the pattern accepts -----

  /** The characters a chassis name is made of. */
  predicate IsToken(t: string) { forall c :: c in t ==> IsAsciiAlnum(c) || c in {'#', '-', '_'} }

  /** Reading the token from position `i` against a name: separators are skipped, a wildcard takes any
      one character, and any other character must be there in upper case. */
  predicate Accepts(t: string, i: nat, v: string)
    requires i <= |t|
    decreases |t| - i
  {
    if i == |t| then v == ""
    else if t[i] in {'-', '_'} then Accepts(t, i + 1, v)
    else v != "" && (IsWild(t, i) || v[0] == UpperChar(t[i])) && Accepts(t, i + 1, v[1..])
  }

  predicate Keeps(c: char) { IsAsciiAlnum(c) || c == '?' }

  lemma {:induction false} NormalFirst(c: char, rest: string)
    ensures NormalizePattern([c] + rest) == (if Keeps(c) then [UpperChar(c)] else []) + NormalizePattern(rest)
  {
    var keep := (x: char) => IsAsciiAlnum(x) || x == '?';
    assert ([c] + rest)[1..] == rest;
    if Keeps(c) {
      assert ([c] + FilterChars(rest, keep))[1..] == FilterChars(rest, keep);
    }
  }

  lemma {:induction false} MatchesFirst(c: char, p: string, v: string)
    ensures PatternMatches([c] + p, v) <==> v != "" && (c == '?' || c == v[0]) && PatternMatches(p, v[1..])
  {
    if PatternMatches([c] + p, v) {
      forall i | 0 <= i < |p|
        ensures p[i] == '?' || p[i] == v[1..][i]
      {
        assert ([c] + p)[i + 1] == p[i];
      }
    }
  }

  /** The pattern of a token, normalized as the firmware does, accepts exactly the names that agree with
      the token wherever it is no wildcard. */
  lemma {:induction false} PatternAcceptsExactly(t: string, i: nat, v: string)
    requires IsToken(t) && i <= |t|
    ensures PatternMatches(NormalizePattern(Marked(t, i)), v) <==> Accepts(t, i, v)
    decreases |t| - i
  {
    if i < |t| {
      assert t[i] in t;
      var c, rest := if IsWild(t, i) then '?' else t[i], Marked(t, i + 1);
      NormalFirst(c, rest);
      if Keeps(c) {
        MatchesFirst(UpperChar(c), NormalizePattern(rest), v);
        if v != "" {
          PatternAcceptsExactly(t, i + 1, v[1..]);
        }
      } else {
        assert [] + NormalizePattern(rest) == NormalizePattern(rest);
        PatternAcceptsExactly(t, i + 1, v);
      }
    }
  }

  lemma {:induction false} NameFirst(c: char, rest: string)
    ensures Normalize([c] + rest) == (if IsAsciiAlnum(c) then [UpperChar(c)] else []) + Normalize(rest)
  {
    assert ([c] + rest)[1..] == rest;
    if IsAsciiAlnum(c) {
      assert ([c] + FilterChars(rest, IsAsciiAlnum))[1..] == FilterChars(rest, IsAsciiAlnum);
    }
  }

  /** A token's own normalized name, from position `i`, is at most as long as the names it accepts, and
      is one of them exactly when no `#` is left. */
  lemma {:induction false} OwnNameAcceptedFrom(t: string, i: nat)
    requires IsToken(t) && i <= |t|
    ensures Accepts(t, i, Normalize(t[i..])) <==> '#' !in t[i..]
    ensures forall v :: Accepts(t, i, v) ==> |v| >= |Normalize(t[i..])|
    ensures '#' in t[i..] ==> forall v :: Accepts(t, i, v) ==> |v| > |Normalize(t[i..])|
    decreases |t| - i
  {
    if i < |t| {
      var c, rest := t[i], t[i + 1..];
      assert t[i] in t && t[i..] == [c] + rest;
      NameFirst(c, rest);
      OwnNameAcceptedFrom(t, i + 1);
      if IsAsciiAlnum(c) {
        assert Normalize(t[i..])[1..] == Normalize(rest);
      } else if c != '#' {
        assert [] + Normalize(rest) == Normalize(rest);
      } else {
        forall v | Accepts(t, i, v)
          ensures |v| > |Normalize(t[i..])|
        {
          assert Accepts(t, i + 1, v[1..]);
        }
      }
    }
  }

  /** So a family matches the name it is written as exactly when no placeholder stands for one of its
      characters: an x is itself a possible model letter, a `#` never is. */
  lemma {:induction false} FamilyMatchesItsOwnNameIff(t: string)
    requires IsToken(t) && PatternOf(t).Some?
    ensures PatternMatches(NormalizePattern(PatternOf(t).value), Normalize(t)) <==> '#' !in t
  {
    assert t[0..] == t;
    PatternAcceptsExactly(t, 0, Normalize(t));
    OwnNameAcceptedFrom(t, 0);
  }

  // ----- Names -----

  lemma {:induction false} NormalizeIsFlagged(s: string, flags: seq<bool>)
    requires |flags| == |s| && forall k :: 0 <= k < |s| ==> flags[k] == IsAsciiAlnum(s[k])
    ensures Normalize(s) == Upper(Flagged(s, flags))
    decreases |s|
  {
    if s != "" {
      assert flags[0] == IsAsciiAlnum(s[0]);
      NormalizeIsFlagged(s[1..], flags[1..]);
      var kept, rest := FilterChars(s[1..], IsAsciiAlnum), Flagged(s[1..], flags[1..]);
      assert ([s[0]] + kept)[1..] == kept && ([s[0]] + rest)[1..] == rest && [] + rest == rest;
    }
  }

  lemma {:induction false} UpperAt(s: string, k: nat)
    requires k < |s|
    ensures Upper(s)[k] == UpperChar(s[k])
    decreases |s|
  {
    if k > 0 {
      UpperAt(s[1..], k - 1);
    }
  }

  /** A name is matched by its letters and digits alone, in order and in upper case. */
  lemma {:induction false} NormalizeKeepsLettersAndDigits(s: string) returns (picks: seq<nat>, kept: string)
    ensures Picks(picks, s, kept) && forall k :: 0 <= k < |s| ==> (k in picks <==> IsAsciiAlnum(s[k]))
    ensures |Normalize(s)| == |kept| && forall k :: 0 <= k < |kept| ==> Normalize(s)[k] == UpperChar(kept[k])
  {
    var flags := seq(|s|, k requires 0 <= k < |s| => IsAsciiAlnum(s[k]));
    picks := FlaggedPicks(s, flags);
    kept := Flagged(s, flags);
    NormalizeIsFlagged(s, flags);
    forall k | 0 <= k < |kept|
      ensures Normalize(s)[k] == UpperChar(kept[k])
    {
      UpperAt(kept, k);
    }
  }
}
