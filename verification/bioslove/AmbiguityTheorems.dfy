/** A collision-free index is one the firmware's matcher finds unambiguous. */
module AmbiguityTheorems {
  import opened Sequences
  import opened Ordering
  import opened Ambiguity

  // ----- What the table holds -----

  function Get(t: Table, token: string): seq<string> {
    if t == [] then [] else if t[0].0 == token then t[0].1 else Get(t[1..], token)
  }

  /** The folders, in index order, of the entries that answer to a token. */
  function Claimants(entries: seq<Entry>, token: string): seq<string> {
    if entries == [] then []
    else (if token in ExactTokens(entries[0]) then [entries[0].folder] else []) + Claimants(entries[1..], token)
  }

  lemma {:induction false} AbsentBelow(t: Table, token: string)
    requires TableOk(t) && (t != [] ==> Less(token, t[0].0))
    ensures Get(t, token) == []
    decreases |t|
  {
    if t != [] {
      LessIsIrreflexive(token);
      if |t| > 1 {
        LessIsTransitive(token, t[0].0, t[1].0);
      }
      AbsentBelow(t[1..], token);
    }
  }

  lemma {:induction false} ClaimKeys(t: Table, token: string, folder: string, y: (string, seq<string>))
    requires y in Claim(t, token, folder)
    ensures y.1 != [] || y in t
    ensures y.0 == token || exists z :: z in t && z.0 == y.0
    decreases |t|
  {
    if t != [] && t[0].0 != token && !Less(token, t[0].0) && y != t[0] {
      ClaimKeys(t[1..], token, folder, y);
    }
  }

  lemma {:induction false} LessThanAll(t: Table, token: string)
    requires TableOk(t) && t != [] && Less(token, t[0].0)
    ensures forall j :: 0 <= j < |t| ==> Less(token, t[j].0)
  {
    forall j | 0 < j < |t|
      ensures Less(token, t[j].0)
    {
      LessIsTransitive(token, t[0].0, t[j].0);
    }
  }

  lemma {:induction false} ClaimStaysOk(t: Table, token: string, folder: string)
    requires TableOk(t)
    ensures TableOk(Claim(t, token, folder))
    decreases |t|
  {
    if t != [] && t[0].0 != token {
      if Less(token, t[0].0) {
        LessThanAll(t, token);
      } else {
        LessIsTotal(token, t[0].0);
        ClaimStaysOk(t[1..], token, folder);
        var rest := Claim(t[1..], token, folder);
        forall j | 0 <= j < |rest|
          ensures Less(t[0].0, rest[j].0)
        {
          ClaimKeys(t[1..], token, folder, rest[j]);
        }
      }
    }
  }

  lemma {:induction false} ClaimFacts(t: Table, token: string, folder: string, x: string)
    requires TableOk(t)
    ensures TableOk(Claim(t, token, folder))
    ensures Get(Claim(t, token, folder), x) == if x == token then Get(t, x) + [folder] else Get(t, x)
    decreases |t|
  {
    ClaimStaysOk(t, token, folder);
    if t == [] {
      assert [(token, [folder])][1..] == [];
    } else if t[0].0 == token {
      assert ([(token, t[0].1 + [folder])] + t[1..])[1..] == t[1..];
    } else if Less(token, t[0].0) {
      AbsentBelow(t, token);
      assert ([(token, [folder])] + t)[1..] == t;
    } else {
      ClaimFacts(t[1..], token, folder, x);
      assert ([t[0]] + Claim(t[1..], token, folder))[1..] == Claim(t[1..], token, folder);
    }
  }

  lemma {:induction false} HeadIsAlone(tokens: seq<string>)
    requires StrictlyAscending(tokens) && tokens != []
    ensures tokens[0] !in tokens[1..] && StrictlyAscending(tokens[1..])
  {
    AboveHead(tokens, |tokens| - 1);
    LessIsIrreflexive(tokens[0]);
    forall i | 0 < i < |tokens|
      ensures Less(tokens[0], tokens[i])
    {
      AboveHead(tokens, i);
    }
  }

  lemma {:induction false} AboveHead(tokens: seq<string>, i: nat)
    requires StrictlyAscending(tokens) && i < |tokens|
    ensures i > 0 ==> Less(tokens[0], tokens[i])
    decreases i
  {
    if i > 1 {
      AboveHead(tokens, i - 1);
      LessIsTransitive(tokens[0], tokens[i - 1], tokens[i]);
    }
  }

  lemma {:induction false} ClaimAllFacts(t: Table, tokens: seq<string>, folder: string, x: string)
    requires TableOk(t) && StrictlyAscending(tokens)
    ensures TableOk(ClaimAll(t, tokens, folder))
    ensures Get(ClaimAll(t, tokens, folder), x) == if x in tokens then Get(t, x) + [folder] else Get(t, x)
    decreases |tokens|
  {
    if tokens != [] {
      HeadIsAlone(tokens);
      ClaimFacts(t, tokens[0], folder, x);
      ClaimAllFacts(Claim(t, tokens[0], folder), tokens[1..], folder, x);
      assert x in tokens <==> x == tokens[0] || x in tokens[1..];
    }
  }

  lemma {:induction false} LongTokensAre(names: seq<string>, t: string)
    ensures t in LongTokens(names) <==> |t| >= 3 && exists n :: n in names && Normalize(n) == t
    decreases |names|
  {
    if names != [] {
      LongTokensAre(names[1..], t);
      assert names == [names[0]] + names[1..];
    }
  }

  /** The exact tokens of an entry are its normalized names of three characters or more, each once. */
  lemma {:induction false} ExactTokensAre(e: Entry, t: string)
    ensures StrictlyAscending(ExactTokens(e))
    ensures t in ExactTokens(e) <==> |t| >= 3 && exists n :: n in NamesOf(e) && Normalize(n) == t
  {
    SortedFacts(LongTokens(NamesOf(e)));
    DedupFacts(Sorted(LongTokens(NamesOf(e))));
    LongTokensAre(NamesOf(e), t);
  }

  lemma {:induction false} EntryClaimFacts(t: Table, e: Entry, x: string)
    requires TableOk(t)
    ensures var u := ClaimAll(t, ExactTokens(e), e.folder);
      TableOk(u) && Get(u, x) == if x in ExactTokens(e) then Get(t, x) + [e.folder] else Get(t, x)
  {
    ExactTokensAre(e, x);
    ClaimAllFacts(t, ExactTokens(e), e.folder, x);
  }

  lemma {:induction false} ClaimantsHead(entries: seq<Entry>, x: string)
    requires entries != []
    ensures var rest := Claimants(entries[1..], x);
      Claimants(entries, x) == if x in ExactTokens(entries[0]) then [entries[0].folder] + rest else rest
  {
  }

  lemma {:induction false} ClaimedOnce(before: seq<string>, hit: bool, folder: string, rest: seq<string>)
    ensures (if hit then before + [folder] else before) + rest == before + if hit then [folder] + rest else rest
  {
    Shift(before, folder, rest);
  }

  lemma {:induction false} TableFacts(t: Table, entries: seq<Entry>, x: string)
    requires TableOk(t)
    ensures TableOk(TableFrom(t, entries)) && Get(TableFrom(t, entries), x) == Get(t, x) + Claimants(entries, x)
    decreases |entries|
  {
    if entries == [] {
      assert Get(t, x) + [] == Get(t, x);
    } else {
      var e := entries[0];
      var tokens := ExactTokens(e);
      var u := ClaimAll(t, tokens, e.folder);
      EntryClaimFacts(t, e, x);
      TableFacts(u, entries[1..], x);
      ClaimantsHead(entries, x);
      ClaimedOnce(Get(t, x), x in tokens, e.folder, Claimants(entries[1..], x));
    }
  }

  lemma {:induction false} InTable(t: Table, x: string, v: seq<string>)
    requires TableOk(t)
    ensures (x, v) in t <==> v != [] && Get(t, x) == v
    decreases |t|
  {
    if t != [] {
      assert t == [t[0]] + t[1..];
      InTable(t[1..], x, v);
      if t[0].0 == x {
        LessIsIrreflexive(x);
        assert forall j :: 0 < j < |t| ==> t[j].0 != x;
        assert (x, v) !in t[1..];
      }
    }
  }

  lemma {:induction false} ClaimantsAre(entries: seq<Entry>, token: string, f: string)
    ensures f in Claimants(entries, token) <==>
      exists i :: 0 <= i < |entries| && token in ExactTokens(entries[i]) && entries[i].folder == f
    decreases |entries|
  {
    if entries != [] {
      ClaimantsAre(entries[1..], token, f);
      assert forall i :: 0 < i < |entries| ==> entries[i] == entries[1..][i - 1];
      if f in Claimants(entries[1..], token) {
        var i :| 0 <= i < |entries[1..]| && token in ExactTokens(entries[1..][i]) && entries[1..][i].folder == f;
        assert entries[i + 1].folder == f;
      }
    }
  }

  // ----- What is reported -----

  lemma {:induction false} SharedInAre(t: Table, side: Side, c: Collision)
    ensures c in SharedIn(t, side) <==>
      exists k :: k in t && |k.1| > 1 && c == Collision(SharedExact, side, k.0, Sorted(k.1))
    decreases |t|
  {
    if t != [] {
      SharedInAre(t[1..], side, c);
      assert t == [t[0]] + t[1..];
      assert forall k :: k in t <==> k == t[0] || k in t[1..];
    }
  }

  lemma {:induction false} SwallowedByAre(t: Table, patterns: seq<string>, folder: string, side: Side, c: Collision)
    ensures c in SwallowedBy(t, patterns, folder, side) <==>
      exists p :: p in patterns && Swallowed(t, p, folder) != [] &&
        c == Collision(PatternSwallowsExact, side, p, Swallowed(t, p, folder))
    decreases |patterns|
  {
    if patterns != [] {
      SwallowedByAre(t, patterns[1..], folder, side, c);
      assert patterns == [patterns[0]] + patterns[1..];
      assert forall p :: p in patterns <==> p == patterns[0] || p in patterns[1..];
    }
  }

  lemma {:induction false} SwallowedInAre(t: Table, entries: seq<Entry>, side: Side, c: Collision)
    ensures c in SwallowedIn(t, entries, side) <==>
      exists e :: e in entries && c in SwallowedBy(t, e.patterns, e.folder, side)
    decreases |entries|
  {
    if entries != [] {
      SwallowedInAre(t, entries[1..], side, c);
      assert entries == [entries[0]] + entries[1..];
      assert forall e :: e in entries <==> e == entries[0] || e in entries[1..];
    }
  }

  /** A shared token is reported exactly when more than one entry of the side answers to it, with
      exactly their folders, sorted. */
  lemma {:induction false} SharedTokensReported(entries: seq<Entry>, side: Side, c: Collision)
    requires c.kind == SharedExact
    ensures c in CollisionsOn(entries, side) <==>
      var claimants := Claimants(OfSide(entries, side), c.token);
      |claimants| > 1 && c == Collision(SharedExact, side, c.token, Sorted(claimants))
    ensures c in CollisionsOn(entries, side) ==> Ascending(c.folders)
    ensures c in CollisionsOn(entries, side) ==>
      multiset(c.folders) == multiset(Claimants(OfSide(entries, side), c.token))
  {
    var own := OfSide(entries, side);
    var table := TableFrom([], own);
    var claimants := Claimants(own, c.token);
    TableFacts([], own, c.token);
    assert [] + claimants == claimants;
    SharedInAre(table, side, c);
    InTable(table, c.token, claimants);
    forall k | k in table && k.0 == c.token
      ensures k.1 == claimants
    {
      InTable(table, k.0, k.1);
    }
    SwallowedInAre(table, own, side, c);
    forall e | e in own
      ensures c !in SwallowedBy(table, e.patterns, e.folder, side)
    {
      SwallowedByAre(table, e.patterns, e.folder, side, c);
    }
    SortedFacts(claimants);
  }

  ghost predicate IsSwallower(entries: seq<Entry>, side: Side, e: Entry, c: Collision) {
    var folders := Swallowed(TableFrom([], OfSide(entries, side)), c.token, e.folder);
    && e in OfSide(entries, side) && c.token in e.patterns
    && folders != [] && c == Collision(PatternSwallowsExact, side, c.token, folders)
  }

  /** A pattern is reported exactly when some entry of the side carries it and it swallows the
      listed folders. */
  lemma {:induction false} SwallowingPatternsReported(entries: seq<Entry>, side: Side, c: Collision)
    requires c.kind == PatternSwallowsExact
    ensures c in CollisionsOn(entries, side) <==> exists e :: IsSwallower(entries, side, e, c)
  {
    var own := OfSide(entries, side);
    var table := TableFrom([], own);
    SharedInAre(table, side, c);
    SwallowedInAre(table, own, side, c);
    forall e | e in own
      ensures c in SwallowedBy(table, e.patterns, e.folder, side) <==> IsSwallower(entries, side, e, c)
    {
      SwallowedByAre(table, e.patterns, e.folder, side, c);
    }
  }

  // ----- Exactly when nothing is reported -----

  predicate Answers(e: Entry, t: string) { t in ExactTokens(e) }

  predicate Covers(e: Entry, t: string) {
    exists p :: p in e.patterns && PatternMatches(NormalizePattern(p), t)
  }

  /** Some exact token of `e` is also one of `f`, or matched by a pattern of `f`. */
  ghost predicate Confused(e: Entry, f: Entry) { exists t :: Answers(e, t) && (Answers(f, t) || Covers(f, t)) }

  /** Every exact token belongs to one entry of its side, and no other entry's pattern matches it. */
  ghost predicate Unambiguous(entries: seq<Entry>) {
    forall e, f :: e in entries && f in entries && e.side == f.side && e != f ==> !Confused(e, f)
  }

  ghost predicate DistinctFolders(entries: seq<Entry>) {
    forall i, j :: 0 <= i < j < |entries| && entries[i].side == entries[j].side ==>
      entries[i].folder != entries[j].folder
  }

  ghost predicate FoldersDiffer(own: seq<Entry>) {
    forall i, j :: 0 <= i < j < |own| ==> own[i].folder != own[j].folder
  }

  lemma {:induction false} OfSideFacts(entries: seq<Entry>, side: Side)
    ensures forall e :: e in OfSide(entries, side) <==> e in entries && e.side == side
    ensures DistinctFolders(entries) ==> FoldersDiffer(OfSide(entries, side))
    decreases |entries|
  {
    if entries != [] {
      OfSideFacts(entries[1..], side);
      assert entries == [entries[0]] + entries[1..];
      if DistinctFolders(entries) {
        assert DistinctFolders(entries[1..]);
        forall j | 0 <= j < |OfSide(entries[1..], side)| && entries[0].side == side
          ensures OfSide(entries[1..], side)[j].folder != entries[0].folder
        {
          assert OfSide(entries[1..], side)[j] in entries[1..];
        }
      }
    }
  }

  lemma {:induction false} OneClaimant(own: seq<Entry>, t: string)
    ensures |Claimants(own, t)| > 0 <==> exists e :: e in own && Answers(e, t)
    decreases |own|
  {
    if own != [] {
      assert own == [own[0]] + own[1..];
      assert forall e :: e in own <==> e == own[0] || e in own[1..];
      OneClaimant(own[1..], t);
      assert Answers(own[0], t) ==> own[0] in own && |Claimants(own, t)| > 0;
      assert !Answers(own[0], t) ==> Claimants(own, t) == Claimants(own[1..], t);
    }
  }

  ghost predicate BothAnswer(own: seq<Entry>, t: string) {
    exists e, f :: e in own && f in own && e != f && Answers(e, t) && Answers(f, t)
  }

  ghost predicate SomeAnswers(own: seq<Entry>, t: string) { exists e :: e in own && Answers(e, t) }

  lemma {:induction false} BothAnswerHead(own: seq<Entry>, t: string)
    requires FoldersDiffer(own) && own != []
    ensures BothAnswer(own, t) <==> BothAnswer(own[1..], t) || (Answers(own[0], t) && SomeAnswers(own[1..], t))
  {
    assert own == [own[0]] + own[1..];
    assert forall e :: e in own <==> e == own[0] || e in own[1..];
    assert own[0] !in own[1..];
    if Answers(own[0], t) && SomeAnswers(own[1..], t) {
      var e :| e in own[1..] && Answers(e, t);
      assert own[0] in own && e in own && own[0] != e;
    }
  }

  lemma {:induction false} TwoClaimants(own: seq<Entry>, t: string)
    requires FoldersDiffer(own)
    ensures |Claimants(own, t)| > 1 <==> BothAnswer(own, t)
    decreases |own|
  {
    if own != [] {
      OneClaimant(own[1..], t);
      TwoClaimants(own[1..], t);
      BothAnswerHead(own, t);
      assert SomeAnswers(own[1..], t) <==> |Claimants(own[1..], t)| > 0;
    }
  }

  lemma {:induction false} AllButAre(folders: seq<string>, folder: string, f: string)
    ensures f in AllBut(folders, folder) <==> f in folders && f != folder
    decreases |folders|
  {
    if folders != [] {
      AllButAre(folders[1..], folder, f);
      assert folders == [folders[0]] + folders[1..];
    }
  }

  lemma {:induction false} MatchedAre(t: Table, pattern: string, folder: string, f: string)
    ensures f in Matched(t, pattern, folder) <==>
      f != folder && exists k :: k in t && PatternMatches(pattern, k.0) && f in k.1
    decreases |t|
  {
    if t != [] {
      MatchedAre(t[1..], pattern, folder, f);
      AllButAre(t[0].1, folder, f);
      assert t == [t[0]] + t[1..];
      assert forall k :: k in t <==> k == t[0] || k in t[1..];
    }
  }

  /** The pattern matches an exact token of the entry with that folder. */
  ghost predicate MatchesSome(own: seq<Entry>, pattern: string, folder: string) {
    exists e, t :: e in own && e.folder == folder && Answers(e, t) && PatternMatches(pattern, t)
  }

  lemma {:induction false} TableHolds(own: seq<Entry>, t: string)
    ensures TableOk(TableFrom([], own)) && Get(TableFrom([], own), t) == Claimants(own, t)
  {
    TableFacts([], own, t);
    assert [] + Claimants(own, t) == Claimants(own, t);
  }

  lemma {:induction false} MatchedMatches(own: seq<Entry>, pattern: string, k: (string, seq<string>), f: string)
    requires k in TableFrom([], own) && PatternMatches(pattern, k.0) && f in k.1
    ensures MatchesSome(own, pattern, f)
  {
    TableHolds(own, k.0);
    InTable(TableFrom([], own), k.0, k.1);
    ClaimantsAre(own, k.0, f);
    var i :| 0 <= i < |own| && k.0 in ExactTokens(own[i]) && own[i].folder == f;
    assert own[i] in own && Answers(own[i], k.0);
  }

  lemma {:induction false} MatchesMatched(own: seq<Entry>, pattern: string, e: Entry, t: string)
    requires e in own && Answers(e, t)
    ensures (t, Claimants(own, t)) in TableFrom([], own) && e.folder in Claimants(own, t)
  {
    TableHolds(own, t);
    ClaimantsAre(own, t, e.folder);
    InTable(TableFrom([], own), t, Claimants(own, t));
  }

  lemma {:induction false} MatchedInTable(own: seq<Entry>, pattern: string, folder: string, f: string)
    ensures f in Matched(TableFrom([], own), pattern, folder) <==> f != folder && MatchesSome(own, pattern, f)
  {
    var table := TableFrom([], own);
    MatchedAre(table, pattern, folder, f);
    if f in Matched(table, pattern, folder) {
      var k :| k in table && PatternMatches(pattern, k.0) && f in k.1;
      MatchedMatches(own, pattern, k, f);
    }
    if f != folder && MatchesSome(own, pattern, f) {
      var e, t :| e in own && e.folder == f && Answers(e, t) && PatternMatches(pattern, t);
      MatchesMatched(own, pattern, e, t);
    }
  }

  lemma {:induction false} EmptyMatchesNone(own: seq<Entry>, f: string)
    ensures !MatchesSome(own, "", f)
  {
    forall e, t | e in own && Answers(e, t)
      ensures !PatternMatches("", t)
    {
      ExactTokensAre(e, t);
    }
  }

  /** The folders a pattern is reported to swallow are exactly the other folders with an exact
      token it matches, each once, in order. */
  lemma {:induction false} SwallowedAre(own: seq<Entry>, p: string, folder: string, f: string)
    ensures var folders := Swallowed(TableFrom([], own), p, folder);
      && StrictlyAscending(folders)
      && (f in folders <==> f != folder && MatchesSome(own, NormalizePattern(p), f))
  {
    var pattern := NormalizePattern(p);
    var matched := Matched(TableFrom([], own), pattern, folder);
    SortedFacts(matched);
    DedupFacts(Sorted(matched));
    MatchedInTable(own, pattern, folder, f);
    EmptyMatchesNone(own, f);
  }

  lemma {:induction false} SwallowedEmptyIff(own: seq<Entry>, e: Entry, p: string)
    requires FoldersDiffer(own) && e in own
    ensures Swallowed(TableFrom([], own), p, e.folder) == [] <==>
      forall f, t :: f in own && f != e && Answers(f, t) ==> !PatternMatches(NormalizePattern(p), t)
  {
    var folders := Swallowed(TableFrom([], own), p, e.folder);
    if folders != [] {
      SwallowedAre(own, p, e.folder, folders[0]);
      assert MatchesSome(own, NormalizePattern(p), folders[0]);
    }
    forall f, t | f in own && f != e && Answers(f, t) && PatternMatches(NormalizePattern(p), t)
      ensures folders != []
    {
      SwallowedAre(own, p, e.folder, f.folder);
      assert MatchesSome(own, NormalizePattern(p), f.folder);
    }
  }

  /** No token of the side is claimed twice. */
  ghost predicate NoneShared(own: seq<Entry>) { forall t :: !BothAnswer(own, t) }

  /** No pattern of the side matches another entry's exact token. */
  ghost predicate NoneSwallowed(own: seq<Entry>) {
    forall e, f, p, t :: e in own && f in own && f != e && p in e.patterns && Answers(f, t) ==>
      !PatternMatches(NormalizePattern(p), t)
  }

  lemma {:induction false} SharedEmptyIff(own: seq<Entry>, side: Side)
    requires FoldersDiffer(own)
    ensures SharedIn(TableFrom([], own), side) == [] <==> NoneShared(own)
  {
    var table := TableFrom([], own);
    var shared := SharedIn(table, side);
    if shared != [] {
      SharedInAre(table, side, shared[0]);
      var k :| k in table && |k.1| > 1 && shared[0] == Collision(SharedExact, side, k.0, Sorted(k.1));
      TableHolds(own, k.0);
      InTable(table, k.0, k.1);
      TwoClaimants(own, k.0);
    }
    if !NoneShared(own) {
      var t :| BothAnswer(own, t);
      TwoClaimants(own, t);
      TableHolds(own, t);
      InTable(table, t, Claimants(own, t));
      SharedInAre(table, side, Collision(SharedExact, side, t, Sorted(Claimants(own, t))));
    }
  }

  lemma {:induction false} SwallowedInEmptyIff(own: seq<Entry>, side: Side)
    requires FoldersDiffer(own)
    ensures SwallowedIn(TableFrom([], own), own, side) == [] <==> NoneSwallowed(own)
  {
    var table := TableFrom([], own);
    var found := SwallowedIn(table, own, side);
    if found != [] {
      SwallowedInAre(table, own, side, found[0]);
      var e :| e in own && found[0] in SwallowedBy(table, e.patterns, e.folder, side);
      SwallowedByAre(table, e.patterns, e.folder, side, found[0]);
      var p :| p in e.patterns && Swallowed(table, p, e.folder) != [];
      SwallowedEmptyIff(own, e, p);
    }
    forall e, f, p, t | e in own && f in own && f != e && p in e.patterns && Answers(f, t)
        && PatternMatches(NormalizePattern(p), t)
      ensures found != []
    {
      SwallowedEmptyIff(own, e, p);
      var c := Collision(PatternSwallowsExact, side, p, Swallowed(table, p, e.folder));
      SwallowedByAre(table, e.patterns, e.folder, side, c);
      SwallowedInAre(table, own, side, c);
    }
  }

  ghost predicate NoneConfused(own: seq<Entry>) {
    forall e, f :: e in own && f in own && e != f ==> !Confused(e, f)
  }

  lemma {:induction false} ConfusedIff(own: seq<Entry>)
    ensures NoneShared(own) && NoneSwallowed(own) <==> NoneConfused(own)
  {
    if NoneConfused(own) {
      forall t
        ensures !BothAnswer(own, t)
      {
        forall e, f | e in own && f in own && e != f && Answers(e, t)
          ensures !Answers(f, t)
        {
          assert !Confused(e, f);
        }
      }
      forall e, f, p, t | e in own && f in own && f != e && p in e.patterns && Answers(f, t)
        ensures !PatternMatches(NormalizePattern(p), t)
      {
        assert !Confused(f, e);
        assert !Covers(e, t);
      }
    }
    if NoneShared(own) && NoneSwallowed(own) {
      forall e, f | e in own && f in own && e != f
        ensures !Confused(e, f)
      {
        forall t | Answers(e, t)
          ensures !Answers(f, t) && !Covers(f, t)
        {
          assert !BothAnswer(own, t);
        }
      }
    }
  }

  lemma {:induction false} SideEmptyIff(entries: seq<Entry>, side: Side)
    requires DistinctFolders(entries)
    ensures CollisionsOn(entries, side) == [] <==> NoneConfused(OfSide(entries, side))
  {
    OfSideFacts(entries, side);
    SharedEmptyIff(OfSide(entries, side), side);
    SwallowedInEmptyIff(OfSide(entries, side), side);
    ConfusedIff(OfSide(entries, side));
  }

  lemma {:induction false} BothSides(entries: seq<Entry>)
    ensures Unambiguous(entries) <==> NoneConfused(OfSide(entries, Laptop)) && NoneConfused(OfSide(entries, Desktop))
  {
    var laptops, desktops := OfSide(entries, Laptop), OfSide(entries, Desktop);
    OfSideFacts(entries, Laptop);
    OfSideFacts(entries, Desktop);
    if NoneConfused(laptops) && NoneConfused(desktops) {
      forall e, f | e in entries && f in entries && e.side == f.side && e != f
        ensures !Confused(e, f)
      {
        assert if e.side == Laptop then e in laptops && f in laptops else e in desktops && f in desktops;
      }
    }
  }

  /** With distinct folder names per side, nothing is reported exactly when every exact token
      belongs to one entry of its side and no other entry's pattern matches it. */
  lemma {:induction false} NothingReportedIff(entries: seq<Entry>)
    requires DistinctFolders(entries)
    ensures CollisionsOf(entries) == [] <==> Unambiguous(entries)
  {
    SideEmptyIff(entries, Laptop);
    SideEmptyIff(entries, Desktop);
    BothSides(entries);
  }

  // ----- The order of the report -----

  /** Laptops before desktops; on each side shared tokens, in ascending order, before swallowing patterns. */
  predicate Precedes(c: Collision, e: Collision) {
    if c.side != e.side then c.side == Laptop
    else if c.kind != e.kind then c.kind == SharedExact
    else c.kind == SharedExact ==> Less(c.token, e.token)
  }

  ghost predicate Ordered(report: seq<Collision>) {
    forall i, j :: 0 <= i < j < |report| ==> Precedes(report[i], report[j])
  }

  ghost predicate AllOf(report: seq<Collision>, kind: Kind, side: Side) {
    forall c :: c in report ==> c.kind == kind && c.side == side
  }

  lemma {:induction false} SharedInOrder(t: Table, side: Side)
    requires TableOk(t)
    ensures AllOf(SharedIn(t, side), SharedExact, side) && Ordered(SharedIn(t, side))
    ensures forall c :: c in SharedIn(t, side) ==> exists i :: 0 <= i < |t| && t[i].0 == c.token
    decreases |t|
  {
    if t != [] {
      SharedInOrder(t[1..], side);
      var rest := SharedIn(t[1..], side);
      forall c | c in rest
        ensures exists i :: 0 < i < |t| && t[i].0 == c.token
      {
        var i :| 0 <= i < |t[1..]| && t[1..][i].0 == c.token;
        assert t[i + 1].0 == c.token;
      }
      forall j | 0 <= j < |rest|
        ensures Less(t[0].0, rest[j].token)
      {
        assert rest[j] in rest;
      }
    }
  }

  lemma {:induction false} SwallowedByOne(t: Table, patterns: seq<string>, folder: string, side: Side)
    ensures AllOf(SwallowedBy(t, patterns, folder, side), PatternSwallowsExact, side)
    decreases |patterns|
  {
    if patterns != [] {
      SwallowedByOne(t, patterns[1..], folder, side);
    }
  }

  lemma {:induction false} SwallowedAfter(t: Table, entries: seq<Entry>, side: Side)
    ensures AllOf(SwallowedIn(t, entries, side), PatternSwallowsExact, side)
    decreases |entries|
  {
    if entries != [] {
      SwallowedByOne(t, entries[0].patterns, entries[0].folder, side);
      SwallowedAfter(t, entries[1..], side);
    }
  }

  lemma {:induction false} OrderedBoth(a: seq<Collision>, b: seq<Collision>)
    requires Ordered(a) && Ordered(b) && forall c, e :: c in a && e in b ==> Precedes(c, e)
    ensures Ordered(a + b)
  {
    var all := a + b;
    forall i, j | 0 <= i < j < |all|
      ensures Precedes(all[i], all[j])
    {
      if i < |a| <= j {
        assert all[i] in a && all[j] in b;
      }
    }
  }

  lemma {:induction false} SideInOrder(entries: seq<Entry>, side: Side)
    ensures Ordered(CollisionsOn(entries, side)) && forall c :: c in CollisionsOn(entries, side) ==> c.side == side
  {
    var own := OfSide(entries, side);
    var table := TableFrom([], own);
    TableFacts([], own, "");
    SharedInOrder(table, side);
    SwallowedAfter(table, own, side);
    OrderedBoth(SharedIn(table, side), SwallowedIn(table, own, side));
  }

  /** The report lists laptops first, and on each side shared tokens, ascending, before swallowing patterns. */
  lemma {:induction false} ReportIsOrdered(entries: seq<Entry>)
    ensures Ordered(CollisionsOf(entries))
  {
    SideInOrder(entries, Laptop);
    SideInOrder(entries, Desktop);
    OrderedBoth(CollisionsOn(entries, Laptop), CollisionsOn(entries, Desktop));
  }
}
