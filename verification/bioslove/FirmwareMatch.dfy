/** The firmware's matcher, and what the collision report means for it. */
module FirmwareMatch {
  import opened Wrappers
  import opened Text
  import opened Ordering
  import opened Ambiguity
  import opened AmbiguityTheorems

  /** How a match was reached, weakest first. */
  datatype Confidence = Partial | Pattern | Exact

  datatype Hit = Hit(confidence: Confidence, token: string)

  /** The first exact name, or else the first that overlaps the key. */
  function NameHit(names: seq<string>, key: string, sofar: Option<Hit>): Option<Hit>
    decreases |names|
  {
    if names == [] then sofar
    else
      var token := Normalize(names[0]);
      if token == "" then NameHit(names[1..], key, sofar)
      else if token == key then Some(Hit(Exact, names[0]))
      else if sofar.None? && |token| >= 4 && (Contains(key, token) || Contains(token, key)) then
        NameHit(names[1..], key, Some(Hit(Partial, names[0])))
      else NameHit(names[1..], key, sofar)
  }

  function PatternHit(patterns: seq<string>, key: string): Option<Hit> {
    if patterns == [] then None
    else if NormalizePattern(patterns[0]) != "" && PatternMatches(NormalizePattern(patterns[0]), key) then
      Some(Hit(Pattern, patterns[0]))
    else PatternHit(patterns[1..], key)
  }

  /** What an entry makes of one normalized SMBIOS value. */
  function HitOf(e: Entry, key: string): Option<Hit> {
    var byName := NameHit(NamesOf(e), key, None);
    if byName.Some? && byName.value.confidence == Exact then byName
    else
      var byPattern := PatternHit(e.patterns, key);
      if byPattern.Some? then byPattern else byName
  }

  predicate OwnName(e: Entry, hit: Hit) { Normalize(hit.token) == Normalize(e.folder) }

  // ----- One key -----

  lemma {:induction false} NameHitFacts(names: seq<string>, key: string, sofar: Option<Hit>)
    requires key != "" && (sofar.Some? ==> sofar.value.confidence == Partial)
    ensures var h := NameHit(names, key, sofar);
      && (h.Some? ==> h.value.confidence != Pattern)
      && (h.Some? && h.value.confidence == Exact <==> exists n :: n in names && Normalize(n) == key)
      && (h.Some? && h.value.confidence == Exact ==> Normalize(h.value.token) == key)
    decreases |names|
  {
    if names != [] {
      assert names == [names[0]] + names[1..];
      assert forall n :: n in names <==> n == names[0] || n in names[1..];
      NameHitFacts(names[1..], key, sofar);
      NameHitFacts(names[1..], key, Some(Hit(Partial, names[0])));
    }
  }

  lemma {:induction false} PatternHitFacts(patterns: seq<string>, key: string)
    requires key != ""
    ensures PatternHit(patterns, key).Some? <==>
      exists p :: p in patterns && PatternMatches(NormalizePattern(p), key)
    ensures PatternHit(patterns, key).Some? ==> PatternHit(patterns, key).value.confidence == Pattern
    decreases |patterns|
  {
    if patterns != [] {
      assert patterns == [patterns[0]] + patterns[1..];
      assert forall p :: p in patterns <==> p == patterns[0] || p in patterns[1..];
      PatternHitFacts(patterns[1..], key);
    }
  }

  predicate HitsAt(e: Entry, key: string, c: Confidence) { HitOf(e, key).Some? && HitOf(e, key).value.confidence == c }

  /** An entry hits a key exactly when it answers to it, and by family when a pattern covers it. */
  lemma {:induction false} HitIs(e: Entry, key: string)
    requires |key| >= 3
    ensures HitsAt(e, key, Exact) <==> Answers(e, key)
    ensures HitsAt(e, key, Pattern) <==> !Answers(e, key) && Covers(e, key)
    ensures HitsAt(e, key, Exact) ==> (OwnName(e, HitOf(e, key).value) <==> Normalize(e.folder) == key)
  {
    NameHitFacts(NamesOf(e), key, None);
    PatternHitFacts(e.patterns, key);
    ExactTokensAre(e, key);
  }

  /** Long enough to overlap, and one contains the other. */
  predicate Overlaps(name: string, key: string) {
    |Normalize(name)| >= 4 && (Contains(key, Normalize(name)) || Contains(Normalize(name), key))
  }

  lemma {:induction false} NameHitPartial(names: seq<string>, key: string, sofar: Option<Hit>)
    requires key != "" && (sofar.Some? ==> sofar.value.confidence == Partial)
    requires forall n :: n in names ==> Normalize(n) != key
    ensures NameHit(names, key, sofar).Some? <==> sofar.Some? || exists n :: n in names && Overlaps(n, key)
    decreases |names|
  {
    if names != [] {
      assert names[0] in names && forall n :: n in names <==> n == names[0] || n in names[1..];
      NameHitPartial(names[1..], key, sofar);
      NameHitPartial(names[1..], key, Some(Hit(Partial, names[0])));
    }
  }

  /** It hits the key partially exactly when it does neither, and a name of four letters or more is part of the
      key or has the key as a part. */
  lemma {:induction false} PartialHitIff(e: Entry, key: string)
    requires |key| >= 3
    ensures HitsAt(e, key, Partial) <==>
      !Answers(e, key) && !Covers(e, key) && exists n :: n in NamesOf(e) && Overlaps(n, key)
  {
    HitIs(e, key);
    NameHitFacts(NamesOf(e), key, None);
    PatternHitFacts(e.patterns, key);
    if !HitsAt(e, key, Exact) {
      NameHitPartial(NamesOf(e), key, None);
    }
  }

  /** Exactly one entry of the side matches the key beyond a mere overlap. */
  ghost predicate Settles(entries: seq<Entry>, side: Side, key: string) {
    forall e, f ::
      && e in entries && f in entries && e.side == side && f.side == side
      && HitsAt(e, key, Exact) && (HitsAt(f, key, Exact) || HitsAt(f, key, Pattern))
      ==> e == f
  }

  /** The report is empty exactly when the firmware, given any exact token of any entry, finds that
      entry alone by name or family. */
  lemma {:induction false} NothingReportedIffFirmwareSettles(entries: seq<Entry>)
    requires DistinctFolders(entries)
    ensures CollisionsOf(entries) == [] <==>
      forall side, key :: |key| >= 3 ==> Settles(entries, side, key)
  {
    NothingReportedIff(entries);
    forall e, key | |key| >= 3
      ensures HitsAt(e, key, Exact) <==> Answers(e, key)
      ensures HitsAt(e, key, Pattern) <==> !Answers(e, key) && Covers(e, key)
    {
      HitIs(e, key);
    }
    if Unambiguous(entries) {
      forall side, key | |key| >= 3
        ensures Settles(entries, side, key)
      {
        forall e, f | e in entries && f in entries && e.side == side && f.side == side
            && HitsAt(e, key, Exact) && (HitsAt(f, key, Exact) || HitsAt(f, key, Pattern))
          ensures e == f
        {
          assert e != f ==> !Confused(e, f);
        }
      }
    } else {
      var e, f :| e in entries && f in entries && e.side == f.side && e != f && Confused(e, f);
      var t :| Answers(e, t) && (Answers(f, t) || Covers(f, t));
      ExactTokensAre(e, t);
      assert !Settles(entries, e.side, t);
    }
  }

  // ----- The folder named for the token -----

  lemma {:induction false} NamedForInserted(x: string, s: seq<string>, token: string)
    ensures NamedFor(InsertSorted(x, s), token) == NamedFor(s, token) + if Normalize(x) == token then 1 else 0
    decreases |s|
  {
    if s == [] || AtMost(x, s[0]) {
      assert ([x] + s)[1..] == s;
    } else {
      NamedForInserted(x, s[1..], token);
      assert ([s[0]] + InsertSorted(x, s[1..]))[1..] == InsertSorted(x, s[1..]);
    }
  }

  lemma {:induction false} NamedForSorted(s: seq<string>, token: string)
    ensures NamedFor(Sorted(s), token) == NamedFor(s, token)
    decreases |s|
  {
    if s != [] {
      NamedForSorted(s[1..], token);
      NamedForInserted(s[0], Sorted(s[1..]), token);
    }
  }

  /** Entries the firmware matches exactly and by their own folder name. */
  function OwnMatches(own: seq<Entry>, key: string): nat {
    if own == [] then 0
    else
      (if HitsAt(own[0], key, Exact) && OwnName(own[0], HitOf(own[0], key).value) then 1 else 0)
      + OwnMatches(own[1..], key)
  }

  lemma {:induction false} OwnMatchesCount(own: seq<Entry>, key: string)
    requires |key| >= 3
    ensures OwnMatches(own, key) == NamedFor(Claimants(own, key), key)
    decreases |own|
  {
    if own != [] {
      HitIs(own[0], key);
      OwnMatchesCount(own[1..], key);
      var rest := Claimants(own[1..], key);
      assert ([own[0].folder] + rest)[1..] == rest && [] + rest == rest;
      assert Claimants(own, key) == if Answers(own[0], key) then [own[0].folder] + rest else rest;
    }
  }

  /** A shared token counts as settled exactly when the firmware's own-name tiebreak singles out
      one of the entries that match it. */
  lemma {:induction false} SettledIffTiebreakDecides(entries: seq<Entry>, side: Side, c: Collision)
    requires c in CollisionsOn(entries, side) && c.kind == SharedExact
    ensures SettledByName(c) <==> OwnMatches(OfSide(entries, side), c.token) == 1
  {
    SharedTokensReported(entries, side, c);
    var own := OfSide(entries, side);
    ClaimantsAre(own, c.token, Claimants(own, c.token)[0]);
    var i :| 0 <= i < |own| && c.token in ExactTokens(own[i]);
    ExactTokensAre(own[i], c.token);
    OwnMatchesCount(own, c.token);
    NamedForSorted(Claimants(own, c.token), c.token);
  }

  // ----- The ranking over all keys -----

  /** Strength of a match: confidence, then the SMBIOS field (3 is the board product), then
      whether the folder's own name matched. */
  datatype Rank = Rank(confidence: nat, source: nat, ownName: bool)

  predicate Weaker(a: Rank, b: Rank) {
    || a.confidence < b.confidence
    || (a.confidence == b.confidence && a.source < b.source)
    || (a.confidence == b.confidence && a.source == b.source && !a.ownName && b.ownName)
  }

  function Strength(c: Confidence): nat {
    match c
    case Partial => 0
    case Pattern => 1
    case Exact => 2
  }

  /** The best match of an entry over the remaining values, strongest field first. */
  function Best(e: Entry, values: seq<string>, source: nat, sofar: Option<Rank>): Option<Rank>
    decreases |values|
  {
    if values == [] || source == 0 then sofar
    else
      var key := Normalize(values[0]);
      var hit := if |key| < 3 then None else HitOf(e, key);
      var cand := if hit.None? then None
        else Some(Rank(Strength(hit.value.confidence), source - 1, OwnName(e, hit.value)));
      var best := if cand.Some? && (sofar.None? || Weaker(sofar.value, cand.value)) then cand else sofar;
      Best(e, values[1..], source - 1, best)
  }

  /** The match of an entry on a machine's board product, system product, family and version. */
  function RankOf(e: Entry, values: seq<string>): Option<Rank>
    requires |values| == 4
  {
    Best(e, values, 4, None)
  }

  /** What an entry makes of one field: 3 is the board product, 0 the version. */
  function FieldRank(e: Entry, value: string, field: nat): Option<Rank> {
    var key := Normalize(value);
    if |key| < 3 || HitOf(e, key).None? then None
    else Some(Rank(Strength(HitOf(e, key).value.confidence), field, OwnName(e, HitOf(e, key).value)))
  }

  /** The confidence counts first, then the field, then the entry's own name. */
  function Score(r: Rank): nat { r.confidence * 100 + r.source * 10 + if r.ownName then 1 else 0 }

  lemma {:induction false} WeakerScoresLess(a: Rank, b: Rank)
    requires a.source < 10 && b.source < 10
    ensures Weaker(a, b) <==> Score(a) < Score(b)
  {
  }

  function Better(sofar: Option<Rank>, cand: Option<Rank>): Option<Rank> {
    if cand.Some? && (sofar.None? || Weaker(sofar.value, cand.value)) then cand else sofar
  }

  function BestRank(ranks: seq<Option<Rank>>, sofar: Option<Rank>): Option<Rank>
    decreases |ranks|
  {
    if ranks == [] then sofar else BestRank(ranks[1..], Better(sofar, ranks[0]))
  }

  predicate InRange(r: Option<Rank>) { r.Some? ==> r.value.source < 10 }

  /** `best` is one of the ranks, or `sofar`, and none of them scores higher. */
  ghost predicate IsBest(ranks: seq<Option<Rank>>, sofar: Option<Rank>, best: Option<Rank>) {
    && (best == sofar || best in ranks)
    && (forall r :: (r in ranks || r == sofar) && r.Some? ==> best.Some? && Score(best.value) >= Score(r.value))
  }

  lemma {:induction false} BetterIs(sofar: Option<Rank>, cand: Option<Rank>)
    requires InRange(sofar) && InRange(cand)
    ensures InRange(Better(sofar, cand)) && IsBest([cand], sofar, Better(sofar, cand))
  {
    if cand.Some? && sofar.Some? {
      WeakerScoresLess(sofar.value, cand.value);
    }
    assert cand in [cand];
  }

  lemma {:induction false} BestRankIsBest(ranks: seq<Option<Rank>>, sofar: Option<Rank>)
    requires InRange(sofar) && forall r :: r in ranks ==> InRange(r)
    ensures IsBest(ranks, sofar, BestRank(ranks, sofar))
    decreases |ranks|
  {
    if ranks != [] {
      assert forall r :: r in ranks <==> r == ranks[0] || r in ranks[1..];
      BetterIs(sofar, ranks[0]);
      assert ranks[0] in [ranks[0]];
      BestRankIsBest(ranks[1..], Better(sofar, ranks[0]));
    }
  }

  lemma {:induction false} BestIsBestRank(
    e: Entry, values: seq<string>, source: nat, sofar: Option<Rank>, ranks: seq<Option<Rank>>)
    requires |values| == |ranks| == source
    requires forall k :: 0 <= k < source ==> ranks[k] == FieldRank(e, values[k], source - 1 - k)
    ensures Best(e, values, source, sofar) == BestRank(ranks, sofar)
    decreases |values|
  {
    if source > 0 {
      assert ranks[0] == FieldRank(e, values[0], source - 1);
      BestIsBestRank(e, values[1..], source - 1, Better(sofar, ranks[0]), ranks[1..]);
    }
  }

  lemma {:induction false} BestOfRanks(e: Entry, values: seq<string>, ranks: seq<Option<Rank>>)
    requires |values| == |ranks| == 4
    requires forall k :: 0 <= k < 4 ==> ranks[k] == FieldRank(e, values[k], 3 - k)
    ensures IsBest(ranks, None, RankOf(e, values))
  {
    BestIsBestRank(e, values, |values|, None, ranks);
    BestRankIsBest(ranks, None);
  }

  /** An entry ranks as the best of its matches on the four fields, and not at all without one. */
  lemma {:induction false} RankIsBest(e: Entry, values: seq<string>)
    requires |values| == 4
    ensures IsBest(
      [FieldRank(e, values[0], 3), FieldRank(e, values[1], 2), FieldRank(e, values[2], 1), FieldRank(e, values[3], 0)],
      None, RankOf(e, values))
  {
    var ranks :=
      [FieldRank(e, values[0], 3), FieldRank(e, values[1], 2), FieldRank(e, values[2], 1), FieldRank(e, values[3], 0)];
    BestOfRanks(e, values, ranks);
  }

  lemma {:induction false} BestStays(e: Entry, values: seq<string>, source: nat, r: Rank)
    requires r.confidence == 2 && source <= r.source
    ensures Best(e, values, source, Some(r)) == Some(r)
    decreases |values|
  {
    if values != [] && source != 0 {
      BestStays(e, values[1..], source - 1, r);
    }
  }

  lemma {:induction false} BestBelow(e: Entry, values: seq<string>, source: nat, sofar: Option<Rank>)
    requires source <= 3 && (sofar.Some? ==> sofar.value.confidence < 2 || sofar.value.source < 3)
    requires sofar.Some? ==> sofar.value.confidence <= 2
    ensures var r := Best(e, values, source, sofar);
      r.Some? ==> r.value.confidence < 2 || (r.value.confidence == 2 && r.value.source < 3)
    decreases |values|
  {
    if values != [] && source != 0 {
      var key := Normalize(values[0]);
      var hit := if |key| < 3 then None else HitOf(e, key);
      var cand := if hit.None? then None
        else Some(Rank(Strength(hit.value.confidence), source - 1, OwnName(e, hit.value)));
      var best := if cand.Some? && (sofar.None? || Weaker(sofar.value, cand.value)) then cand else sofar;
      BestBelow(e, values[1..], source - 1, best);
    }
  }

  lemma {:induction false} ExactBoardRank(e: Entry, values: seq<string>)
    requires |values| == 4 && Answers(e, Normalize(values[0]))
    ensures RankOf(e, values).Some? && RankOf(e, values).value.confidence == 2 && RankOf(e, values).value.source == 3
  {
    var key := Normalize(values[0]);
    ExactTokensAre(e, key);
    HitIs(e, key);
    BestStays(e, values[1..], 3, Rank(2, 3, OwnName(e, HitOf(e, key).value)));
  }

  lemma {:induction false} OtherBoardRank(f: Entry, values: seq<string>)
    requires |values| == 4 && |Normalize(values[0])| >= 3 && !HitsAt(f, Normalize(values[0]), Exact)
    ensures var r := RankOf(f, values);
      r.Some? ==> r.value.confidence < 2 || (r.value.confidence == 2 && r.value.source < 3)
  {
    var hit := HitOf(f, Normalize(values[0]));
    BestBelow(f, values[1..], 3,
      if hit.None? then None else Some(Rank(Strength(hit.value.confidence), 3, OwnName(f, hit.value))));
  }

  /** On a collision-free index, a machine whose board product is an exact token of an entry ranks
      that entry strictly above every other of its side, whatever its other values say. */
  lemma {:induction false} BoardNameRanksFirst(entries: seq<Entry>, e: Entry, f: Entry, values: seq<string>)
    requires DistinctFolders(entries) && CollisionsOf(entries) == []
    requires e in entries && f in entries && e.side == f.side && e != f
    requires |values| == 4 && Answers(e, Normalize(values[0]))
    ensures RankOf(e, values).Some?
    ensures RankOf(f, values).Some? ==> Weaker(RankOf(f, values).value, RankOf(e, values).value)
  {
    var key := Normalize(values[0]);
    ExactTokensAre(e, key);
    ExactBoardRank(e, values);
    NothingReportedIff(entries);
    assert !Confused(e, f);
    HitIs(f, key);
    OtherBoardRank(f, values);
  }
}
