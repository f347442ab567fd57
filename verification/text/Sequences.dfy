/** Regrouping of concatenations, the step most loops that build a sequence need. */
module Sequences {

  lemma Associates<T>(a: seq<T>, b: seq<T>, c: seq<T>)
    ensures (a + b) + c == a + (b + c)
  {
  }

  /** Moving the next element onto what has been built. */
  lemma Shift<T>(built: seq<T>, next: T, left: seq<T>)
    ensures built + ([next] + left) == (built + [next]) + left
  {
  }

  // ----- Subsequences by their places -----

  /** `chosen` are the items at the places `picks`, which go up. */
  ghost predicate Picks<T>(picks: seq<nat>, items: seq<T>, chosen: seq<T>) {
    && |picks| == |chosen|
    && (forall k :: 0 <= k < |picks| ==> picks[k] < |items| && chosen[k] == items[picks[k]])
    && forall j, k :: 0 <= j < k < |picks| ==> picks[j] < picks[k]
  }

  /** The same places behind one more item. */
  function Moved(picks: seq<nat>): seq<nat> { seq(|picks|, k requires 0 <= k < |picks| => picks[k] + 1) }

  lemma MovedHas(picks: seq<nat>)
    ensures 0 !in Moved(picks) && forall k: nat :: k + 1 in Moved(picks) <==> k in picks
  {
    forall k: nat
      ensures k + 1 in Moved(picks) <==> k in picks
    {
      if k in picks {
        var j :| 0 <= j < |picks| && picks[j] == k;
        assert Moved(picks)[j] == k + 1;
      }
    }
  }

  lemma PicksSkip<T>(picks: seq<nat>, items: seq<T>, chosen: seq<T>)
    requires items != [] && Picks(picks, items[1..], chosen)
    ensures Picks(Moved(picks), items, chosen)
  {
  }

  lemma PicksTake<T>(picks: seq<nat>, items: seq<T>, chosen: seq<T>)
    requires items != [] && Picks(picks, items[1..], chosen)
    ensures Picks([0] + Moved(picks), items, [items[0]] + chosen)
    ensures 0 in [0] + Moved(picks) && forall k: nat :: k + 1 in [0] + Moved(picks) <==> k in picks
  {
    MovedHas(picks);
  }

  /** The items whose flag is set. */
  function Flagged<T>(items: seq<T>, flags: seq<bool>): seq<T>
    requires |flags| == |items|
  {
    if items == [] then [] else (if flags[0] then [items[0]] else []) + Flagged(items[1..], flags[1..])
  }

  lemma {:induction false} FlagsMove(rest: seq<nat>, flags: seq<bool>, picks: seq<nat>)
    requires flags != [] && picks == (if flags[0] then [0] else []) + Moved(rest)
    requires forall k :: 0 <= k < |flags| - 1 ==> (k in rest <==> flags[1..][k])
    ensures forall k :: 0 <= k < |flags| ==> (k in picks <==> flags[k])
  {
    MovedHas(rest);
    forall k | 0 <= k < |flags|
      ensures k in picks <==> flags[k]
    {
      assert k in picks <==> (k == 0 && flags[0]) || k in Moved(rest);
      if k > 0 {
        assert flags[1..][k - 1] == flags[k] && (k - 1 + 1 in Moved(rest) <==> k - 1 in rest);
      }
    }
  }

  lemma {:induction false} FlaggedPicks<T>(items: seq<T>, flags: seq<bool>) returns (picks: seq<nat>)
    requires |flags| == |items|
    ensures Picks(picks, items, Flagged(items, flags))
    ensures forall k :: 0 <= k < |items| ==> (k in picks <==> flags[k])
    decreases |items|
  {
    picks := [];
    if items != [] {
      var rest := FlaggedPicks(items[1..], flags[1..]);
      picks := (if flags[0] then [0] else []) + Moved(rest);
      FlagsMove(rest, flags, picks);
      if flags[0] {
        PicksTake(rest, items, Flagged(items[1..], flags[1..]));
      } else {
        assert picks == Moved(rest);
        PicksSkip(rest, items, Flagged(items[1..], flags[1..]));
      }
    }
  }
}
