/** The order of strings, and sorting by it. */
module Ordering {

  /** Lexicographic order by scalar value, the order of the UTF-8 bytes. */
  predicate Less(a: string, b: string) {
    b != "" && (a == "" || a[0] < b[0] || (a[0] == b[0] && Less(a[1..], b[1..])))
  }

  /** The first `n` characters are the same, and then `a` ends or has the smaller one. */
  predicate DiffersAt(a: string, b: string, n: nat) {
    n <= |a| && n < |b| && a[..n] == b[..n] && (n == |a| || a[n] < b[n])
  }

  lemma {:induction false} LessIff(a: string, b: string)
    ensures Less(a, b) <==> exists n: nat :: DiffersAt(a, b, n)
    decreases |a|
  {
    if Less(a, b) {
      if a == "" || a[0] < b[0] {
        assert DiffersAt(a, b, 0);
      } else {
        LessIff(a[1..], b[1..]);
        var n: nat :| DiffersAt(a[1..], b[1..], n);
        assert a[..n + 1] == [a[0]] + a[1..][..n] && b[..n + 1] == [b[0]] + b[1..][..n];
        assert DiffersAt(a, b, n + 1);
      }
    }
    if n: nat :| DiffersAt(a, b, n) {
      if n > 0 {
        assert a[0] == a[..n][0] == b[..n][0] == b[0];
        assert a[1..][..n - 1] == a[..n][1..] && b[1..][..n - 1] == b[..n][1..];
        assert DiffersAt(a[1..], b[1..], n - 1);
        LessIff(a[1..], b[1..]);
      }
    }
  }

  predicate AtMost(a: string, b: string) { a == b || Less(a, b) }

  lemma {:induction false} LessIsTotal(a: string, b: string)
    ensures a == b || Less(a, b) || Less(b, a)
    decreases |a|
  {
    if a != "" && b != "" && a[0] == b[0] {
      LessIsTotal(a[1..], b[1..]);
      assert a == [a[0]] + a[1..] && b == [b[0]] + b[1..];
    }
  }

  lemma {:induction false} LessIsTransitive(a: string, b: string, c: string)
    requires Less(a, b) && Less(b, c)
    ensures Less(a, c)
    decreases |a|
  {
    if a != "" && a[0] == b[0] == c[0] {
      LessIsTransitive(a[1..], b[1..], c[1..]);
    }
  }

  lemma {:induction false} LessIsIrreflexive(a: string)
    ensures !Less(a, a)
    decreases |a|
  {
    if a != "" {
      LessIsIrreflexive(a[1..]);
    }
  }

  /** Each element at most the next. */
  predicate Ascending(s: seq<string>) { forall i :: 0 < i < |s| ==> AtMost(s[i - 1], s[i]) }

  predicate StrictlyAscending(s: seq<string>) { forall i :: 0 < i < |s| ==> Less(s[i - 1], s[i]) }

  function InsertSorted(x: string, s: seq<string>): seq<string> {
    if s == [] || AtMost(x, s[0]) then [x] + s else [s[0]] + InsertSorted(x, s[1..])
  }

  function Sorted(s: seq<string>): seq<string> {
    if s == [] then [] else InsertSorted(s[0], Sorted(s[1..]))
  }

  /** `Vec::dedup`: drops an element equal to the one before it. */
  function Dedup(s: seq<string>): seq<string> {
    if |s| <= 1 then s
    else if s[0] == s[1] then Dedup(s[1..])
    else [s[0]] + Dedup(s[1..])
  }

  lemma {:induction false} InsertSortedFacts(x: string, s: seq<string>)
    requires Ascending(s)
    ensures Ascending(InsertSorted(x, s)) && multiset(InsertSorted(x, s)) == multiset{x} + multiset(s)
    ensures InsertSorted(x, s) != [] && (InsertSorted(x, s)[0] == x || (s != [] && InsertSorted(x, s)[0] == s[0]))
    decreases |s|
  {
    if s != [] {
      assert s == [s[0]] + s[1..];
      if !AtMost(x, s[0]) {
        LessIsTotal(x, s[0]);
        InsertSortedFacts(x, s[1..]);
      }
    }
  }

  /** Sorting puts the same elements in order. */
  lemma {:induction false} SortedFacts(s: seq<string>)
    ensures Ascending(Sorted(s)) && multiset(Sorted(s)) == multiset(s)
    ensures forall x :: x in Sorted(s) <==> x in s
    decreases |s|
  {
    if s != [] {
      SortedFacts(s[1..]);
      InsertSortedFacts(s[0], Sorted(s[1..]));
      assert s == [s[0]] + s[1..];
    }
    forall x
      ensures x in Sorted(s) <==> x in s
    {
      assert x in multiset(Sorted(s)) <==> x in multiset(s);
    }
  }

  /** Deduplicating a sorted list leaves each element once, in order. */
  lemma {:induction false} DedupFacts(s: seq<string>)
    requires Ascending(s)
    ensures StrictlyAscending(Dedup(s)) && forall x :: x in Dedup(s) <==> x in s
    ensures s != [] ==> Dedup(s) != [] && Dedup(s)[0] == s[0]
    decreases |s|
  {
    if |s| > 1 {
      DedupFacts(s[1..]);
      assert s == [s[0]] + s[1..];
    }
  }
}
