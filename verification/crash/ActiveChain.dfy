/** The longest chain of active breadcrumbs, and the cleaning of the names on it. */
module ActiveChain {
  import opened Text
  import opened BreadcrumbParser
  import opened BreadcrumbScanner

  // ----- Names -----

  predicate IsFlag(c: char) { c in {'-', '+', '#', '.'} || IsAsciiDigit(c) }

  predicate IsLengthMark(c: char) { c in {'h', 'l', 'L', 'z'} }

  predicate IsConversion(c: char) {
    c in {'d', 'i', 'o', 'u', 'x', 'X', 'e', 'E', 'f', 'g', 'G', 'a', 'A', 'c', 's', 'p', '%'}
  }

  predicate IsTrailing(c: char) {
    IsWhitespace(c) || c in {'-', ':', ',', ';', '(', '[', '/', '='}
  }

  /** The state of reading a specifier after its `%`: flags, then length marks, then a letter. */
  predicate FlagsThenLetter(s: string) {
    s != "" && (if IsFlag(s[0]) then FlagsThenLetter(s[1..]) else MarksThenLetter(s))
  }

  predicate MarksThenLetter(s: string) {
    s != "" && (if IsLengthMark(s[0]) then MarksThenLetter(s[1..]) else IsConversion(s[0]))
  }

  /** A printf conversion specifier starts `s`. */
  predicate IsFormatSpec(s: string) { s != "" && s[0] == '%' && FlagsThenLetter(s[1..]) }

  /** `s` up to the first specifier. */
  function BeforeSpec(s: string): string {
    if s == "" || IsFormatSpec(s) then "" else [s[0]] + BeforeSpec(s[1..])
  }

  function CleanName(name: string): string {
    Trim(TrimEnd(BeforeSpec(Trim(name)), IsTrailing))
  }

  /** No specifier starts anywhere in `s`. */
  predicate SpecFree(s: string) {
    s == "" || (!IsFormatSpec(s) && SpecFree(s[1..]))
  }

  lemma {:induction false} MarksGrow(s: string, more: string)
    requires MarksThenLetter(s)
    ensures MarksThenLetter(s + more)
    decreases |s|
  {
    assert (s + more)[1..] == s[1..] + more;
    if IsLengthMark(s[0]) {
      MarksGrow(s[1..], more);
    }
  }

  lemma {:induction false} FlagsGrow(s: string, more: string)
    requires FlagsThenLetter(s)
    ensures FlagsThenLetter(s + more)
    decreases |s|
  {
    assert (s + more)[1..] == s[1..] + more;
    if IsFlag(s[0]) {
      FlagsGrow(s[1..], more);
    } else {
      MarksGrow(s, more);
    }
  }

  /** Cutting text off the end makes no new specifier. */
  lemma {:induction false} PrefixIsSpecFree(s: string, more: string)
    requires SpecFree(s + more)
    ensures SpecFree(s)
    decreases |s|
  {
    if s != "" {
      assert (s + more)[1..] == s[1..] + more;
      PrefixIsSpecFree(s[1..], more);
      if IsFormatSpec(s) {
        FlagsGrow(s[1..], more);
      }
    }
  }

  lemma {:induction false} BeforeSpecIsPrefix(s: string) returns (more: string)
    ensures s == BeforeSpec(s) + more
    decreases |s|
  {
    if s == "" || IsFormatSpec(s) {
      more := s;
    } else {
      more := BeforeSpecIsPrefix(s[1..]);
      assert s == [s[0]] + s[1..];
    }
  }

  lemma {:induction false} BeforeSpecIsSpecFree(s: string)
    ensures SpecFree(BeforeSpec(s))
    decreases |s|
  {
    if s != "" && !IsFormatSpec(s) {
      BeforeSpecIsSpecFree(s[1..]);
      var head := BeforeSpec(s);
      assert head[1..] == BeforeSpec(s[1..]);
      if IsFormatSpec(head) {
        var more := BeforeSpecIsPrefix(s[1..]);
        assert s[1..] == head[1..] + more;
        FlagsGrow(head[1..], more);
      }
    }
  }

  lemma {:induction false} SpecFreeIsKept(s: string)
    requires SpecFree(s)
    ensures BeforeSpec(s) == s
    decreases |s|
  {
    if s != "" {
      SpecFreeIsKept(s[1..]);
      assert s == [s[0]] + s[1..];
    }
  }

  lemma TrimmedEndIsPrefix(s: string, p: char -> bool) returns (more: string)
    ensures s == TrimEnd(s, p) + more
  {
    TrimEndFacts(s, p);
    more := s[|TrimEnd(s, p)|..];
  }

  /** What cleaning leaves: a trimmed text without specifiers that ends in no separator. */
  ghost predicate Clean(s: string) {
    SpecFree(s) && Trimmed(s) && (s != "" ==> !IsTrailing(s[|s| - 1]))
  }

  lemma CleanIsFixed(s: string)
    requires Clean(s)
    ensures CleanName(s) == s
  {
    TrimOfTrimmed(s);
    SpecFreeIsKept(s);
  }

  /** Every cleaned name is clean: no format specifier survives anywhere in it. */
  lemma CleanNameIsClean(name: string)
    ensures Clean(CleanName(name))
  {
    var n := Trim(name);
    var head := BeforeSpec(n);
    BeforeSpecIsSpecFree(n);
    var cut := BeforeSpecIsPrefix(n);
    var r := TrimEnd(head, IsTrailing);
    var tail := TrimmedEndIsPrefix(head, IsTrailing);
    PrefixIsSpecFree(r, tail);
    TrimEndFacts(head, IsTrailing);
    TrimIsTrimmed(name);
    if r != "" {
      assert n[0] == r[0];
    }
    TrimOfTrimmed(r);
  }

  lemma CleanNameIdempotent(name: string)
    ensures CleanName(CleanName(name)) == CleanName(name)
  {
    CleanNameIsClean(name);
    CleanIsFixed(CleanName(name));
  }

  // ----- Chains -----

  type Chain = seq<string>

  /** Every chain of cleaned names from `node` down through active nodes only, in preorder,
      each put after `above`. */
  function Chains(node: Node, above: Chain): seq<Chain>
    decreases node
  {
    if !node.active then []
    else
      var here := above + [CleanName(node.name)];
      [here] + ChainsOf(node.children, here)
  }

  function ChainsOf(nodes: seq<Node>, above: Chain): seq<Chain>
    decreases nodes
  {
    if nodes == [] then [] else Chains(nodes[0], above) + ChainsOf(nodes[1..], above)
  }

  /** The earliest of the longest of `best` and `chains`. */
  function Longest(best: Chain, chains: seq<Chain>): Chain
    decreases |chains|
  {
    if chains == [] then best
    else Longest(if |chains[0]| > |best| then chains[0] else best, chains[1..])
  }

  lemma {:induction false} LongestAppend(best: Chain, a: seq<Chain>, b: seq<Chain>)
    ensures Longest(best, a + b) == Longest(Longest(best, a), b)
    decreases |a|
  {
    if a == [] {
      assert a + b == b;
    } else {
      assert (a + b)[0] == a[0] && (a + b)[1..] == a[1..] + b;
      LongestAppend(if |a[0]| > |best| then a[0] else best, a[1..], b);
    }
  }

  /** `i` is where the earliest of the longest chains stands. */
  ghost predicate EarliestLongest(chains: seq<Chain>, i: nat) {
    && i < |chains|
    && (forall j :: 0 <= j < |chains| ==> |chains[j]| <= |chains[i]|)
    && (forall j :: 0 <= j < i ==> |chains[j]| < |chains[i]|)
  }

  lemma {:induction false} LongestIsEarliest(best: Chain, chains: seq<Chain>) returns (i: nat)
    ensures (forall j :: 0 <= j < |chains| ==> |chains[j]| <= |best|) ==> Longest(best, chains) == best
    ensures (exists j :: 0 <= j < |chains| && |chains[j]| > |best|) ==>
      EarliestLongest(chains, i) && Longest(best, chains) == chains[i] && |chains[i]| > |best|
    decreases |chains|
  {
    i := 0;
    if chains != [] {
      var rest := chains[1..];
      assert forall j :: 0 <= j < |rest| ==> rest[j] == chains[j + 1];
      var next := if |chains[0]| > |best| then chains[0] else best;
      var k := LongestIsEarliest(next, rest);
      if j :| 0 <= j < |rest| && |rest[j]| > |next| {
        i := k + 1;
        assert EarliestLongest(rest, k);
        forall j | 0 <= j < |chains| ensures |chains[j]| <= |chains[i]| {
          assert j > 0 ==> |rest[j - 1]| <= |rest[k]|;
        }
        forall j | 0 <= j < i ensures |chains[j]| < |chains[i]| {
          assert j > 0 ==> |rest[j - 1]| < |rest[k]|;
        }
      } else {
        forall j | 0 <= j < |chains| ensures |chains[j]| <= |next| {
          assert j > 0 ==> |rest[j - 1]| <= |next|;
        }
      }
    }
  }

  // ----- The walk -----

  class Walk {
    var path: Chain
    var best: Chain

    constructor ()
      ensures path == [] && best == []
    {
      path, best := [], [];
    }

    /** Visit `node` and its descendants, keeping the longest chain reached. */
    method Visit(node: Node)
      modifies this
      ensures path == old(path) && best == Longest(old(best), Chains(node, old(path)))
      decreases node
    {
      if !node.active {
        return;
      }
      var name := CleanName(node.name);
      ghost var chains := ChainsOf(node.children, path + [name]);
      ghost var start := path;
      path := path + [name];
      assert Chains(node, start) == [path] + chains;
      assert ([path] + chains)[1..] == chains;
      if |path| > |best| {
        best := path;
      }
      ghost var here := path;
      for i := 0 to |node.children|
        invariant path == here
        invariant Longest(best, ChainsOf(node.children[i..], here)) == Longest(old(best), Chains(node, start))
      {
        var child := node.children[i];
        assert node.children[i..][0] == child && node.children[i..][1..] == node.children[i + 1..];
        LongestAppend(best, Chains(child, here), ChainsOf(node.children[i + 1..], here));
        Visit(child);
      }
      path := path[..|path| - 1];
      assert path == start;
    }
  }

  /** The active breadcrumb chain of a tree, outermost first. */
  method ActiveBreadcrumbPath(tree: string) returns (best: Chain)
    ensures best == Longest([], ChainsOf(ParseRoots(Trim(tree), 0), []))
  {
    var roots := Roots(tree);
    var walk := new Walk();
    for i := 0 to |roots|
      invariant walk.path == [] && Longest(walk.best, ChainsOf(roots[i..], [])) == Longest([], ChainsOf(roots, []))
    {
      assert roots[i..][0] == roots[i] && roots[i..][1..] == roots[i + 1..];
      LongestAppend(walk.best, Chains(roots[i], []), ChainsOf(roots[i + 1..], []));
      walk.Visit(roots[i]);
    }
    best := walk.best;
  }

  // ----- What the chains are -----

  /** `chain` names the nodes of a path of active nodes: one of `nodes`, then a child of it, and
      so on. */
  ghost predicate ActivePath(nodes: seq<Node>, path: seq<Node>, chain: Chain)
    decreases |path|
  {
    && |path| == |chain| > 0
    && path[0] in nodes && path[0].active && chain[0] == CleanName(path[0].name)
    && (|path| > 1 ==> ActivePath(path[0].children, path[1..], chain[1..]))
  }

  /** Some path of active nodes from a root has these names. */
  ghost predicate IsActiveChain(nodes: seq<Node>, chain: Chain) {
    exists path :: ActivePath(nodes, path, chain)
  }

  /** The chains listed are exactly the chains of active paths, put after `above`. */
  lemma {:induction false} ListedChainsAreActive(nodes: seq<Node>, above: Chain, chain: Chain) returns (path: seq<Node>)
    requires chain in ChainsOf(nodes, above)
    ensures above <= chain && ActivePath(nodes, path, chain[|above|..])
    decreases nodes
  {
    if chain in Chains(nodes[0], above) {
      var here := above + [CleanName(nodes[0].name)];
      if chain == here {
        path := [nodes[0]];
        assert chain[|above|..] == [CleanName(nodes[0].name)];
      } else {
        var below := ListedChainsAreActive(nodes[0].children, here, chain);
        path := [nodes[0]] + below;
        assert chain[|above|..][1..] == chain[|here|..];
        assert path[1..] == below;
      }
    } else {
      path := ListedChainsAreActive(nodes[1..], above, chain);
      assert path[0] in nodes;
      SameBelow(nodes[1..], nodes, path, chain[|above|..]);
    }
  }

  lemma SameBelow(a: seq<Node>, b: seq<Node>, path: seq<Node>, chain: Chain)
    requires ActivePath(a, path, chain) && path[0] in b
    ensures ActivePath(b, path, chain)
  {
  }

  lemma {:induction false} ListedFromHere(node: Node, above: Chain, chain: Chain)
    requires node.active && chain != [] && chain[0] == CleanName(node.name)
    requires |chain| > 1 ==> var here := above + [chain[0]]; here + chain[1..] in ChainsOf(node.children, here)
    ensures above + chain in Chains(node, above)
  {
    var here := above + [chain[0]];
    assert above + chain == here + chain[1..];
    if |chain| == 1 {
      assert here + chain[1..] == here;
    }
  }

  lemma {:induction false} ActivePathsAreListed(nodes: seq<Node>, above: Chain, path: seq<Node>, chain: Chain)
    requires ActivePath(nodes, path, chain)
    ensures above + chain in ChainsOf(nodes, above)
    decreases nodes
  {
    if path[0] == nodes[0] {
      if |path| > 1 {
        ActivePathsAreListed(nodes[0].children, above + [chain[0]], path[1..], chain[1..]);
      }
      ListedFromHere(nodes[0], above, chain);
    } else {
      SameBelow(nodes, nodes[1..], path, chain);
      ActivePathsAreListed(nodes[1..], above, path, chain);
    }
  }

  /** The result names a path of active nodes from a root, no such path is longer, and it is
      empty exactly when no root is active. */
  lemma ResultIsLongestActiveChain(roots: seq<Node>)
    ensures var best := Longest([], ChainsOf(roots, []));
      && (best == [] <==> forall r :: r in roots ==> !r.active)
      && (best != [] ==> IsActiveChain(roots, best))
      && (forall chain :: IsActiveChain(roots, chain) ==> |chain| <= |best|)
  {
    var chains := ChainsOf(roots, []);
    var best := Longest([], chains);
    var i := LongestIsEarliest([], chains);
    forall chain | IsActiveChain(roots, chain) ensures |chain| <= |best| && chain != [] && chain in chains {
      var path :| ActivePath(roots, path, chain);
      ActivePathsAreListed(roots, [], path, chain);
      assert [] + chain == chain;
      var j :| 0 <= j < |chains| && chains[j] == chain;
      assert |chains[j]| > 0;
    }
    if best != [] {
      assert best in chains;
      var path := ListedChainsAreActive(roots, [], best);
      assert best[0..] == best;
      assert path[0] in roots && path[0].active;
    }
    forall r | r in roots && r.active ensures best != [] {
      assert ActivePath(roots, [r], [CleanName(r.name)]);
      assert IsActiveChain(roots, [CleanName(r.name)]);
    }
  }

  /** Among the longest chains the first in preorder wins. */
  lemma FirstLongestWins(roots: seq<Node>)
    requires exists r :: r in roots && r.active
    ensures var chains := ChainsOf(roots, []);
      exists i: nat :: EarliestLongest(chains, i) && Longest([], chains) == chains[i]
  {
    var chains := ChainsOf(roots, []);
    var r :| r in roots && r.active;
    assert ActivePath(roots, [r], [CleanName(r.name)]);
    ActivePathsAreListed(roots, [], [r], [CleanName(r.name)]);
    var chain := [] + [CleanName(r.name)];
    var j :| 0 <= j < |chains| && chains[j] == chain;
    assert |chains[j]| > 0;
    var i := LongestIsEarliest([], chains);
  }
}
