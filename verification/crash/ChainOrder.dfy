/** Which of several longest chains is returned: the one whose nodes come first. */
module ChainOrder {
  import opened BreadcrumbParser
  import opened ActiveChain

  /** Where a node is: its place among the roots, then among their children, and so on. */
  type Place = seq<nat>

  /** The active nodes on the way to the place, itself included, have these cleaned names. */
  ghost predicate ChainAt(nodes: seq<Node>, from: nat, at: Place, chain: Chain)
    decreases |at|
  {
    && |at| == |chain| > 0 && from <= at[0] < from + |nodes|
    && nodes[at[0] - from].active && chain[0] == CleanName(nodes[at[0] - from].name)
    && (|at| > 1 ==> ChainAt(nodes[at[0] - from].children, 0, at[1..], chain[1..]))
  }

  /** `a` comes before `b` in the tree: it is above it, or on the way branches off to an earlier child. */
  predicate Before(a: Place, b: Place) {
    b != [] && (a == [] || a[0] < b[0] || (a[0] == b[0] && Before(a[1..], b[1..])))
  }

  // ----- The places of the listed chains -----

  function Below(k: nat, places: seq<Place>): seq<Place> {
    seq(|places|, i requires 0 <= i < |places| => [k] + places[i])
  }

  function PlacesIn(node: Node, k: nat): seq<Place>
    decreases node
  {
    if node.active then [[k]] + Below(k, PlacesOf(node.children, 0)) else []
  }

  function PlacesOf(nodes: seq<Node>, from: nat): seq<Place>
    decreases nodes
  {
    if nodes == [] then [] else PlacesIn(nodes[0], from) + PlacesOf(nodes[1..], from + 1)
  }

  /** The places match the chains one by one, each put after `above`. */
  ghost predicate Match(nodes: seq<Node>, from: nat, above: Chain, places: seq<Place>, chains: seq<Chain>) {
    |places| == |chains| && forall i :: 0 <= i < |chains| ==>
      above <= chains[i] && ChainAt(nodes, from, places[i], chains[i][|above|..])
  }

  lemma {:induction false} ChainDeeper(
    nodes: seq<Node>, from: nat, above: Chain, at: Place, chain: Chain)
    requires nodes != [] && nodes[0].active
    requires var here := above + [CleanName(nodes[0].name)];
      here <= chain && ChainAt(nodes[0].children, 0, at, chain[|here|..])
    ensures above <= chain && ChainAt(nodes, from, [from] + at, chain[|above|..])
  {
    assert ([from] + at)[1..] == at;
    assert chain[|above|..][1..] == chain[|above| + 1..];
  }

  lemma {:induction false} ChainLater(nodes: seq<Node>, from: nat, at: Place, chain: Chain)
    requires nodes != [] && ChainAt(nodes[1..], from + 1, at, chain)
    ensures ChainAt(nodes, from, at, chain)
  {
    assert nodes[1..][at[0] - from - 1] == nodes[at[0] - from];
  }

  lemma {:induction false} MatchBoth(
    nodes: seq<Node>, from: nat, above: Chain, p: seq<Place>, c: seq<Chain>, q: seq<Place>, e: seq<Chain>)
    requires Match(nodes, from, above, p, c) && Match(nodes, from, above, q, e)
    ensures Match(nodes, from, above, p + q, c + e)
  {
  }

  lemma {:induction false} MatchHere(nodes: seq<Node>, from: nat, above: Chain, here: Chain)
    requires nodes != [] && nodes[0].active && here == above + [CleanName(nodes[0].name)]
    ensures Match(nodes, from, above, [[from]], [here])
  {
    assert here[|above|..] == [CleanName(nodes[0].name)];
  }

  lemma {:induction false} MatchBelow(
    nodes: seq<Node>, from: nat, above: Chain, here: Chain, places: seq<Place>, chains: seq<Chain>)
    requires nodes != [] && nodes[0].active && here == above + [CleanName(nodes[0].name)]
    requires Match(nodes[0].children, 0, here, places, chains)
    ensures Match(nodes, from, above, Below(from, places), chains)
  {
    forall i | 0 <= i < |chains|
      ensures above <= chains[i] && ChainAt(nodes, from, Below(from, places)[i], chains[i][|above|..])
    {
      ChainDeeper(nodes, from, above, places[i], chains[i]);
    }
  }

  lemma {:induction false} MatchLater(
    nodes: seq<Node>, from: nat, above: Chain, places: seq<Place>, chains: seq<Chain>)
    requires nodes != [] && Match(nodes[1..], from + 1, above, places, chains)
    ensures Match(nodes, from, above, places, chains)
  {
    forall i | 0 <= i < |chains|
      ensures ChainAt(nodes, from, places[i], chains[i][|above|..])
    {
      ChainLater(nodes, from, places[i], chains[i][|above|..]);
    }
  }

  lemma {:induction false} PlacesMatch(nodes: seq<Node>, from: nat, above: Chain)
    ensures Match(nodes, from, above, PlacesOf(nodes, from), ChainsOf(nodes, above))
    decreases nodes
  {
    if nodes != [] {
      var node := nodes[0];
      var places, chains := PlacesOf(nodes[1..], from + 1), ChainsOf(nodes[1..], above);
      PlacesMatch(nodes[1..], from + 1, above);
      MatchLater(nodes, from, above, places, chains);
      if node.active {
        var here := above + [CleanName(node.name)];
        var inner, below := PlacesOf(node.children, 0), ChainsOf(node.children, here);
        PlacesMatch(node.children, 0, here);
        MatchHere(nodes, from, above, here);
        MatchBelow(nodes, from, above, here, inner, below);
        MatchBoth(nodes, from, above, [[from]], [here], Below(from, inner), below);
      }
      MatchBoth(nodes, from, above, PlacesIn(node, from), Chains(node, above), places, chains);
    }
  }

  // ----- They are in order, and all there -----

  ghost predicate InOrder(places: seq<Place>) {
    forall i, j :: 0 <= i < j < |places| ==> Before(places[i], places[j])
  }

  ghost predicate Starts(places: seq<Place>, from: nat) {
    forall i :: 0 <= i < |places| ==> places[i] != [] && places[i][0] >= from
  }

  lemma {:induction false} BelowInOrder(k: nat, places: seq<Place>)
    requires InOrder(places) && Starts(places, 0)
    ensures InOrder([[k]] + Below(k, places))
    ensures forall i :: 0 <= i < |[[k]] + Below(k, places)| ==>
      ([[k]] + Below(k, places))[i] != [] && ([[k]] + Below(k, places))[i][0] == k
  {
    var all := [[k]] + Below(k, places);
    forall i, j | 0 <= i < j < |all|
      ensures Before(all[i], all[j])
    {
      assert all[j] == [k] + places[j - 1] && all[j][1..] == places[j - 1];
      if i == 0 {
        assert [k][1..] == [];
      } else {
        assert all[i] == [k] + places[i - 1] && all[i][1..] == places[i - 1];
      }
    }
  }

  lemma {:induction false} PlacesInOrder(nodes: seq<Node>, from: nat)
    ensures InOrder(PlacesOf(nodes, from)) && Starts(PlacesOf(nodes, from), from)
    decreases nodes
  {
    if nodes != [] {
      PlacesInOrder(nodes[1..], from + 1);
      if nodes[0].active {
        PlacesInOrder(nodes[0].children, 0);
        BelowInOrder(from, PlacesOf(nodes[0].children, 0));
      }
    }
  }

  lemma {:induction false} EveryPlaceIsListed(nodes: seq<Node>, from: nat, at: Place, chain: Chain)
    requires ChainAt(nodes, from, at, chain)
    ensures at in PlacesOf(nodes, from)
    decreases nodes
  {
    if at[0] == from {
      if |at| == 1 {
        assert at == [from];
      } else {
        var places := PlacesOf(nodes[0].children, 0);
        EveryPlaceIsListed(nodes[0].children, 0, at[1..], chain[1..]);
        var i :| 0 <= i < |places| && places[i] == at[1..];
        assert Below(from, places)[i] == at;
      }
    } else {
      assert nodes[1..][at[0] - from - 1] == nodes[at[0] - from];
      EveryPlaceIsListed(nodes[1..], from + 1, at, chain);
    }
  }

  lemma {:induction false} PlaceHasOneChain(nodes: seq<Node>, from: nat, at: Place, a: Chain, b: Chain)
    requires ChainAt(nodes, from, at, a) && ChainAt(nodes, from, at, b)
    ensures a == b
    decreases |at|
  {
    if |at| > 1 {
      PlaceHasOneChain(nodes[at[0] - from].children, 0, at[1..], a[1..], b[1..]);
    }
    assert a == [a[0]] + a[1..] && b == [b[0]] + b[1..];
  }

  lemma {:induction false} OthersComeLater(
    roots: seq<Node>, places: seq<Place>, chains: seq<Chain>, i: nat, other: Place, chain: Chain)
    requires Match(roots, 0, [], places, chains) && InOrder(places) && EarliestLongest(chains, i)
    requires ChainAt(roots, 0, other, chain) && other in places
    ensures |other| < |places[i]| || (|other| == |places[i]| && (other == places[i] || Before(places[i], other)))
  {
    var j :| 0 <= j < |places| && places[j] == other;
    assert chains[j][0..] == chains[j] && chains[i][0..] == chains[i];
    PlaceHasOneChain(roots, 0, other, chain, chains[j]);
    assert |chains[j]| <= |chains[i]| && (j < i ==> |chains[j]| < |chains[i]|);
  }

  /** The chain returned is at a place such that every other place as deep, with active nodes all the way, comes
      later in the tree. */
  lemma {:induction false} FirstInTheTreeWins(roots: seq<Node>) returns (at: Place)
    requires exists r :: r in roots && r.active
    ensures ChainAt(roots, 0, at, Longest([], ChainsOf(roots, [])))
    ensures forall other, chain :: ChainAt(roots, 0, other, chain) ==>
      |other| < |at| || (|other| == |at| && (other == at || Before(at, other)))
  {
    var chains, places := ChainsOf(roots, []), PlacesOf(roots, 0);
    FirstLongestWins(roots);
    var i: nat :| EarliestLongest(chains, i) && Longest([], chains) == chains[i];
    PlacesMatch(roots, 0, []);
    PlacesInOrder(roots, 0);
    assert chains[i][0..] == chains[i];
    at := places[i];
    forall other, chain | ChainAt(roots, 0, other, chain)
      ensures |other| < |at| || (|other| == |at| && (other == at || Before(at, other)))
    {
      EveryPlaceIsListed(roots, 0, other, chain);
      OthersComeLater(roots, places, chains, i, other, chain);
    }
  }
}
