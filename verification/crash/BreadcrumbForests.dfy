/** Every forest the parser could return is one it does return: a way to write any trees of nodes, and
    the proof that reading it gives them back. */
module BreadcrumbForests {
  import opened Text
  import opened BreadcrumbParser
  import opened BreadcrumbGrammar
  import opened BreadcrumbSoundness

  /** A name the notation can carry: no closing brace, nothing to trim. */
  predicate Writable(name: string) { Trimmed(name) && '}' !in name }

  predicate AllWritable(n: Node) { Writable(n.name) && ForestWritable(n.children) }

  predicate ForestWritable(nodes: seq<Node>) { forall n :: n in nodes ==> AllWritable(n) }

  // ----- Limits on trees -----

  function Count(n: Node): nat
    decreases n, 1
  {
    1 + CountAll(n.children)
  }

  function CountAll(nodes: seq<Node>): nat
    decreases nodes, 0
  {
    if nodes == [] then 0 else Count(nodes[0]) + CountAll(nodes[1..])
  }

  /** Levels of nodes below the first. */
  function Levels(n: Node): nat
    decreases n, 1
  {
    LevelsAll(n.children)
  }

  function LevelsAll(nodes: seq<Node>): nat
    decreases nodes, 0
  {
    if nodes == [] then 0 else Max(1 + Levels(nodes[0]), LevelsAll(nodes[1..]))
  }

  // ----- Writing -----

  function StateText(active: bool): string { if active then "a" else "" }

  function Write(n: Node): CNode
    decreases n, 1
  {
    CNode("", n.name, StateKids("", StateText(n.active), "", WriteAll(n.children), ""))
  }

  function WriteAll(nodes: seq<Node>): CItems
    decreases nodes, 0
  {
    if nodes == [] then NoMore("") else NodeThen(Write(nodes[0]), "", WriteAll(nodes[1..]))
  }

  function WriteRoots(nodes: seq<Node>): CRoots {
    if nodes == [] then NoRoots("") else Root(Write(nodes[0]), "", true, WriteRoots(nodes[1..]))
  }

  // ----- What is written -----

  lemma {:induction false} StateIs(active: bool)
    ensures PlainText(StateText(active)) && IsActive(StateText(active)) == active
  {
    TrimOfTrimmed(StateText(active));
    assert Lower("a")[0] == 'a' && |Lower("")| == 0;
  }

  /** What is written is well formed, means the tree, and is of its size and depth. */
  ghost predicate Writes(c: CNode, n: Node) {
    WellFormed(c) && Meaning(c) == n && Size(c) == Count(n) && Depth(c) == Levels(n)
  }

  ghost predicate WritesAll(i: CItems, nodes: seq<Node>) {
    WellFormedItems(i) && Children(i) == nodes && SizeItems(i) == CountAll(nodes) && DepthItems(i) == LevelsAll(nodes)
  }

  lemma {:induction false} WrittenNode(n: Node)
    requires AllWritable(n)
    ensures Writes(Write(n), n)
    decreases n, 1
  {
    WrittenItems(n.children);
    StateIs(n.active);
    TrimOfTrimmed(n.name);
    HeadMeans(n, WriteAll(n.children));
  }

  lemma {:induction false} HeadMeans(n: Node, items: CItems)
    requires Writable(n.name) && WritesAll(items, n.children) && Trim(n.name) == n.name
    requires PlainText(StateText(n.active)) && IsActive(StateText(n.active)) == n.active
    ensures Writes(CNode("", n.name, StateKids("", StateText(n.active), "", items, "")), n)
  {
    assert n == Node(n.name, n.active, n.children);
  }

  lemma {:induction false} WrittenItems(nodes: seq<Node>)
    requires ForestWritable(nodes)
    ensures WritesAll(WriteAll(nodes), nodes)
    decreases nodes, 0
  {
    if nodes != [] {
      WrittenNode(nodes[0]);
      WrittenItems(nodes[1..]);
      ItemsMean(nodes, Write(nodes[0]), WriteAll(nodes[1..]));
    }
  }

  lemma {:induction false} ItemsMean(nodes: seq<Node>, first: CNode, rest: CItems)
    requires nodes != [] && Writes(first, nodes[0]) && WritesAll(rest, nodes[1..])
    ensures WritesAll(NodeThen(first, "", rest), nodes)
  {
    assert nodes == [nodes[0]] + nodes[1..];
  }

  // ----- Reading it back -----

  lemma {:induction false} FirstRootIs(nodes: seq<Node>, count: nat, first: CNode, rest: CRoots, all: CRoots)
    requires nodes != [] && Writes(first, nodes[0]) && Fits(count, Count(nodes[0]), 0, Levels(nodes[0]))
    requires RootsAre(rest, nodes[1..], count + Count(nodes[0])) && all == Root(first, "", true, rest)
    ensures RootsAre(all, nodes, count)
  {
    assert nodes == [nodes[0]] + nodes[1..];
  }

  /** The limits on a forest hold of its first tree and of the others after it. */
  lemma {:induction false} LimitsSplit(nodes: seq<Node>, count: nat)
    requires nodes != [] && count + CountAll(nodes) <= 20000 && LevelsAll(nodes) <= 129
    ensures Fits(count, Count(nodes[0]), 0, Levels(nodes[0]))
    ensures count + Count(nodes[0]) + CountAll(nodes[1..]) <= MAX_NODES && LevelsAll(nodes[1..]) <= MAX_DEPTH + 1
  {
  }

  ghost predicate RootsAre(r: CRoots, nodes: seq<Node>, count: nat) {
    WellFormedRoots(r) && Accepted(r, count) == nodes
  }

  lemma {:induction false} WrittenRootsAre(nodes: seq<Node>, count: nat)
    requires ForestWritable(nodes) && count + CountAll(nodes) <= 20000 && LevelsAll(nodes) <= 129
    ensures RootsAre(WriteRoots(nodes), nodes, count)
    decreases |nodes|
  {
    if nodes != [] {
      var first, rest := Write(nodes[0]), WriteRoots(nodes[1..]);
      LimitsSplit(nodes, count);
      WrittenNode(nodes[0]);
      WrittenRootsAre(nodes[1..], count + Count(nodes[0]));
      FirstRootIs(nodes, count, first, rest, WriteRoots(nodes));
    }
  }

  /** Every forest within the limits, its names trimmed and free of closing braces, has a text that is
      read as exactly that forest. */
  lemma {:induction false} WrittenForestReadsBack(nodes: seq<Node>)
    requires ForestWritable(nodes) && CountAll(nodes) <= 20000 && LevelsAll(nodes) <= 129
    ensures ParseRoots(PrintRoots(WriteRoots(nodes)), 0) == nodes
  {
    WrittenRootsAre(nodes, 0);
    PrintedRootsParse(WriteRoots(nodes), 0);
  }

  // ----- Only such forests are read -----

  /** The tree of a well-formed node is writable and counts what is written. */
  ghost predicate MeansTree(c: CNode) {
    AllWritable(Meaning(c)) && Count(Meaning(c)) == Size(c) && Levels(Meaning(c)) == Depth(c)
  }

  ghost predicate MeansForest(i: CItems) {
    ForestWritable(Children(i)) && CountAll(Children(i)) == SizeItems(i) && LevelsAll(Children(i)) == DepthItems(i)
  }

  lemma {:induction false} TrimmedNameIsWritable(name: string)
    requires Free(name, {'}'})
    ensures Writable(Trim(name))
  {
    TrimIsTrimmed(name);
    TrimStartFacts(name, IsWhitespace);
    TrimEndFacts(TrimStart(name, IsWhitespace), IsWhitespace);
    var t := TrimStart(name, IsWhitespace);
    assert forall c :: c in Trim(name) ==> c in t;
    assert forall c :: c in t ==> c in name;
  }

  lemma {:induction false} NodeMeansTree(c: CNode)
    requires WellFormed(c)
    ensures MeansTree(c)
    decreases c, 1
  {
    TrimmedNameIsWritable(c.name);
    if c.head.StateKids? || c.head.KidsOnly? {
      ItemsMeanForest(c.head.items);
    }
    MeaningOfHead(c);
  }

  lemma {:induction false} ItemsMeanForest(i: CItems)
    requires WellFormedItems(i)
    ensures MeansForest(i)
    decreases i, 0
  {
    match i
    case NoMore(_) =>
    case LastNode(node, _) =>
      NodeMeansTree(node);
      OneTree(Meaning(node));
    case NodeThen(node, _, rest) =>
      NodeMeansTree(node);
      ItemsMeanForest(rest);
      TreeThenForest(Meaning(node), Children(rest));
    case LastJunk(_, _) =>
    case JunkThen(_, _, rest) =>
      ItemsMeanForest(rest);
      assert [] + Children(rest) == Children(rest);
  }

  lemma {:induction false} OneTree(n: Node)
    requires AllWritable(n)
    ensures ForestWritable([n]) && CountAll([n]) == Count(n) && LevelsAll([n]) == 1 + Levels(n)
  {
    assert [n][1..] == [];
  }

  lemma {:induction false} TreeThenForest(n: Node, rest: seq<Node>)
    requires AllWritable(n) && ForestWritable(rest)
    ensures ForestWritable([n] + rest) && CountAll([n] + rest) == Count(n) + CountAll(rest)
    ensures LevelsAll([n] + rest) == Max(1 + Levels(n), LevelsAll(rest))
  {
    assert ([n] + rest)[1..] == rest;
  }

  lemma {:induction false} ReadNodeIsWritable(s: string, nodes: nat, depth: nat)
    requires ParseNode(s, nodes, depth).Good?
    ensures var r := ParseNode(s, nodes, depth);
      && AllWritable(r.value) && r.nodes == nodes + Count(r.value)
      && r.nodes <= MAX_NODES && depth + Levels(r.value) <= MAX_DEPTH
  {
    var r := ParseNode(s, nodes, depth);
    var c := AcceptedNodeIsPrinted(s, nodes, depth);
    NodeMeansTree(c);
    PrintedNodeParses(c, r.rest, nodes, depth);
    NodeDepth(c);
  }

  lemma {:induction false} ReadForestIsWritable(s: string, nodes: nat)
    requires nodes <= MAX_NODES
    ensures var roots := ParseRoots(s, nodes);
      ForestWritable(roots) && nodes + CountAll(roots) <= MAX_NODES && LevelsAll(roots) <= MAX_DEPTH + 1
    decreases |s|
  {
    var t := SkipWs(s);
    if t != "" && ParseNode(t, nodes, 0).Good? {
      var r := ParseNode(t, nodes, 0);
      ReadNodeIsWritable(t, nodes, 0);
      ReadForestIsWritable(AfterRoot(r.rest), r.nodes);
      TreeThenForest(r.value, ParseRoots(AfterRoot(r.rest), r.nodes));
    }
  }

  ghost predicate SomeTextReads(nodes: seq<Node>) { exists s :: ParseRoots(s, 0) == nodes }

  /** The forests that some text is read as are exactly those within the limits whose names are trimmed
      and free of closing braces. */
  lemma {:induction false} ReadableForestsAre(nodes: seq<Node>)
    ensures SomeTextReads(nodes) <==>
      ForestWritable(nodes) && CountAll(nodes) <= 20000 && LevelsAll(nodes) <= 129
  {
    if s :| ParseRoots(s, 0) == nodes {
      ReadForestIsWritable(s, 0);
    }
    if ForestWritable(nodes) && CountAll(nodes) <= 20000 && LevelsAll(nodes) <= 129 {
      WrittenForestReadsBack(nodes);
    }
  }
}
