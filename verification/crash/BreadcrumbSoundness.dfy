/** Everything the breadcrumb parser accepts is a printed tree, and a list of roots parses to
    the roots before the first malformed one. */
module BreadcrumbSoundness {
  import opened Text
  import opened BreadcrumbParser
  import opened BreadcrumbGrammar

  // ----- What the scans cut off -----

  lemma {:induction false} Prepended(s: string, ws: string, rest: string)
    requires s != "" && IsAsciiSpace(s[0]) && s[1..] == ws + rest && Blank(ws)
    ensures s == ([s[0]] + ws) + rest && Blank([s[0]] + ws)
  {
    assert s == [s[0]] + s[1..];
  }

  lemma {:induction false} SkippedIsBlank(s: string) returns (ws: string)
    ensures Blank(ws) && s == ws + SkipWs(s)
    ensures SkipWs(s) != "" ==> !IsAsciiSpace(SkipWs(s)[0])
    decreases |s|
  {
    if s != "" && IsAsciiSpace(s[0]) {
      var more := SkippedIsBlank(s[1..]);
      ws := [s[0]] + more;
      Prepended(s, more, SkipWs(s[1..]));
    } else {
      ws := "";
    }
  }

  lemma {:induction false} OneMoreFree(c: char, x: string, t: string, stops: set<char>)
    requires Free(x, stops) && c !in stops
    ensures Free([c] + x, stops) && [c] + (x + t) == ([c] + x) + t
  {
  }

  lemma {:induction false} TakenIsFree(s: string, stops: set<char>)
    ensures var (x, t) := TakeUntil(s, stops);
      Free(x, stops) && s == x + t && (t == "" || t[0] in stops)
    decreases |s|
  {
    if s == "" || s[0] in stops {
      assert "" + s == s;
    } else {
      var (x, t) := TakeUntil(s[1..], stops);
      TakenIsFree(s[1..], stops);
      OneMoreFree(s[0], x, t, stops);
      assert s == [s[0]] + s[1..];
    }
  }

  lemma Eaten(s: string, c: char)
    ensures Eat(s, c).Some? ==> s == [c] + Eat(s, c).value
  {
  }

  lemma BareStaysBare(s: string)
    requires s == "" || !IsAsciiSpace(s[0])
    ensures SkipWs(s) == s
  {
  }

  lemma ClosedIs(s: string) returns (ws: string)
    requires Close(s).Some?
    ensures Blank(ws) && s == ws + ("}" + Close(s).value)
  {
    ws := SkippedIsBlank(s);
    Eaten(SkipWs(s), '}');
  }

  lemma OpenedIs(s: string) returns (ws: string)
    requires Open(s).Some?
    ensures Blank(ws) && s == ws + ("{" + ("{" + Open(s).value))
  {
    ws := SkippedIsBlank(s);
    Eaten(SkipWs(s), '{');
    Eaten(Eat(SkipWs(s), '{').value, '{');
  }

  // ----- Items end bare -----

  lemma {:induction false} ItemsEndBare(s: string, nodes: nat, depth: nat)
    ensures var r := ParseItems(s, nodes, depth);
      r.Good? && r.rest != "" ==> !IsAsciiSpace(r.rest[0])
    decreases |s|, 1
  {
    var t := SkipWs(s);
    var _ := SkippedIsBlank(s);
    if t != "" && t[0] == '{' {
      var n := ParseNode(t, nodes, depth);
      if n.Good? {
        MoreEndBare([n.value], n.rest, n.nodes, depth);
      }
    } else if t != "" && t[0] != '}' {
      MoreEndBare([], TakeUntil(t, {',', '}'}).1, nodes, depth);
    }
  }

  lemma {:induction false} MoreEndBare(found: seq<Node>, s: string, nodes: nat, depth: nat)
    ensures var r := MoreItems(found, s, nodes, depth);
      r.Good? && r.rest != "" ==> !IsAsciiSpace(r.rest[0])
    decreases |s|, 0
  {
    var t := SkipWs(s);
    var _ := SkippedIsBlank(s);
    var next := Eat(t, ',');
    if next.Some? {
      ItemsEndBare(next.value, nodes, depth);
    }
  }

  // ----- Soundness -----

  /** `c` is written at the front of `s`, and parsing gave its meaning and what follows it. */
  ghost predicate Explains(c: CNode, s: string, nodes: nat, r: Parsed<Node>) {
    && WellFormed(c) && r.Good?
    && s == Print(c, r.rest) && r.value == Meaning(c) && r.nodes == nodes + Size(c)
  }

  ghost predicate ExplainsHead(h: CHead, name: string, s: string, nodes: nat, r: Parsed<Node>) {
    && WellFormedHead(h) && r.Good? && s == PrintHead(h, r.rest)
    && r.value == Node(name, IsActive(HeadState(h)), HeadChildren(h)) && r.nodes == nodes + HeadSize(h)
  }

  ghost predicate ExplainsItems(i: CItems, s: string, nodes: nat, r: Parsed<seq<Node>>) {
    && WellFormedItems(i) && r.Good?
    && s == PrintItems(i, r.rest) && r.value == Children(i) && r.nodes == nodes + SizeItems(i)
  }

  /** Whatever the parser accepts is a printed node: the grammar has no gaps. */
  lemma {:induction false} AcceptedNodeIsPrinted(s: string, nodes: nat, depth: nat) returns (c: CNode)
    requires ParseNode(s, nodes, depth).Good?
    ensures Explains(c, s, nodes, ParseNode(s, nodes, depth))
    decreases |s|, 0
  {
    var pre := OpenedIs(s);
    var inside := Open(s).value;
    TakenIsFree(inside, {'}'});
    var (name, end) := TakeUntil(inside, {'}'});
    Eaten(end, '}');
    var after := Eat(end, '}').value;
    var head := AcceptedHeadIsPrinted(Trim(name), after, nodes + 1, depth + 1);
    c := CNode(pre, name, head);
    MeaningOfHead(c);
  }

  lemma {:induction false} AcceptedHeadIsPrinted(name: string, s: string, nodes: nat, depth: nat) returns (h: CHead)
    requires ParseBody(name, s, nodes, depth).Good?
    ensures ExplainsHead(h, name, s, nodes, ParseBody(name, s, nodes, depth))
    decreases |s|, 2
  {
    var (state, kids, at) := SplitHead(s);
    if !kids {
      h := ChildlessHead(s);
    } else {
      Eaten(at, '{');
      var items := Eat(at, '{').value;
      var r := ParseItems(items, nodes, depth);
      ItemsEndBare(items, nodes, depth);
      var blank := ClosedIs(r.rest);
      BareStaysBare(r.rest);
      assert r.rest[0] == '}';
      var i := AcceptedItemsArePrinted(items, nodes, depth);
      var last := Close(r.rest).value;
      Eaten(r.rest, '}');
      var gap3 := ClosedIs(last);
      h := HeadWithKids(s, i, gap3, r.rest, Close(last).value);
    }
  }

  lemma ChildlessHead(s: string) returns (h: CHead)
    requires !SplitHead(s).1 && Close(SplitHead(s).2).Some?
    ensures WellFormedHead(h) && !h.StateKids? && !h.KidsOnly?
    ensures s == PrintHead(h, Close(SplitHead(s).2).value) && HeadState(h) == SplitHead(s).0
  {
    var (state, _, at) := SplitHead(s);
    var post := ClosedIs(at);
    if Eat(s, ',').None? {
      h := NameOnly(post);
    } else {
      Eaten(s, ',');
      var gap := SkippedIsBlank(Eat(s, ',').value);
      var t := SkipWs(Eat(s, ',').value);
      TakenIsFree(t, {',', '}'});
      assert at[0] == '}';
      BareStaysBare(at);
      Eaten(at, '}');
      assert state != "" ==> state[0] == t[0];
      h := StateOnly(gap, state);
    }
  }

  lemma HeadWithKids(s: string, i: CItems, gap3: string, end: string, rest: string) returns (h: CHead)
    requires SplitHead(s).1 && SplitHead(s).2 == "{" + PrintItems(i, end)
    requires end == "}" + (gap3 + ("}" + rest)) && WellFormedItems(i) && Blank(gap3)
    ensures WellFormedHead(h) && s == PrintHead(h, rest) && HeadState(h) == SplitHead(s).0
    ensures HeadSize(h) == SizeItems(i) && HeadChildren(h) == Children(i)
  {
    Eaten(s, ',');
    var after := Eat(s, ',').value;
    var gap := SkippedIsBlank(after);
    var t := SkipWs(after);
    if t != "" && t[0] == '{' {
      h := KidsOnly(gap, i, gap3);
    } else {
      TakenIsFree(t, {',', '}'});
      var (state, more) := TakeUntil(t, {',', '}'});
      Eaten(more, ',');
      var gap2 := SkippedIsBlank(Eat(more, ',').value);
      assert state != "" ==> state[0] == t[0];
      h := StateKids(gap, state, gap2, i, gap3);
    }
  }

  lemma {:induction false} AcceptedItemsArePrinted(s: string, nodes: nat, depth: nat) returns (i: CItems)
    requires var r := ParseItems(s, nodes, depth); r.Good? && r.rest != "" && r.rest[0] == '}'
    ensures ExplainsItems(i, s, nodes, ParseItems(s, nodes, depth))
    decreases |s|, 1
  {
    var t := SkipWs(s);
    var ws := SkippedIsBlank(s);
    if t[0] == '}' {
      i := NoMore(ws);
    } else if t[0] == '{' {
      var n := ParseNode(t, nodes, depth);
      var node := AcceptedNodeIsPrinted(t, nodes, depth);
      i := ItemsAfterNode(s, ws, node, nodes, depth);
    } else {
      i := ItemsAfterJunk(s, ws, nodes, depth);
    }
  }

  lemma PadNode(ws: string, node: CNode, tail: string)
    requires Blank(ws)
    ensures ws + Print(node, tail) == Print(node.(pre := ws + node.pre), tail)
    ensures WellFormed(node) ==> WellFormed(node.(pre := ws + node.pre))
    ensures Meaning(node.(pre := ws + node.pre)) == Meaning(node) && Size(node.(pre := ws + node.pre)) == Size(node)
  {
  }

  lemma {:induction false} ItemsAfterNode(
    s: string, ws: string, node: CNode, nodes: nat, depth: nat) returns (i: CItems)
    requires var r := ParseItems(s, nodes, depth); r.Good? && r.rest != "" && r.rest[0] == '}'
    requires Blank(ws) && s == ws + SkipWs(s) && SkipWs(s) != "" && SkipWs(s)[0] == '{'
    requires Explains(node, SkipWs(s), nodes, ParseNode(SkipWs(s), nodes, depth))
    ensures ExplainsItems(i, s, nodes, ParseItems(s, nodes, depth))
    decreases |s|, 0
  {
    var n := ParseNode(SkipWs(s), nodes, depth);
    PadNode(ws, node, n.rest);
    var padded := node.(pre := ws + node.pre);
    var post := SkippedIsBlank(n.rest);
    var t := SkipWs(n.rest);
    Eaten(t, ',');
    if Eat(t, ',').None? {
      i := LastNode(padded, post);
    } else {
      var rest := AcceptedItemsArePrinted(Eat(t, ',').value, n.nodes, depth);
      i := NodeThen(padded, post, rest);
    }
  }

  /** Text that is no node splits into what is skipped and what comes after it. */
  lemma {:induction false} JunkSplits(
    s: string, ws: string, nodes: nat, depth: nat) returns (junk: string, more: string)
    requires s == ws + SkipWs(s) && SkipWs(s) != "" && SkipWs(s)[0] !in {'{', '}'}
    requires !IsAsciiSpace(SkipWs(s)[0])
    ensures s == ws + (junk + more) && PlainText(junk) && (more == "" || more[0] in {',', '}'})
    ensures more != "" && more[0] == '}' ==> junk != ""
    ensures SkipWs(more) == more && ParseItems(s, nodes, depth) == MoreItems([], more, nodes, depth)
  {
    var t := SkipWs(s);
    TakenIsFree(t, {',', '}'});
    junk, more := TakeUntil(t, {',', '}'}).0, TakeUntil(t, {',', '}'}).1;
    assert junk != "" ==> junk[0] == t[0];
    assert junk == "" ==> more == t by { assert "" + more == more; }
    BareStaysBare(more);
  }

  lemma {:induction false} LastJunkExplains(
    s: string, ws: string, junk: string, more: string, nodes: nat, r: Parsed<seq<Node>>)
    requires Blank(ws) && PlainText(junk) && junk != "" && s == ws + (junk + more) && r == Good([], more, nodes)
    ensures ExplainsItems(LastJunk(ws, junk), s, nodes, r)
  {
  }

  lemma {:induction false} JunkThenExplains(
    s: string, ws: string, junk: string, next: string, rest: CItems, nodes: nat,
    others: Parsed<seq<Node>>, r: Parsed<seq<Node>>)
    requires Blank(ws) && PlainText(junk) && s == ws + (junk + ("," + next))
    requires ExplainsItems(rest, next, nodes, others) && r == Joined([], others)
    ensures ExplainsItems(JunkThen(ws, junk, rest), s, nodes, r)
  {
  }

  lemma {:induction false} ItemsAfterJunk(s: string, ws: string, nodes: nat, depth: nat) returns (i: CItems)
    requires var r := ParseItems(s, nodes, depth); r.Good? && r.rest != "" && r.rest[0] == '}'
    requires Blank(ws) && s == ws + SkipWs(s) && SkipWs(s) != "" && SkipWs(s)[0] !in {'{', '}'}
    requires !IsAsciiSpace(SkipWs(s)[0])
    ensures ExplainsItems(i, s, nodes, ParseItems(s, nodes, depth))
    decreases |s|, 0
  {
    var junk, more := JunkSplits(s, ws, nodes, depth);
    var r, comma := ParseItems(s, nodes, depth), Eat(more, ',');
    Eaten(more, ',');
    if comma.None? {
      i := LastJunk(ws, junk);
      LastJunkExplains(s, ws, junk, more, nodes, r);
    } else {
      var next := comma.value;
      var rest := AcceptedItemsArePrinted(next, nodes, depth);
      i := JunkThen(ws, junk, rest);
      JunkThenExplains(s, ws, junk, next, rest, nodes, ParseItems(next, nodes, depth), r);
    }
  }

  // ----- Roots -----

  /** Roots as written: nodes with an optional comma after each, then the end or broken text. */
  datatype CRoots =
    | NoRoots(ws: string)
    | Broken(text: string)
    | Root(node: CNode, post: string, comma: bool, rest: CRoots)

  function PrintRoots(r: CRoots): string {
    match r
    case NoRoots(ws) => ws
    case Broken(text) => text
    case Root(node, post, comma, rest) => Print(node, Separated(post, comma, PrintRoots(rest)))
  }

  function Separated(post: string, comma: bool, next: string): string {
    post + if comma then "," + next else next
  }

  predicate WellFormedRoots(r: CRoots) {
    match r
    case NoRoots(ws) => Blank(ws)
    case Broken(text) =>
      forall nodes :: 0 <= nodes <= MAX_NODES ==> SkipWs(text) != "" && ParseNode(SkipWs(text), nodes, 0).Bad?
    case Root(node, post, comma, rest) =>
      && WellFormed(node) && Blank(post) && WellFormedRoots(rest)
      && (!comma ==> Eat(SkipWs(PrintRoots(rest)), ',').None?)
  }

  /** The roots before the first that is broken or over a limit. */
  function Accepted(r: CRoots, nodes: nat): seq<Node> {
    match r
    case NoRoots(_) => []
    case Broken(_) => []
    case Root(node, _, _, rest) =>
      if Fits(nodes, Size(node), 0, Depth(node)) then [Meaning(node)] + Accepted(rest, nodes + Size(node)) else []
  }

  lemma {:induction false} SkipsPrefix(ws: string, t: string)
    requires Blank(ws)
    ensures SkipWs(ws + t) == SkipWs(t) && SkipWs(SkipWs(t)) == SkipWs(t)
    decreases |ws|
  {
    if ws == "" {
      assert ws + t == t;
      var _ := SkippedIsBlank(t);
      BareStaysBare(SkipWs(t));
    } else {
      assert (ws + t)[1..] == ws[1..] + t && ws[0] in ws;
      SkipsPrefix(ws[1..], t);
    }
  }

  lemma RootsIgnoreLeadingSpace(t: string, nodes: nat)
    ensures ParseRoots(SkipWs(t), nodes) == ParseRoots(t, nodes)
  {
    SkipsPrefix("", t);
  }

  lemma AfterPrintedRoot(post: string, comma: bool, next: string, nodes: nat)
    requires Blank(post) && (!comma ==> Eat(SkipWs(next), ',').None?)
    ensures ParseRoots(AfterRoot(Separated(post, comma, next)), nodes) == ParseRoots(next, nodes)
  {
    var after := if comma then "," + next else next;
    SkipsPrefix(post, after);
    if comma {
      Eats(',', next);
      BareStaysBare(after);
    } else {
      RootsIgnoreLeadingSpace(next, nodes);
    }
  }

  /** Parsing printed roots gives exactly the roots before the first broken one: a malformed or
      oversized root leaves the earlier ones unaffected. */
  lemma {:induction false} PrintedRootsParse(r: CRoots, nodes: nat)
    requires WellFormedRoots(r) && nodes <= MAX_NODES
    ensures ParseRoots(PrintRoots(r), nodes) == Accepted(r, nodes)
  {
    match r
    case NoRoots(ws) => NoRootsParse(ws, nodes);
    case Broken(_) =>
    case Root(node, post, comma, rest) =>
      var next, fits, count := PrintRoots(rest), Fits(nodes, Size(node), 0, Depth(node)), nodes + Size(node);
      var tail, others := Separated(post, comma, next), Accepted(rest, count);
      if fits {
        AfterPrintedRoot(post, comma, next, count);
        PrintedRootsParse(rest, count);
      }
      RootThenOthers(node, tail, nodes, Print(node, tail), fits, Meaning(node), count, others);
      AcceptedFirst(r, nodes, fits, Meaning(node), others);
  }

  lemma {:induction false} NoRootsParse(ws: string, nodes: nat)
    requires Blank(ws)
    ensures ParseRoots(ws, nodes) == []
  {
    SkipsPrefix(ws, "");
    assert ws + "" == ws;
  }

  lemma {:induction false} AcceptedFirst(r: CRoots, nodes: nat, fits: bool, root: Node, others: seq<Node>)
    requires r.Root? && fits == Fits(nodes, Size(r.node), 0, Depth(r.node)) && root == Meaning(r.node)
    requires others == Accepted(r.rest, nodes + Size(r.node))
    ensures Accepted(r, nodes) == if fits then [root] + others else []
    ensures PrintRoots(r) == Print(r.node, Separated(r.post, r.comma, PrintRoots(r.rest)))
  {
  }

  lemma {:induction false} RootThenOthers(
    node: CNode, tail: string, nodes: nat, s: string, fits: bool, root: Node, count: nat, others: seq<Node>)
    requires WellFormed(node) && s == Print(node, tail) && root == Meaning(node) && count == nodes + Size(node)
    requires fits == Fits(nodes, Size(node), 0, Depth(node)) && (fits ==> ParseRoots(AfterRoot(tail), count) == others)
    ensures ParseRoots(s, nodes) == if fits then [root] + others else []
  {
    RootOpens(node, tail, nodes, s, fits, root, count);
    FirstRootParses(s, nodes, fits, root, tail, count, others);
  }

  lemma {:induction false} FirstRootParses(
    s: string, nodes: nat, fits: bool, root: Node, tail: string, count: nat, others: seq<Node>)
    requires SkipWs(s) != "" && ParseNode(SkipWs(s), nodes, 0) == if fits then Good(root, tail, count) else Bad
    requires fits ==> ParseRoots(AfterRoot(tail), count) == others
    ensures ParseRoots(s, nodes) == if fits then [root] + others else []
  {
  }

  lemma {:induction false} RootOpens(
    node: CNode, tail: string, nodes: nat, s: string, fits: bool, root: Node, count: nat)
    requires WellFormed(node) && s == Print(node, tail) && root == Meaning(node) && count == nodes + Size(node)
    requires fits == Fits(nodes, Size(node), 0, Depth(node))
    ensures SkipWs(s) != "" && ParseNode(SkipWs(s), nodes, 0) == if fits then Good(root, tail, count) else Bad
  {
    SkipsToBrace(node, tail);
    SkippedNodeParses(node, tail, nodes, 0);
  }
}
