/** The breadcrumb notation as a grammar of its own, printed by recursion on its trees, and the
    proof that the parser accepts exactly what is printed, within its depth and node limits. */
module BreadcrumbGrammar {
  import opened Wrappers
  import opened Text
  import opened BreadcrumbParser

  /** A node as written: the white space before it, its raw name, and what follows. */
  datatype CNode = CNode(pre: string, name: string, head: CHead)

  datatype CHead =
    | NameOnly(post: string)
    | StateOnly(gap: string, state: string)
    | StateKids(gap: string, state: string, gap2: string, items: CItems, gap3: string)
    | KidsOnly(gap: string, items: CItems, gap3: string)

  /** Items between braces, with white space and text that is skipped. */
  datatype CItems =
    | NoMore(ws: string)
    | LastNode(node: CNode, post: string)
    | NodeThen(node: CNode, post: string, rest: CItems)
    | LastJunk(ws: string, junk: string)
    | JunkThen(ws: string, junk: string, rest: CItems)

  predicate Blank(s: string) { forall c :: c in s ==> IsAsciiSpace(c) }

  predicate Free(s: string, stops: set<char>) { forall c :: c in s ==> c !in stops }

  /** Text that scanning would neither skip as white space nor take for a brace. */
  predicate PlainText(s: string) {
    Free(s, {',', '}'}) && (s != "" ==> !IsAsciiSpace(s[0]) && s[0] != '{')
  }

  predicate WellFormed(c: CNode) { Blank(c.pre) && Free(c.name, {'}'}) && WellFormedHead(c.head) }

  predicate WellFormedHead(h: CHead) {
    match h
    case NameOnly(post) => Blank(post)
    case StateOnly(gap, state) => Blank(gap) && PlainText(state)
    case StateKids(gap, state, gap2, items, gap3) =>
      Blank(gap) && PlainText(state) && Blank(gap2) && WellFormedItems(items) && Blank(gap3)
    case KidsOnly(gap, items, gap3) => Blank(gap) && WellFormedItems(items) && Blank(gap3)
  }

  predicate WellFormedItems(i: CItems) {
    match i
    case NoMore(ws) => Blank(ws)
    case LastNode(node, post) => WellFormed(node) && Blank(post)
    case NodeThen(node, post, rest) => WellFormed(node) && Blank(post) && WellFormedItems(rest)
    case LastJunk(ws, junk) => Blank(ws) && PlainText(junk) && junk != ""
    case JunkThen(ws, junk, rest) => Blank(ws) && PlainText(junk) && WellFormedItems(rest)
  }

  // ----- Printing, with the text that follows as an argument -----

  function Print(c: CNode, tail: string): string {
    c.pre + ("{" + ("{" + (c.name + ("}" + PrintHead(c.head, tail)))))
  }

  function PrintHead(h: CHead, tail: string): string {
    match h
    case NameOnly(post) => post + ("}" + tail)
    case StateOnly(gap, state) => "," + (gap + (state + ("}" + tail)))
    case StateKids(gap, state, gap2, items, gap3) =>
      "," + (gap + (state + ("," + (gap2 + ("{" + PrintItems(items, "}" + (gap3 + ("}" + tail))))))))
    case KidsOnly(gap, items, gap3) =>
      "," + (gap + ("{" + PrintItems(items, "}" + (gap3 + ("}" + tail)))))
  }

  function PrintItems(i: CItems, tail: string): string {
    match i
    case NoMore(ws) => ws + tail
    case LastNode(node, post) => Print(node, post + tail)
    case NodeThen(node, post, rest) => Print(node, post + ("," + PrintItems(rest, tail)))
    case LastJunk(ws, junk) => ws + (junk + tail)
    case JunkThen(ws, junk, rest) => ws + (junk + ("," + PrintItems(rest, tail)))
  }

  // ----- Meaning -----

  function Meaning(c: CNode): Node {
    match c.head
    case NameOnly(_) => Node(Trim(c.name), IsActive(""), [])
    case StateOnly(_, state) => Node(Trim(c.name), IsActive(state), [])
    case StateKids(_, state, _, items, _) => Node(Trim(c.name), IsActive(state), Children(items))
    case KidsOnly(_, items, _) => Node(Trim(c.name), IsActive(""), Children(items))
  }

  function Children(i: CItems): seq<Node> {
    match i
    case NoMore(_) => []
    case LastNode(node, _) => [Meaning(node)]
    case NodeThen(node, _, rest) => [Meaning(node)] + Children(rest)
    case LastJunk(_, _) => []
    case JunkThen(_, _, rest) => [] + Children(rest)
  }

  /** Number of nodes written. */
  function Size(c: CNode): nat {
    match c.head
    case NameOnly(_) => 1
    case StateOnly(_, _) => 1
    case StateKids(_, _, _, items, _) => 1 + SizeItems(items)
    case KidsOnly(_, items, _) => 1 + SizeItems(items)
  }

  function SizeItems(i: CItems): nat {
    match i
    case NoMore(_) => 0
    case LastNode(node, _) => Size(node)
    case NodeThen(node, _, rest) => Size(node) + SizeItems(rest)
    case LastJunk(_, _) => 0
    case JunkThen(_, _, rest) => SizeItems(rest)
  }

  function Max(a: nat, b: nat): nat { if a < b then b else a }

  /** Levels of nodes below the first. */
  function Depth(c: CNode): nat {
    match c.head
    case NameOnly(_) => 0
    case StateOnly(_, _) => 0
    case StateKids(_, _, _, items, _) => DepthItems(items)
    case KidsOnly(_, items, _) => DepthItems(items)
  }

  /** Levels of nodes in the items. */
  function DepthItems(i: CItems): nat {
    match i
    case NoMore(_) => 0
    case LastNode(node, _) => 1 + Depth(node)
    case NodeThen(node, _, rest) => Max(1 + Depth(node), DepthItems(rest))
    case LastJunk(_, _) => 0
    case JunkThen(_, _, rest) => DepthItems(rest)
  }

  // ----- Scanning lemmas -----

  lemma {:induction false} SkipsBlank(ws: string, t: string)
    requires Blank(ws) && (t == "" || !IsAsciiSpace(t[0]))
    ensures SkipWs(ws + t) == t
    decreases |ws|
  {
    if ws == "" {
      assert ws + t == t;
    } else {
      assert (ws + t)[1..] == ws[1..] + t;
      assert ws[0] in ws;
      SkipsBlank(ws[1..], t);
    }
  }

  lemma {:induction false} TakesFree(x: string, t: string, stops: set<char>)
    requires Free(x, stops) && (t == "" || t[0] in stops)
    ensures TakeUntil(x + t, stops) == (x, t)
    decreases |x|
  {
    if x == "" {
      assert x + t == t;
    } else {
      assert (x + t)[1..] == x[1..] + t;
      assert x[0] in x && x == [x[0]] + x[1..];
      TakesFree(x[1..], t, stops);
    }
  }

  lemma Eats(c: char, t: string)
    ensures Eat([c] + t, c) == Some(t)
    ensures ([c] + t)[0] == c && [c] + t != ""
  {
    assert ([c] + t)[1..] == t;
  }

  lemma Opens(pre: string, t: string)
    requires Blank(pre)
    ensures Open(pre + ("{" + ("{" + t))) == Some(t)
    ensures SkipWs(pre + ("{" + ("{" + t))) == "{" + ("{" + t)
    ensures Open("{" + ("{" + t)) == Some(t)
  {
    SkipsBlank(pre, "{" + ("{" + t));
    SkipsBlank("", "{" + ("{" + t));
    assert "" + ("{" + ("{" + t)) == "{" + ("{" + t);
    Eats('{', "{" + t);
    Eats('{', t);
  }

  lemma Closes(ws: string, t: string)
    requires Blank(ws)
    ensures Close(ws + ("}" + t)) == Some(t)
  {
    SkipsBlank(ws, "}" + t);
    Eats('}', t);
  }

  /** A printed head's state, whether children follow, and the text from there. */
  function HeadParts(h: CHead, tail: string): (string, bool, string) {
    match h
    case NameOnly(post) => ("", false, post + ("}" + tail))
    case StateOnly(_, state) => (state, false, "}" + tail)
    case StateKids(_, state, _, items, gap3) =>
      (state, true, "{" + PrintItems(items, "}" + (gap3 + ("}" + tail))))
    case KidsOnly(_, items, gap3) => ("", true, "{" + PrintItems(items, "}" + (gap3 + ("}" + tail))))
  }

  lemma HeadSplits(h: CHead, tail: string)
    requires WellFormedHead(h)
    ensures SplitHead(PrintHead(h, tail)) == HeadParts(h, tail)
  {
    match h
    case NameOnly(post) =>
      assert post != "" ==> post[0] in post;
    case StateOnly(gap, state) =>
      Eats(',', gap + (state + ("}" + tail)));
      StateSplits(gap, state, "}" + tail);
    case StateKids(gap, state, gap2, items, gap3) =>
      var kids := "{" + PrintItems(items, "}" + (gap3 + ("}" + tail)));
      Eats(',', gap + (state + ("," + (gap2 + kids))));
      StateSplits(gap, state, "," + (gap2 + kids));
      Eats(',', gap2 + kids);
      SkipsBlank(gap2, kids);
    case KidsOnly(gap, items, gap3) =>
      var kids := "{" + PrintItems(items, "}" + (gap3 + ("}" + tail)));
      Eats(',', gap + kids);
      SkipsBlank(gap, kids);
  }

  lemma StateSplits(gap: string, state: string, t: string)
    requires Blank(gap) && PlainText(state) && t != "" && t[0] in {',', '}'}
    ensures SkipWs(gap + (state + t)) == state + t
    ensures (state + t)[0] != '{' && state + t != ""
    ensures TakeUntil(state + t, {',', '}'}) == (state, t)
  {
    SkipsBlank(gap, state + t);
    TakesFree(state, t, {',', '}'});
  }

  // ----- The parser accepts what is printed, within the limits -----

  predicate Fits(nodes: nat, size: nat, depth: nat, levels: nat) {
    nodes + size <= 20000 && (size > 0 ==> depth + levels <= 128)
  }

  lemma NameParses(c: CNode, tail: string)
    requires WellFormed(c)
    ensures ParseName(Print(c, tail)) == Some((Trim(c.name), PrintHead(c.head, tail)))
  {
    var after := PrintHead(c.head, tail);
    Opens(c.pre, c.name + ("}" + after));
    TakesFree(c.name, "}" + after, {'}'});
    Eats('}', after);
  }

  /** Past its opening, a printed node parses as its head does. */
  lemma NodeOpens(c: CNode, tail: string, nodes: nat, depth: nat)
    requires WellFormed(c)
    ensures ParseNode(Print(c, tail), nodes, depth) ==
      if depth > MAX_DEPTH || nodes >= MAX_NODES then Bad
      else ParseBody(Trim(c.name), PrintHead(c.head, tail), nodes + 1, depth + 1)
  {
    NameParses(c, tail);
  }

  /** What the body of a printed node gives, the node gives within the limits. */
  lemma {:induction false} NodeFromBody(c: CNode, tail: string, nodes: nat, depth: nat)
    requires WellFormed(c)
    requires depth <= MAX_DEPTH && nodes < MAX_NODES ==>
      ParseBody(Trim(c.name), PrintHead(c.head, tail), nodes + 1, depth + 1) ==
        if Fits(nodes + 1, HeadSize(c.head), depth, HeadDepth(c.head))
        then
          var node := Node(Trim(c.name), IsActive(HeadState(c.head)), HeadChildren(c.head));
          Good(node, tail, nodes + 1 + HeadSize(c.head))
        else Bad
    ensures ParseNode(Print(c, tail), nodes, depth) ==
      if Fits(nodes, Size(c), depth, Depth(c)) then Good(Meaning(c), tail, nodes + Size(c)) else Bad
  {
    NodeOpens(c, tail, nodes, depth);
    MeaningOfHead(c);
    var within := depth <= MAX_DEPTH && nodes < MAX_NODES;
    if within {
      FitsStep(c, nodes, depth);
    }
    WithinThenFits(
      ParseNode(Print(c, tail), nodes, depth),
      ParseBody(Trim(c.name), PrintHead(c.head, tail), nodes + 1, depth + 1),
      Meaning(c), tail, nodes + Size(c), within, Fits(nodes, Size(c), depth, Depth(c)));
  }

  /** Parsing a printed node gives its meaning and stops at its end, and fails exactly when a
      limit is exceeded. */
  lemma {:induction false} PrintedNodeParses(c: CNode, tail: string, nodes: nat, depth: nat)
    requires WellFormed(c)
    ensures ParseNode(Print(c, tail), nodes, depth) ==
      if Fits(nodes, Size(c), depth, Depth(c)) then Good(Meaning(c), tail, nodes + Size(c)) else Bad
    decreases c, 0
  {
    if depth <= MAX_DEPTH && nodes < MAX_NODES {
      PrintedBodyParses(Trim(c.name), c.head, tail, nodes + 1, depth + 1);
    }
    NodeFromBody(c, tail, nodes, depth);
  }

  lemma WithinThenFits(
    node: Parsed<Node>, body: Parsed<Node>, value: Node, tail: string, count: nat, within: bool, fits: bool)
    requires node == if within then body else Bad
    requires within ==> body == if fits then Good(value, tail, count) else Bad
    requires fits ==> within
    ensures node == if fits then Good(value, tail, count) else Bad
  {
  }

  lemma MeaningOfHead(c: CNode)
    ensures Meaning(c) == Node(Trim(c.name), IsActive(HeadState(c.head)), HeadChildren(c.head))
    ensures Size(c) == 1 + HeadSize(c.head) && Depth(c) == HeadDepth(c.head)
    ensures HeadSize(c.head) == 0 ==> HeadDepth(c.head) == 0
  {
    if c.head.StateKids? || c.head.KidsOnly? {
      NoNodesNoLevels(c.head.items);
    }
  }

  lemma {:induction false} NodeDepth(c: CNode)
    ensures Size(c) > 0
  {
  }

  lemma {:induction false} NoNodesNoLevels(i: CItems)
    ensures SizeItems(i) == 0 ==> DepthItems(i) == 0
  {
    match i
    case NoMore(_) =>
    case LastNode(node, _) => NodeDepth(node);
    case NodeThen(node, _, _) => NodeDepth(node);
    case LastJunk(_, _) =>
    case JunkThen(_, _, rest) => NoNodesNoLevels(rest);
  }

  lemma FitsStep(c: CNode, nodes: nat, depth: nat)
    requires depth <= MAX_DEPTH && nodes < MAX_NODES
    ensures Fits(nodes, Size(c), depth, Depth(c)) == Fits(nodes + 1, HeadSize(c.head), depth, HeadDepth(c.head))
  {
    MeaningOfHead(c);
  }

  function HeadSize(h: CHead): nat {
    if h.StateKids? || h.KidsOnly? then SizeItems(h.items) else 0
  }

  function HeadDepth(h: CHead): nat {
    if h.StateKids? || h.KidsOnly? then DepthItems(h.items) else 0
  }

  function HeadState(h: CHead): string { if h.StateOnly? || h.StateKids? then h.state else "" }

  function HeadChildren(h: CHead): seq<Node> {
    if h.StateKids? || h.KidsOnly? then Children(h.items) else []
  }

  lemma {:induction false} PrintedBodyParses(name: string, h: CHead, tail: string, nodes: nat, depth: nat)
    requires WellFormedHead(h) && depth > 0 && depth <= MAX_DEPTH + 1 && nodes <= MAX_NODES
    ensures ParseBody(name, PrintHead(h, tail), nodes, depth) ==
      if Fits(nodes, HeadSize(h), depth - 1, HeadDepth(h))
      then Good(Node(name, IsActive(HeadState(h)), HeadChildren(h)), tail, nodes + HeadSize(h)) else Bad
    decreases h
  {
    HeadSplits(h, tail);
    if h.StateKids? || h.KidsOnly? {
      KidsParse(h.items, h.gap3, tail, nodes, depth);
    } else {
      Closes(if h.NameOnly? then h.post else "", tail);
      assert "" + ("}" + tail) == "}" + tail;
    }
  }

  lemma {:induction false} KidsClose(items: CItems, gap3: string, tail: string)
    requires Blank(gap3)
    ensures var end := "}" + (gap3 + ("}" + tail));
      && Eat("{" + PrintItems(items, end), '{') == Some(PrintItems(items, end))
      && Close(end) == Some(gap3 + ("}" + tail))
      && Close(gap3 + ("}" + tail)) == Some(tail)
  {
    var last := gap3 + ("}" + tail);
    Eats('{', PrintItems(items, "}" + last));
    Closes("", last);
    assert "" + ("}" + last) == "}" + last;
    Closes(gap3, tail);
  }

  lemma {:induction false} KidsParse(items: CItems, gap3: string, tail: string, nodes: nat, depth: nat)
    requires WellFormedItems(items) && Blank(gap3) && depth > 0 && nodes <= MAX_NODES
    ensures var end := "}" + (gap3 + ("}" + tail));
      && Eat("{" + PrintItems(items, end), '{') == Some(PrintItems(items, end))
      && ItemsParse(items, end, nodes, depth)
      && Close(end) == Some(gap3 + ("}" + tail))
      && Close(gap3 + ("}" + tail)) == Some(tail)
    decreases items, 1
  {
    KidsClose(items, gap3, tail);
    PrintedItemsParse(items, "}" + (gap3 + ("}" + tail)), nodes, depth);
  }

  /** The items `i`, then `tail`, parse to their children within the limits and fail beyond them. */
  ghost predicate ItemsParse(i: CItems, tail: string, nodes: nat, depth: nat)
    requires depth > 0
  {
    ParseItems(PrintItems(i, tail), nodes, depth) ==
      if Fits(nodes, SizeItems(i), depth - 1, DepthItems(i))
      then Good(Children(i), tail, nodes + SizeItems(i)) else Bad
  }

  lemma {:induction false} PrintedItemsParse(i: CItems, tail: string, nodes: nat, depth: nat)
    requires WellFormedItems(i) && tail != "" && tail[0] == '}' && depth > 0 && nodes <= MAX_NODES
    ensures ItemsParse(i, tail, nodes, depth)
    decreases i, 0
  {
    match i
    case NoMore(ws) => NoMoreParses(ws, tail, nodes, depth);
    case LastNode(node, post) =>
      NodeItemParses(node, post + tail, nodes, depth);
      LastNodeParses(node, post, tail, nodes, depth);
    case NodeThen(node, post, rest) =>
      NodeItemParses(node, post + ("," + PrintItems(rest, tail)), nodes, depth);
      if Fits(nodes, Size(node), depth, Depth(node)) {
        PrintedItemsParse(rest, tail, nodes + Size(node), depth);
      }
      NodeThenParses(node, post, rest, tail, nodes, depth);
    case LastJunk(ws, junk) => LastJunkParses(ws, junk, tail, nodes, depth);
    case JunkThen(ws, junk, rest) =>
      PrintedItemsParse(rest, tail, nodes, depth);
      JunkThenParses(ws, junk, rest, tail, nodes, depth);
  }

  lemma {:induction false} NoMoreParses(ws: string, tail: string, nodes: nat, depth: nat)
    requires Blank(ws) && tail != "" && tail[0] == '}' && depth > 0 && nodes <= MAX_NODES
    ensures ItemsParse(NoMore(ws), tail, nodes, depth)
  {
    SkipsBlank(ws, tail);
  }

  /** `s` begins with an item that is a node, then `t`. */
  ghost predicate Item(s: string, fits: bool, node: Node, t: string, count: nat, nodes: nat, depth: nat) {
    ParseItems(s, nodes, depth) == if fits then MoreItems([node], t, count, depth) else Bad
  }

  ghost predicate NodeItem(c: CNode, t: string, nodes: nat, depth: nat) {
    Item(Print(c, t), Fits(nodes, Size(c), depth, Depth(c)), Meaning(c), t, nodes + Size(c), nodes, depth)
  }

  lemma {:induction false} LastNodeParses(node: CNode, post: string, tail: string, nodes: nat, depth: nat)
    requires Blank(post) && tail != "" && tail[0] == '}' && depth > 0
    requires NodeItem(node, post + tail, nodes, depth)
    ensures ItemsParse(LastNode(node, post), tail, nodes, depth)
  {
    EndOfItems([Meaning(node)], post, tail, nodes + Size(node), depth);
    NodeDepth(node);
  }

  lemma {:induction false} LastJunkParses(ws: string, junk: string, tail: string, nodes: nat, depth: nat)
    requires Blank(ws) && PlainText(junk) && junk != "" && tail != "" && tail[0] == '}'
    requires depth > 0 && nodes <= MAX_NODES
    ensures ItemsParse(LastJunk(ws, junk), tail, nodes, depth)
  {
    JunkItem(ws, junk, tail, nodes, depth);
    EndOfItems([], "", tail, nodes, depth);
    assert "" + tail == tail;
  }

  lemma FitsSplit(nodes: nat, a: nat, b: nat, depth: nat, la: nat, lb: nat)
    requires a > 0 && (b == 0 ==> lb == 0) && depth > 0
    ensures Fits(nodes, a + b, depth - 1, Max(1 + la, lb)) <==>
      Fits(nodes, a, depth, la) && Fits(nodes + a, b, depth - 1, lb)
  {
  }

  lemma {:induction false} NodeThenParses(node: CNode, post: string, rest: CItems, tail: string, nodes: nat, depth: nat)
    requires Blank(post) && depth > 0
    requires NodeItem(node, post + ("," + PrintItems(rest, tail)), nodes, depth)
    requires Fits(nodes, Size(node), depth, Depth(node)) ==> ItemsParse(rest, tail, nodes + Size(node), depth)
    ensures ItemsParse(NodeThen(node, post, rest), tail, nodes, depth)
  {
    NodeDepth(node);
    NoNodesNoLevels(rest);
    FitsSplit(nodes, Size(node), SizeItems(rest), depth, Depth(node), DepthItems(rest));
    CommaItems([Meaning(node)], post, PrintItems(rest, tail), nodes + Size(node), depth);
    NodeThenOthers(
      ParseItems(PrintItems(NodeThen(node, post, rest), tail), nodes, depth),
      ParseItems(PrintItems(rest, tail), nodes + Size(node), depth),
      Meaning(node), Children(rest), tail, nodes + Size(node) + SizeItems(rest),
      Fits(nodes, Size(node), depth, Depth(node)),
      Fits(nodes + Size(node), SizeItems(rest), depth - 1, DepthItems(rest)));
  }

  lemma NodeThenOthers(all: Parsed<seq<Node>>, others: Parsed<seq<Node>>, node: Node, kids: seq<Node>,
      tail: string, count: nat, first: bool, second: bool)
    requires all == if first then Joined([node], others) else Bad
    requires first ==> others == if second then Good(kids, tail, count) else Bad
    ensures all == if first && second then Good([node] + kids, tail, count) else Bad
  {
  }

  lemma JunkThenParses(ws: string, junk: string, rest: CItems, tail: string, nodes: nat, depth: nat)
    requires Blank(ws) && PlainText(junk) && depth > 0 && ItemsParse(rest, tail, nodes, depth)
    ensures ItemsParse(JunkThen(ws, junk, rest), tail, nodes, depth)
  {
    var next := PrintItems(rest, tail);
    JunkItem(ws, junk, "," + next, nodes, depth);
    CommaItems([], "", next, nodes, depth);
    assert "" + ("," + next) == "," + next;
  }

  lemma EndOfItems(found: seq<Node>, post: string, tail: string, nodes: nat, depth: nat)
    requires Blank(post) && tail != "" && tail[0] == '}'
    ensures MoreItems(found, post + tail, nodes, depth) == Good(found, tail, nodes)
  {
    SkipsBlank(post, tail);
  }

  lemma CommaItems(found: seq<Node>, post: string, next: string, nodes: nat, depth: nat)
    requires Blank(post)
    ensures MoreItems(found, post + ("," + next), nodes, depth) == Joined(found, ParseItems(next, nodes, depth))
  {
    SkipsBlank(post, "," + next);
    Eats(',', next);
  }

  lemma JunkItem(ws: string, junk: string, t: string, nodes: nat, depth: nat)
    requires Blank(ws) && PlainText(junk) && t != "" && (t[0] == ',' || (t[0] == '}' && junk != ""))
    ensures ParseItems(ws + (junk + t), nodes, depth) == MoreItems([], t, nodes, depth)
  {
    StateSplits(ws, junk, t);
    assert junk != "" ==> junk[0] in junk;
  }

  lemma {:induction false} SkippedNodeParses(node: CNode, t: string, nodes: nat, depth: nat)
    requires WellFormed(node)
    ensures ParseNode(SkipWs(Print(node, t)), nodes, depth) ==
      if Fits(nodes, Size(node), depth, Depth(node)) then Good(Meaning(node), t, nodes + Size(node)) else Bad
    decreases node, 1
  {
    PrintedNodeParses(node, t, nodes, depth);
    PrintedNodeSkips(node, t, nodes, depth);
  }

  /** An item that is a node parses as that node, white space before it or not. */
  lemma {:induction false} NodeItemParses(node: CNode, t: string, nodes: nat, depth: nat)
    requires WellFormed(node)
    ensures NodeItem(node, t, nodes, depth)
    decreases node, 2
  {
    SkippedNodeParses(node, t, nodes, depth);
    SkipsToBrace(node, t);
    var s, value, count := Print(node, t), Meaning(node), nodes + Size(node);
    var fits := Fits(nodes, Size(node), depth, Depth(node));
    FirstNodeItem(s, nodes, depth, fits, value, t, count);
    IsNodeItem(node, t, nodes, depth, s, fits, value, count);
  }

  lemma {:induction false} IsNodeItem(
    c: CNode, t: string, nodes: nat, depth: nat, s: string, fits: bool, value: Node, count: nat)
    requires s == Print(c, t) && value == Meaning(c) && count == nodes + Size(c)
    requires fits == Fits(nodes, Size(c), depth, Depth(c)) && Item(s, fits, value, t, count, nodes, depth)
    ensures NodeItem(c, t, nodes, depth)
  {
  }

  lemma {:induction false} SkipsToBrace(node: CNode, t: string)
    requires WellFormed(node)
    ensures SkipWs(Print(node, t)) != "" && SkipWs(Print(node, t))[0] == '{'
  {
    PaddingSkips(node, t);
  }

  lemma PrintedNodeSkips(node: CNode, t: string, nodes: nat, depth: nat)
    requires WellFormed(node)
    ensures ParseNode(SkipWs(Print(node, t)), nodes, depth) == ParseNode(Print(node, t), nodes, depth)
  {
    PaddingSkips(node, t);
    NameParses(node, t);
    NameParses(node.(pre := ""), t);
  }

  /** White space before a printed node is skipped to a brace. */
  lemma PaddingSkips(node: CNode, t: string)
    requires WellFormed(node)
    ensures var bare := node.(pre := "");
      && SkipWs(Print(node, t)) == Print(bare, t) && Print(bare, t) != "" && Print(bare, t)[0] == '{'
      && Meaning(bare) == Meaning(node) && Size(bare) == Size(node) && Depth(bare) == Depth(node)
  {
    var inside := node.name + ("}" + PrintHead(node.head, t));
    Opens(node.pre, inside);
    assert "" + ("{" + ("{" + inside)) == "{" + ("{" + inside);
    Eats('{', "{" + inside);
  }

  lemma FirstNodeItem(s: string, nodes: nat, depth: nat, fits: bool, node: Node, t: string, count: nat)
    requires SkipWs(s) != "" && SkipWs(s)[0] == '{'
    requires ParseNode(SkipWs(s), nodes, depth) == if fits then Good(node, t, count) else Bad
    ensures Item(s, fits, node, t, count, nodes, depth)
  {
  }
}
