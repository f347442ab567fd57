/** The breadcrumb parser as functions on what is left of the text. Structural characters are
    ASCII, so scanning characters finds the same cuts as the source's scan over bytes. */
module BreadcrumbParser {
  import opened Wrappers
  import opened Text

  const MAX_DEPTH := 128
  const MAX_NODES := 20000

  /** One scope of the tree, and whether it is active. */
  datatype Node = Node(name: string, active: bool, children: seq<Node>)

  /** A parse result: the value, the text left, and the nodes counted so far. */
  datatype Parsed<T> = Bad | Good(value: T, rest: string, nodes: nat)

  predicate IsAsciiSpace(c: char) { c in {' ', '\t', '\n', '\r', 12 as char} }

  function SkipWs(s: string): (r: string)
    ensures |r| <= |s|
  {
    if s != "" && IsAsciiSpace(s[0]) then SkipWs(s[1..]) else s
  }

  function Eat(s: string, c: char): (r: Option<string>)
    ensures r.Some? ==> |r.value| < |s|
  {
    if s != "" && s[0] == c then Some(s[1..]) else None
  }

  /** Characters up to the first of `stops`, and the rest from there. */
  function TakeUntil(s: string, stops: set<char>): (r: (string, string))
    ensures |r.1| <= |s|
  {
    if s == "" || s[0] in stops then ("", s)
    else
      var (taken, rest) := TakeUntil(s[1..], stops);
      ([s[0]] + taken, rest)
  }

  /** What follows a node's name: its state, whether children follow, and the text from there. */
  function SplitHead(s: string): (r: (string, bool, string))
    ensures |r.2| <= |s|
  {
    match Eat(s, ',')
    case None => ("", false, s)
    case Some(after) =>
      var t := SkipWs(after);
      if t != "" && t[0] == '{' then ("", true, t)
      else
        var (state, rest) := TakeUntil(t, {',', '}'});
        match Eat(rest, ',')
        case None => (state, false, rest)
        case Some(kids) => (state, true, SkipWs(kids))
  }

  predicate IsActive(state: string) { EqIgnoreCase(Trim(state), "a") }

  /** A node is active when its state is the letter A, in either case and with any blanks around it. */
  lemma {:induction false} ActiveIff(state: string)
    ensures IsActive(state) <==> Trim(state) == "A" || Trim(state) == "a"
  {
    var t := Trim(state);
    assert Lower("a") == "a" by { assert "a"[1..] == ""; }
    if |t| == 1 {
      assert Lower(t) == [LowerChar(t[0])] by { assert t[1..] == ""; }
      assert t == [t[0]];
    }
  }

  function Close(s: string): (r: Option<string>)
    ensures r.Some? ==> |r.value| < |s|
  {
    Eat(SkipWs(s), '}')
  }

  /** Two opening braces, the name and its brace, an optional state, an optional list of children, a brace. */
  function ParseNode(s: string, nodes: nat, depth: nat): (r: Parsed<Node>)
    ensures r.Good? ==> |r.rest| < |s|
    decreases |s|, 0
  {
    if depth > MAX_DEPTH || nodes >= MAX_NODES then Bad
    else
      match ParseName(s)
      case None => Bad
      case Some((name, after)) => ParseBody(name, after, nodes + 1, depth + 1)
  }

  /** The trimmed name between a node's first braces, and what follows it. */
  function ParseName(s: string): (r: Option<(string, string)>)
    ensures r.Some? ==> |r.value.1| < |s|
  {
    match Open(s)
    case None => None
    case Some(inside) =>
      var (name, end) := TakeUntil(inside, {'}'});
      match Eat(end, '}')
      case None => None
      case Some(after) => Some((Trim(name), after))
  }

  function Open(s: string): (r: Option<string>)
    ensures r.Some? ==> |r.value| < |s|
  {
    match Eat(SkipWs(s), '{')
    case None => None
    case Some(t) => Eat(t, '{')
  }

  /** What follows the name: state, children and the closing brace. */
  function ParseBody(name: string, s: string, nodes: nat, depth: nat): (r: Parsed<Node>)
    ensures r.Good? ==> |r.rest| < |s|
    decreases |s|, 2
  {
    var (state, kids, at) := SplitHead(s);
    if !kids then
      match Close(at)
      case None => Bad
      case Some(rest) => Good(Node(name, IsActive(state), []), rest, nodes)
    else
      match Eat(at, '{')
      case None => Bad
      case Some(items) =>
        match ParseItems(items, nodes, depth)
        case Bad => Bad
        case Good(children, end, count) =>
          match Close(end)
          case None => Bad
          case Some(last) =>
            match Close(last)
            case None => Bad
            case Some(rest) => Good(Node(name, IsActive(state), children), rest, count)
  }

  /** Children up to the brace that closes them; anything that is not a node is skipped. */
  function ParseItems(s: string, nodes: nat, depth: nat): (r: Parsed<seq<Node>>)
    ensures r.Good? ==> |r.rest| <= |s|
    decreases |s|, 1
  {
    var t := SkipWs(s);
    if t == "" then Bad
    else if t[0] == '}' then Good([], t, nodes)
    else if t[0] == '{' then
      match ParseNode(t, nodes, depth)
      case Bad => Bad
      case Good(node, rest, count) => MoreItems([node], rest, count, depth)
    else MoreItems([], TakeUntil(t, {',', '}'}).1, nodes, depth)
  }

  /** After one item: a comma and more, or the end. */
  function MoreItems(found: seq<Node>, s: string, nodes: nat, depth: nat): (r: Parsed<seq<Node>>)
    ensures r.Good? ==> |r.rest| <= |s|
    decreases |s|, 0
  {
    var t := SkipWs(s);
    match Eat(t, ',')
    case None => Good(found, t, nodes)
    case Some(next) => Joined(found, ParseItems(next, nodes, depth))
  }

  function Joined(found: seq<Node>, more: Parsed<seq<Node>>): Parsed<seq<Node>> {
    if more.Bad? then Bad else Good(found + more.value, more.rest, more.nodes)
  }

  /** Root nodes until the text ends or one is malformed; a comma between roots is optional. */
  function ParseRoots(s: string, nodes: nat): seq<Node>
    decreases |s|
  {
    var t := SkipWs(s);
    if t == "" then []
    else
      match ParseNode(t, nodes, 0)
      case Bad => []
      case Good(node, rest, count) => [node] + ParseRoots(AfterRoot(rest), count)
  }

  function AfterRoot(s: string): (r: string)
    ensures |r| <= |s|
  {
    var t := SkipWs(s);
    match Eat(t, ',') case None => t case Some(next) => next
  }
}
