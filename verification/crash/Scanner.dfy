/** The cursor over the breadcrumb text, proved against the parser functions. */
module BreadcrumbScanner {
  import opened Wrappers
  import opened Text
  import opened BreadcrumbParser

  /** The text from position `i`. */
  function From(b: string, i: nat): string
    requires i <= |b|
    decreases |b| - i
  {
    if i == |b| then "" else [b[i]] + From(b, i + 1)
  }

  lemma {:induction false} FromIsSlice(b: string, i: nat)
    requires i <= |b|
    ensures From(b, i) == b[i..]
    decreases |b| - i
  {
    if i < |b| {
      FromIsSlice(b, i + 1);
    }
  }

  class Scanner {
    const b: string
    var i: nat
    var nodes: nat

    constructor (b: string)
      ensures Valid() && this.b == b && i == 0 && nodes == 0
    {
      this.b := b;
      i, nodes := 0, 0;
    }

    /** The cursor never passes the end. */
    predicate Valid()
      reads this
    {
      i <= |b|
    }

    function Rest(): string
      requires Valid()
      reads this
    {
      From(b, i)
    }

    method Peek() returns (c: Option<char>)
      requires Valid()
      ensures c == if Rest() == "" then None else Some(Rest()[0])
    {
      c := if i < |b| then Some(b[i]) else None;
    }

    method Advance()
      requires Valid() && Rest() != ""
      modifies this`i
      ensures Valid() && i == old(i) + 1 && Rest() == old(Rest())[1..]
    {
      assert ([b[i]] + From(b, i + 1))[1..] == From(b, i + 1);
      i := i + 1;
    }

    method EatChar(c: char) returns (hit: bool)
      requires Valid()
      modifies this`i
      ensures Valid() && old(i) <= i
      ensures hit <==> Eat(old(Rest()), c).Some?
      ensures hit ==> old(i) < i
      ensures Rest() == if hit then Eat(old(Rest()), c).value else old(Rest())
    {
      var next := Peek();
      hit := next == Some(c);
      if hit {
        Advance();
      }
    }

    method SkipSpace()
      requires Valid()
      modifies this`i
      ensures Valid() && old(i) <= i && Rest() == SkipWs(old(Rest()))
    {
      var c := Peek();
      while c.Some? && IsAsciiSpace(c.value)
        invariant Valid() && old(i) <= i && SkipWs(Rest()) == SkipWs(old(Rest()))
        invariant c == if Rest() == "" then None else Some(Rest()[0])
        decreases |b| - i
      {
        Advance();
        c := Peek();
      }
    }

    /** Characters up to the first of `stops`, cursor left on it. */
    method Take(stops: set<char>) returns (taken: string)
      requires Valid()
      modifies this`i
      ensures Valid() && old(i) <= i && (taken, Rest()) == TakeUntil(old(Rest()), stops)
    {
      var start := i;
      ghost var goal := TakeUntil(Rest(), stops);
      var c := Peek();
      while c.Some? && c.value !in stops
        invariant Valid() && start <= i
        invariant goal.0 == b[start..i] + TakeUntil(Rest(), stops).0 && goal.1 == TakeUntil(Rest(), stops).1
        invariant c == if Rest() == "" then None else Some(Rest()[0])
        decreases |b| - i
      {
        TakeStep(b[start..i], Rest(), stops);
        assert b[start..i + 1] == b[start..i] + [b[i]];
        Advance();
        c := Peek();
      }
      taken := b[start..i];
      assert taken + "" == taken;
    }

    lemma TakeStep(taken: string, s: string, stops: set<char>)
      requires s != "" && s[0] !in stops
      ensures taken + TakeUntil(s, stops).0 == (taken + [s[0]]) + TakeUntil(s[1..], stops).0
      ensures TakeUntil(s, stops).1 == TakeUntil(s[1..], stops).1
    {
    }

    /** `node` and the cursor agree with the parse result `r`. */
    ghost predicate Agrees<T>(node: Option<T>, r: Parsed<T>)
      requires Valid()
      reads this
    {
      match r
      case Bad => node.None?
      case Good(value, rest, count) => node == Some(value) && Rest() == rest && nodes == count
    }

    method Node(depth: nat) returns (node: Option<Node>)
      requires Valid()
      modifies this
      ensures Valid() && old(i) <= i
      ensures Agrees(node, ParseNode(old(Rest()), old(nodes), depth))
      decreases |b| - i, 1
    {
      ghost var goal := ParseNode(Rest(), nodes, depth);
      NodeIsNamed(Rest(), nodes, depth, goal);
      if depth > MAX_DEPTH || nodes >= MAX_NODES {
        return None;
      }
      nodes := nodes + 1;
      node := NamedNode(depth + 1, goal);
    }

    /** The node past the limits: its name, then its body. */
    ghost function ParseNamed(s: string, count: nat, depth: nat): Parsed<Node> {
      match ParseName(s)
      case None => Bad
      case Some((name, after)) => ParseBody(name, after, count, depth)
    }

    lemma {:induction false} NodeIsNamed(s: string, count: nat, depth: nat, node: Parsed<Node>)
      requires node == ParseNode(s, count, depth)
      ensures node ==
        if depth > MAX_DEPTH || count >= MAX_NODES then Bad else ParseNamed(s, count + 1, depth + 1)
    {
    }

    method NamedNode(depth: nat, ghost goal: Parsed<Node>) returns (node: Option<Node>)
      requires Valid() && depth > 0 && goal == ParseNamed(Rest(), nodes, depth)
      modifies this
      ensures Valid() && old(i) <= i
      ensures Agrees(node, goal)
      decreases |b| - i, 0
    {
      var name := Name();
      if name.None? {
        return None;
      }
      node := Body(name.value, depth);
    }

    /** The braced name a node starts with, trimmed. */
    method Name() returns (name: Option<string>)
      requires Valid()
      modifies this`i
      ensures Valid() && old(i) <= i
      ensures name.Some? <==> ParseName(old(Rest())).Some?
      ensures name.Some? ==> ParseName(old(Rest())) == Some((name.value, Rest())) && old(i) < i
    {
      var begun := Braces();
      if !begun {
        return None;
      }
      var raw := Take({'}'});
      var ended := EatChar('}');
      return if ended then Some(Trim(raw)) else None;
    }

    /** The two braces a node starts with. */
    method Braces() returns (hit: bool)
      requires Valid()
      modifies this`i
      ensures Valid() && old(i) <= i
      ensures hit <==> Open(old(Rest())).Some?
      ensures hit ==> Rest() == Open(old(Rest())).value && old(i) < i
    {
      SkipSpace();
      hit := EatChar('{');
      if hit {
        hit := EatChar('{');
      }
    }

    /** State marker, children and closing brace. */
    method Body(name: string, depth: nat) returns (node: Option<Node>)
      requires Valid()
      modifies this
      ensures Valid() && old(i) <= i
      ensures Agrees(node, ParseBody(name, old(Rest()), old(nodes), depth))
      decreases |b| - i, 3
    {
      var state, kids := Head();
      var children: seq<BreadcrumbParser.Node> := [];
      if kids {
        var hasKids := EatChar('{');
        if !hasKids {
          return None;
        }
        var items := Items(depth);
        if items.None? {
          return None;
        }
        children := items.value;
        SkipSpace();
        var closed := EatChar('}');
        if !closed {
          return None;
        }
      }
      SkipSpace();
      var ended := EatChar('}');
      if !ended {
        return None;
      }
      return Some(BreadcrumbParser.Node(name, IsActive(state), children));
    }

    method Head() returns (state: string, kids: bool)
      requires Valid()
      modifies this`i
      ensures Valid() && old(i) <= i && (state, kids, Rest()) == SplitHead(old(Rest()))
    {
      state, kids := "", false;
      var comma := EatChar(',');
      if !comma {
        return;
      }
      SkipSpace();
      var c := Peek();
      if c == Some('{') {
        kids := true;
        return;
      }
      state := Take({',', '}'});
      kids := EatChar(',');
      if kids {
        SkipSpace();
      }
    }

    method Items(depth: nat) returns (children: Option<seq<BreadcrumbParser.Node>>)
      requires Valid()
      modifies this
      ensures Valid() && old(i) <= i
      ensures Agrees(children, ParseItems(old(Rest()), old(nodes), depth))
      decreases |b| - i, 2
    {
      ghost var goal := ParseItems(Rest(), nodes, depth);
      var found: seq<BreadcrumbParser.Node> := [];
      JoinNothing(goal);
      while true
        invariant Valid() && old(i) <= i
        invariant goal == Joined(found, ParseItems(Rest(), nodes, depth))
        decreases |b| - i
      {
        JoinItem(found, Rest(), nodes, depth);
        SkipSpace();
        var c := Peek();
        if c.None? {
          return None;
        }
        if c.value == '}' {
          return Some(found);
        } else if c.value == '{' {
          var node := Node(depth);
          if node.None? {
            return None;
          }
          found := found + [node.value];
        } else {
          var _ := Take({',', '}'});
        }
        var more := NextItem(found, depth);
        if !more {
          return Some(found);
        }
      }
    }

    /** Whether a comma says that another item follows. */
    method NextItem(ghost found: seq<BreadcrumbParser.Node>, ghost depth: nat) returns (more: bool)
      requires Valid()
      modifies this`i
      ensures Valid() && old(i) <= i && (more ==> old(i) < i)
      ensures MoreItems(found, old(Rest()), nodes, depth) ==
        if more then Joined(found, ParseItems(Rest(), nodes, depth)) else Good(found, Rest(), nodes)
    {
      SkipSpace();
      more := EatChar(',');
    }
  }

  lemma JoinNothing(r: Parsed<seq<Node>>)
    ensures r == Joined([], r)
  {
    if r.Good? {
      assert [] + r.value == r.value;
    }
  }

  lemma JoinMore(found: seq<Node>, item: seq<Node>, s: string, nodes: nat, depth: nat)
    ensures Joined(found, MoreItems(item, s, nodes, depth)) == MoreItems(found + item, s, nodes, depth)
  {
    var next := Eat(SkipWs(s), ',');
    if next.Some? {
      var more := ParseItems(next.value, nodes, depth);
      if more.Good? {
        assert found + (item + more.value) == (found + item) + more.value;
      }
    }
  }

  /** The first item at `s`, joined to those already found. */
  lemma JoinItem(found: seq<Node>, s: string, nodes: nat, depth: nat)
    ensures var t := SkipWs(s);
      var all := Joined(found, ParseItems(s, nodes, depth));
      && (t == "" ==> all.Bad?)
      && (t != "" && t[0] == '}' ==> all == Good(found, t, nodes))
      && (t != "" && t[0] == '{' && ParseNode(t, nodes, depth).Bad? ==> all.Bad?)
      && (t != "" && t[0] == '{' && ParseNode(t, nodes, depth).Good? ==>
          var n := ParseNode(t, nodes, depth);
          all == MoreItems(found + [n.value], n.rest, n.nodes, depth))
      && (t != "" && t[0] !in {'{', '}'} ==> all == MoreItems(found, TakeUntil(t, {',', '}'}).1, nodes, depth))
  {
    var t := SkipWs(s);
    if t != "" && t[0] == '{' {
      var n := ParseNode(t, nodes, depth);
      if n.Good? {
        JoinMore(found, [n.value], n.rest, n.nodes, depth);
      }
    } else if t != "" {
      JoinMore(found, [], TakeUntil(t, {',', '}'}).1, nodes, depth);
      assert found + [] == found;
    }
  }

  lemma RootStep(roots: seq<Node>, s: string, nodes: nat)
    requires SkipWs(s) != ""
    ensures var r := ParseNode(SkipWs(s), nodes, 0);
      roots + ParseRoots(s, nodes) ==
        if r.Bad? then roots else (roots + [r.value]) + ParseRoots(AfterRoot(r.rest), r.nodes)
  {
    var r := ParseNode(SkipWs(s), nodes, 0);
    if r.Good? {
      var others := ParseRoots(AfterRoot(r.rest), r.nodes);
      assert ParseRoots(s, nodes) == [r.value] + others;
      assert roots + ([r.value] + others) == (roots + [r.value]) + others;
    }
  }

  /** Root nodes of a tree, stopping at the first malformed one. */
  method Roots(tree: string) returns (roots: seq<Node>)
    ensures roots == ParseRoots(Trim(tree), 0)
  {
    var trimmed := Trim(tree);
    roots := [];
    if trimmed == "" {
      return;
    }
    var scanner := new Scanner(trimmed);
    ghost var goal := ParseRoots(trimmed, 0);
    FromIsSlice(trimmed, 0);
    assert [] + goal == goal;
    while true
      invariant scanner.Valid() && fresh(scanner)
      invariant roots + ParseRoots(scanner.Rest(), scanner.nodes) == goal
      decreases |scanner.b| - scanner.i
    {
      ghost var before, count := scanner.Rest(), scanner.nodes;
      scanner.SkipSpace();
      var c := scanner.Peek();
      if c.None? {
        assert roots + [] == roots;
        return;
      }
      RootStep(roots, before, count);
      var node := scanner.Node(0);
      if node.None? {
        return;
      }
      roots := roots + [node.value];
      scanner.SkipSpace();
      var _ := scanner.EatChar(',');
    }
  }
}
