/** Scripts as nested blocks: an evaluation by recursion on the block tree that needs no stack
    of flags, and the proof that the flat machine computes it. */
module StructuredScript {
  import opened Wrappers
  import opened ScriptText
  import opened ScriptMachine

  // ----- Block trees -----

  /** `after` is what follows the line in its script: where a jump starts looking. */
  datatype Block =
    | End
    | Do(kind: Kind, after: seq<Kind>, next: Block)
    | If(cond: string, arms: Arms, next: Block)

  /** The stretches between `if`, each `else`, and `endif`. */
  datatype Arms = Only(body: Block) | More(body: Block, rest: Arms)

  predicate Closes(kind: Kind) { kind.EndIf? || kind.Else? }

  /** The block at the front of `kinds`, and what is left from the `else` or `endif` that ends it. */
  function ParseBlock(kinds: seq<Kind>): (r: (Block, seq<Kind>))
    ensures |r.1| <= |kinds|
    ensures r.1 == [] || Closes(r.1[0])
    decreases |kinds|, 0
  {
    if kinds == [] || Closes(kinds[0]) then (End, kinds)
    else if kinds[0].IfThen? then
      var (arms, rest) := ParseArms(kinds[1..]);
      var (next, left) := ParseBlock(rest);
      (If(kinds[0].cond, arms, next), left)
    else
      var (next, left) := ParseBlock(kinds[1..]);
      (Do(kinds[0], kinds[1..], next), left)
  }

  /** The arms of an `if` and what follows its `endif`; the end of the script closes it too. */
  function ParseArms(kinds: seq<Kind>): (r: (Arms, seq<Kind>))
    ensures |r.1| <= |kinds|
    decreases |kinds|, 1
  {
    var (body, left) := ParseBlock(kinds);
    if left == [] then (Only(body), [])
    else if left[0].EndIf? then (Only(body), left[1..])
    else
      var (arms, rest) := ParseArms(left[1..]);
      (More(body, arms), rest)
  }

  // ----- Evaluation -----

  datatype Outcome = Fell(env: Env) | Jumped(env: Env, target: string, after: seq<Kind>)

  /** What follows the first line carrying the label, or nothing. */
  function AfterLabel(target: string, kinds: seq<Kind>): (r: seq<Kind>)
    ensures |r| <= |kinds|
  {
    if kinds == [] then []
    else if kinds[0] == Label(target) then kinds[1..]
    else AfterLabel(target, kinds[1..])
  }

  /** A jump out of a block: its label, and what follows the `goto` in its script. */
  type Exit = (string, seq<Kind>)

  /** The jumps a block can leave by, `depth` `if`s deep in its script. */
  function Exits(block: Block, depth: nat): set<Exit> {
    match block
    case End => {}
    case Do(kind, after, next) =>
      if kind.Goto? && Jumps(kind.target, depth) then {(kind.target, after)} else Exits(next, depth)
    case If(_, arms, next) => ArmsExits(arms, depth + 1) + Exits(next, depth)
  }

  function ArmsExits(arms: Arms, depth: nat): set<Exit> {
    match arms
    case Only(body) => Exits(body, depth)
    case More(body, rest) => Exits(body, depth) + ArmsExits(rest, depth)
  }

  predicate Suffix(a: seq<Kind>, kinds: seq<Kind>) {
    |a| <= |kinds| && a == kinds[|kinds| - |a|..]
  }

  /** The exit is a `goto` line of the script and what follows it. */
  predicate IsExit(e: Exit, kinds: seq<Kind>) {
    |e.1| < |kinds| && Suffix(e.1, kinds) && kinds[|kinds| - |e.1| - 1] == Goto(e.0)
  }

  predicate AreExits(all: set<Exit>, kinds: seq<Kind>) { forall e :: e in all ==> IsExit(e, kinds) }

  lemma SuffixTrans(a: seq<Kind>, b: seq<Kind>, c: seq<Kind>)
    requires Suffix(a, b) && Suffix(b, c)
    ensures Suffix(a, c)
  {
  }

  lemma ExitsTrans(all: set<Exit>, b: seq<Kind>, c: seq<Kind>)
    requires AreExits(all, b) && Suffix(b, c)
    ensures AreExits(all, c)
  {
    forall e | e in all
      ensures IsExit(e, c)
    {
      SuffixTrans(e.1, b, c);
      assert b[|b| - |e.1| - 1] == c[|c| - |e.1| - 1];
    }
  }

  lemma {:induction false} ExitsAreGotos(kinds: seq<Kind>, depth: nat)
    ensures AreExits(Exits(ParseBlock(kinds).0, depth), kinds) && Suffix(ParseBlock(kinds).1, kinds)
    decreases |kinds|, 0
  {
    if kinds != [] && !Closes(kinds[0]) {
      var tail := kinds[1..];
      assert Suffix(tail, kinds);
      var from := tail;
      if kinds[0].IfThen? {
        ArmsExitsAreGotos(tail, depth + 1);
        from := ParseArms(tail).1;
        ExitsTrans(ArmsExits(ParseArms(tail).0, depth + 1), tail, kinds);
        SuffixTrans(from, tail, kinds);
      }
      ExitsAreGotos(from, depth);
      ExitsTrans(Exits(ParseBlock(from).0, depth), from, kinds);
      SuffixTrans(ParseBlock(from).1, from, kinds);
    }
  }

  lemma {:induction false} ArmsExitsAreGotos(kinds: seq<Kind>, depth: nat)
    ensures AreExits(ArmsExits(ParseArms(kinds).0, depth), kinds) && Suffix(ParseArms(kinds).1, kinds)
    decreases |kinds|, 1
  {
    ExitsAreGotos(kinds, depth);
    var left := ParseBlock(kinds).1;
    if left != [] {
      var tail := left[1..];
      assert Suffix(tail, left);
      SuffixTrans(tail, left, kinds);
      if !left[0].EndIf? {
        ArmsExitsAreGotos(tail, depth);
        ExitsTrans(ArmsExits(ParseArms(tail).0, depth), tail, kinds);
        SuffixTrans(ParseArms(tail).1, tail, kinds);
      }
    }
  }

  function EvalScript(rules: Rules, env: Env, script: string): (r: Env)
    ensures env.visited <= r.visited
    decreases |Unvisited(rules, env.visited)|, 0
  {
    match rules.lookup(env, script)
    case Nothing => env
    case Seen => env
    case Unreadable(key) => Marked(env, key)
    case Body(key, name, fromBat, kinds) =>
      MarkingShrinks(rules, env.visited, key);
      EvalBody(rules, Marked(env, key), name, fromBat, kinds)
  }

  /** A script body: its block tree, then, after a jump, the tree of what follows the label. */
  function EvalBody(rules: Rules, env: Env, origin: string, fromBat: bool, kinds: seq<Kind>): (r: Env)
    ensures env.visited <= r.visited
    decreases |Unvisited(rules, env.visited)|, 3, |kinds|
  {
    ExitsAreGotos(kinds, 0);
    match EvalBlock(rules, env, origin, fromBat, 0, ParseBlock(kinds).0)
    case Fell(out) => out
    case Jumped(out, target, after) =>
      UnvisitedShrinks(rules, env.visited, out.visited);
      EvalBody(rules, out, origin, fromBat, AfterLabel(target, after))
  }

  /** `depth` counts the `if`s of this script around the block. */
  function EvalBlock(rules: Rules, env: Env, origin: string, fromBat: bool, depth: nat, block: Block): (r: Outcome)
    ensures env.visited <= r.env.visited
    ensures r.Jumped? ==> (r.target, r.after) in Exits(block, depth)
    decreases |Unvisited(rules, env.visited)|, 2, block
  {
    match block
    case End => Fell(env)
    case Do(kind, after, next) =>
      if kind.Goto? && Jumps(kind.target, depth) then Jumped(env, kind.target, after)
      else
        var out := EvalLine(rules, env, origin, fromBat, kind);
        UnvisitedShrinks(rules, env.visited, out.visited);
        EvalBlock(rules, out, origin, fromBat, depth, next)
    case If(cond, arms, next) =>
      var o := EvalArms(rules, env, origin, fromBat, depth + 1, arms, rules.holds(env, cond));
      if o.Jumped? then o
      else
        UnvisitedShrinks(rules, env.visited, o.env.visited);
        EvalBlock(rules, o.env, origin, fromBat, depth, next)
  }

  /** A line that does not jump. */
  function EvalLine(rules: Rules, env: Env, origin: string, fromBat: bool, kind: Kind): (r: Env)
    ensures env.visited <= r.visited
    decreases |Unvisited(rules, env.visited)|, 1
  {
    if kind.Goto? || kind.Label? then env
    else
      match rules.effect(env, origin, fromBat, kind)
      case Done(out) => out
      case Include(out, script) => EvalScript(rules, out, script)
  }

  /** Run the first arm if `take`, the second if not, and so on alternately. */
  function EvalArms(
    rules: Rules, env: Env, origin: string, fromBat: bool, depth: nat, arms: Arms, take: bool): (r: Outcome)
    ensures env.visited <= r.env.visited
    ensures r.Jumped? ==> (r.target, r.after) in ArmsExits(arms, depth)
    decreases |Unvisited(rules, env.visited)|, 2, arms
  {
    var o := if take then EvalBlock(rules, env, origin, fromBat, depth, arms.body) else Fell(env);
    if o.Jumped? || arms.Only? then o
    else
      UnvisitedShrinks(rules, env.visited, o.env.visited);
      EvalArms(rules, o.env, origin, fromBat, depth, arms.rest, !take)
  }

  // ----- Tidy scripts -----

  /** No `else` or `endif` without an `if` of the same script, read from its start or from any label a
      jump of it can lead to. */
  predicate Tidy(kinds: seq<Kind>)
    decreases |kinds|
  {
    ExitsAreGotos(kinds, 0);
    var (block, left) := ParseBlock(kinds);
    left == [] && forall e :: e in Exits(block, 0) ==> Tidy(AfterLabel(e.0, e.1))
  }

  /** Every script of `ran` is tidy, wherever it is found. */
  ghost predicate TidyIn(rules: Rules, ran: set<string>) {
    forall env, script ::
      var f := rules.lookup(env, script); f.Body? && f.key in ran ==> Tidy(f.kinds)
  }

  /** From `st` to `end` no script outside `ran` was newly visited. */
  predicate RunsOnly(ran: set<string>, st: State, end: State) { end.env.visited <= st.env.visited + ran }

  /** Counting instead of parsing: from `depth` open `if`s no line closes one too many. */
  predicate NeverUnderflows(kinds: seq<Kind>, depth: nat)
    decreases |kinds|
  {
    if kinds == [] then true
    else if kinds[0].EndIf? then depth > 0 && NeverUnderflows(kinds[1..], depth - 1)
    else if kinds[0].Else? then depth > 0 && NeverUnderflows(kinds[1..], depth)
    else NeverUnderflows(kinds[1..], if kinds[0].IfThen? then depth + 1 else depth)
  }

  lemma {:induction false} ParseCountsBlocks(kinds: seq<Kind>, depth: nat)
    ensures NeverUnderflows(kinds, depth) <==> NeverUnderflows(ParseBlock(kinds).1, depth)
    decreases |kinds|, 0
  {
    if kinds != [] && !Closes(kinds[0]) {
      if kinds[0].IfThen? {
        ParseCountsArms(kinds[1..], depth);
        ParseCountsBlocks(ParseArms(kinds[1..]).1, depth);
      } else {
        ParseCountsBlocks(kinds[1..], depth);
      }
    }
  }

  lemma {:induction false} ParseCountsArms(kinds: seq<Kind>, depth: nat)
    ensures NeverUnderflows(kinds, depth + 1) <==> NeverUnderflows(ParseArms(kinds).1, depth)
    decreases |kinds|, 1
  {
    ParseCountsBlocks(kinds, depth + 1);
    var left := ParseBlock(kinds).1;
    if left != [] && left[0].Else? {
      ParseCountsArms(left[1..], depth);
    }
  }

  /** The parser consumes a whole script exactly when counting its blocks never underflows. */
  lemma ParsedIsCounting(kinds: seq<Kind>)
    ensures ParseBlock(kinds).1 == [] <==> NeverUnderflows(kinds, 0)
  {
    ParseCountsBlocks(kinds, 0);
  }

  lemma {:induction false} ExitsAreLines(kinds: seq<Kind>)
    ensures forall e :: e in Exits(ParseBlock(kinds).0, 0) ==> Goto(e.0) in kinds
  {
    ExitsAreGotos(kinds, 0);
    forall e | e in Exits(ParseBlock(kinds).0, 0)
      ensures Goto(e.0) in kinds
    {
      assert IsExit(e, kinds);
    }
  }

  /** A script without `goto` is tidy exactly when counting its blocks never underflows, wherever it has
      labels. */
  lemma {:induction false} TidyIsCounting(kinds: seq<Kind>)
    requires forall k :: k in kinds ==> !k.Goto?
    ensures Tidy(kinds) <==> NeverUnderflows(kinds, 0)
  {
    ParsedIsCounting(kinds);
    ExitsAreLines(kinds);
  }

  /** From each `goto`, the lines behind its label count as well as the whole script does. */
  predicate JumpsCount(kinds: seq<Kind>) {
    forall i :: 0 <= i < |kinds| && kinds[i].Goto? ==>
      NeverUnderflows(AfterLabel(kinds[i].target, kinds[i + 1..]), 0)
  }

  lemma {:induction false} AfterLabelIsSuffix(target: string, kinds: seq<Kind>)
    ensures Suffix(AfterLabel(target, kinds), kinds)
    decreases |kinds|
  {
    if kinds != [] && kinds[0] != Label(target) {
      AfterLabelIsSuffix(target, kinds[1..]);
      SuffixTrans(AfterLabel(target, kinds[1..]), kinds[1..], kinds);
    }
  }

  lemma {:induction false} SuffixJumpsCount(a: seq<Kind>, kinds: seq<Kind>)
    requires JumpsCount(kinds) && Suffix(a, kinds)
    ensures JumpsCount(a)
  {
    var shift := |kinds| - |a|;
    forall i | 0 <= i < |a| && a[i].Goto?
      ensures NeverUnderflows(AfterLabel(a[i].target, a[i + 1..]), 0)
    {
      assert kinds[shift + i] == a[i] && a[i + 1..] == kinds[shift + i + 1..];
    }
  }

  /** With `goto`s, counting from the start and from each label they name is enough. */
  lemma {:induction false} CountingIsTidy(kinds: seq<Kind>)
    requires NeverUnderflows(kinds, 0) && JumpsCount(kinds)
    ensures Tidy(kinds)
    decreases |kinds|
  {
    ParsedIsCounting(kinds);
    ExitsAreGotos(kinds, 0);
    forall e | e in Exits(ParseBlock(kinds).0, 0)
      ensures Tidy(AfterLabel(e.0, e.1))
    {
      var i := |kinds| - |e.1| - 1;
      assert IsExit(e, kinds);
      assert kinds[i + 1..] == e.1;
      AfterLabelIsSuffix(e.0, e.1);
      SuffixTrans(AfterLabel(e.0, e.1), e.1, kinds);
      SuffixJumpsCount(AfterLabel(e.0, e.1), kinds);
      CountingIsTidy(AfterLabel(e.0, e.1));
    }
  }

  // ----- The flat machine computes the structured evaluation -----

  /** What remains of a script's run once it ends. */
  function Settled(st: State): State {
    State(st.env, Truncated(st.blocks, st.floor), None, st.floor)
  }

  /** Where a run of `kinds` from `st` ends. */
  function Final(rules: Rules, st: State, origin: string, fromBat: bool, kinds: seq<Kind>): State {
    Settled(RunKinds(rules, st, origin, fromBat, kinds))
  }

  lemma FinalHead(rules: Rules, st: State, origin: string, fromBat: bool, kinds: seq<Kind>)
    requires kinds != []
    ensures Final(rules, st, origin, fromBat, kinds)
      == Final(rules, Step(rules, st, origin, fromBat, kinds[0]), origin, fromBat, kinds[1..])
  {
  }

  /** Inside a block that does not run, nothing happens up to the line that ends it. */
  lemma {:induction false} DeadBlock(rules: Rules, st: State, origin: string, fromBat: bool, kinds: seq<Kind>)
    requires st.pending.None? && !AllOpen(st.blocks) && st.floor <= |st.blocks|
    ensures Final(rules, st, origin, fromBat, kinds) == Final(rules, st, origin, fromBat, ParseBlock(kinds).1)
    decreases |kinds|, 0
  {
    if kinds != [] && !Closes(kinds[0]) {
      FinalHead(rules, st, origin, fromBat, kinds);
      if kinds[0].IfThen? {
        var open := rules.holds(st.env, kinds[0].cond);
        DeadArms(rules, st, origin, fromBat, kinds[1..], open);
        DeadBlock(rules, st, origin, fromBat, ParseArms(kinds[1..]).1);
      } else {
        DeadBlock(rules, st, origin, fromBat, kinds[1..]);
      }
    }
  }

  lemma PushKeepsDead(blocks: seq<bool>, open: bool)
    requires !AllOpen(blocks)
    ensures !AllOpen(blocks + [open])
  {
    var b :| b in blocks && !b;
    assert b in blocks + [open];
  }

  lemma PushOnOpen(blocks: seq<bool>, open: bool)
    requires AllOpen(blocks)
    ensures AllOpen(blocks + [open]) <==> open
  {
    assert open in blocks + [open];
  }

  lemma PopPush(blocks: seq<bool>, open: bool)
    ensures Popped(blocks + [open]) == blocks && Toggled(blocks + [open]) == blocks + [!open]
  {
  }

  lemma TruncatePush(blocks: seq<bool>, open: bool, floor: nat)
    requires floor <= |blocks|
    ensures Truncated(blocks + [open], floor) == Truncated(blocks, floor)
  {
    assert (blocks + [open])[..floor] == blocks[..floor];
  }

  lemma {:induction false} DeadArms(
    rules: Rules, st: State, origin: string, fromBat: bool, kinds: seq<Kind>, open: bool)
    requires st.pending.None? && !AllOpen(st.blocks) && st.floor <= |st.blocks|
    ensures Final(rules, st.(blocks := st.blocks + [open]), origin, fromBat, kinds)
      == Final(rules, st, origin, fromBat, ParseArms(kinds).1)
    decreases |kinds|, 1
  {
    var inner := st.(blocks := st.blocks + [open]);
    PushKeepsDead(st.blocks, open);
    PopPush(st.blocks, open);
    DeadBlock(rules, inner, origin, fromBat, kinds);
    var left := ParseBlock(kinds).1;
    if left != [] {
      FinalHead(rules, inner, origin, fromBat, left);
      if left[0].Else? {
        DeadArms(rules, st, origin, fromBat, left[1..], !open);
      }
    }
  }

  /** After a jump only the label matters. */
  lemma {:induction false} SkipToLabel(rules: Rules, st: State, origin: string, fromBat: bool, kinds: seq<Kind>)
    requires st.pending.Some?
    ensures Final(rules, st, origin, fromBat, kinds)
      == Final(rules, st.(pending := None), origin, fromBat, AfterLabel(st.pending.value, kinds))
    decreases |kinds|
  {
    if kinds != [] {
      FinalHead(rules, st, origin, fromBat, kinds);
      if kinds[0] != Label(st.pending.value) {
        SkipToLabel(rules, st, origin, fromBat, kinds[1..]);
      }
    }
  }

  /** The state the machine is in after the outcome `o` of a block run from `st`. */
  function Resumed(st: State, o: Outcome): State {
    match o
    case Fell(env) => st.(env := env)
    case Jumped(env, target, _) => State(env, Truncated(st.blocks, st.floor), Some(target), st.floor)
  }

  function Rest(o: Outcome, left: seq<Kind>): seq<Kind> { if o.Jumped? then o.after else left }

  ghost predicate Running(st: State) {
    st.pending.None? && AllOpen(st.blocks) && st.floor <= |st.blocks|
  }

  lemma {:induction false} BlockSimulation(
    rules: Rules, ran: set<string>, st: State, origin: string, fromBat: bool, kinds: seq<Kind>)
    requires TidyIn(rules, ran) && Running(st) && RunsOnly(ran, st, Final(rules, st, origin, fromBat, kinds))
    ensures var (block, left) := ParseBlock(kinds);
      var o := EvalBlock(rules, st.env, origin, fromBat, |st.blocks| - st.floor, block);
      Final(rules, st, origin, fromBat, kinds) == Final(rules, Resumed(st, o), origin, fromBat, Rest(o, left))
    decreases |Unvisited(rules, st.env.visited)|, 1, |kinds|, 0
  {
    if kinds != [] && !Closes(kinds[0]) {
      FinalHead(rules, st, origin, fromBat, kinds);
      var kind := kinds[0];
      if kind.IfThen? {
        IfSimulation(rules, ran, st, origin, fromBat, kind.cond, kinds[1..]);
      } else if kind.Goto? && Jumps(kind.target, |st.blocks| - st.floor) {
      } else {
        StepSimulation(rules, ran, st, origin, fromBat, kind);
        var next := st.(env := EvalLine(rules, st.env, origin, fromBat, kind));
        UnvisitedShrinks(rules, st.env.visited, next.env.visited);
        BlockSimulation(rules, ran, next, origin, fromBat, kinds[1..]);
      }
    }
  }

  /** A whole `if` and what follows it in its block. */
  lemma {:induction false} IfSimulation(
    rules: Rules, ran: set<string>, st: State, origin: string, fromBat: bool, cond: string, tail: seq<Kind>)
    requires TidyIn(rules, ran) && Running(st)
    requires var inner := st.(blocks := st.blocks + [rules.holds(st.env, cond)]);
      RunsOnly(ran, st, Final(rules, inner, origin, fromBat, tail))
    ensures var (arms, rest) := ParseArms(tail);
      var (next, left) := ParseBlock(rest);
      var take := rules.holds(st.env, cond);
      var o := EvalBlock(rules, st.env, origin, fromBat, |st.blocks| - st.floor, If(cond, arms, next));
      Final(rules, st.(blocks := st.blocks + [take]), origin, fromBat, tail)
        == Final(rules, Resumed(st, o), origin, fromBat, Rest(o, left))
    decreases |Unvisited(rules, st.env.visited)|, 1, |tail|, 3
  {
    var take := rules.holds(st.env, cond);
    ArmsSimulation(rules, ran, st, origin, fromBat, tail, take);
    var (arms, rest) := ParseArms(tail);
    var o := EvalArms(rules, st.env, origin, fromBat, |st.blocks| - st.floor + 1, arms, take);
    if o.Fell? {
      UnvisitedShrinks(rules, st.env.visited, o.env.visited);
      BlockSimulation(rules, ran, st.(env := o.env), origin, fromBat, rest);
    }
  }

  lemma {:induction false} StepSimulation(
    rules: Rules, ran: set<string>, st: State, origin: string, fromBat: bool, kind: Kind)
    requires TidyIn(rules, ran) && Running(st) && !Closes(kind) && !kind.IfThen?
    requires RunsOnly(ran, st, Step(rules, st, origin, fromBat, kind))
    requires !(kind.Goto? && Jumps(kind.target, |st.blocks| - st.floor))
    ensures Step(rules, st, origin, fromBat, kind) == st.(env := EvalLine(rules, st.env, origin, fromBat, kind))
    decreases |Unvisited(rules, st.env.visited)|, 0, 0, 1
  {
    if !kind.Goto? && !kind.Label? {
      PlainStep(rules, st, origin, fromBat, kind);
    }
    if !kind.Goto? && !kind.Label? && rules.effect(st.env, origin, fromBat, kind).Include? {
      var Include(env, script) := rules.effect(st.env, origin, fromBat, kind);
      ScriptSimulation(rules, ran, st.(env := env), script);
    }
  }

  /** What the first arm does. */
  function FirstArm(
    rules: Rules, env: Env, origin: string, fromBat: bool, depth: nat, kinds: seq<Kind>, take: bool): (r: Outcome)
    ensures env.visited <= r.env.visited
  {
    if take then EvalBlock(rules, env, origin, fromBat, depth, ParseBlock(kinds).0) else Fell(env)
  }

  /** The first arm ends the `if`, or the arms after its `else` go on from it. */
  lemma {:induction false} ArmsFromFirst(
    rules: Rules, env: Env, origin: string, fromBat: bool, depth: nat, kinds: seq<Kind>, take: bool)
    ensures var o := FirstArm(rules, env, origin, fromBat, depth, kinds, take);
      var left := ParseBlock(kinds).1;
      var (arms, rest) := ParseArms(kinds);
      var all := EvalArms(rules, env, origin, fromBat, depth, arms, take);
      && (o.Jumped? ==> all == o)
      && (left == [] ==> all == o && rest == [])
      && (left != [] && left[0].EndIf? ==> all == o && rest == left[1..])
      && (o.Fell? && left != [] && !left[0].EndIf? ==>
          && rest == ParseArms(left[1..]).1
          && all == EvalArms(rules, o.env, origin, fromBat, depth, ParseArms(left[1..]).0, !take))
  {
  }

  lemma {:induction false} FirstArmSimulation(
    rules: Rules, ran: set<string>, st: State, origin: string, fromBat: bool, kinds: seq<Kind>, take: bool)
    requires TidyIn(rules, ran) && Running(st)
    requires RunsOnly(ran, st, Final(rules, st.(blocks := st.blocks + [take]), origin, fromBat, kinds))
    ensures var left := ParseBlock(kinds).1;
      var o := FirstArm(rules, st.env, origin, fromBat, |st.blocks| - st.floor + 1, kinds, take);
      var inner := st.(blocks := st.blocks + [take]);
      Final(rules, inner, origin, fromBat, kinds) ==
        if o.Jumped? then Final(rules, Resumed(st, o), origin, fromBat, o.after)
        else Final(rules, inner.(env := o.env), origin, fromBat, left)
    decreases |Unvisited(rules, st.env.visited)|, 1, |kinds|, 1
  {
    var inner := st.(blocks := st.blocks + [take]);
    PushOnOpen(st.blocks, take);
    TruncatePush(st.blocks, take, st.floor);
    if take {
      BlockSimulation(rules, ran, inner, origin, fromBat, kinds);
    } else {
      DeadBlock(rules, inner, origin, fromBat, kinds);
    }
  }

  lemma {:induction false} ArmsSimulation(
    rules: Rules, ran: set<string>, st: State, origin: string, fromBat: bool, kinds: seq<Kind>, take: bool)
    requires TidyIn(rules, ran) && Running(st)
    requires RunsOnly(ran, st, Final(rules, st.(blocks := st.blocks + [take]), origin, fromBat, kinds))
    ensures var (arms, left) := ParseArms(kinds);
      var o := EvalArms(rules, st.env, origin, fromBat, |st.blocks| - st.floor + 1, arms, take);
      Final(rules, st.(blocks := st.blocks + [take]), origin, fromBat, kinds)
        == Final(rules, Resumed(st, o), origin, fromBat, Rest(o, left))
    decreases |Unvisited(rules, st.env.visited)|, 1, |kinds|, 2
  {
    var left := ParseBlock(kinds).1;
    var depth := |st.blocks| - st.floor + 1;
    var o := FirstArm(rules, st.env, origin, fromBat, depth, kinds, take);
    FirstArmSimulation(rules, ran, st, origin, fromBat, kinds, take);
    ArmsFromFirst(rules, st.env, origin, fromBat, depth, kinds, take);
    if o.Fell? {
      var next := st.(env := o.env);
      AfterBody(rules, next, origin, fromBat, left, take);
      if left != [] && left[0].Else? {
        UnvisitedShrinks(rules, st.env.visited, o.env.visited);
        ArmsSimulation(rules, ran, next, origin, fromBat, left[1..], !take);
      }
    }
  }

  /** The line that ends an arm: the end of the script, `endif`, or `else`. */
  lemma AfterBody(rules: Rules, st: State, origin: string, fromBat: bool, left: seq<Kind>, take: bool)
    requires Running(st) && (left == [] || Closes(left[0]))
    ensures var inner := st.(blocks := st.blocks + [take]);
      && (left == [] ==> Final(rules, inner, origin, fromBat, left) == Final(rules, st, origin, fromBat, left))
      && (left != [] && left[0].EndIf? ==>
          Final(rules, inner, origin, fromBat, left) == Final(rules, st, origin, fromBat, left[1..]))
      && (left != [] && left[0].Else? ==>
          Final(rules, inner, origin, fromBat, left)
            == Final(rules, st.(blocks := st.blocks + [!take]), origin, fromBat, left[1..]))
  {
    PopPush(st.blocks, take);
    TruncatePush(st.blocks, take, st.floor);
    if left != [] {
      FinalHead(rules, st.(blocks := st.blocks + [take]), origin, fromBat, left);
    }
  }

  lemma {:induction false} BodySimulation(
    rules: Rules, ran: set<string>, st: State, origin: string, fromBat: bool, kinds: seq<Kind>)
    requires TidyIn(rules, ran) && Running(st) && |st.blocks| == st.floor && Tidy(kinds)
    requires RunsOnly(ran, st, Final(rules, st, origin, fromBat, kinds))
    ensures Final(rules, st, origin, fromBat, kinds) == st.(env := EvalBody(rules, st.env, origin, fromBat, kinds))
    decreases |Unvisited(rules, st.env.visited)|, 2, |kinds|, 0
  {
    ExitsAreGotos(kinds, 0);
    BlockSimulation(rules, ran, st, origin, fromBat, kinds);
    var o := EvalBlock(rules, st.env, origin, fromBat, 0, ParseBlock(kinds).0);
    if o.Jumped? {
      var after := AfterLabel(o.target, o.after);
      SkipToLabel(rules, Resumed(st, o), origin, fromBat, o.after);
      UnvisitedShrinks(rules, st.env.visited, o.env.visited);
      BodySimulation(rules, ran, st.(env := o.env), origin, fromBat, after);
    }
  }

  /** When the scripts a run newly visits are tidy, running it on the flat machine from any state
      whose blocks all run has exactly the structured evaluation's effect, includes and jumps
      included, and leaves the caller's block flags, pending jump and floor as they were. */
  lemma {:induction false} ScriptSimulation(rules: Rules, ran: set<string>, st: State, script: string)
    requires TidyIn(rules, ran) && RunsOnly(ran, st, Expand(rules, st, script)) && AllOpen(st.blocks)
    ensures Expand(rules, st, script) == st.(env := EvalScript(rules, st.env, script))
    decreases |Unvisited(rules, st.env.visited)|, 0, 0, 0
  {
    match rules.lookup(st.env, script)
    case Nothing =>
    case Seen =>
    case Unreadable(_) =>
    case Body(key, name, fromBat, kinds) =>
      MarkingShrinks(rules, st.env.visited, key);
      var inner := State(Marked(st.env, key), st.blocks, None, |st.blocks|);
      assert Expand(rules, st, script).env == Final(rules, inner, name, fromBat, kinds).env;
      assert key in ran;
      BodySimulation(rules, ran, inner, name, fromBat, kinds);
      assert Final(rules, inner, name, fromBat, kinds).blocks == st.blocks;
  }
}
