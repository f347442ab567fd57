/** When a whole run, scripts called by called scripts included, leaves every caller's block flags alone. */
module ScriptFlags {
  import opened ScriptText
  import opened ScriptMachine
  import opened ScriptRuns
  import opened ScriptLog
  import opened StructuredScript

  /** At every line of every script entered, the flags its caller had opened are still at the bottom of
      the stack, unchanged. */
  ghost predicate FlagsStay(rules: Rules, st: State, script: string)
    decreases |Unvisited(rules, st.env.visited)|, 0, 0
  {
    var f := rules.lookup(st.env, script);
    if f.Body? then
      MarkingShrinks(rules, st.env.visited, f.key);
      FlagsStayIn(rules, Entered(st, f), f.name, f.fromBat, f.kinds, st.blocks)
    else true
  }

  ghost predicate FlagsStayIn(
      rules: Rules, st: State, origin: string, fromBat: bool, kinds: seq<Kind>, caller: seq<bool>)
    decreases |Unvisited(rules, st.env.visited)|, 2, |kinds|
  {
    if kinds == [] then caller <= st.blocks
    else
      var next := Step(rules, st, origin, fromBat, kinds[0]);
      UnvisitedShrinks(rules, st.env.visited, next.env.visited);
      && caller <= st.blocks
      && FlagsStayAt(rules, st, origin, fromBat, kinds[0])
      && FlagsStayIn(rules, next, origin, fromBat, kinds[1..], caller)
  }

  ghost predicate FlagsStayAt(rules: Rules, st: State, origin: string, fromBat: bool, kind: Kind)
    decreases |Unvisited(rules, st.env.visited)|, 1, 0
  {
    var effect := rules.effect(st.env, origin, fromBat, kind);
    Acts(st, kind) && effect.Include? ==> FlagsStay(rules, st.(env := effect.env), effect.script)
  }

  // ----- The scripts entered inside a block -----

  /** A script being entered: the state its first line sees, and what was found. */
  datatype Entry = Entry(start: State, body: Found)

  predicate AreEntries(log: seq<Entry>) { forall e :: e in log ==> e.body.Body? && e.start.pending.None? }

  /** The scripts entered while some block is open, in the order they are entered. */
  function Inside(rules: Rules, st: State, script: string): (r: seq<Entry>)
    ensures AreEntries(r)
    decreases |Unvisited(rules, st.env.visited)|, 0, 0
  {
    var f := rules.lookup(st.env, script);
    if f.Body? then
      MarkingShrinks(rules, st.env.visited, f.key);
      (if st.blocks == [] then [] else [Entry(Entered(st, f), f)])
      + InsideIn(rules, Entered(st, f), f.name, f.fromBat, f.kinds)
    else []
  }

  function InsideIn(rules: Rules, st: State, origin: string, fromBat: bool, kinds: seq<Kind>): (r: seq<Entry>)
    ensures AreEntries(r)
    decreases |Unvisited(rules, st.env.visited)|, 2, |kinds|
  {
    if kinds == [] then []
    else
      var next := Step(rules, st, origin, fromBat, kinds[0]);
      UnvisitedShrinks(rules, st.env.visited, next.env.visited);
      InsideAt(rules, st, origin, fromBat, kinds[0]) + InsideIn(rules, next, origin, fromBat, kinds[1..])
  }

  function InsideAt(rules: Rules, st: State, origin: string, fromBat: bool, kind: Kind): (r: seq<Entry>)
    ensures AreEntries(r)
    decreases |Unvisited(rules, st.env.visited)|, 1, 0
  {
    var effect := rules.effect(st.env, origin, fromBat, kind);
    if Acts(st, kind) && effect.Include? then Inside(rules, st.(env := effect.env), effect.script) else []
  }

  /** How many blocks a line adds. */
  function Opened(kind: Kind): int { if kind.IfThen? then 1 else if kind.EndIf? then -1 else 0 }

  /** Counting along a run: the lines met since the last jump taken, from `depth` open `if`s on, never
      close one too many. Lines skipped by a jump are not counted, and a jump taken starts anew. */
  ghost predicate CountsAlong(
      rules: Rules, st: State, origin: string, fromBat: bool, kinds: seq<Kind>, depth: nat)
    decreases |kinds|
  {
    kinds == [] ||
    var next := Step(rules, st, origin, fromBat, kinds[0]);
    if st.pending.Some? then CountsAlong(rules, next, origin, fromBat, kinds[1..], depth)
    else if next.pending.Some? then CountsAlong(rules, next, origin, fromBat, kinds[1..], 0)
    else
      && (Closes(kinds[0]) ==> depth > 0)
      && CountsAlong(rules, next, origin, fromBat, kinds[1..], depth + Opened(kinds[0]))
  }

  ghost predicate Counts(rules: Rules, e: Entry)
    requires e.body.Body?
  {
    CountsAlong(rules, e.start, e.body.name, e.body.fromBat, e.body.kinds, 0)
  }

  ghost predicate AllCount(rules: Rules, log: seq<Entry>)
    requires AreEntries(log)
  {
    forall e :: e in log ==> Counts(rules, e)
  }

  // ----- Exactly when the flags stay -----

  lemma {:induction false} StayedToTheEnd(
      rules: Rules, st: State, origin: string, fromBat: bool, kinds: seq<Kind>, caller: seq<bool>)
    requires FlagsStayIn(rules, st, origin, fromBat, kinds, caller)
    ensures caller <= RunKinds(rules, st, origin, fromBat, kinds).blocks
    decreases |kinds|
  {
    if kinds != [] {
      StayedToTheEnd(rules, Step(rules, st, origin, fromBat, kinds[0]), origin, fromBat, kinds[1..], caller);
    }
  }

  /** A call under which the flags stay gives the stack back as it was. */
  lemma {:induction false} StayedIsRestored(rules: Rules, st: State, script: string)
    requires FlagsStay(rules, st, script)
    ensures Expand(rules, st, script).blocks == st.blocks
  {
    var f := rules.lookup(st.env, script);
    if f.Body? {
      StayedToTheEnd(rules, Entered(st, f), f.name, f.fromBat, f.kinds, st.blocks);
    }
  }

  lemma CountsSplit(rules: Rules, a: seq<Entry>, b: seq<Entry>)
    requires AreEntries(a) && AreEntries(b)
    ensures AllCount(rules, a + b) <==> AllCount(rules, a) && AllCount(rules, b)
  {
    assert forall e :: e in a + b <==> e in a || e in b;
  }

  /** Whatever a run jumps to and calls, the flags of every caller stay exactly when every script entered
      while a block is open counts along the run. */
  lemma {:induction false} FlagsStayIff(rules: Rules, st: State, script: string)
    ensures FlagsStay(rules, st, script) <==> AllCount(rules, Inside(rules, st, script))
    decreases |Unvisited(rules, st.env.visited)|, 0, 0
  {
    var f := rules.lookup(st.env, script);
    if f.Body? {
      var inner := Entered(st, f);
      var here := if st.blocks == [] then [] else [Entry(inner, f)];
      MarkingShrinks(rules, st.env.visited, f.key);
      LinesStayIff(rules, inner, f.name, f.fromBat, f.kinds, st.blocks);
      OneCounts(rules, Entry(inner, f));
      CountsSplit(rules, here, InsideIn(rules, inner, f.name, f.fromBat, f.kinds));
    }
  }

  lemma OneCounts(rules: Rules, e: Entry)
    requires e.body.Body? && e.start.pending.None?
    ensures AllCount(rules, [e]) <==> Counts(rules, e)
  {
    assert e in [e];
  }

  lemma {:induction false} LinesStayIff(
      rules: Rules, st: State, origin: string, fromBat: bool, kinds: seq<Kind>, caller: seq<bool>)
    requires caller <= st.blocks && |caller| == st.floor
    ensures FlagsStayIn(rules, st, origin, fromBat, kinds, caller) <==>
      && (caller == [] || CountsAlong(rules, st, origin, fromBat, kinds, |st.blocks| - |caller|))
      && AllCount(rules, InsideIn(rules, st, origin, fromBat, kinds))
    decreases |Unvisited(rules, st.env.visited)|, 2, |kinds|
  {
    if kinds != [] {
      var kind := kinds[0];
      var next := Step(rules, st, origin, fromBat, kind);
      UnvisitedShrinks(rules, st.env.visited, next.env.visited);
      CountsSplit(rules, InsideAt(rules, st, origin, fromBat, kind),
        InsideIn(rules, next, origin, fromBat, kinds[1..]));
      LineStaysIff(rules, st, origin, fromBat, kind);
      if FlagsStayAt(rules, st, origin, fromBat, kind) {
        StayedLine(rules, st, origin, fromBat, kind, caller);
        if caller <= next.blocks {
          LinesStayIff(rules, next, origin, fromBat, kinds[1..], caller);
        }
      }
    }
  }

  lemma {:induction false} LineStaysIff(rules: Rules, st: State, origin: string, fromBat: bool, kind: Kind)
    ensures FlagsStayAt(rules, st, origin, fromBat, kind)
       <==> AllCount(rules, InsideAt(rules, st, origin, fromBat, kind))
    decreases |Unvisited(rules, st.env.visited)|, 1, 0
  {
    var effect := rules.effect(st.env, origin, fromBat, kind);
    if Acts(st, kind) && effect.Include? {
      FlagsStayIff(rules, st.(env := effect.env), effect.script);
    }
  }

  /** What a line under which the flags stay does to the stack. */
  lemma {:induction false} StayedLine(
      rules: Rules, st: State, origin: string, fromBat: bool, kind: Kind, caller: seq<bool>)
    requires caller <= st.blocks && |caller| == st.floor
    requires FlagsStayAt(rules, st, origin, fromBat, kind)
    ensures var next := Step(rules, st, origin, fromBat, kind);
      if st.pending.Some? then next.blocks == st.blocks
      else if next.pending.Some? then next.blocks == caller
      else caller != [] ==>
        && (caller <= next.blocks <==> !Closes(kind) || |st.blocks| > |caller|)
        && (caller <= next.blocks ==> |next.blocks| == |st.blocks| + Opened(kind))
  {
    if Acts(st, kind) {
      ActedLine(rules, st, origin, fromBat, kind);
    }
  }

  lemma {:induction false} ActedLine(rules: Rules, st: State, origin: string, fromBat: bool, kind: Kind)
    requires Acts(st, kind) && FlagsStayAt(rules, st, origin, fromBat, kind)
    ensures var next := Step(rules, st, origin, fromBat, kind); next.blocks == st.blocks && next.pending.None?
  {
    var effect := rules.effect(st.env, origin, fromBat, kind);
    PlainStep(rules, st, origin, fromBat, kind);
    if effect.Include? {
      StayedIsRestored(rules, st.(env := effect.env), effect.script);
    }
  }

  // ----- Without jumps -----

  predicate NoGoto(kinds: seq<Kind>) { forall k :: k in kinds ==> !k.Goto? }

  /** Where no script entered inside a block has a `goto`, the flags stay exactly when each of those
      scripts, as it is written, opens at least as many blocks as it closes, from its first line on. */
  lemma {:induction false} FlagsStayWithoutJumpsIff(rules: Rules, st: State, script: string)
    requires forall e :: e in Inside(rules, st, script) ==> NoGoto(e.body.kinds)
    ensures FlagsStay(rules, st, script)
       <==> forall e :: e in Inside(rules, st, script) ==> NeverUnderflows(e.body.kinds, 0)
  {
    FlagsStayIff(rules, st, script);
    forall e | e in Inside(rules, st, script)
      ensures Counts(rules, e) <==> NeverUnderflows(e.body.kinds, 0)
    {
      CountingAsWritten(rules, e.start, e.body.name, e.body.fromBat, e.body.kinds, 0);
    }
  }

  lemma {:induction false} CountingAsWritten(
      rules: Rules, st: State, origin: string, fromBat: bool, kinds: seq<Kind>, depth: nat)
    requires st.pending.None? && NoGoto(kinds)
    ensures CountsAlong(rules, st, origin, fromBat, kinds, depth) <==> NeverUnderflows(kinds, depth)
    decreases |kinds|
  {
    if kinds != [] {
      assert kinds[0] in kinds;
      NoJumpPending(rules, st, origin, fromBat, kinds[0]);
      if Closes(kinds[0]) ==> depth > 0 {
        var next := Step(rules, st, origin, fromBat, kinds[0]);
        CountingAsWritten(rules, next, origin, fromBat, kinds[1..], depth + Opened(kinds[0]));
      }
    }
  }

  lemma NoJumpPending(rules: Rules, st: State, origin: string, fromBat: bool, kind: Kind)
    requires st.pending.None? && !kind.Goto?
    ensures Step(rules, st, origin, fromBat, kind).pending.None?
  {
    if Acts(st, kind) {
      PlainStep(rules, st, origin, fromBat, kind);
      var effect := rules.effect(st.env, origin, fromBat, kind);
      if effect.Include? {
        JumpsStayInside(rules, st.(env := effect.env), effect.script);
      }
    }
  }

  // ----- Tidy scripts -----

  predicate TidyBehind(exits: set<Exit>) { forall e :: e in exits ==> Tidy(AfterLabel(e.0, e.1)) }

  /** The lines that count: behind the label a jump is looking for, or all of them. */
  function Counted(st: State, kinds: seq<Kind>): seq<Kind> {
    if st.pending.Some? then AfterLabel(st.pending.value, kinds) else kinds
  }

  function AfterClosing(kind: Kind, blocks: seq<bool>): seq<bool> {
    if kind.EndIf? then Popped(blocks) else Toggled(blocks)
  }

  /** The rest of a tidy script, reached with the flags `blocks`, those above `floor` its own. */
  predicate TidyFrom(kinds: seq<Kind>, blocks: seq<bool>, floor: nat)
    requires floor <= |blocks|
    decreases |kinds|
  {
    var (block, left) := ParseBlock(kinds);
    && (AllOpen(blocks) ==> TidyBehind(Exits(block, |blocks| - floor)))
    && (left == [] || (|blocks| > floor && TidyFrom(left[1..], AfterClosing(left[0], blocks), floor)))
  }

  lemma TidyAtFloor(kinds: seq<Kind>, blocks: seq<bool>)
    requires Tidy(kinds)
    ensures TidyFrom(kinds, blocks, |blocks|)
  {
  }

  /** Pushing a flag onto blocks that do not all run gives such blocks, and taking it off gives them back. */
  lemma PushedFlag(blocks: seq<bool>, open: bool)
    ensures AllOpen(blocks + [open]) ==> AllOpen(blocks)
    ensures Popped(blocks + [open]) == blocks && Toggled(blocks + [open]) == blocks + [!open]
  {
    PopPush(blocks, open);
    if !AllOpen(blocks) {
      PushKeepsDead(blocks, open);
    }
  }

  /** The first arm of an `if`, and what runs after the line that ends it. */
  lemma FirstArmIs(kinds: seq<Kind>, depth: nat)
    ensures var (block, left) := ParseBlock(kinds);
      var (arms, rest) := ParseArms(kinds);
      && Exits(block, depth) <= ArmsExits(arms, depth)
      && (left != [] && left[0].EndIf? ==> rest == left[1..])
      && (left != [] && left[0].Else? ==>
          && rest == ParseArms(left[1..]).1
          && ArmsExits(ParseArms(left[1..]).0, depth) <= ArmsExits(arms, depth))
  {
  }

  lemma TidyFromIs(kinds: seq<Kind>, blocks: seq<bool>, floor: nat, block: Block, left: seq<Kind>)
    requires ParseBlock(kinds) == (block, left) && floor < |blocks|
    requires AllOpen(blocks) ==> TidyBehind(Exits(block, |blocks| - floor))
    requires left != [] ==> TidyFrom(left[1..], AfterClosing(left[0], blocks), floor)
    ensures TidyFrom(kinds, blocks, floor)
  {
  }

  lemma {:induction false} TidyArms(kinds: seq<Kind>, blocks: seq<bool>, floor: nat, open: bool)
    requires floor <= |blocks| && TidyFrom(ParseArms(kinds).1, blocks, floor)
    requires AllOpen(blocks) ==> TidyBehind(ArmsExits(ParseArms(kinds).0, |blocks| - floor + 1))
    ensures TidyFrom(kinds, blocks + [open], floor)
    decreases |kinds|
  {
    var (block, left) := ParseBlock(kinds);
    FirstArmIs(kinds, |blocks| - floor + 1);
    PushedFlag(blocks, open);
    if left != [] && left[0].Else? {
      TidyArms(left[1..], blocks, floor, !open);
    }
    TidyFromIs(kinds, blocks + [open], floor, block, left);
  }

  /** A line that is neither block structure nor a jump taken leaves the rest as tidy as it was. */
  lemma {:induction false} TidyPastLine(kinds: seq<Kind>, blocks: seq<bool>, floor: nat)
    requires kinds != [] && floor <= |blocks| && TidyFrom(kinds, blocks, floor) && !Structural(kinds[0])
    requires kinds[0].Goto? && AllOpen(blocks) ==> !Jumps(kinds[0].target, |blocks| - floor)
    ensures TidyFrom(kinds[1..], blocks, floor)
  {
  }

  lemma {:induction false} TidyPastIf(kinds: seq<Kind>, blocks: seq<bool>, floor: nat, open: bool)
    requires kinds != [] && floor <= |blocks| && TidyFrom(kinds, blocks, floor) && kinds[0].IfThen?
    ensures TidyFrom(kinds[1..], blocks + [open], floor)
  {
    TidyArms(kinds[1..], blocks, floor, open);
  }

  lemma {:induction false} TidyPastJump(kinds: seq<Kind>, blocks: seq<bool>, caller: seq<bool>)
    requires kinds != [] && |caller| <= |blocks| && TidyFrom(kinds, blocks, |caller|)
    requires kinds[0].Goto? && AllOpen(blocks) && Jumps(kinds[0].target, |blocks| - |caller|)
    ensures TidyFrom(AfterLabel(kinds[0].target, kinds[1..]), caller, |caller|)
  {
    assert (kinds[0].target, kinds[1..]) in Exits(ParseBlock(kinds).0, |blocks| - |caller|);
    TidyAtFloor(AfterLabel(kinds[0].target, kinds[1..]), caller);
  }

  lemma {:induction false} TidyPastClosing(kinds: seq<Kind>, blocks: seq<bool>, floor: nat)
    requires kinds != [] && floor <= |blocks| && TidyFrom(kinds, blocks, floor) && Closes(kinds[0])
    ensures |blocks| > floor
    ensures TidyFrom(kinds[1..], AfterClosing(kinds[0], blocks), floor)
  {
  }

  /** A line under which the flags stay leaves the rest of a tidy script tidy. */
  lemma {:induction false} TidyGoesOn(
      rules: Rules, st: State, origin: string, fromBat: bool, kinds: seq<Kind>, caller: seq<bool>)
    requires kinds != [] && caller <= st.blocks && |caller| == st.floor
    requires TidyFrom(Counted(st, kinds), st.blocks, st.floor)
    requires FlagsStayAt(rules, st, origin, fromBat, kinds[0])
    ensures var next := Step(rules, st, origin, fromBat, kinds[0]);
      caller <= next.blocks && next.floor == st.floor && TidyFrom(Counted(next, kinds[1..]), next.blocks, next.floor)
  {
    var kind := kinds[0];
    if st.pending.Some? {
    } else if kind.IfThen? {
      TidyPastIf(kinds, st.blocks, st.floor, rules.holds(st.env, kind.cond));
    } else if Closes(kind) {
      TidyPastClosing(kinds, st.blocks, st.floor);
    } else if kind.Goto? && AllOpen(st.blocks) && Jumps(kind.target, |st.blocks| - st.floor) {
      TidyPastJump(kinds, st.blocks, caller);
    } else {
      TidyPastLine(kinds, st.blocks, st.floor);
      if Acts(st, kind) {
        ActedLine(rules, st, origin, fromBat, kind);
      }
    }
  }

  predicate AllTidy(log: seq<Entry>)
    requires AreEntries(log)
  {
    forall e :: e in log ==> Tidy(e.body.kinds)
  }

  /** The flags of every caller stay when every script entered while a block is open is tidy. */
  lemma {:induction false} FlagsStayWhenTidy(rules: Rules, st: State, script: string)
    requires AllTidy(Inside(rules, st, script))
    ensures FlagsStay(rules, st, script)
    decreases |Unvisited(rules, st.env.visited)|, 0, 0
  {
    var f := rules.lookup(st.env, script);
    if f.Body? {
      var inner := Entered(st, f);
      MarkingShrinks(rules, st.env.visited, f.key);
      if st.blocks != [] {
        assert Entry(inner, f) in Inside(rules, st, script);
        TidyAtFloor(f.kinds, st.blocks);
      }
      LinesStayWhenTidy(rules, inner, f.name, f.fromBat, f.kinds, st.blocks);
    }
  }

  lemma {:induction false} LinesStayWhenTidy(
      rules: Rules, st: State, origin: string, fromBat: bool, kinds: seq<Kind>, caller: seq<bool>)
    requires caller <= st.blocks && |caller| == st.floor
    requires caller == [] || TidyFrom(Counted(st, kinds), st.blocks, st.floor)
    requires AllTidy(InsideIn(rules, st, origin, fromBat, kinds))
    ensures FlagsStayIn(rules, st, origin, fromBat, kinds, caller)
    decreases |Unvisited(rules, st.env.visited)|, 2, |kinds|
  {
    if kinds != [] {
      var kind := kinds[0];
      var next := Step(rules, st, origin, fromBat, kind);
      UnvisitedShrinks(rules, st.env.visited, next.env.visited);
      assert forall e :: e in InsideAt(rules, st, origin, fromBat, kind) ==>
          e in InsideIn(rules, st, origin, fromBat, kinds);
      LineStaysWhenTidy(rules, st, origin, fromBat, kind);
      if caller != [] {
        TidyGoesOn(rules, st, origin, fromBat, kinds, caller);
      }
      LinesStayWhenTidy(rules, next, origin, fromBat, kinds[1..], caller);
    }
  }

  lemma {:induction false} LineStaysWhenTidy(rules: Rules, st: State, origin: string, fromBat: bool, kind: Kind)
    requires AllTidy(InsideAt(rules, st, origin, fromBat, kind))
    ensures FlagsStayAt(rules, st, origin, fromBat, kind)
    decreases |Unvisited(rules, st.env.visited)|, 1, 0
  {
    var effect := rules.effect(st.env, origin, fromBat, kind);
    if Acts(st, kind) && effect.Include? {
      FlagsStayWhenTidy(rules, st.(env := effect.env), effect.script);
    }
  }

  /** In particular when each of them counts from its first line and from every label its `goto`s name. */
  lemma {:induction false} FlagsStayWhenCounting(rules: Rules, st: State, script: string)
    requires forall e :: e in Inside(rules, st, script) ==> NeverUnderflows(e.body.kinds, 0) && JumpsCount(e.body.kinds)
    ensures FlagsStay(rules, st, script)
  {
    forall e | e in Inside(rules, st, script)
      ensures Tidy(e.body.kinds)
    {
      CountingIsTidy(e.body.kinds);
    }
    FlagsStayWhenTidy(rules, st, script);
  }
}
