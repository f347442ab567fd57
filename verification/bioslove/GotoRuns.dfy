/** When a jump is taken, and that the jumps not taken might as well not be written. */
module GotoRuns {
  import opened Wrappers
  import opened ScriptText
  import opened ScriptMachine

  /** Inside an `if` of its own script a `goto` to one of the six ends does nothing, whatever runs. */
  lemma EndingGotoIsNoLine(rules: Rules, st: State, origin: string, fromBat: bool, target: string)
    requires target in {"end", "exit", "eof", "quit", "done", "lerror"} && |st.blocks| > st.floor
    ensures Step(rules, st, origin, fromBat, Goto(target)) == st
  {
  }

  /** Any other label, or any label outside the script's own `if`s, cuts the blocks back to its caller's and
      is what the lines to come are searched for. */
  lemma OtherGotoJumps(rules: Rules, st: State, origin: string, fromBat: bool, target: string)
    requires st.pending.None? && st.floor <= |st.blocks| && forall open :: open in st.blocks ==> open
    requires target != ""
    requires target !in {"end", "exit", "eof", "quit", "done", "lerror"} || |st.blocks| == st.floor
    ensures Step(rules, st, origin, fromBat, Goto(target))
      == State(st.env, st.blocks[..st.floor], Some(target), st.floor)
  {
    assert st.blocks[..|st.blocks|] == st.blocks;
  }

  /** A `goto` without a label does nothing, and neither does one behind a jump or in a block that does not run. */
  lemma IdleGotoIsNoLine(rules: Rules, st: State, origin: string, fromBat: bool, target: string)
    requires target == "" || st.pending.Some? || exists open :: open in st.blocks && !open
    ensures Step(rules, st, origin, fromBat, Goto(target)) == st
  {
  }

  lemma {:induction false} RunKindsConcat(
    rules: Rules, st: State, origin: string, fromBat: bool, a: seq<Kind>, b: seq<Kind>)
    ensures RunKinds(rules, st, origin, fromBat, a + b)
      == RunKinds(rules, RunKinds(rules, st, origin, fromBat, a), origin, fromBat, b)
    decreases |a|
  {
    if a == [] {
      assert a + b == b;
    } else {
      assert (a + b)[0] == a[0] && (a + b)[1..] == a[1..] + b;
      RunKindsConcat(rules, Step(rules, st, origin, fromBat, a[0]), origin, fromBat, a[1..], b);
    }
  }

  /** A jump that is not taken: to one of the six ends from inside an `if`, to no label, or from lines that
      do not run. */
  predicate StaysPut(st: State, target: string) {
    || (target in {"end", "exit", "eof", "quit", "done", "lerror"} && |st.blocks| > st.floor)
    || target == "" || st.pending.Some? || exists open :: open in st.blocks && !open
  }

  /** So a script runs as if that line were not in it. */
  lemma {:induction false} UntakenGotoCanBeDeleted(
    rules: Rules, st: State, origin: string, fromBat: bool, before: seq<Kind>, target: string, after: seq<Kind>)
    requires StaysPut(RunKinds(rules, st, origin, fromBat, before), target)
    ensures RunKinds(rules, st, origin, fromBat, before + [Goto(target)] + after)
      == RunKinds(rules, st, origin, fromBat, before + after)
  {
    var here := RunKinds(rules, st, origin, fromBat, before);
    assert before + [Goto(target)] + after == before + ([Goto(target)] + after);
    assert ([Goto(target)] + after)[1..] == after;
    RunKindsConcat(rules, st, origin, fromBat, before, [Goto(target)] + after);
    RunKindsConcat(rules, st, origin, fromBat, before, after);
    assert Step(rules, here, origin, fromBat, Goto(target)) == here;
  }

  /** What follows the first line with the label, which ends the search; nothing when there is none. */
  lemma {:induction false} TakenGotoSearchesForward(
    rules: Rules, st: State, origin: string, fromBat: bool, target: string, skipped: seq<Kind>, after: seq<Kind>)
    requires st.pending.None? && st.floor <= |st.blocks| && !StaysPut(st, target) && Label(target) !in skipped
    ensures var there := State(st.env, st.blocks[..st.floor], None, st.floor);
      && RunKinds(rules, st, origin, fromBat, [Goto(target)] + skipped + [Label(target)] + after)
        == RunKinds(rules, there, origin, fromBat, after)
      && RunKinds(rules, st, origin, fromBat, [Goto(target)] + skipped) == there.(pending := Some(target))
  {
    var jumped := State(st.env, st.blocks[..st.floor], Some(target), st.floor);
    OtherGotoJumps(rules, st, origin, fromBat, target);
    var rest := [Label(target)] + after;
    assert [Goto(target)] + skipped + [Label(target)] + after == [Goto(target)] + (skipped + rest);
    assert ([Goto(target)] + (skipped + rest))[1..] == skipped + rest;
    assert ([Goto(target)] + skipped)[1..] == skipped;
    RunKindsConcat(rules, jumped, origin, fromBat, skipped, rest);
    SkippedLines(rules, jumped, origin, fromBat, skipped);
    assert rest[1..] == after;
  }

  lemma {:induction false} SkippedLines(
    rules: Rules, st: State, origin: string, fromBat: bool, skipped: seq<Kind>)
    requires st.pending.Some? && Label(st.pending.value) !in skipped
    ensures RunKinds(rules, st, origin, fromBat, skipped) == st
    decreases |skipped|
  {
    if skipped != [] {
      assert skipped[0] in skipped;
      SkippedLines(rules, st, origin, fromBat, skipped[1..]);
    }
  }
}
