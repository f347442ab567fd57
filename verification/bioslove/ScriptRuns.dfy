/** What every run of a script keeps, whatever scripts include whatever others. */
module ScriptRuns {
  import opened Wrappers
  import opened ScriptText
  import opened ScriptMachine

  // ----- Control flow seen by the caller -----

  /** A script's jumps end with it: an unmatched `goto` in a callee skips no line of its caller,
      and the caller's block floor is back in place, for any scripts whatever. */
  lemma JumpsStayInside(rules: Rules, st: State, script: string)
    ensures var r := Expand(rules, st, script); r.pending == st.pending && r.floor == st.floor
  {
  }

  /** Where a found body starts: marked, with a floor above all of its caller's flags. */
  function Entered(st: State, f: Found): State
    requires f.Body?
  {
    State(Marked(st.env, f.key), st.blocks, None, |st.blocks|)
  }

  /** A callee that is one stray `endif` closes its caller's innermost block. */
  lemma StrayEndIfClosesCallersBlock(rules: Rules, st: State, script: string)
    requires rules.lookup(st.env, script).Body? && rules.lookup(st.env, script).kinds == [EndIf] && st.blocks != []
    ensures Expand(rules, st, script).blocks == st.blocks[..|st.blocks| - 1]
  {
    var f := rules.lookup(st.env, script);
    var inner := Entered(st, f);
    var next := Step(rules, inner, f.name, f.fromBat, EndIf);
    assert [EndIf][1..] == [];
    assert RunKinds(rules, next, f.name, f.fromBat, []) == next;
    assert RunKinds(rules, inner, f.name, f.fromBat, [EndIf]) == next;
  }

  /** The three things a line can do to the environment: nothing, its own effect, or a script's. */
  lemma StepEnv(rules: Rules, st: State, origin: string, fromBat: bool, kind: Kind)
    ensures var e := rules.effect(st.env, origin, fromBat, kind);
      var next := Step(rules, st, origin, fromBat, kind).env;
      || next == st.env
      || (e.Done? && next == e.env)
      || (e.Include? && next == Expand(rules, st.(env := e.env), e.script).env)
  {
    if st.pending.None? && AllOpen(st.blocks) && !Structural(kind) && !kind.Label? && !kind.Goto? {
      PlainStep(rules, st, origin, fromBat, kind);
    }
  }

  // ----- Invariants of the environment -----

  /** No single line, and no marking of a script as visited, breaks `inv`. */
  ghost predicate Preserved(rules: Rules, inv: Env -> bool) {
    && (forall env, origin, fromBat, kind :: inv(env) ==> inv(rules.effect(env, origin, fromBat, kind).env))
    && (forall env, key :: inv(env) ==> inv(Marked(env, key)))
  }

  lemma {:induction false} ScriptKeeps(rules: Rules, inv: Env -> bool, st: State, script: string)
    requires Preserved(rules, inv) && inv(st.env)
    ensures inv(Expand(rules, st, script).env)
    decreases |Unvisited(rules, st.env.visited)|, 0, 0
  {
    match rules.lookup(st.env, script)
    case Nothing =>
    case Seen =>
    case Unreadable(_) =>
    case Body(key, name, fromBat, kinds) =>
      MarkingShrinks(rules, st.env.visited, key);
      LinesKeep(rules, inv, State(Marked(st.env, key), st.blocks, None, |st.blocks|), name, fromBat, kinds);
  }

  lemma {:induction false} LinesKeep(
      rules: Rules, inv: Env -> bool, st: State, origin: string, fromBat: bool, kinds: seq<Kind>)
    requires Preserved(rules, inv) && inv(st.env)
    ensures inv(RunKinds(rules, st, origin, fromBat, kinds).env)
    decreases |Unvisited(rules, st.env.visited)|, 1, |kinds|
  {
    if kinds != [] {
      var next := Step(rules, st, origin, fromBat, kinds[0]);
      var effect := rules.effect(st.env, origin, fromBat, kinds[0]);
      StepEnv(rules, st, origin, fromBat, kinds[0]);
      assert inv(effect.env);
      if effect.Include? {
        ScriptKeeps(rules, inv, st.(env := effect.env), effect.script);
      }
      UnvisitedShrinks(rules, st.env.visited, next.env.visited);
      LinesKeep(rules, inv, next, origin, fromBat, kinds[1..]);
    }
  }

  // ----- How much a run can do -----

  ghost function Sum(weight: string -> nat, s: set<string>): nat {
    if s == {} then 0
    else
      var x :| x in s;
      weight(x) + Sum(weight, s - {x})
  }

  lemma {:induction false} SumAdds(weight: string -> nat, s: set<string>, x: string)
    requires x !in s
    ensures Sum(weight, s + {x}) == weight(x) + Sum(weight, s)
    decreases |s|
  {
    var all := s + {x};
    var y :| y in all && Sum(weight, all) == weight(y) + Sum(weight, all - {y});
    if y == x {
      assert all - {y} == s;
    } else {
      assert all - {y} == (s - {y}) + {x};
      SumAdds(weight, s - {y}, x);
      assert (s - {y}) + {y} == s;
      SumAdds(weight, s - {y}, y);
    }
  }

  /** A line emits at most one invocation, and none when it runs a script; `weight` bounds the
      lines of each script. */
  ghost predicate Metered(rules: Rules, weight: string -> nat) {
    && (forall env, origin, fromBat, kind ::
          var e := rules.effect(env, origin, fromBat, kind);
          |e.env.out| <= |env.out| + if e.Done? then 1 else 0)
    && (forall env, script ::
          var f := rules.lookup(env, script); f.Body? ==> |f.kinds| <= weight(f.key))
  }

  /** A run emits at most one invocation per line of the scripts it newly visited. */
  lemma {:induction false} InvocationsWithinLines(rules: Rules, weight: string -> nat, st: State, script: string)
    requires Metered(rules, weight)
    ensures var r := Expand(rules, st, script);
      |r.env.out| + Sum(weight, st.env.visited) <= |st.env.out| + Sum(weight, r.env.visited)
    decreases |Unvisited(rules, st.env.visited)|, 0, 0
  {
    match rules.lookup(st.env, script)
    case Nothing =>
    case Seen =>
    case Unreadable(key) => SumAdds(weight, st.env.visited, key);
    case Body(key, name, fromBat, kinds) =>
      MarkingShrinks(rules, st.env.visited, key);
      SumAdds(weight, st.env.visited, key);
      var inner := State(Marked(st.env, key), st.blocks, None, |st.blocks|);
      LinesWithinLines(rules, weight, inner, name, fromBat, kinds);
  }

  lemma {:induction false} LinesWithinLines(
      rules: Rules, weight: string -> nat, st: State, origin: string, fromBat: bool, kinds: seq<Kind>)
    requires Metered(rules, weight)
    ensures var r := RunKinds(rules, st, origin, fromBat, kinds);
      |r.env.out| + Sum(weight, st.env.visited) <= |st.env.out| + Sum(weight, r.env.visited) + |kinds|
    decreases |Unvisited(rules, st.env.visited)|, 1, |kinds|
  {
    if kinds != [] {
      var next := Step(rules, st, origin, fromBat, kinds[0]);
      var effect := rules.effect(st.env, origin, fromBat, kinds[0]);
      StepEnv(rules, st, origin, fromBat, kinds[0]);
      if effect.Include? {
        InvocationsWithinLines(rules, weight, st.(env := effect.env), effect.script);
      }
      assert |effect.env.out| <= |st.env.out| + if effect.Done? then 1 else 0;
      UnvisitedShrinks(rules, st.env.visited, next.env.visited);
      LinesWithinLines(rules, weight, next, origin, fromBat, kinds[1..]);
    }
  }
}
