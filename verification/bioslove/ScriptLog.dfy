/** Which scripts a run reads lines of, and that it reads none of them twice. */
module ScriptLog {
  import opened ScriptText
  import opened ScriptMachine
  import opened ScriptRuns

  /** The scripts whose lines are run, in the order they are entered. */
  function Entries(rules: Rules, st: State, script: string): (r: seq<Found>)
    ensures forall f :: f in r ==> f.Body?
    decreases |Unvisited(rules, st.env.visited)|, 0, 0
  {
    var f := rules.lookup(st.env, script);
    match f
    case Body(key, name, fromBat, kinds) =>
      MarkingShrinks(rules, st.env.visited, key);
      [f] + EntriesIn(rules, Entered(st, f), name, fromBat, kinds)
    case _ => []
  }

  function EntriesIn(rules: Rules, st: State, origin: string, fromBat: bool, kinds: seq<Kind>): (r: seq<Found>)
    ensures forall f :: f in r ==> f.Body?
    decreases |Unvisited(rules, st.env.visited)|, 2, |kinds|
  {
    if kinds == [] then []
    else
      var next := Step(rules, st, origin, fromBat, kinds[0]);
      UnvisitedShrinks(rules, st.env.visited, next.env.visited);
      EntriesAt(rules, st, origin, fromBat, kinds[0]) + EntriesIn(rules, next, origin, fromBat, kinds[1..])
  }

  /** The line acts: no jump is pending, every open block runs, and it is no block line or jump itself. */
  predicate Acts(st: State, kind: Kind) {
    st.pending.None? && AllOpen(st.blocks) && !Structural(kind) && !kind.Label? && !kind.Goto?
  }

  function EntriesAt(rules: Rules, st: State, origin: string, fromBat: bool, kind: Kind): (r: seq<Found>)
    ensures forall f :: f in r ==> f.Body?
    decreases |Unvisited(rules, st.env.visited)|, 1, 0
  {
    var effect := rules.effect(st.env, origin, fromBat, kind);
    if Acts(st, kind) && effect.Include? then Entries(rules, st.(env := effect.env), effect.script) else []
  }

  /** The log has each script once, and only scripts visited between `before` and `after`. */
  ghost predicate OnceEach(log: seq<Found>, before: set<string>, after: set<string>)
    requires forall f :: f in log ==> f.Body?
  {
    && (forall i, j :: 0 <= i < j < |log| ==> log[i].key != log[j].key)
    && (forall f :: f in log ==> f.key !in before && f.key in after)
  }

  lemma {:induction false} OnceThenOnce(
      a: seq<Found>, b: seq<Found>, before: set<string>, between: set<string>, after: set<string>)
    requires (forall f :: f in a ==> f.Body?) && forall f :: f in b ==> f.Body?
    requires OnceEach(a, before, between) && OnceEach(b, between, after) && before <= between <= after
    ensures OnceEach(a + b, before, after)
  {
    var log := a + b;
    forall i, j | 0 <= i < j < |log|
      ensures log[i].key != log[j].key
    {
      if i < |a| <= j {
        assert a[i] in a && b[j - |a|] in b;
      }
    }
  }

  lemma {:induction false} OneEntry(f: Found, before: set<string>)
    requires f.Body? && f.key !in before
    ensures OnceEach([f], before, before + {f.key})
  {
  }

  /** Whatever includes whatever else, cycles included, no run enters a script twice, nor one that had
      been visited before it. */
  lemma {:induction false} NoScriptRunsTwice(rules: Rules, st: State, script: string)
    ensures OnceEach(Entries(rules, st, script), st.env.visited, Expand(rules, st, script).env.visited)
    decreases |Unvisited(rules, st.env.visited)|, 0, 0
  {
    var f := rules.lookup(st.env, script);
    match f
    case Body(key, name, fromBat, kinds) =>
      var inner := Entered(st, f);
      MarkingShrinks(rules, st.env.visited, key);
      NoLineRunsTwice(rules, inner, name, fromBat, kinds);
      OneEntry(f, st.env.visited);
      OnceThenOnce([f], EntriesIn(rules, inner, name, fromBat, kinds), st.env.visited, inner.env.visited,
        RunKinds(rules, inner, name, fromBat, kinds).env.visited);
    case _ =>
  }

  lemma {:induction false} NoLineRunsTwice(
      rules: Rules, st: State, origin: string, fromBat: bool, kinds: seq<Kind>)
    ensures OnceEach(EntriesIn(rules, st, origin, fromBat, kinds), st.env.visited,
      RunKinds(rules, st, origin, fromBat, kinds).env.visited)
    decreases |Unvisited(rules, st.env.visited)|, 2, |kinds|
  {
    if kinds != [] {
      var next := Step(rules, st, origin, fromBat, kinds[0]);
      var end := RunKinds(rules, next, origin, fromBat, kinds[1..]);
      UnvisitedShrinks(rules, st.env.visited, next.env.visited);
      OneLine(rules, st, origin, fromBat, kinds[0]);
      NoLineRunsTwice(rules, next, origin, fromBat, kinds[1..]);
      OnceThenOnce(EntriesAt(rules, st, origin, fromBat, kinds[0]), EntriesIn(rules, next, origin, fromBat, kinds[1..]),
        st.env.visited, next.env.visited, end.env.visited);
    }
  }

  lemma {:induction false} OneLine(rules: Rules, st: State, origin: string, fromBat: bool, kind: Kind)
    ensures OnceEach(EntriesAt(rules, st, origin, fromBat, kind), st.env.visited,
      Step(rules, st, origin, fromBat, kind).env.visited)
    decreases |Unvisited(rules, st.env.visited)|, 1, 0
  {
    var effect := rules.effect(st.env, origin, fromBat, kind);
    if Acts(st, kind) && effect.Include? {
      PlainStep(rules, st, origin, fromBat, kind);
      NoScriptRunsTwice(rules, st.(env := effect.env), effect.script);
    }
  }
}
