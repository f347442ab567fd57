/** Which recipe a model directory gets, the steps it becomes, and when its entry is reachable. */
module Recipe {
  import opened Sequences
  import opened Wrappers
  import opened Text
  import opened DirIndex
  import opened ScriptMachine
  import opened ScriptEffects
  import Expander

  // ----- One candidate -----

  datatype CommandKey = CommandKey(cwd: string, exec: string, args: string)

  function KeyOf(i: Invocation): CommandKey { CommandKey(Lower(i.cwd), Lower(i.exec), Lower(i.args)) }

  /** Items whose key has not been seen, in order. */
  function Unseen<T, K(==)>(items: seq<T>, key: T -> K, seen: set<K>): seq<T>
    decreases |items|
  {
    if items == [] then []
    else if key(items[0]) in seen then Unseen(items[1..], key, seen)
    else [items[0]] + Unseen(items[1..], key, seen + {key(items[0])})
  }

  function Dedup(invocations: seq<Invocation>): seq<Invocation> { Unseen(invocations, KeyOf, {}) }

  function ExpandAll(rules: Rules, st: State, scripts: seq<string>): State
    decreases |scripts|
  {
    if scripts == [] then st else ExpandAll(rules, Expand(rules, st, scripts[0]), scripts[1..])
  }

  /** The scripts of a set run one after the other, each from the state the one before it left. */
  lemma {:induction false} SetsRunInTurn(rules: Rules, st: State, scripts: seq<string>) returns (states: seq<State>)
    ensures |states| == |scripts| + 1 && states[0] == st
    ensures forall i :: 0 <= i < |scripts| ==> states[i + 1] == Expand(rules, states[i], scripts[i])
    ensures ExpandAll(rules, st, scripts) == states[|scripts|]
    decreases |scripts|
  {
    if scripts == [] {
      states := [st];
    } else {
      var rest := SetsRunInTurn(rules, Expand(rules, st, scripts[0]), scripts[1..]);
      states := [st] + rest;
      forall i | 0 < i < |scripts|
        ensures states[i + 1] == Expand(rules, states[i], scripts[i])
      {
        assert rest[i] == Expand(rules, rest[i - 1], scripts[1..][i - 1]);
      }
    }
  }

  /** The commands a set of scripts flattens to, each once. */
  function RunOf(d: Dir, scripts: seq<string>): seq<Invocation> {
    Dedup(ExpandAll(RulesOf(d), State(FRESH, [], None, 0), scripts).env.out)
  }

  method Run(d: Dir, scripts: seq<string>) returns (r: seq<Invocation>)
    ensures r == RunOf(d, scripts)
  {
    var expander := new Expander.Expander(d);
    ghost var rules := RulesOf(d);
    for i := 0 to |scripts|
      invariant expander.Valid() && expander.rules == rules
      invariant ExpandAll(rules, expander.Snapshot(), scripts[i..])
        == ExpandAll(rules, State(FRESH, [], None, 0), scripts)
    {
      assert scripts[i..][0] == scripts[i] && scripts[i..][1..] == scripts[i + 1..];
      expander.Expand(scripts[i]);
    }
    var seen: set<CommandKey> := {};
    var out := expander.out;
    r := [];
    for i := 0 to |out|
      invariant r + Unseen(out[i..], KeyOf, seen) == Dedup(out)
    {
      assert out[i..][1..] == out[i + 1..];
      if KeyOf(out[i]) !in seen {
        Shift(r, out[i], Unseen(out[i + 1..], KeyOf, seen + {KeyOf(out[i])}));
        seen := seen + {KeyOf(out[i])};
        r := r + [out[i]];
      }
    }
    assert r + [] == r;
  }

  lemma {:induction false} UnseenComeFrom<T, K>(items: seq<T>, key: T -> K, seen: set<K>)
    ensures forall e :: e in Unseen(items, key, seen) ==> e in items && key(e) !in seen
    decreases |items|
  {
    if items != [] {
      var first := key(items[0]);
      UnseenComeFrom(items[1..], key, if first in seen then seen else seen + {first});
    }
  }

  /** Its key is not in `seen` and no item before it has it. */
  ghost predicate FirstBy<T, K>(items: seq<T>, key: T -> K, seen: set<K>, k: nat)
    requires k < |items|
  {
    key(items[k]) !in seen && forall j :: 0 <= j < k ==> key(items[j]) != key(items[k])
  }

  lemma {:induction false} FirstByTail<T, K>(items: seq<T>, key: T -> K, seen: set<K>, k: nat)
    requires 0 < k < |items|
    ensures FirstBy(items, key, seen, k) <==> FirstBy(items[1..], key, seen + {key(items[0])}, k - 1)
  {
    assert items[1..][k - 1] == items[k] && forall j :: 0 <= j < k - 1 ==> items[1..][j] == items[j + 1];
    if FirstBy(items, key, seen, k) {
      assert key(items[0]) != key(items[k]);
    } else if key(items[k]) !in seen {
      var j :| 0 <= j < k && key(items[j]) == key(items[k]);
      assert j > 0 ==> items[1..][j - 1] == items[j];
    }
  }

  /** The unseen items are the first of each key. */
  lemma {:induction false} UnseenAreFirsts<T, K>(items: seq<T>, key: T -> K, seen: set<K>) returns (picks: seq<nat>)
    ensures Picks(picks, items, Unseen(items, key, seen))
    ensures forall k :: 0 <= k < |items| ==> (k in picks <==> FirstBy(items, key, seen, k))
    decreases |items|
  {
    picks := [];
    if items != [] {
      var now := seen + {key(items[0])};
      assert key(items[0]) in seen ==> now == seen;
      var rest := UnseenAreFirsts(items[1..], key, now);
      MovedHas(rest);
      if key(items[0]) in seen {
        picks := Moved(rest);
        PicksSkip(rest, items, Unseen(items[1..], key, now));
      } else {
        picks := [0] + Moved(rest);
        PicksTake(rest, items, Unseen(items[1..], key, now));
      }
      forall k | 0 < k < |items|
        ensures k in picks <==> FirstBy(items, key, seen, k)
      {
        FirstByTail(items, key, seen, k);
        assert k - 1 + 1 in picks <==> k - 1 in rest;
      }
    }
  }

  /** The same command in the same directory, up to ASCII case. */
  predicate SameCommand(i: Invocation, j: Invocation) {
    EqIgnoreCase(i.cwd, j.cwd) && EqIgnoreCase(i.exec, j.exec) && EqIgnoreCase(i.args, j.args)
  }

  /** Deduplication keeps, in order, exactly the commands that are the first of their kind. */
  lemma {:induction false} DedupKeepsFirsts(invocations: seq<Invocation>) returns (picks: seq<nat>)
    ensures Picks(picks, invocations, Dedup(invocations))
    ensures forall k :: 0 <= k < |invocations| ==>
      (k in picks <==> forall j :: 0 <= j < k ==> !SameCommand(invocations[j], invocations[k]))
  {
    var key := KeyOf;
    picks := UnseenAreFirsts(invocations, KeyOf, {});
    forall k | 0 <= k < |invocations|
      ensures FirstBy(invocations, KeyOf, {}, k) <==>
        forall j :: 0 <= j < k ==> !SameCommand(invocations[j], invocations[k])
    {
      assert forall j :: 0 <= j < k ==>
          (key(invocations[j]) == key(invocations[k]) <==> SameCommand(invocations[j], invocations[k]));
    }
  }

  // ----- Judging a candidate -----

  function Tool(d: Dir, i: Invocation): Option<FileMeta> { ResolveExecIn(d, i.cwd, i.exec, !i.fromBat) }

  predicate FilesPresent(d: Dir, cwd: string, files: seq<string>) { forall f :: f in files ==> GetIn(d, cwd, f).Some? }

  predicate Resolves(d: Dir, i: Invocation) {
    i.unresolved == [] && Tool(d, i).Some? && FilesPresent(d, i.cwd, i.files)
  }

  /** Every command resolves and every payload it names is there. */
  predicate FullyResolved(d: Dir, run: seq<Invocation>) { forall i :: i in run ==> Resolves(d, i) }

  predicate AnyExecResolves(d: Dir, run: seq<Invocation>) { exists i :: i in run && Tool(d, i).Some? }

  // ----- Choosing -----

  type Tier = seq<seq<string>>

  /** The non-empty runs of a tier's alternatives, in order. */
  function RunsOf(d: Dir, tier: Tier): seq<seq<Invocation>> {
    if tier == [] then []
    else (if RunOf(d, tier[0]) != [] then [RunOf(d, tier[0])] else []) + RunsOf(d, tier[1..])
  }

  /** Some alternative of the tier launches a tool the folder has. */
  predicate HasTool(d: Dir, runs: seq<seq<Invocation>>) { exists r :: r in runs && AnyExecResolves(d, r) }

  predicate HasClean(d: Dir, runs: seq<seq<Invocation>>) { exists r :: r in runs && FullyResolved(d, r) }

  ghost predicate FirstClean(d: Dir, runs: seq<seq<Invocation>>, r: seq<Invocation>) {
    exists k :: 0 <= k < |runs| && runs[k] == r && FullyResolved(d, r)
      && forall j :: 0 <= j < k ==> !FullyResolved(d, runs[j])
  }

  ghost predicate FirstWithTool(d: Dir, runs: seq<seq<Invocation>>, r: seq<Invocation>) {
    exists k :: 0 <= k < |runs| && runs[k] == r && AnyExecResolves(d, r)
      && forall j :: 0 <= j < k ==> !AnyExecResolves(d, runs[j])
  }

  /** The runs of each tier. */
  type Runs = Tier -> seq<seq<Invocation>>

  ghost predicate RunsAgree(d: Dir, runsOf: Runs, tier: Tier) { runsOf(tier) == RunsOf(d, tier) }

  /** Some alternative of the tier launches a tool the folder has. */
  predicate TierHasTool(d: Dir, runsOf: Runs, tier: Tier) { HasTool(d, runsOf(tier)) }

  predicate TierHasRun(d: Dir, runsOf: Runs, tier: Tier) { runsOf(tier) != [] }

  /** The tier's first complete alternative, or else its first with a tool. */
  ghost predicate TierPicks(d: Dir, runsOf: Runs, tier: Tier, r: seq<Invocation>) {
    var runs := runsOf(tier);
    HasTool(d, runs) && if HasClean(d, runs) then FirstClean(d, runs, r) else FirstWithTool(d, runs, r)
  }

  ghost predicate TierStartsWith(d: Dir, runsOf: Runs, tier: Tier, r: seq<Invocation>) {
    r != [] && runsOf(tier) != [] && runsOf(tier)[0] == r
  }

  ghost predicate NoToolBefore(d: Dir, runsOf: Runs, tiers: seq<Tier>, k: nat) {
    forall j :: 0 <= j < k && j < |tiers| ==> !TierHasTool(d, runsOf, tiers[j])
  }

  ghost predicate NoRunBefore(d: Dir, runsOf: Runs, tiers: seq<Tier>, k: nat) {
    forall j :: 0 <= j < k && j < |tiers| ==> !TierHasRun(d, runsOf, tiers[j])
  }

  ghost predicate ChosenAt(d: Dir, runsOf: Runs, tiers: seq<Tier>, k: nat, r: seq<Invocation>) {
    k < |tiers| && NoToolBefore(d, runsOf, tiers, k) && TierPicks(d, runsOf, tiers[k], r)
  }

  ghost predicate FallsBackTo(d: Dir, runsOf: Runs, tiers: seq<Tier>, k: nat, r: seq<Invocation>) {
    k < |tiers| && NoRunBefore(d, runsOf, tiers, k) && TierStartsWith(d, runsOf, tiers[k], r)
  }

  /** The first tier with a resolvable tool decides; without one the first run there is stands,
      and failing that the menu. */
  ghost predicate IsChoice(d: Dir, runsOf: Runs, tiers: seq<Tier>, menu: seq<Invocation>, r: seq<Invocation>) {
    || (exists k: nat :: ChosenAt(d, runsOf, tiers, k, r))
    || (NoToolBefore(d, runsOf, tiers, |tiers|) && exists k: nat :: FallsBackTo(d, runsOf, tiers, k, r))
    || (NoRunBefore(d, runsOf, tiers, |tiers|) && r == menu)
  }

  lemma {:induction false} RunsAreNonEmpty(d: Dir, tier: Tier)
    ensures forall r :: r in RunsOf(d, tier) ==> r != []
    decreases |tier|
  {
    if tier != [] {
      RunsAreNonEmpty(d, tier[1..]);
    }
  }

  lemma CleanHasTool(d: Dir, run: seq<Invocation>)
    requires FullyResolved(d, run) && run != []
    ensures AnyExecResolves(d, run)
  {
    assert Resolves(d, run[0]);
  }

  method TierRuns(d: Dir, tier: Tier) returns (runs: seq<seq<Invocation>>)
    ensures runs == RunsOf(d, tier)
  {
    runs := [];
    for i := 0 to |tier|
      invariant runs + RunsOf(d, tier[i..]) == RunsOf(d, tier)
    {
      assert tier[i..][0] == tier[i] && tier[i..][1..] == tier[i + 1..];
      var r := Run(d, tier[i]);
      if r != [] {
        Shift(runs, r, RunsOf(d, tier[i + 1..]));
        runs := runs + [r];
      } else {
        assert [] + RunsOf(d, tier[i + 1..]) == RunsOf(d, tier[i + 1..]);
      }
    }
    assert runs + [] == runs;
  }

  method FindClean(d: Dir, runs: seq<seq<Invocation>>) returns (r: Option<seq<Invocation>>)
    ensures r.None? ==> !HasClean(d, runs)
    ensures r.Some? ==> FirstClean(d, runs, r.value)
  {
    for i := 0 to |runs|
      invariant forall j :: 0 <= j < i ==> !FullyResolved(d, runs[j])
    {
      if FullyResolved(d, runs[i]) {
        return Some(runs[i]);
      }
    }
    return None;
  }

  method FindWithTool(d: Dir, runs: seq<seq<Invocation>>) returns (r: Option<seq<Invocation>>)
    ensures r.None? ==> !HasTool(d, runs)
    ensures r.Some? ==> FirstWithTool(d, runs, r.value)
  {
    for i := 0 to |runs|
      invariant forall j :: 0 <= j < i ==> !AnyExecResolves(d, runs[j])
    {
      if AnyExecResolves(d, runs[i]) {
        return Some(runs[i]);
      }
    }
    return None;
  }

  method TryTier(
    d: Dir, ghost runsOf: Runs, tier: Tier) returns (picked: Option<seq<Invocation>>, first: seq<Invocation>)
    requires RunsAgree(d, runsOf, tier)
    ensures picked.None? ==> !TierHasTool(d, runsOf, tier)
    ensures picked.Some? ==> TierPicks(d, runsOf, tier, picked.value)
    ensures if first == [] then !TierHasRun(d, runsOf, tier) else TierStartsWith(d, runsOf, tier, first)
  {
    var runs := TierRuns(d, tier);
    RunsAreNonEmpty(d, tier);
    picked, first := Pick(d, runs);
  }

  method Pick(d: Dir, runs: seq<seq<Invocation>>) returns (picked: Option<seq<Invocation>>, first: seq<Invocation>)
    requires forall r :: r in runs ==> r != []
    ensures picked.None? ==> !HasTool(d, runs)
    ensures picked.Some? ==> HasTool(d, runs)
    ensures picked.Some? ==>
      if HasClean(d, runs) then FirstClean(d, runs, picked.value) else FirstWithTool(d, runs, picked.value)
    ensures if first == [] then runs == [] else runs != [] && runs[0] == first
  {
    first := [];
    if runs != [] {
      first := runs[0];
      assert first in runs;
    }
    picked := FindClean(d, runs);
    if picked.Some? {
      assert picked.value in runs;
      CleanHasTool(d, picked.value);
      return;
    }
    picked := FindWithTool(d, runs);
  }

  /** Runs the tiers in priority order; `menu` is what following a menu launcher would yield. */
  method ChooseRecipe(d: Dir, tiers: seq<Tier>, menu: seq<Invocation>) returns (r: seq<Invocation>)
    ensures IsChoice(d, tier => RunsOf(d, tier), tiers, menu, r)
  {
    ghost var runsOf: Runs := tier => RunsOf(d, tier);
    forall tier
      ensures RunsAgree(d, runsOf, tier)
    {
    }
    r := ChooseAmong(d, runsOf, tiers, menu);
  }

  /** Nothing among the first `i` tiers has a tool, and `fallback` is their first run, if any. */
  ghost predicate NothingYet(d: Dir, runsOf: Runs, tiers: seq<Tier>, i: nat, fallback: seq<Invocation>) {
    && NoToolBefore(d, runsOf, tiers, i)
    && (fallback == [] ==> NoRunBefore(d, runsOf, tiers, i))
    && (fallback != [] ==> exists k: nat :: FallsBackTo(d, runsOf, tiers, k, fallback))
  }

  lemma {:induction false} StillNothing(
    d: Dir, runsOf: Runs, tiers: seq<Tier>, i: nat, fallback: seq<Invocation>, first: seq<Invocation>)
    requires i < |tiers| && NothingYet(d, runsOf, tiers, i, fallback) && !TierHasTool(d, runsOf, tiers[i])
    requires if first == [] then !TierHasRun(d, runsOf, tiers[i]) else TierStartsWith(d, runsOf, tiers[i], first)
    ensures NothingYet(d, runsOf, tiers, i + 1, if fallback == [] then first else fallback)
  {
    if fallback == [] && first != [] {
      assert FallsBackTo(d, runsOf, tiers, i, first);
    }
  }

  method ChooseAmong(d: Dir, ghost runsOf: Runs, tiers: seq<Tier>, menu: seq<Invocation>) returns (r: seq<Invocation>)
    requires forall tier :: RunsAgree(d, runsOf, tier)
    ensures IsChoice(d, runsOf, tiers, menu, r)
  {
    var fallback: seq<Invocation> := [];
    for i := 0 to |tiers|
      invariant NothingYet(d, runsOf, tiers, i, fallback)
    {
      assert RunsAgree(d, runsOf, tiers[i]);
      var picked, first := TryTier(d, runsOf, tiers[i]);
      if picked.Some? {
        assert ChosenAt(d, runsOf, tiers, i, picked.value);
        return picked.value;
      }
      StillNothing(d, runsOf, tiers, i, fallback, first);
      if fallback == [] {
        fallback := first;
      }
    }
    if fallback != [] {
      return fallback;
    }
    return menu;
  }

  lemma {:induction false} SameTier(
    d: Dir, runsOf: Runs, tiers: seq<Tier>, j: nat, k: nat, q: seq<Invocation>, r: seq<Invocation>)
    requires ChosenAt(d, runsOf, tiers, j, q) && ChosenAt(d, runsOf, tiers, k, r)
    ensures q == r
  {
    assert TierHasTool(d, runsOf, tiers[j]) && TierHasTool(d, runsOf, tiers[k]);
  }

  lemma {:induction false} ChosenDecides(
    d: Dir, runsOf: Runs, tiers: seq<Tier>, menu: seq<Invocation>, k: nat, q: seq<Invocation>, r: seq<Invocation>)
    requires ChosenAt(d, runsOf, tiers, k, q) && IsChoice(d, runsOf, tiers, menu, r)
    ensures q == r
  {
    assert TierHasTool(d, runsOf, tiers[k]) && TierHasRun(d, runsOf, tiers[k]);
    if j: nat :| ChosenAt(d, runsOf, tiers, j, r) {
      SameTier(d, runsOf, tiers, k, j, q, r);
    }
  }

  lemma {:induction false} FallbackDecides(
    d: Dir, runsOf: Runs, tiers: seq<Tier>, menu: seq<Invocation>, k: nat, q: seq<Invocation>, r: seq<Invocation>)
    requires FallsBackTo(d, runsOf, tiers, k, q) && NoToolBefore(d, runsOf, tiers, |tiers|)
    requires IsChoice(d, runsOf, tiers, menu, r) && forall j: nat :: !ChosenAt(d, runsOf, tiers, j, r)
    ensures q == r
  {
    assert TierHasRun(d, runsOf, tiers[k]);
    if j: nat :| FallsBackTo(d, runsOf, tiers, j, r) {
      assert TierHasRun(d, runsOf, tiers[j]);
    }
  }

  /** The rules leave one choice. */
  lemma {:induction false} ChoiceIsUnique(
    d: Dir, runsOf: Runs, tiers: seq<Tier>, menu: seq<Invocation>, q: seq<Invocation>, r: seq<Invocation>)
    requires IsChoice(d, runsOf, tiers, menu, q) && IsChoice(d, runsOf, tiers, menu, r)
    ensures q == r
  {
    if k: nat :| ChosenAt(d, runsOf, tiers, k, q) {
      ChosenDecides(d, runsOf, tiers, menu, k, q, r);
    } else if k: nat :| ChosenAt(d, runsOf, tiers, k, r) {
      ChosenDecides(d, runsOf, tiers, menu, k, r, q);
    } else if k: nat :| FallsBackTo(d, runsOf, tiers, k, q) && NoToolBefore(d, runsOf, tiers, |tiers|) {
      FallbackDecides(d, runsOf, tiers, menu, k, q, r);
    } else if k: nat :| FallsBackTo(d, runsOf, tiers, k, r) && NoToolBefore(d, runsOf, tiers, |tiers|) {
      FallbackDecides(d, runsOf, tiers, menu, k, r, q);
    }
  }
}
