/** The script machine: one line at a time over a flat stack of block flags. It is stated over
    any line semantics that never forgets a visited script and never finds one twice. */
module ScriptMachine {
  import opened Wrappers
  import opened ScriptText

  datatype Invocation = Invocation(
    origin: string,
    cwd: string,
    exec: string,
    args: string,
    files: seq<string>,
    unresolved: seq<string>,
    fromBat: bool)

  /** What a script can change besides its own control flow. */
  datatype Env = Env(
    vars: map<string, string>,
    visited: set<string>,
    out: seq<Invocation>,
    cwd: string,
    missing: seq<(string, string)>)

  const FRESH := Env(map[], {}, [], "", [])

  /** A line either finishes at once or runs another script. */
  datatype Effect = Done(env: Env) | Include(env: Env, script: string)

  /** The script a lookup finds, when it has not run yet. */
  datatype Found =
    | Nothing
    | Seen
    | Unreadable(key: string)
    | Body(key: string, name: string, fromBat: bool, kinds: seq<Kind>)

  /** A found script's key is one of `names` and has not been visited. */
  predicate FoundFresh(f: Found, env: Env, names: set<string>) {
    f.Unreadable? || f.Body? ==> f.key !in env.visited && f.key in names
  }

  /** A line semantics: the scripts there are, whether an `if` runs, what a plain line does, and
      how a script name is looked up. */
  datatype RawRules = RawRules(
    names: set<string>,
    holds: (Env, string) -> bool,
    effect: (Env, string, bool, Kind) -> Effect,
    lookup: (Env, string) -> Found)

  ghost predicate Lawful(rules: RawRules) {
    && (forall env, origin, fromBat, kind :: rules.effect(env, origin, fromBat, kind).env.visited == env.visited)
    && (forall env, script :: FoundFresh(rules.lookup(env, script), env, rules.names))
  }

  type Rules = rules: RawRules | Lawful(rules)
    ghost witness RawRules({}, (env, cond) => true, (env, origin, fromBat, kind) => Done(env), (env, script) => Nothing)

  /** `blocks` has one flag per open `if`; `floor` is the depth the running script started at. */
  datatype State = State(env: Env, blocks: seq<bool>, pending: Option<string>, floor: nat)

  function Truncated(blocks: seq<bool>, depth: nat): seq<bool> {
    if |blocks| <= depth then blocks else blocks[..depth]
  }

  predicate AllOpen(blocks: seq<bool>) { forall open :: open in blocks ==> open }

  function Toggled(blocks: seq<bool>): seq<bool> {
    if blocks == [] then blocks else blocks[|blocks| - 1 := !blocks[|blocks| - 1]]
  }

  function Popped(blocks: seq<bool>): seq<bool> {
    if blocks == [] then blocks else blocks[..|blocks| - 1]
  }

  /** Whether a `goto` is taken, `depth` `if`s deep: one that gives up inside an `if` is not. */
  predicate Jumps(target: string, depth: int) {
    target != "" && !(depth > 0 && target in TERMINAL_LABEL)
  }

  function Marked(env: Env, key: string): Env { env.(visited := env.visited + {key}) }

  /** Scripts that have not run. */
  function Unvisited(rules: Rules, visited: set<string>): set<string> { rules.names - visited }

  function Expand(rules: Rules, st: State, script: string): (r: State)
    ensures st.env.visited <= r.env.visited && r.floor == st.floor
    decreases |Unvisited(rules, st.env.visited)|, 0, 0
  {
    match rules.lookup(st.env, script)
    case Nothing => st
    case Seen => st
    case Unreadable(key) => st.(env := Marked(st.env, key))
    case Body(key, name, fromBat, kinds) =>
      MarkingShrinks(rules, st.env.visited, key);
      RunBody(rules, st.(env := Marked(st.env, key)), name, fromBat, kinds)
  }

  /** Run a script's lines from a block floor of its own, then put the caller's control back. */
  function RunBody(rules: Rules, st: State, name: string, fromBat: bool, kinds: seq<Kind>): (r: State)
    ensures st.env.visited <= r.env.visited && r.floor == st.floor
    decreases |Unvisited(rules, st.env.visited)|, 4, 0
  {
    var after := RunKinds(rules, State(st.env, st.blocks, None, |st.blocks|), name, fromBat, kinds);
    State(after.env, Truncated(after.blocks, |st.blocks|), st.pending, st.floor)
  }

  function RunKinds(rules: Rules, st: State, origin: string, fromBat: bool, kinds: seq<Kind>): (r: State)
    ensures st.env.visited <= r.env.visited && r.floor == st.floor
    decreases |Unvisited(rules, st.env.visited)|, 3, |kinds|
  {
    if kinds == [] then st
    else
      var next := Step(rules, st, origin, fromBat, kinds[0]);
      UnvisitedShrinks(rules, st.env.visited, next.env.visited);
      RunKinds(rules, next, origin, fromBat, kinds[1..])
  }

  function Step(rules: Rules, st: State, origin: string, fromBat: bool, kind: Kind): (r: State)
    ensures st.env.visited <= r.env.visited && r.floor == st.floor
    decreases |Unvisited(rules, st.env.visited)|, 2, 0
  {
    if kind.Label? then
      if st.pending == Some(kind.mark) then st.(pending := None) else st
    else if st.pending.Some? then st
    else if kind.EndIf? then st.(blocks := Popped(st.blocks))
    else if kind.Else? then st.(blocks := Toggled(st.blocks))
    else if kind.IfThen? then st.(blocks := st.blocks + [rules.holds(st.env, kind.cond)])
    else if AllOpen(st.blocks) then Act(rules, st, origin, fromBat, kind)
    else st
  }

  /** A line that is not block structure, in blocks that all run. */
  function Act(rules: Rules, st: State, origin: string, fromBat: bool, kind: Kind): (r: State)
    ensures st.env.visited <= r.env.visited && r.floor == st.floor
    decreases |Unvisited(rules, st.env.visited)|, 1, 1
  {
    if kind.Goto? then
      if Jumps(kind.target, |st.blocks| - st.floor) then
        st.(blocks := Truncated(st.blocks, st.floor), pending := Some(kind.target))
      else st
    else Apply(rules, st, rules.effect(st.env, origin, fromBat, kind))
  }

  function Apply(rules: Rules, st: State, effect: Effect): (r: State)
    requires effect.env.visited == st.env.visited
    ensures st.env.visited <= r.env.visited && r.floor == st.floor
    decreases |Unvisited(rules, st.env.visited)|, 1, 0
  {
    match effect
    case Done(env) => st.(env := env)
    case Include(env, script) => Expand(rules, st.(env := env), script)
  }

  /** Block structure: the lines that only move the flags. */
  predicate Structural(kind: Kind) { kind.EndIf? || kind.Else? || kind.IfThen? }

  lemma PlainStep(rules: Rules, st: State, origin: string, fromBat: bool, kind: Kind)
    requires st.pending.None? && AllOpen(st.blocks) && !Structural(kind) && !kind.Label? && !kind.Goto?
    ensures Step(rules, st, origin, fromBat, kind)
      == Apply(rules, st, rules.effect(st.env, origin, fromBat, kind))
  {
    assert Step(rules, st, origin, fromBat, kind) == Act(rules, st, origin, fromBat, kind);
  }

  lemma UnvisitedShrinks(rules: Rules, before: set<string>, after: set<string>)
    requires before <= after
    ensures |Unvisited(rules, after)| <= |Unvisited(rules, before)|
  {
    assert Unvisited(rules, before) == Unvisited(rules, after) + (Unvisited(rules, before) - Unvisited(rules, after));
  }

  lemma MarkingShrinks(rules: Rules, visited: set<string>, key: string)
    requires key in rules.names && key !in visited
    ensures |Unvisited(rules, visited + {key})| < |Unvisited(rules, visited)|
  {
    assert Unvisited(rules, visited + {key}) == Unvisited(rules, visited) - {key};
  }
}
