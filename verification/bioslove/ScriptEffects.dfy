/** What one script line does in a directory, and how scripts are found there. */
module ScriptEffects {
  import opened Text
  import opened DirIndex
  import opened ScriptText
  import opened Substitution
  import opened ScriptMachine

  /** Descend one path component at a time; a component the folder lacks ends the walk. */
  function Walk(d: Dir, cwd: string, parts: seq<string>): string
    decreases |parts|
  {
    if parts == [] then cwd
    else if parts[0] == "" || parts[0] == "." then Walk(d, cwd, parts[1..])
    else if parts[0] == ".." then Walk(d, Parent(cwd), parts[1..])
    else
      match SubdirIn(d, cwd, parts[0])
      case None => cwd
      case Some(path) => Walk(d, path, parts[1..])
  }

  function CdTarget(vars: Vars, path: string): string {
    ReplaceChar(TrimBy(Trim(Expanded(vars, path).0), c => c == '"'), '\\', '/')
  }

  function ChangedDir(d: Dir, env: Env, path: string): Env {
    var target := CdTarget(env.vars, path);
    var from := if target != "" && target[0] == '/' then "" else env.cwd;
    env.(cwd := Walk(d, from, SplitOn(target, '/')))
  }

  /** Whether the block an `if` opens runs; a runtime condition always does. */
  function Holds(d: Dir, env: Env, cond: string): bool {
    var cond := Trim(Expanded(env.vars, cond).0);
    var inner := StripCi(cond, "not ");
    var negated := inner.Some?;
    var body := if negated then inner.value else cond;
    match StripCi(body, "exist ")
    case None => true
    case Some(file) =>
      var name := TrimBy(Trim(file), c => c == '"');
      if IsRuntimeFile(name) then !negated else GetIn(d, env.cwd, name).Some? != negated
  }

  predicate LooksLikePayload(d: Dir, cwd: string, arg: string) {
    && Utf8Len(arg) >= 4
    && arg[0] !in {'/', '-', '<', '>', '$', '%'}
    && !IsRuntimeFile(arg)
    && (GetIn(d, cwd, arg).Some?
        || match RFind(arg, '.')
           case None => false
           case Some(i) => i > 0 && 1 <= Utf8Len(arg[i + 1..]) <= 4 && exists c :: c in arg && IsAsciiAlpha(c))
  }

  function Payloads(d: Dir, cwd: string, args: seq<string>): seq<string> {
    if args == [] then []
    else (if LooksLikePayload(d, cwd, args[0]) then [args[0]] else []) + Payloads(d, cwd, args[1..])
  }

  predicate IsScript(exec: string) {
    EndsWith(Lower(exec), ".nsh") || EndsWith(Lower(exec), ".bat")
  }

  function NoteMissing(d: Dir, env: Env, origin: string, exec: string): Env {
    if GetIn(d, env.cwd, exec).None? then env.(missing := env.missing + [(origin, exec)]) else env
  }

  function CommandEffect(d: Dir, env: Env, origin: string, fromBat: bool, line: string): (r: Effect)
    ensures r.env.visited == env.visited
  {
    var (expanded, unresolved) := Expanded(env.vars, line);
    var parts := Arguments(expanded);
    if parts == [] then Done(env)
    else
      var exec, args := parts[0], parts[1..];
      if IsScript(exec) then
        Include(NoteMissing(d, env, origin, exec), exec)
      else if ResolveExecIn(d, env.cwd, exec, !fromBat).None? && IsProse(exec, args) then Done(env)
      else
        Done(env.(out := env.out + [Invocation(origin, env.cwd, exec, JoinWith(args, " "),
          Payloads(d, env.cwd, args), unresolved, fromBat)]))
  }

  /** What a line that is neither block structure nor a jump does. */
  function EffectOf(d: Dir, env: Env, origin: string, fromBat: bool, kind: Kind): (r: Effect)
    ensures r.env.visited == env.visited
  {
    match kind
    case SetVar(name, value) => Done(env.(vars := env.vars[name := value]))
    case Cd(path) => Done(ChangedDir(d, env, path))
    case Command(line) => CommandEffect(d, env, origin, fromBat, line)
    case _ => Done(env)
  }

  predicate IsBat(name: string) { EndsWith(Lower(name), ".bat") }

  /** Look a script up from the working directory and read it, unless it has run already. */
  function Lookup(d: Dir, env: Env, script: string): (r: Found)
    ensures FoundFresh(r, env, Names(d))
  {
    match GetIn(d, env.cwd, script)
    case None => Nothing
    case Some(meta) =>
      GetInIsIndexed(d, env.cwd, script);
      var key := Lower(meta.name);
      if key in env.visited then Seen
      else
        match ReadText(d, meta.name)
        case None => Unreadable(key)
        case Some(text) => Body(key, meta.name, IsBat(meta.name), Kinds(meta.name, IsBat(meta.name), Lines(text)))
  }

  /** The line semantics of the directory `d`. */
  function RulesOf(d: Dir): Rules {
    RawRules(
      Names(d),
      (env, cond) => Holds(d, env, cond),
      (env, origin, fromBat, kind) => EffectOf(d, env, origin, fromBat, kind),
      (env, script) => Lookup(d, env, script))
  }

  predicate LookupAgrees(rules: Rules, d: Dir, env: Env, script: string) {
    rules.lookup(env, script) == Lookup(d, env, script)
  }

  predicate HoldsAgrees(rules: Rules, d: Dir, env: Env, cond: string) {
    rules.holds(env, cond) == Holds(d, env, cond)
  }

  predicate EffectAgrees(rules: Rules, d: Dir, env: Env, origin: string, fromBat: bool, kind: Kind) {
    rules.effect(env, origin, fromBat, kind) == EffectOf(d, env, origin, fromBat, kind)
  }

  /** `rules` is the line semantics of `d`, stated pointwise. */
  ghost predicate Follows(rules: Rules, d: Dir) {
    && rules.names == Names(d)
    && (forall env, script :: LookupAgrees(rules, d, env, script))
    && (forall env, cond :: HoldsAgrees(rules, d, env, cond))
    && (forall env, origin, fromBat, kind :: EffectAgrees(rules, d, env, origin, fromBat, kind))
  }
}
