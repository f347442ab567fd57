/** The script expander: an object whose fields change line by line, proved against the machine. */
module Expander {
  import opened Wrappers
  import opened Text
  import opened DirIndex
  import opened ScriptText
  import opened Substitution
  import opened ScriptMachine
  import opened ScriptEffects

  class Expander {
    const dir: Dir
    /** The line semantics of `dir`. */
    ghost const rules: Rules
    var vars: Vars
    var visited: set<string>
    var out: seq<Invocation>
    /** The flags of the `if`s now open, outermost first. */
    var blocks: seq<bool>
    /** Where names are looked up from; empty at the root. */
    var cwd: string
    /** The label to stop skipping at, after a jump. */
    var pendingGoto: Option<string>
    /** How many of the flags belong to callers; a jump drops the others. */
    var gotoFloor: nat
    /** Calls that found no script: who called, and what. */
    var missing: seq<(string, string)>

    constructor (dir: Dir)
      ensures Valid() && this.dir == dir && rules == RulesOf(dir)
      ensures Snapshot() == State(FRESH, [], None, 0)
    {
      this.dir := dir;
      rules := RulesOf(dir);
      vars, visited, out, blocks, cwd := map[], {}, [], [], "";
      pendingGoto, gotoFloor, missing := None, 0, [];
    }

    ghost predicate Valid() { Follows(rules, dir) }

    function Environment(): Env
      reads this
    {
      Env(vars, visited, out, cwd, missing)
    }

    function Snapshot(): State
      reads this
    {
      State(Environment(), blocks, pendingGoto, gotoFloor)
    }

    /** A script, once: marked as visited, read, and its body run. */
    method Expand(script: string)
      requires Valid()
      modifies this
      ensures Snapshot() == ScriptMachine.Expand(rules, old(Snapshot()), script)
      decreases |Unvisited(rules, visited)|, 0
    {
      ghost var found := Lookup(dir, Environment(), script);
      assert LookupAgrees(rules, dir, Environment(), script);
      var meta := GetIn(dir, cwd, script);
      if meta.None? {
        return;
      }
      var name := meta.value.name;
      if Lower(name) in visited {
        return;
      }
      ghost var before := visited;
      visited := visited + {Lower(name)};
      var text := ReadText(dir, name);
      if text.None? {
        return;
      }
      MarkingShrinks(rules, before, Lower(name));
      Body(name, IsBat(name), Lines(text.value));
    }

    /** Run a script's lines from a block floor of its own. */
    method Body(name: string, fromBat: bool, lines: seq<string>)
      requires Valid()
      modifies this
      ensures Snapshot() == RunBody(rules, old(Snapshot()), name, fromBat, Kinds(name, fromBat, lines))
      decreases |Unvisited(rules, visited)|, 5
    {
      var depth := |blocks|;
      var outerFloor := gotoFloor;
      gotoFloor := depth;
      var outerGoto := pendingGoto;
      pendingGoto := None;
      RunLines(name, lines, fromBat);
      pendingGoto := outerGoto;
      gotoFloor := outerFloor;
      blocks := Truncated(blocks, depth);
    }

    method RunLines(name: string, lines: seq<string>, fromBat: bool)
      requires Valid()
      modifies this
      ensures Snapshot() == RunKinds(rules, old(Snapshot()), name, fromBat, Kinds(name, fromBat, lines))
      decreases |Unvisited(rules, visited)|, 4
    {
      ghost var kinds := Kinds(name, fromBat, lines);
      ghost var goal := RunKinds(rules, Snapshot(), name, fromBat, kinds);
      for i := 0 to |lines|
        invariant RunKinds(rules, Snapshot(), name, fromBat, kinds[i..]) == goal
        invariant old(visited) <= visited
      {
        UnvisitedShrinks(rules, old(visited), visited);
        assert kinds[i..][0] == Classify(name, fromBat, lines[i]) && kinds[i..][1..] == kinds[i + 1..];
        Line(name, lines[i], fromBat);
      }
    }

    method Line(origin: string, raw: string, fromBat: bool)
      requires Valid()
      modifies this
      ensures Snapshot() == Step(rules, old(Snapshot()), origin, fromBat, Classify(origin, fromBat, raw))
      decreases |Unvisited(rules, visited)|, 3
    {
      var kind := ParseLine(origin, raw, fromBat);
      Run(origin, fromBat, kind);
    }

    /** What the line says, decided in the order the shell would. */
    method ParseLine(origin: string, raw: string, fromBat: bool) returns (kind: Kind)
      ensures kind == Classify(origin, fromBat, raw)
    {
      var line := NamedLine(origin, raw);
      if line == "" {
        return Skip;
      }
      if line[0] == ':' {
        return Label(Lower(Trim(line[1..])));
      }
      if StartsSkipped(line) {
        return Skip;
      }
      var structure := BlockKind(line);
      if structure.Some? {
        return structure.value;
      }
      if fromBat {
        line := StripTrailingPositionals(line);
      }
      kind := ParseCommand(fromBat, line);
    }

    /** Act on a line: labels first, then a pending jump, then block structure, then the rest. */
    method Run(origin: string, fromBat: bool, kind: Kind)
      requires Valid()
      modifies this
      ensures Snapshot() == Step(rules, old(Snapshot()), origin, fromBat, kind)
      decreases |Unvisited(rules, visited)|, 3, 0
    {
      if kind.Label? {
        if pendingGoto == Some(kind.mark) {
          pendingGoto := None;
        }
        return;
      }
      if pendingGoto.Some? {
        return;
      }
      var structural := ControlFlow(kind);
      if structural || !AllOpen(blocks) {
        return;
      }
      Perform(origin, fromBat, kind);
    }

    /** Track `if`, `else` and `endif`; true when the line was one of them. */
    method ControlFlow(kind: Kind) returns (structural: bool)
      requires Valid()
      modifies this`blocks
      ensures structural <==> kind.EndIf? || kind.Else? || kind.IfThen?
      ensures blocks ==
        if kind.EndIf? then Popped(old(blocks))
        else if kind.Else? then Toggled(old(blocks))
        else if kind.IfThen? then old(blocks) + [rules.holds(old(Environment()), kind.cond)]
        else old(blocks)
    {
      structural := true;
      if kind.EndIf? {
        if blocks != [] {
          blocks := blocks[..|blocks| - 1];
        }
      } else if kind.Else? {
        if blocks != [] {
          blocks := blocks[|blocks| - 1 := !blocks[|blocks| - 1]];
        }
      } else if kind.IfThen? {
        var open := Condition(kind.cond);
        assert HoldsAgrees(rules, dir, Environment(), kind.cond);
        blocks := blocks + [open];
      } else {
        structural := false;
      }
    }

    method Condition(cond: string) returns (open: bool)
      ensures open == Holds(dir, Environment(), cond)
    {
      var expanded, _ := ExpandVars(vars, cond);
      var body := Trim(expanded);
      var inner := StripCi(body, "not ");
      var negated := inner.Some?;
      if negated {
        body := inner.value;
      }
      var exist := StripCi(body, "exist ");
      if exist.None? {
        return true;
      }
      var name := TrimBy(Trim(exist.value), c => c == '"');
      if IsRuntimeFile(name) {
        return !negated;
      }
      return GetIn(dir, cwd, name).Some? != negated;
    }

    /** What a line of a running block asks for, decided in the order the shell would. */
    method ParseCommand(fromBat: bool, line: string) returns (kind: Kind)
      ensures kind == ClassifyCommand(fromBat, line)
    {
      if HasPositional(line) {
        return Skip;
      }
      var setting := StripCi(line, "set ");
      if setting.Some? {
        var pair := ParseSet(setting.value);
        return if pair.Some? then SetVar(pair.value.0, pair.value.1) else Skip;
      }
      if !fromBat {
        var target := StripCi(line, "goto ");
        if target.Some? {
          return Kind.Goto(Lower(TrimStart(Trim(target.value), c => c == ':')));
        }
      }
      var path := StripCi(line, "cd ");
      if path.Some? {
        return Cd(path.value);
      }
      var called := StripCi(line, "call ");
      var command := if called.Some? then called.value else line;
      return if IsBuiltin(FirstWord(command)) then Skip else Command(command);
    }

    /** A line of a running block: a setting, a jump, a change of directory or a command. */
    method Perform(origin: string, fromBat: bool, kind: Kind)
      requires Valid()
      modifies this
      ensures Snapshot() == Act(rules, old(Snapshot()), origin, fromBat, kind)
      decreases |Unvisited(rules, visited)|, 2
    {
      if kind.Goto? {
        Goto(kind.target);
      } else {
        Affect(origin, fromBat, kind);
        assert EffectAgrees(rules, dir, old(Environment()), origin, fromBat, kind);
      }
    }

    method Affect(origin: string, fromBat: bool, kind: Kind)
      requires Valid()
      modifies this
      ensures Snapshot() ==
        Apply(rules, old(Snapshot()), EffectOf(dir, old(Environment()), origin, fromBat, kind))
      decreases |Unvisited(rules, visited)|, 1, 1
    {
      match kind {
        case SetVar(name, value) => vars := vars[name := value];
        case Cd(path) => ChangeDir(path);
        case Command(line) => Invoke(origin, line, fromBat);
        case _ =>
      }
    }

    /** Jump, unless the label is empty or a terminal one named inside an `if`. */
    method Goto(target: string)
      modifies this`blocks, this`pendingGoto
      ensures if Jumps(target, |old(blocks)| - gotoFloor)
        then blocks == Truncated(old(blocks), gotoFloor) && pendingGoto == Some(target)
        else blocks == old(blocks) && pendingGoto == old(pendingGoto)
    {
      if target == "" {
        return;
      }
      if |blocks| > gotoFloor && target in TERMINAL_LABEL {
        return;
      }
      blocks := Truncated(blocks, gotoFloor);
      pendingGoto := Some(target);
    }

    /** `cd`: the expanded path, walked from the root or from here. */
    method ChangeDir(path: string)
      modifies this`cwd
      ensures Environment() == ChangedDir(dir, old(Environment()), path)
    {
      var expanded, _ := ExpandVars(vars, path);
      var target := ReplaceChar(TrimBy(Trim(expanded), c => c == '"'), '\\', '/');
      if target != "" && target[0] == '/' {
        cwd := "";
      }
      Descend(SplitOn(target, '/'));
    }

    method Descend(parts: seq<string>)
      modifies this`cwd
      ensures cwd == Walk(dir, old(cwd), parts)
    {
      for i := 0 to |parts|
        invariant Walk(dir, cwd, parts[i..]) == Walk(dir, old(cwd), parts)
      {
        assert parts[i..][0] == parts[i] && parts[i..][1..] == parts[i + 1..];
        if parts[i] == "" || parts[i] == "." {
          continue;
        }
        if parts[i] == ".." {
          cwd := Parent(cwd);
          continue;
        }
        var sub := SubdirIn(dir, cwd, parts[i]);
        if sub.None? {
          return;
        }
        cwd := sub.value;
      }
    }

    /** Run a script the command names, or record the tool invocation. */
    method Invoke(origin: string, line: string, fromBat: bool)
      requires Valid()
      modifies this
      ensures Snapshot() ==
        Apply(rules, old(Snapshot()), CommandEffect(dir, old(Environment()), origin, fromBat, line))
      decreases |Unvisited(rules, visited)|, 1, 0
    {
      var expanded, unresolved := ExpandVars(vars, line);
      var parts := SplitArgs(expanded);
      if parts == [] {
        return;
      }
      var exec, args := parts[0], parts[1..];
      if IsScript(exec) {
        assert CommandEffect(dir, Environment(), origin, fromBat, line) ==
          Include(NoteMissing(dir, Environment(), origin, exec), exec);
        CheckPresent(origin, exec);
        Expand(exec);
        return;
      }
      if ResolveExecIn(dir, cwd, exec, !fromBat).None? && IsProse(exec, args) {
        return;
      }
      out := out + [Invocation(origin, cwd, exec, JoinWith(args, " "), Payloads(dir, cwd, args), unresolved, fromBat)];
    }

    /** Note a called script the folder does not have. */
    method CheckPresent(origin: string, exec: string)
      modifies this`missing
      ensures Environment() == NoteMissing(dir, old(Environment()), origin, exec)
    {
      if GetIn(dir, cwd, exec).None? {
        missing := missing + [(origin, exec)];
      }
    }
  }
}
