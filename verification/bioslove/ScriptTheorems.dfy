/** The machine's theorems for the scripts of a model directory. */
module ScriptTheorems {
  import opened Wrappers
  import opened Text
  import opened DirIndex
  import opened ScriptText
  import opened ScriptMachine
  import opened StructuredScript
  import opened ScriptRuns
  import opened ScriptEffects

  /** Every readable script among these keys is tidy. */
  ghost predicate TidyScripts(d: Dir, keys: set<string>) {
    forall k :: k in d.files && Lower(d.files[k].name) in keys && ReadText(d, d.files[k].name).Some? ==>
      Tidy(ScriptLines(d, d.files[k].name))
  }

  function ScriptLines(d: Dir, name: string): seq<Kind>
    requires ReadText(d, name).Some?
  {
    Kinds(name, IsBat(name), Lines(ReadText(d, name).value))
  }

  lemma FoundBodyIsAFile(d: Dir, env: Env, script: string)
    requires Lookup(d, env, script).Body?
    ensures var f := Lookup(d, env, script);
      exists k :: k in d.files && d.files[k].name == f.name && ReadText(d, f.name).Some?
        && f.kinds == ScriptLines(d, f.name) && f.key == Lower(f.name)
  {
    GetInIsIndexed(d, env.cwd, script);
    var m := GetIn(d, env.cwd, script).value;
    var k :| k in d.files && d.files[k] == m;
  }

  /** When the scripts a run newly visits are tidy, whatever else the directory holds and cyclic
      includes or not, the flat block stack is exactly the evaluation of the nested blocks. */
  lemma ScriptRunIsStructured(d: Dir, st: State, script: string)
    requires AllOpen(st.blocks)
    requires TidyScripts(d, Expand(RulesOf(d), st, script).env.visited - st.env.visited)
    ensures Expand(RulesOf(d), st, script) == st.(env := EvalScript(RulesOf(d), st.env, script))
  {
    var rules := RulesOf(d);
    var ran := Expand(rules, st, script).env.visited - st.env.visited;
    forall env, name | rules.lookup(env, name).Body? && rules.lookup(env, name).key in ran
      ensures Tidy(rules.lookup(env, name).kinds)
    {
      FoundBodyIsAFile(d, env, name);
    }
    ScriptSimulation(rules, ran, st, script);
  }

  // ----- A script that reaches into its caller -----

  /** A folder holding one script. */
  function OneScript(name: string, text: string): Dir {
    Dir(map[name := FileMeta(name, |text|)], map[], map[name := text])
  }

  predicate IsPlain(c: char) { IsAsciiLower(c) || IsAsciiDigit(c) || c == '.' }

  lemma {:induction false} LowerKeeps(s: string)
    requires forall c :: c in s ==> IsPlain(c)
    ensures Lower(s) == s && ReplaceChar(s, '\\', '/') == s
    decreases |s|
  {
    if s != "" {
      LowerKeeps(s[1..]);
      assert s[0] in s && s == [s[0]] + s[1..];
    }
  }

  lemma OneScriptHolds(name: string, text: string)
    requires name != "" && forall c :: c in name ==> IsPlain(c)
    ensures Lower(name) == name
    ensures GetIn(OneScript(name, text), "", name) == Some(FileMeta(name, |text|))
    ensures ReadText(OneScript(name, text), name) == Some(text)
  {
    LowerKeeps(name);
    assert name[0] in name;
    assert KeysFrom("", name) == [name];
  }

  lemma {:induction false} FilterKeepsAll(s: string, keep: char -> bool)
    requires forall c :: c in s ==> keep(c)
    ensures FilterChars(s, keep) == s
    decreases |s|
  {
    if s != "" {
      FilterKeepsAll(s[1..], keep);
      assert s == [s[0]] + s[1..];
    }
  }

  lemma {:induction false} ContainsNeeds(s: string, c: char, t: string)
    requires c !in s && t != "" && t[0] == c
    ensures !Contains(s, t)
    decreases |s|
  {
    if s != "" {
      assert s[0] in s;
      ContainsNeeds(s[1..], c, t);
    }
  }

  lemma {:induction false} WordIsClean(s: string)
    requires s != "" && forall c :: c in s ==> IsAsciiAlnum(c)
    ensures CleanLine(s) == s
  {
    assert s[0] in s && s[|s| - 1] in s;
    FilterKeepsAll(s, c => !IsControl(c));
    TrimOfTrimmed(s);
    assert TrimStart(s, c => c == '@') == s;
  }

  lemma {:induction false} WordIsNamed(origin: string, s: string)
    requires s != "" && forall c :: c in s ==> IsAsciiAlnum(c)
    ensures NamedLine(origin, s) == s
  {
    WordIsClean(s);
    ContainsNeeds(s, '%', "%0");
  }

  lemma {:induction false} WordIsNotSkipped(s: string)
    requires s != "" && forall c :: c in s ==> IsAsciiAlnum(c)
    ensures !StartsSkipped(s)
  {
    assert s[0] in s && s[|s| - 1] in s;
  }

  lemma {:induction false} WordIsOneLine(s: string)
    requires s != "" && forall c :: c in s ==> IsAsciiAlnum(c)
    ensures Lines(s) == [s]
  {
    FindFacts(s, '\n');
  }

  /** A word on a line of its own is read as it stands. */
  lemma {:induction false} PlainWord(origin: string, s: string)
    requires s != "" && forall c :: c in s ==> IsAsciiAlnum(c)
    ensures NamedLine(origin, s) == s && !StartsSkipped(s) && Lines(s) == [s]
  {
    WordIsNamed(origin, s);
    WordIsNotSkipped(s);
    WordIsOneLine(s);
  }

  lemma EndIfLine(origin: string, fromBat: bool, line: string)
    requires line != "" && (forall c :: c in line ==> IsAsciiAlnum(c)) && EqIgnoreCase(line, "endif")
    ensures Kinds(origin, fromBat, Lines(line)) == [EndIf]
  {
    PlainWord(origin, line);
    assert line[0] in line;
    assert BlockKind(line) == Some(EndIf);
    assert Classify(origin, fromBat, line) == EndIf;
  }

  lemma FoundBody(d: Dir, env: Env, script: string, name: string, size: nat, text: string)
    requires GetIn(d, env.cwd, script) == Some(FileMeta(name, size)) && Lower(name) !in env.visited
    requires ReadText(d, name) == Some(text)
    ensures Lookup(d, env, script) == Body(Lower(name), name, IsBat(name), Kinds(name, IsBat(name), Lines(text)))
  {
  }

  /** A folder whose one script is a stray `endif`: run from inside a block of its caller it closes
      that block, which no evaluation of nested blocks does. */
  lemma StrayEndIfReachesCaller(name: string, line: string, st: State)
    requires name != "" && forall c :: c in name ==> IsPlain(c)
    requires line != "" && (forall c :: c in line ==> IsAsciiAlnum(c)) && EqIgnoreCase(line, "endif")
    requires st.env == FRESH && st.blocks != []
    ensures var rules := RulesOf(OneScript(name, line));
      && Expand(rules, st, name).blocks == st.blocks[..|st.blocks| - 1]
      && Expand(rules, st, name) != st.(env := EvalScript(rules, st.env, name))
  {
    var d := OneScript(name, line);
    OneScriptHolds(name, line);
    EndIfLine(name, IsBat(name), line);
    FoundBody(d, FRESH, name, name, |line|, line);
    StrayEndIfClosesCallersBlock(RulesOf(d), st, name);
  }

  /** For instance `sub.nsh`, one line long, called between `if` and `endif`. */
  lemma StrayEndIfInSubNsh()
    ensures Expand(RulesOf(OneScript("sub.nsh", "endif")), State(FRESH, [true], None, 0), "sub.nsh").blocks == []
  {
    StrayEndIfReachesCaller("sub.nsh", "endif", State(FRESH, [true], None, 0));
  }

  // ----- Working directory -----

  predicate InKnownDir(d: Dir, env: Env) { KnownDir(d.dirs, Lower(env.cwd)) }

  lemma SubdirIsKnown(d: Dir, cwd: string, name: string)
    requires DirsClosed(d.dirs) && SubdirIn(d, cwd, name).Some?
    ensures KnownDir(d.dirs, Lower(SubdirIn(d, cwd, name).value))
  {
    FirstHitIs(KeysFrom(cwd, name), d.dirs);
  }

  lemma {:induction false} WalkStaysKnown(d: Dir, cwd: string, parts: seq<string>)
    requires DirsClosed(d.dirs) && KnownDir(d.dirs, Lower(cwd))
    ensures KnownDir(d.dirs, Lower(Walk(d, cwd, parts)))
    decreases |parts|
  {
    if parts == [] {
    } else if parts[0] == "" || parts[0] == "." {
      WalkStaysKnown(d, cwd, parts[1..]);
    } else if parts[0] == ".." {
      LowerParent(cwd);
      WalkStaysKnown(d, Parent(cwd), parts[1..]);
    } else if SubdirIn(d, cwd, parts[0]).Some? {
      SubdirIsKnown(d, cwd, parts[0]);
      WalkStaysKnown(d, SubdirIn(d, cwd, parts[0]).value, parts[1..]);
    }
  }

  lemma LineStaysInKnownDir(d: Dir, env: Env, origin: string, fromBat: bool, kind: Kind)
    requires DirsClosed(d.dirs) && InKnownDir(d, env)
    ensures InKnownDir(d, EffectOf(d, env, origin, fromBat, kind).env)
  {
    if kind.Command? {
      assert CommandEffect(d, env, origin, fromBat, kind.line).env.cwd == env.cwd;
    }
    if kind.Cd? {
      ChangedDirIsKnown(d, env, kind.path);
    }
  }

  lemma ChangedDirIsKnown(d: Dir, env: Env, path: string)
    requires DirsClosed(d.dirs) && InKnownDir(d, env)
    ensures InKnownDir(d, ChangedDir(d, env, path))
  {
    var target := CdTarget(env.vars, path);
    WalkStaysKnown(d, if target != "" && target[0] == '/' then "" else env.cwd, SplitOn(target, '/'));
  }

  /** Whatever a script does, its working directory stays the root or an indexed directory. */
  lemma WorkingDirectoryStaysIndexed(d: Dir, st: State, script: string)
    requires DirsClosed(d.dirs) && InKnownDir(d, st.env)
    ensures InKnownDir(d, Expand(RulesOf(d), st, script).env)
  {
    var rules := RulesOf(d);
    var inv := (env: Env) => InKnownDir(d, env);
    forall env, origin, fromBat, kind | inv(env)
      ensures inv(rules.effect(env, origin, fromBat, kind).env)
    {
      LineStaysInKnownDir(d, env, origin, fromBat, kind);
    }
    ScriptKeeps(rules, inv, st, script);
  }

  // ----- Size of a recipe -----

  /** Lines of the script a key stands for. */
  function LineCount(d: Dir, key: string): nat {
    if key in d.files && ReadText(d, d.files[key].name).Some?
    then |Lines(ReadText(d, d.files[key].name).value)| else 0
  }

  /** A fresh run emits no more invocations than the scripts it visited have lines. */
  lemma InvocationsBoundedByLines(d: Dir, script: string)
    requires FilesKeyed(d.files)
    ensures var r := Expand(RulesOf(d), State(FRESH, [], None, 0), script);
      |r.env.out| <= Sum(key => LineCount(d, key), r.env.visited)
  {
    var rules := RulesOf(d);
    var weight := key => LineCount(d, key);
    forall env, origin, fromBat, kind
      ensures var e := rules.effect(env, origin, fromBat, kind);
        |e.env.out| <= |env.out| + if e.Done? then 1 else 0
    {
      assert rules.effect(env, origin, fromBat, kind) == EffectOf(d, env, origin, fromBat, kind);
    }
    forall env, name | rules.lookup(env, name).Body?
      ensures |rules.lookup(env, name).kinds| <= weight(rules.lookup(env, name).key)
    {
      FoundBodyIsAFile(d, env, name);
    }
    InvocationsWithinLines(rules, weight, State(FRESH, [], None, 0), script);
  }
}
