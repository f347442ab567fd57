/** A folder whose broken recipe is chosen over an intact one: two sibling scripts, each one command,
    the first with a variable whose closing `%` is missing. */
module BuriedSibling {
  import opened Wrappers
  import opened Text
  import opened DirIndex
  import opened ScriptText
  import opened ScriptLines
  import opened Substitution
  import opened ScriptMachine
  import opened ScriptEffects
  import opened ScriptTheorems
  import opened Recipe
  import opened Reachability
  import opened CandidateLaws

  // ----- Reading a one-command script -----

  predicate ArgChar(c: char) { IsAsciiLower(c) || c == '.' }

  /** A tool name no keyword, prefix or script extension is mistaken for. */
  predicate ToolWord(w: string) {
    w != "" && w[0] == 'h' && w[|w| - 1] == 'i' && forall c :: c in w ==> IsPlain(c)
  }

  /** One argument, with a `%` at most in front. */
  predicate ToolArg(arg: string) {
    |arg| > 1 && (arg[0] == '%' || ArgChar(arg[0])) && forall c :: c in arg[1..] ==> ArgChar(c)
  }

  function LineOf(w: string, arg: string): string { w + (" " + arg) }

  /** The characters of the line, by position. */
  lemma {:induction false} LineChars(w: string, arg: string)
    requires ToolWord(w) && ToolArg(arg)
    ensures var s := LineOf(w, arg);
      && |s| == |w| + 1 + |arg| && s[0] == 'h' && !IsWhitespace(s[|s| - 1]) && s[|s| - 1] != ':'
      && forall k :: 0 <= k < |s| ==>
        if k < |w| then IsPlain(s[k]) else if k == |w| then s[k] == ' '
        else if k == |w| + 1 then s[k] == arg[0] else ArgChar(s[k])
  {
    var s := LineOf(w, arg);
    forall k | 0 <= k < |s|
      ensures if k < |w| then IsPlain(s[k]) else if k == |w| then s[k] == ' '
        else if k == |w| + 1 then s[k] == arg[0] else ArgChar(s[k])
    {
      if k < |w| {
        assert w[k] in w;
      } else if k > |w| + 1 {
        assert s[k] == arg[1..][k - |w| - 2];
      }
    }
    assert ArgChar(s[|s| - 1]);
  }

  lemma {:induction false} LineIsNamed(origin: string, w: string, arg: string)
    requires ToolWord(w) && ToolArg(arg)
    ensures NamedLine(origin, LineOf(w, arg)) == LineOf(w, arg)
  {
    var s := LineOf(w, arg);
    LineChars(w, arg);
    FilterKeepsAll(s, c => !IsControl(c));
    TrimOfTrimmed(s);
    assert TrimStart(s, c => c == '@') == s;
    ContainsPair(s, "%0");
  }

  lemma {:induction false} WordEnds(w: string, rest: string)
    requires forall c :: c in w ==> !IsWhitespace(c)
    ensures TakeWord(w + (" " + rest)) == w
    decreases |w|
  {
    var s := w + (" " + rest);
    if w != "" {
      assert w[0] in w && s[1..] == w[1..] + (" " + rest);
      WordEnds(w[1..], rest);
    }
  }

  lemma {:induction false} NoBuiltinBeginsSo(w: string)
    requires w != "" && w[0] == 'h'
    ensures w !in BUILTIN && !StartsWith(w, "echo")
  {
  }

  lemma {:induction false} ToolIsNoBuiltin(w: string, arg: string)
    requires ToolWord(w)
    ensures !IsBuiltin(FirstWord(LineOf(w, arg)))
  {
    forall c | c in w
      ensures !IsWhitespace(c)
    {
      assert IsPlain(c);
    }
    WordEnds(w, arg);
    assert w[0] in w;
    assert TrimStart(LineOf(w, arg), IsWhitespace) == LineOf(w, arg);
    LowerKeeps(w);
    assert TrimEnd(w, c => c in {'.', ':', ','}) == w;
    NoBuiltinBeginsSo(w);
  }

  lemma {:induction false} NoBlockBeginsSo(s: string)
    requires s != "" && s[0] == 'h'
    ensures BlockKind(s) == None
  {
    FirstDiffers(s, "endif");
    FirstDiffers(s, "else");
    FirstDiffers(s, "if ");
  }

  lemma {:induction false} NothingPositional(w: string, arg: string)
    requires ToolWord(w) && ToolArg(arg)
    ensures !HasPositional(LineOf(w, arg))
  {
    LineChars(w, arg);
  }

  lemma {:induction false} NoPrefixBeginsSo(s: string)
    requires s != "" && s[0] == 'h' && !HasPositional(s) && !IsBuiltin(FirstWord(s))
    ensures ClassifyCommand(false, s) == Command(s)
  {
    FirstDiffers(s, "set ");
    FirstDiffers(s, "goto ");
    FirstDiffers(s, "cd ");
    FirstDiffers(s, "call ");
  }

  lemma {:induction false} ClassifiedAsCommand(origin: string, raw: string, line: string)
    requires NamedLine(origin, raw) == line && !StartsSkipped(line) && BlockKind(line) == None
    requires ClassifyCommand(false, line) == Command(line)
    ensures Classify(origin, false, raw) == Command(line)
  {
    assert line != "" && line[0] != ':';
  }

  lemma {:induction false} ToolLineIsRead(w: string, arg: string)
    requires ToolWord(w) && ToolArg(arg)
    ensures LineOf(w, arg) != "" && LineOf(w, arg)[0] == 'h' && !StartsSkipped(LineOf(w, arg))
  {
    LineChars(w, arg);
  }

  lemma {:induction false} LineIsCommand(origin: string, w: string, arg: string)
    requires ToolWord(w) && ToolArg(arg)
    ensures Classify(origin, false, LineOf(w, arg)) == Command(LineOf(w, arg))
  {
    var s := LineOf(w, arg);
    LineIsNamed(origin, w, arg);
    ToolLineIsRead(w, arg);
    NoBlockBeginsSo(s);
    NothingPositional(w, arg);
    ToolIsNoBuiltin(w, arg);
    NoPrefixBeginsSo(s);
    ClassifiedAsCommand(origin, s, s);
  }

  lemma {:induction false} ScriptIsCommand(origin: string, w: string, arg: string)
    requires ToolWord(w) && ToolArg(arg)
    ensures Kinds(origin, false, Lines(LineOf(w, arg))) == [Command(LineOf(w, arg))]
  {
    LineChars(w, arg);
    FindFacts(LineOf(w, arg), '\n');
    LineIsCommand(origin, w, arg);
  }

  // ----- Running it -----

  lemma {:induction false} NoPercentStays(vars: Vars, s: string)
    requires '%' !in s
    ensures Substituted(vars, s) == (s, [])
  {
    SplitOnceParts(s, '%');
  }

  lemma {:induction false} LonePercentStays(vars: Vars, before: string, after: string)
    requires '%' !in before && '%' !in after
    ensures Substituted(vars, before + (['%'] + after)) == (before + (['%'] + after), [])
  {
    SplitOnceAt(before, '%', after);
    SplitOnceParts(after, '%');
  }

  lemma {:induction false} NothingToExpand(vars: Vars, s: string, n: nat)
    requires Substituted(vars, s) == (s, []) && n > 0
    ensures Rounds(vars, s, [], n) == (s, [])
  {
  }

  lemma {:induction false} OnePassStays(vars: Vars, w: string, arg: string)
    requires ToolWord(w) && ToolArg(arg)
    ensures Substituted(vars, LineOf(w, arg)) == (LineOf(w, arg), [])
  {
    LineChars(w, arg);
    if arg[0] == '%' {
      assert LineOf(w, arg) == (w + " ") + (['%'] + arg[1..]);
      LonePercentStays(vars, w + " ", arg[1..]);
    } else {
      NoPercentStays(vars, LineOf(w, arg));
    }
  }

  lemma {:induction false} OnePercentStays(vars: Vars, w: string, arg: string)
    requires ToolWord(w) && ToolArg(arg)
    ensures Expanded(vars, LineOf(w, arg)) == (LineOf(w, arg), [])
  {
    OnePassStays(vars, w, arg);
    NothingToExpand(vars, LineOf(w, arg), EXPAND_PASSES);
  }

  lemma {:induction false} SplitWord(a: string, cur: string, rest: string)
    requires forall c :: c in a ==> !IsWhitespace(c) && c != '"'
    ensures SplitFrom(a + rest, cur, false) == SplitFrom(rest, cur + a, false)
    decreases |a|
  {
    if a == "" {
      assert a + rest == rest && cur + a == cur;
    } else {
      assert a[0] in a && (a + rest)[1..] == a[1..] + rest;
      SplitWord(a[1..], cur + [a[0]], rest);
      assert cur + [a[0]] + a[1..] == cur + a;
    }
  }

  lemma {:induction false} LineSplits(w: string, arg: string)
    requires ToolWord(w) && ToolArg(arg)
    ensures Arguments(LineOf(w, arg)) == [w, arg]
  {
    assert arg == [arg[0]] + arg[1..];
    SplitWord(w, "", " " + arg);
    SplitWord(arg, "", "");
    assert "" + w == w && "" + arg == arg && arg + "" == arg && (" " + arg)[1..] == arg;
  }

  function Files(d: Dir, arg: string): seq<string> { Payloads(d, "", [arg]) }

  lemma {:induction false} CommandRuns(d: Dir, env: Env, origin: string, w: string, arg: string)
    requires ToolWord(w) && ToolArg(arg) && GetIn(d, "", w).Some? && env.cwd == ""
    ensures CommandEffect(d, env, origin, false, LineOf(w, arg))
      == Done(env.(out := env.out + [Invocation(origin, "", w, arg, Files(d, arg), [], false)]))
  {
    OnePercentStays(env.vars, w, arg);
    LineSplits(w, arg);
    LowerKeeps(w);
    assert !IsScript(w);
    assert [w, arg][1..] == [arg];
  }

  lemma {:induction false} OneCommand(rules: Rules, st: State, origin: string, fromBat: bool, kind: Kind)
    requires st.pending.None? && AllOpen(st.blocks) && kind.Command?
    requires rules.effect(st.env, origin, fromBat, kind).Done?
    ensures RunKinds(rules, st, origin, fromBat, [kind]).env == rules.effect(st.env, origin, fromBat, kind).env
  {
    PlainStep(rules, st, origin, fromBat, kind);
    assert [kind][1..] == [];
  }

  lemma {:induction false} FoundCommand(d: Dir, script: string, w: string, arg: string, size: nat)
    requires ToolWord(w) && ToolArg(arg) && !IsBat(script)
    requires GetIn(d, "", script) == Some(FileMeta(script, size)) && ReadText(d, script) == Some(LineOf(w, arg))
    ensures Lookup(d, FRESH, script) == Body(Lower(script), script, false, [Command(LineOf(w, arg))])
  {
    ScriptIsCommand(script, w, arg);
    FoundBody(d, FRESH, script, script, size, LineOf(w, arg));
  }

  lemma {:induction false} OneScriptRuns(rules: Rules, script: string, key: string, kind: Kind, out: seq<Invocation>)
    requires rules.lookup(FRESH, script) == Body(key, script, false, [kind]) && kind.Command?
    requires var e := rules.effect(Marked(FRESH, key), script, false, kind); e.Done? && e.env.out == out
    ensures ExpandAll(rules, State(FRESH, [], None, 0), [script]).env.out == out
  {
    var st := State(FRESH, [], None, 0);
    OneCommand(rules, State(Marked(FRESH, key), [], None, 0), script, false, kind);
    assert Expand(rules, st, script).env.out == out;
    assert [script][1..] == [];
    assert ExpandAll(rules, st, [script]) == ExpandAll(rules, Expand(rules, st, script), []);
  }

  lemma {:induction false} DedupOne(inv: Invocation)
    ensures Dedup([inv]) == [inv]
  {
    var key := KeyOf;
    assert Unseen([inv][1..], key, {} + {key(inv)}) == [];
    assert key(inv) !in {};
    assert Unseen([inv], key, {}) == [inv] + Unseen([inv][1..], key, {} + {key(inv)});
  }

  /** The script is found, read, and comes to its one command. */
  lemma {:induction false} RunIs(d: Dir, script: string, w: string, arg: string, size: nat)
    requires ToolWord(w) && ToolArg(arg) && GetIn(d, "", w).Some? && !IsBat(script)
    requires GetIn(d, "", script) == Some(FileMeta(script, size)) && ReadText(d, script) == Some(LineOf(w, arg))
    ensures RunOf(d, [script]) == [Invocation(script, "", w, arg, Files(d, arg), [], false)]
  {
    var inv := Invocation(script, "", w, arg, Files(d, arg), [], false);
    FoundCommand(d, script, w, arg, size);
    CommandRuns(d, Marked(FRESH, Lower(script)), script, w, arg);
    OneScriptRuns(RulesOf(d), script, Lower(script), Command(LineOf(w, arg)), [inv]);
    DedupOne(inv);
  }

  // ----- The folder -----

  /** Two scripts, the tool both launch, and the payload the second one names. */
  function Folder(broken: string, intact: string, w: string, payload: string, stray: string): Dir {
    Dir(
      map[
        Lower(broken) := FileMeta(broken, 0), Lower(intact) := FileMeta(intact, 0),
        w := FileMeta(w, 0), payload := FileMeta(payload, 0)],
      map[],
      map[broken := LineOf(w, stray), intact := LineOf(w, payload)])
  }

  /** A name without separators. */
  predicate FileName(name: string) { name != "" && forall c :: c in name ==> IsAsciiAlnum(c) || c == '.' }

  lemma {:induction false} NothingToReplace(s: string)
    requires '\\' !in s
    ensures ReplaceChar(s, '\\', '/') == s
    decreases |s|
  {
    if s != "" {
      assert s == [s[0]] + s[1..];
      NothingToReplace(s[1..]);
    }
  }

  lemma {:induction false} OneKey(d: Dir, name: string, key: string)
    requires NormalName(name) == key
    ensures GetIn(d, "", name) == if key in d.files then Some(d.files[key]) else None
  {
    assert KeysFrom("", name) == [key];
    assert FirstHit([key][1..], d.files) == None;
  }

  lemma {:induction false} FileLookup(d: Dir, name: string)
    requires FileName(name)
    ensures GetIn(d, "", name) == if Lower(name) in d.files then Some(d.files[Lower(name)]) else None
  {
    NothingToReplace(name);
    assert name[0] in name;
    assert TrimStart(name, c => c == '/') == name;
    OneKey(d, name, Lower(name));
  }

  lemma {:induction false} PercentIsNoPayload(d: Dir, arg: string)
    requires ToolArg(arg) && arg[0] == '%'
    ensures Files(d, arg) == []
  {
    assert Payloads(d, "", [arg][1..]) == [];
  }

  lemma {:induction false} PayloadsAreArguments(d: Dir, arg: string)
    ensures Files(d, arg) == [] || Files(d, arg) == [arg]
  {
    assert Payloads(d, "", [arg][1..]) == [];
  }

  lemma {:induction false} PlainHasNoPercent(s: string)
    requires forall c :: c in s ==> IsPlain(c)
    ensures '%' !in s && '%' !in ShellPath(s)
    decreases |s|
  {
    if s != "" {
      assert s[0] in s && s == [s[0]] + s[1..];
      PlainHasNoPercent(s[1..]);
    }
  }

  lemma {:induction false} BrokenRun(d: Dir, script: string, w: string, stray: string)
    requires ToolWord(w) && ToolArg(stray) && stray[0] == '%' && GetIn(d, "", w).Some? && !IsBat(script)
    requires GetIn(d, "", script) == Some(FileMeta(script, 0)) && ReadText(d, script) == Some(LineOf(w, stray))
    ensures var r := RunOf(d, [script]); r != [] && FullyResolved(d, r) && !Intact(d, r)
  {
    RunIs(d, script, w, stray, 0);
    PercentIsNoPayload(d, stray);
    var inv := Invocation(script, "", w, stray, [], [], false);
    assert inv in RunOf(d, [script]) && Resolves(d, inv) && !NothingLeft(inv, Tool(d, inv));
    assert !StepResolves(d, inv);
  }

  lemma {:induction false} IntactRun(d: Dir, script: string, w: string, payload: string)
    requires ToolWord(w) && ToolArg(payload) && payload[0] != '%' && !IsBat(script)
    requires GetIn(d, "", w) == Some(FileMeta(w, 0)) && GetIn(d, "", payload).Some?
    requires GetIn(d, "", script) == Some(FileMeta(script, 0)) && ReadText(d, script) == Some(LineOf(w, payload))
    ensures var r := RunOf(d, [script]); r != [] && Intact(d, r)
  {
    RunIs(d, script, w, payload, 0);
    PayloadsAreArguments(d, payload);
    assert payload == [payload[0]] + payload[1..];
    PlainHasNoPercent(w);
    PlainHasNoPercent(payload);
    assert StepResolves(d, Invocation(script, "", w, payload, Files(d, payload), [], false));
  }

  /** The scripts are the two first conventional names; the tool and the payload are neither. */
  predicate Conventional(broken: string, intact: string, w: string, payload: string) {
    && broken == "FlashPCL.nsh" && intact == "FlashXDX.nsh"
    && ToolWord(w) && ToolArg(payload) && payload[0] == 'b'
  }

  lemma {:induction false} ScriptNames(broken: string, intact: string)
    requires broken == "FlashPCL.nsh" && intact == "FlashXDX.nsh"
    ensures |broken| == |intact| == 12 && broken[0] == intact[0] == 'F' && broken[5] == 'P' && intact[5] == 'X'
    ensures broken[11] == intact[11] == 'h' && FileName(broken) && FileName(intact)
  {
  }

  lemma {:induction false} EndsInH(name: string)
    requires name != "" && name[|name| - 1] == 'h'
    ensures !IsBat(name)
  {
    LowerAt(name, |name| - 1);
  }

  lemma {:induction false} PlainIsItsKey(name: string)
    requires name != "" && forall c :: c in name ==> IsPlain(c)
    ensures Lower(name) == name && FileName(name)
  {
    LowerKeeps(name);
  }

  lemma {:induction false} ArgIsPlain(arg: string)
    requires ToolArg(arg) && arg[0] != '%'
    ensures forall c :: c in arg ==> IsPlain(c)
  {
    assert arg == [arg[0]] + arg[1..];
  }

  lemma {:induction false} FolderHolds(
    d: Dir, broken: string, intact: string, w: string, payload: string, stray: string)
    requires d == Folder(broken, intact, w, payload, stray) && Conventional(broken, intact, w, payload)
    ensures GetIn(d, "", broken) == Some(FileMeta(broken, 0)) && ReadText(d, broken) == Some(LineOf(w, stray))
    ensures GetIn(d, "", intact) == Some(FileMeta(intact, 0)) && ReadText(d, intact) == Some(LineOf(w, payload))
    ensures GetIn(d, "", w) == Some(FileMeta(w, 0)) && GetIn(d, "", payload).Some?
  {
    ScriptNames(broken, intact);
    LowerAt(broken, 0);
    LowerAt(intact, 0);
    LowerAt(broken, 5);
    LowerAt(intact, 5);
    ArgIsPlain(payload);
    PlainIsItsKey(w);
    PlainIsItsKey(payload);
    FileLookup(d, broken);
    FileLookup(d, intact);
    FileLookup(d, w);
    FileLookup(d, payload);
  }

  // ----- The candidates of the folder -----

  /** No file of the folder has this name. */
  predicate Absent(d: Dir, name: string) { Get(d, name).None? }

  lemma {:induction false} AllAbsent(d: Dir, names: seq<string>)
    requires forall n :: n in names ==> Absent(d, n)
    ensures Present(d, names) == []
    decreases |names|
  {
    if names != [] {
      assert names[0] in names && forall n :: n in names[1..] ==> n in names;
      AllAbsent(d, names[1..]);
    }
  }

  /** Every file begins with one of three letters, and those with an f are the two scripts. */
  ghost predicate TwoScriptsOnly(d: Dir) {
    forall k :: k in d.files ==>
      k != "" && (k[0] in {'h', 'b'} || (k[0] == 'f' && |k| == 12 && k[5] in {'p', 'x'} && k[11] == 'h'))
  }

  lemma {:induction false} FolderIsTwoScripts(
    d: Dir, broken: string, intact: string, w: string, payload: string, stray: string)
    requires d == Folder(broken, intact, w, payload, stray) && Conventional(broken, intact, w, payload)
    ensures TwoScriptsOnly(d)
  {
    ScriptNames(broken, intact);
    forall s | s in {broken, intact}
      ensures Lower(s)[0] == 'f' && Lower(s)[5] in {'p', 'x'} && Lower(s)[11] == 'h'
    {
      LowerAt(s, 0);
      LowerAt(s, 5);
      LowerAt(s, 11);
    }
  }

  /** A first letter no file of the folder has. */
  predicate StrangeFirst(name: string) {
    name != "" && name[0] !in {'/', '\\'} && LowerChar(name[0]) !in {'f', 'h', 'b'}
  }

  lemma {:induction false} StrangeIsAbsent(d: Dir, name: string)
    requires TwoScriptsOnly(d) && StrangeFirst(name)
    ensures Absent(d, name)
  {
    var plain := ReplaceChar(name, '\\', '/');
    assert plain[0] == name[0];
    assert TrimStart(plain, c => c == '/') == plain;
    LowerAt(plain, 0);
    OneKey(d, name, Lower(plain));
  }

  /** Not the length, the sixth letter or the last letter of either script. */
  predicate StrangeScript(name: string) {
    FileName(name) && LowerChar(name[0]) == 'f'
    && (|name| != 12 || LowerChar(name[5]) !in {'p', 'x'} || LowerChar(name[11]) != 'h')
  }

  lemma {:induction false} OtherScriptIsAbsent(d: Dir, name: string)
    requires TwoScriptsOnly(d) && StrangeScript(name)
    ensures Absent(d, name)
  {
    LowerAt(name, 0);
    if |name| == 12 {
      LowerAt(name, 5);
      LowerAt(name, 11);
    }
    FileLookup(d, name);
  }

  lemma {:induction false} StepsAreStrange(ext: string, from: nat)
    ensures forall n :: n in Numbered(ext, from) ==> StrangeFirst(n)
    decreases 10 - from
  {
    if from <= 9 {
      StepsAreStrange(ext, from + 1);
    }
  }

  lemma {:induction false} NoSteps(d: Dir, ext: string)
    requires TwoScriptsOnly(d)
    ensures Present(d, Numbered(ext, 1)) == []
  {
    StepsAreStrange(ext, 1);
    forall n | n in Numbered(ext, 1)
      ensures Absent(d, n)
    {
      StrangeIsAbsent(d, n);
    }
    AllAbsent(d, Numbered(ext, 1));
  }

  lemma {:induction false} FirstTwoPresent(d: Dir, a: string, b: string, c: string, e: string)
    requires Get(d, a).Some? && Get(d, b).Some? && Absent(d, c) && Absent(d, e)
    ensures Present(d, [a, b, c, e]) == [a, b]
  {
    assert [a, b, c, e][1..] == [b, c, e] && [b, c, e][1..] == [c, e];
    assert forall n :: n in [c, e] ==> n == c || n == e;
    AllAbsent(d, [c, e]);
    assert Present(d, [b, c, e]) == [b] + Present(d, [c, e]);
  }

  /** A stem that begins with an f and, with the extension, names neither script. */
  predicate StrangeStem(stem: string, ext: string) {
    FileName(stem) && LowerChar(stem[0]) == 'f'
    && (ext == "bat" || (ext == "nsh" && (|stem| != 8 || LowerChar(stem[5]) !in {'p', 'x'})))
  }

  lemma {:induction false} StrangeStemIsAbsent(d: Dir, stem: string, ext: string)
    requires TwoScriptsOnly(d) && StrangeStem(stem, ext)
    ensures Absent(d, Named(stem, ext))
  {
    var name := Named(stem, ext);
    assert |name| == |stem| + 4 && name[0] == stem[0] && name[|name| - 1] == ext[2];
    if |stem| == 8 {
      assert name[5] == stem[5];
    }
    assert FileName(name);
    OtherScriptIsAbsent(d, name);
  }

  lemma {:induction false} DosStems(stem: string)
    requires stem in {"FlashPCL", "FlashXDX", "FlashBBX", "flash"}
    ensures StrangeStem(stem, "bat")
  {
  }

  lemma {:induction false} OtherStems(stem: string)
    requires stem in {"FlashBBX", "flash"}
    ensures StrangeStem(stem, "nsh")
  {
  }

  lemma {:induction false} EcStem(stem: string, ext: string)
    requires stem == "FlashEC" && ext in {"nsh", "bat"}
    ensures StrangeStem(stem, ext)
  {
  }

  lemma {:induction false} NoEcScripts(d: Dir, ext: string)
    requires TwoScriptsOnly(d) && ext in {"nsh", "bat"}
    ensures Present(d, WithExt(FALLBACK_EC, ext)) == []
  {
    var a, b := FALLBACK_EC[0], FALLBACK_EC[1];
    TwoNames(a, b, ext);
    EcStem(a, ext);
    StrangeStemIsAbsent(d, a, ext);
    StrangeIsAbsent(d, Named(b, ext));
    AllAbsent(d, [Named(a, ext), Named(b, ext)]);
    assert FALLBACK_EC == [a, b];
  }

  lemma {:induction false} ScriptsAreNamed(broken: string, intact: string)
    requires broken == "FlashPCL.nsh" && intact == "FlashXDX.nsh"
    ensures Named("FlashPCL", "nsh") == broken && Named("FlashXDX", "nsh") == intact
  {
  }

  lemma {:induction false} TwoBiosScripts(d: Dir, broken: string, intact: string)
    requires TwoScriptsOnly(d) && broken == "FlashPCL.nsh" && intact == "FlashXDX.nsh"
    requires Get(d, broken).Some? && Get(d, intact).Some?
    ensures Present(d, WithExt(FALLBACK_BIOS, "nsh")) == [broken, intact]
  {
    var a, b, c, e, ext := "FlashPCL", "FlashXDX", "FlashBBX", "flash", "nsh";
    FourNames(a, b, c, e, ext);
    ScriptsAreNamed(broken, intact);
    OtherStems(c);
    OtherStems(e);
    StrangeStemIsAbsent(d, c, ext);
    StrangeStemIsAbsent(d, e, ext);
    FirstTwoPresent(d, broken, intact, Named(c, ext), Named(e, ext));
  }

  lemma {:induction false} FourAbsent(d: Dir, a: string, b: string, c: string, e: string)
    requires Absent(d, a) && Absent(d, b) && Absent(d, c) && Absent(d, e)
    ensures Present(d, [a, b, c, e]) == []
  {
    AllAbsent(d, [a, b, c, e]);
  }

  lemma {:induction false} NoDosBiosScripts(d: Dir)
    requires TwoScriptsOnly(d)
    ensures Present(d, WithExt(FALLBACK_BIOS, "bat")) == []
  {
    var a, b, c, e, ext := "FlashPCL", "FlashXDX", "FlashBBX", "flash", "bat";
    FourNames(a, b, c, e, ext);
    forall stem | stem in {a, b, c, e}
      ensures Absent(d, Named(stem, ext))
    {
      DosStems(stem);
      StrangeStemIsAbsent(d, stem, ext);
    }
    FourAbsent(d, Named(a, ext), Named(b, ext), Named(c, ext), Named(e, ext));
  }

  lemma {:induction false} NoOwnLauncher(d: Dir, folder: string, ext: string)
    requires TwoScriptsOnly(d) && StrangeFirst(folder)
    ensures Present(d, [folder + "." + ext]) == []
  {
    StrangeIsAbsent(d, folder + "." + ext);
    AllAbsent(d, [folder + "." + ext]);
  }

  const NO_SETS: Tier := [[]]

  lemma {:induction false} UefiTiers(d: Dir, folder: string, broken: string, intact: string)
    requires TwoScriptsOnly(d) && StrangeFirst(folder) && broken == "FlashPCL.nsh" && intact == "FlashXDX.nsh"
    requires Get(d, broken).Some? && Get(d, intact).Some?
    ensures TiersFor(d, folder, [], "nsh") == [NO_SETS, NO_SETS, [[broken], [intact]], NO_SETS]
  {
    NoSteps(d, "nsh");
    NoEcScripts(d, "nsh");
    TwoBiosScripts(d, broken, intact);
    NoOwnLauncher(d, folder, "nsh");
    TwoVariants(broken, intact);
  }

  lemma {:induction false} TwoVariants(a: string, b: string)
    ensures Variants([a, b], []) == [[a], [b]]
  {
    assert [a, b][1..] == [b] && [b][1..] == [];
    assert [a] + [] == [a] && [b] + [] == [b];
    assert Variants([b], []) == [[b] + []] + Variants([], []);
  }

  lemma {:induction false} DosTiers(d: Dir, folder: string)
    requires TwoScriptsOnly(d) && StrangeFirst(folder)
    ensures TiersFor(d, folder, [], "bat") == [NO_SETS, NO_SETS, NO_SETS, NO_SETS]
  {
    NoSteps(d, "bat");
    NoEcScripts(d, "bat");
    NoDosBiosScripts(d);
    NoOwnLauncher(d, folder, "bat");
  }

  lemma {:induction false} KeptTiers(first: Tier, rest: seq<Tier>)
    ensures NonEmpty(NonEmptySets([first] + rest)) ==
      (if NonEmpty(first) != [] then [NonEmpty(first)] else []) + NonEmpty(NonEmptySets(rest))
  {
    assert ([first] + rest)[1..] == rest;
    var kept := NonEmptySets(rest);
    assert ([NonEmpty(first)] + kept)[1..] == kept;
  }

  lemma {:induction false} NoSetsIsEmpty()
    ensures NonEmpty(NO_SETS) == []
  {
    assert NO_SETS[1..] == [];
    assert NonEmpty(NO_SETS[1..]) == [];
  }

  lemma {:induction false} NoTiers(tiers: seq<Tier>)
    requires forall t :: t in tiers ==> t == NO_SETS
    ensures NonEmpty(NonEmptySets(tiers)) == []
    decreases |tiers|
  {
    if tiers != [] {
      assert tiers[0] in tiers && forall t :: t in tiers[1..] ==> t in tiers;
      NoTiers(tiers[1..]);
      NoSetsIsEmpty();
      KeptTiers(tiers[0], tiers[1..]);
      assert tiers == [tiers[0]] + tiers[1..];
    }
  }

  lemma {:induction false} OneTier(before: seq<Tier>, t: Tier, after: seq<Tier>)
    requires forall x :: x in before ==> x == NO_SETS
    requires (forall x :: x in after ==> x == NO_SETS) && NonEmpty(t) == t != []
    ensures NonEmpty(NonEmptySets(before + ([t] + after))) == [t]
    decreases |before|
  {
    if before == [] {
      assert before + ([t] + after) == [t] + after;
      NoTiers(after);
      KeptTiers(t, after);
    } else {
      assert before[0] in before && forall x :: x in before[1..] ==> x in before;
      NoSetsIsEmpty();
      assert before + ([t] + after) == [before[0]] + (before[1..] + ([t] + after));
      OneTier(before[1..], t, after);
      KeptTiers(before[0], before[1..] + ([t] + after));
    }
  }

  lemma {:induction false} TwoSets(a: string, b: string)
    ensures NonEmpty([[a], [b]]) == [[a], [b]]
  {
    assert [[a], [b]][1..] == [[b]] && [[b]][1..] == [];
    assert NonEmpty([[b]]) == [[b]] + NonEmpty([]);
  }

  lemma {:induction false} ThirdTierOnly(t: Tier)
    requires NonEmpty(t) == t != []
    ensures NonEmpty(NonEmptySets([NO_SETS, NO_SETS, t, NO_SETS] + [NO_SETS, NO_SETS, NO_SETS, NO_SETS])) == [t]
  {
    var before, after := [NO_SETS, NO_SETS], [NO_SETS, NO_SETS, NO_SETS, NO_SETS, NO_SETS];
    assert [NO_SETS, NO_SETS, t, NO_SETS] + [NO_SETS, NO_SETS, NO_SETS, NO_SETS] == before + ([t] + after);
    OneTier(before, t, after);
  }

  /** The folder has one tier of candidates, its two scripts as alternatives. */
  lemma {:induction false} CandidatesAre(
    d: Dir, folder: string, broken: string, intact: string, w: string, payload: string, stray: string)
    requires d == Folder(broken, intact, w, payload, stray) && Conventional(broken, intact, w, payload)
    requires StrangeFirst(folder)
    ensures CandidateRecipes(d, folder, []) == [[[broken], [intact]]]
  {
    FolderIsTwoScripts(d, broken, intact, w, payload, stray);
    FolderHolds(d, broken, intact, w, payload, stray);
    UefiTiers(d, folder, broken, intact);
    DosTiers(d, folder);
    TwoSets(broken, intact);
    ThirdTierOnly([[broken], [intact]]);
  }

  // ----- The choice -----

  /** Of the folder's two alternatives the second is intact and the first is chosen. */
  lemma {:induction false} BrokenSiblingWins(
    d: Dir, folder: string, broken: string, intact: string, w: string, payload: string, stray: string,
    menu: seq<Invocation>, r: seq<Invocation>)
    requires d == Folder(broken, intact, w, payload, stray) && Conventional(broken, intact, w, payload)
    requires ToolArg(stray) && stray[0] == '%' && StrangeFirst(folder)
    requires IsChoice(d, tier => RunsOf(d, tier), CandidateRecipes(d, folder, []), menu, r)
    ensures Intact(d, RunOf(d, [intact])) && RunOf(d, [intact]) != [] && r == RunOf(d, [broken]) && !Intact(d, r)
  {
    ScriptNames(broken, intact);
    EndsInH(broken);
    EndsInH(intact);
    FolderHolds(d, broken, intact, w, payload, stray);
    CandidatesAre(d, folder, broken, intact, w, payload, stray);
    BrokenRun(d, broken, w, stray);
    IntactRun(d, intact, w, payload);
    TwoRuns(d, [broken], [intact]);
    FirstOfTwo(d, [[broken], [intact]], RunOf(d, [broken]), RunOf(d, [intact]), menu, r);
  }

  lemma {:induction false} TwoRuns(d: Dir, a: seq<string>, b: seq<string>)
    requires RunOf(d, a) != [] && RunOf(d, b) != []
    ensures RunsOf(d, [a, b]) == [RunOf(d, a), RunOf(d, b)]
  {
    assert [a, b][1..] == [b] && [b][1..] == [];
    assert RunsOf(d, [b]) == [RunOf(d, b)] + RunsOf(d, []);
  }

  lemma {:induction false} FirstOfTwo(
    d: Dir, tier: Tier, x: seq<Invocation>, y: seq<Invocation>, menu: seq<Invocation>, r: seq<Invocation>)
    requires RunsOf(d, tier) == [x, y] && y != [] && Intact(d, y) && FullyResolved(d, x)
    requires IsChoice(d, t => RunsOf(d, t), [tier], menu, r)
    ensures r == x
  {
    var runsOf: Runs := t => RunsOf(d, t);
    assert y == [x, y][1];
    IntactTierDecides(d, runsOf, [tier], menu, 0, r);
    var k :| 0 <= k < |[x, y]| && [x, y][k] == r && forall j :: 0 <= j < k ==> !FullyResolved(d, [x, y][j]);
    assert [x, y][0] == x;
  }

  lemma {:induction false} ExampleWords(w: string, payload: string, stray: string)
    requires w == "h2offt.efi" && payload == "bios.rom" && stray == "%rom"
    ensures ToolWord(w) && ToolArg(payload) && payload[0] == 'b' && ToolArg(stray) && stray[0] == '%'
  {
  }

  /** For instance `h2offt.efi %rom` beside `h2offt.efi bios.rom`, in a folder named `n131`. */
  lemma {:induction false} BuriedSiblingExists(
    d: Dir, folder: string, broken: string, intact: string, w: string, payload: string, stray: string,
    menu: seq<Invocation>, r: seq<Invocation>)
    requires broken == "FlashPCL.nsh" && intact == "FlashXDX.nsh" && folder == "n131"
    requires w == "h2offt.efi" && payload == "bios.rom" && stray == "%rom"
    requires d == Folder(broken, intact, w, payload, stray)
    requires IsChoice(d, tier => RunsOf(d, tier), CandidateRecipes(d, folder, []), menu, r)
    ensures Intact(d, RunOf(d, [intact])) && !Intact(d, r)
  {
    ExampleWords(w, payload, stray);
    BrokenSiblingWins(d, folder, broken, intact, w, payload, stray, menu, r);
  }
}
