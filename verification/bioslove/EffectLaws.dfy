/** What conditions ask, where directories lead, and what of a command is recorded. */
module EffectLaws {
  import opened Sequences
  import opened Wrappers
  import opened Text
  import opened DirIndex
  import opened ScriptText
  import opened Substitution
  import opened ScriptMachine
  import opened ScriptEffects
  import opened ScriptLines

  // ----- Conditions -----

  /** The condition with its variables replaced. */
  predicate Asks(env: Env, cond: string, asked: string) { Trim(Expanded(env.vars, cond).0) == asked }

  /** A file as it is named: not blank, without quotes or blanks around it. */
  predicate BareName(file: string) { file != "" && Bare(file) }

  lemma {:induction false} TrimmedKeyword(word: string, file: string)
    requires word != "" && !IsWhitespace(word[0]) && BareName(file)
    ensures Trim(word + file) == word + file
  {
    TrimOfTrimmed(word + file);
  }

  lemma {:induction false} AskedFile(
    d: Dir, env: Env, cond: string, asked: string, inner: Option<string>, body: string, file: string)
    requires Asks(env, cond, asked) && StripCi(asked, "not ") == inner
    requires body == (if inner.Some? then inner.value else asked) && StripCi(body, "exist ") == Some(file)
    requires TrimBy(Trim(file), c => c == '"') == file
    ensures Holds(d, env, cond) == ((GetIn(d, env.cwd, file).Some? || IsRuntimeFile(file)) != inner.Some?)
  {
  }

  lemma {:induction false} ExistIsRead(word: string, file: string, asked: string)
    requires EqIgnoreCase(word, "exist ") && BareName(file) && asked == word + file
    ensures StripCi(asked, "exist ") == Some(file) && StripCi(asked, "not ") == None && Trim(asked) == asked
    ensures TrimBy(Trim(file), c => c == '"') == file
  {
    KeywordLetters(word, "exist ");
    FirstDiffers(asked, "not ");
    KeywordIsStripped(word, "exist ", file);
    TrimOfTrimmed(file);
    TrimmedKeyword(word, file);
  }

  /** `exist file` holds exactly when the file is found from the working directory, or is one that a script
      makes itself. */
  lemma {:induction false} ExistHoldsIff(d: Dir, env: Env, cond: string, word: string, file: string)
    requires EqIgnoreCase(word, "exist ") && BareName(file) && Asks(env, cond, word + file)
    ensures Holds(d, env, cond) <==> GetIn(d, env.cwd, file).Some? || IsRuntimeFile(file)
  {
    var asked := word + file;
    ExistIsRead(word, file, asked);
    AskedFile(d, env, cond, asked, None, asked, file);
  }

  /** `not exist file` holds exactly when `exist file` does not. */
  lemma {:induction false} NotExistHoldsIff(d: Dir, env: Env, cond: string, not: string, word: string, file: string)
    requires EqIgnoreCase(not, "not ") && EqIgnoreCase(word, "exist ") && BareName(file)
    requires Asks(env, cond, not + (word + file))
    ensures Holds(d, env, cond) <==> GetIn(d, env.cwd, file).None? && !IsRuntimeFile(file)
  {
    var body := word + file;
    ExistIsRead(word, file, body);
    KeywordIsStripped(not, "not ", body);
    AskedFile(d, env, cond, not + body, Some(body), body, file);
  }

  /** Any other condition is taken to hold, negated or not. */
  lemma {:induction false} OtherConditionsHold(d: Dir, env: Env, cond: string, asked: string)
    requires Asks(env, cond, asked) && StripCi(asked, "exist ") == None
    requires StripCi(asked, "not ").Some? ==> StripCi(StripCi(asked, "not ").value, "exist ") == None
    ensures Holds(d, env, cond)
  {
  }

  /** The files a script makes itself, in any folder and any case. */
  lemma {:induction false} RuntimeFilesAre(folder: string, name: string)
    requires '/' !in name && '\\' !in name
    ensures IsRuntimeFile(name) <==> Lower(name) == "msdm.bin" || Lower(name) == "yes.txt"
    ensures IsRuntimeFile(folder + "\\" + name) <==> IsRuntimeFile(name)
    ensures IsRuntimeFile(folder + "/" + name) <==> IsRuntimeFile(name)
  {
    ReplacedIs(name);
    RFindFacts(name, '/');
    BaseIs(folder, "\\", name);
    BaseIs(folder, "/", name);
  }

  lemma {:induction false} ReplacedIs(name: string)
    requires '\\' !in name
    ensures ReplaceChar(name, '\\', '/') == name
    decreases |name|
  {
    if name != "" {
      assert name == [name[0]] + name[1..];
      ReplacedIs(name[1..]);
    }
  }

  lemma {:induction false} ReplaceConcat(a: string, b: string)
    ensures ReplaceChar(a + b, '\\', '/') == ReplaceChar(a, '\\', '/') + ReplaceChar(b, '\\', '/')
    decreases |a|
  {
    if a == "" {
      assert a + b == b;
    } else {
      assert (a + b)[1..] == a[1..] + b;
      ReplaceConcat(a[1..], b);
    }
  }

  lemma {:induction false} SlashReplaced(folder: string, slash: string, name: string)
    requires '\\' !in name && slash in {"/", "\\"}
    ensures ReplaceChar(folder + slash + name, '\\', '/') == ReplaceChar(folder, '\\', '/') + "/" + name
  {
    ReplaceConcat(folder + slash, name);
    ReplaceConcat(folder, slash);
    ReplacedIs(name);
    assert ReplaceChar(slash, '\\', '/') == "/" by { assert slash[1..] == ""; }
  }

  lemma {:induction false} LastPart(front: string, name: string)
    requires '/' !in name
    ensures AfterLast(front + "/" + name, '/') == name
  {
    var path := front + "/" + name;
    assert path[|front|] == '/' && forall k :: |front| < k < |path| ==> path[k] == name[k - |front| - 1];
    RFindIs(path, '/', |front|);
    assert path[|front| + 1..] == name;
  }

  lemma {:induction false} BaseIs(folder: string, slash: string, name: string)
    requires '/' !in name && '\\' !in name && slash in {"/", "\\"}
    ensures AfterLast(ReplaceChar(folder + slash + name, '\\', '/'), '/') == name
  {
    SlashReplaced(folder, slash, name);
    LastPart(ReplaceChar(folder, '\\', '/'), name);
  }

  // ----- Names -----

  /** A file is looked up by its path in lower case, whichever slashes it is written with and however many it
      starts with. */
  lemma {:induction false} LookupFoldsNames(d: Dir, cwd: string, folder: string, name: string)
    ensures GetIn(d, cwd, folder + "\\" + name) == GetIn(d, cwd, folder + "/" + name)
    ensures GetIn(d, cwd, "\\" + name) == GetIn(d, cwd, name) && GetIn(d, cwd, "/" + name) == GetIn(d, cwd, name)
    ensures '\\' !in name && (name != "" ==> name[0] != '/') ==> NormalName(name) == Lower(name)
  {
    ReplaceConcat(folder + "\\", name);
    ReplaceConcat(folder, "\\");
    ReplaceConcat(folder + "/", name);
    ReplaceConcat(folder, "/");
    ReplaceConcat("\\", name);
    ReplaceConcat("/", name);
    SlashIs("\\");
    SlashIs("/");
    LeadingSlash(ReplaceChar(name, '\\', '/'));
    if '\\' !in name {
      ReplacedIs(name);
    }
  }

  lemma SlashIs(slash: string)
    requires slash in {"/", "\\"}
    ensures ReplaceChar(slash, '\\', '/') == "/"
  {
    assert slash[1..] == "";
  }

  lemma LeadingSlash(path: string)
    ensures TrimStart("/" + path, c => c == '/') == TrimStart(path, c => c == '/')
  {
    assert ("/" + path)[1..] == path;
  }

  // ----- Directories -----

  /** A component that is the name of a folder. */
  predicate FolderPart(part: string) { PlainName(part) && '\\' !in part && part != "." && part != ".." }

  lemma {:induction false} FolderKey(cwd: string, part: string)
    requires FolderPart(part)
    ensures KeysFrom(cwd, part)[0] == Lower(Under(cwd, part))
  {
    ReplacedIs(part);
    assert TrimStart(part, c => c == '/') == part by { assert part[0] in part; }
    if cwd != "" {
      LowerConcat(cwd + "/", part);
      LowerConcat(cwd, "/");
      assert Lower("/") == "/" by { assert "/"[1..] == ""; }
      assert cwd + "/" + part == (cwd + "/") + part;
    }
  }

  /** A component that names a folder below the working directory leads there. */
  lemma {:induction false} CdDescends(d: Dir, cwd: string, part: string)
    requires FolderPart(part) && Lower(Under(cwd, part)) in d.dirs
    ensures Walk(d, cwd, [part]) == d.dirs[Lower(Under(cwd, part))]
  {
    FolderKey(cwd, part);
    assert [part][1..] == [];
  }

  /** One that no directory up to the root has stops the walk where it is. */
  lemma {:induction false} CdStops(d: Dir, cwd: string, part: string, more: seq<string>)
    requires FolderPart(part)
    requires forall i :: 0 <= i < |Ancestors(cwd)| ==> Under(Lower(Ancestors(cwd)[i]), NormalName(part)) !in d.dirs
    ensures Walk(d, cwd, [part] + more) == cwd
  {
    KeysFollowAncestors(cwd, NormalName(part));
    FirstHitIs(KeysFrom(cwd, part), d.dirs);
    var keys := KeysFrom(cwd, part);
    assert forall i :: 0 <= i < |keys| ==> keys[i] !in d.dirs;
    assert ([part] + more)[1..] == more;
  }

  /** `..` leads from a folder to the directory it is in, and `.` and empty components nowhere. */
  lemma {:induction false} CdGoesUp(d: Dir, cwd: string, name: string, more: seq<string>)
    ensures PlainName(name) ==> Walk(d, Under(cwd, name), [".."] + more) == Walk(d, cwd, more)
    ensures Walk(d, "", [".."] + more) == Walk(d, "", more)
    ensures Walk(d, cwd, ["."] + more) == Walk(d, cwd, more) && Walk(d, cwd, [""] + more) == Walk(d, cwd, more)
  {
    assert ([".."] + more)[1..] == more && (["."] + more)[1..] == more && ([""] + more)[1..] == more;
    if PlainName(name) {
      ParentOfUnder(cwd, name);
    }
    assert Parent("") == "";
  }

  lemma {:induction false} ParentInLowerCase(d: Dir, cwd: string, part: string, key: string)
    requires FolderPart(part) && key == Lower(Under(cwd, part)) && key in d.dirs && DirsClosed(d.dirs)
    ensures Lower(Parent(d.dirs[key])) == Lower(cwd)
  {
    LowerParent(d.dirs[key]);
    LowerParent(Under(cwd, part));
    ParentOfUnder(cwd, part);
  }

  /** Down into a folder and up again is where one was, up to case. */
  lemma {:induction false} CdDownAndUp(d: Dir, cwd: string, part: string)
    requires FolderPart(part) && Lower(Under(cwd, part)) in d.dirs && DirsClosed(d.dirs)
    ensures Lower(Walk(d, cwd, [part, ".."])) == Lower(cwd)
  {
    var path := d.dirs[Lower(Under(cwd, part))];
    FolderKey(cwd, part);
    assert [part, ".."][1..] == [".."] && [".."][1..] == [];
    assert Walk(d, Parent(path), []) == Parent(path);
    assert Walk(d, path, [".."]) == Parent(path);
    ParentInLowerCase(d, cwd, part, Lower(Under(cwd, part)));
  }

  /** A path is split at both kinds of slash; one that starts with a slash starts at the root. */
  lemma {:induction false} CdFollowsThePath(d: Dir, env: Env, written: string, path: string)
    requires Trim(Expanded(env.vars, written).0) == path && Bare(path)
    ensures ChangedDir(d, env, written) == env.(cwd :=
      Walk(d, if path != "" && path[0] in {'/', '\\'} then "" else env.cwd, SplitOn(ReplaceChar(path, '\\', '/'), '/')))
  {
  }

  // ----- Payloads and prose -----

  /** `stem.ext`, the last dot between them, the extension one to four bytes long. */
  predicate HasExtension(arg: string, stem: string, ext: string) {
    arg == stem + "." + ext && stem != "" && '.' !in ext && 1 <= Utf8Len(ext) <= 4
  }

  lemma {:induction false} LastDotIs(arg: string)
    ensures RFind(arg, '.').None? ==> '.' !in arg
    ensures RFind(arg, '.').Some? ==>
      var i := RFind(arg, '.').value; arg == arg[..i] + "." + arg[i + 1..] && '.' !in arg[i + 1..]
  {
    RFindFacts(arg, '.');
  }

  lemma {:induction false} ExtensionIs(arg: string, stem: string, ext: string)
    requires arg == stem + "." + ext && '.' !in ext
    ensures RFind(arg, '.') == Some(|stem|) && arg[|stem| + 1..] == ext
  {
    assert arg[|stem|] == '.' && forall k :: |stem| < k < |arg| ==> arg[k] == ext[k - |stem| - 1];
    RFindIs(arg, '.', |stem|);
  }

  /** An argument of at least four bytes that is no switch, redirection or variable, and no file that scripts make,
      is a payload exactly when the folder has it or it is written as a file: a short extension and some letter. */
  lemma {:induction false} PayloadIff(d: Dir, cwd: string, arg: string)
    ensures LooksLikePayload(d, cwd, arg) <==>
      && Utf8Len(arg) >= 4 && arg[0] !in "/-<>$%" && !IsRuntimeFile(arg)
      && (GetIn(d, cwd, arg).Some? ||
          ((exists c :: c in arg && IsAsciiAlpha(c)) && exists stem, ext :: HasExtension(arg, stem, ext)))
  {
    LastDotIs(arg);
    if RFind(arg, '.').Some? {
      var i := RFind(arg, '.').value;
      assert i > 0 && 1 <= Utf8Len(arg[i + 1..]) <= 4 ==> HasExtension(arg, arg[..i], arg[i + 1..]);
    }
    forall stem, ext | HasExtension(arg, stem, ext)
      ensures RFind(arg, '.') == Some(|stem|) && arg[|stem| + 1..] == ext
    {
      ExtensionIs(arg, stem, ext);
    }
  }

  /** A short extension of letters and digits. */
  lemma {:induction false} FilenameIff(arg: string)
    ensures LooksLikeFilename(arg) <==>
      exists stem, ext :: HasExtension(arg, stem, ext) && forall c :: c in ext ==> IsAsciiAlnum(c)
  {
    LastDotIs(arg);
    if LooksLikeFilename(arg) {
      var i := RFind(arg, '.').value;
      assert HasExtension(arg, arg[..i], arg[i + 1..]);
    }
    forall stem, ext | HasExtension(arg, stem, ext)
      ensures RFind(arg, '.') == Some(|stem|) && arg[|stem| + 1..] == ext
    {
      ExtensionIs(arg, stem, ext);
    }
  }

  /** A command is prose when it has no dot and is followed by two or more words none of which is a switch or a
      file name. */
  lemma {:induction false} ProseIff(exec: string, args: seq<string>)
    ensures IsProse(exec, args) <==>
      && '.' !in exec && |args| > 1
      && forall a :: a in args ==> (a == "" || a[0] !in "/-") && !LooksLikeFilename(a)
  {
  }

  // ----- Settings -----

  lemma {:induction false} NothingToReplace(vars: Vars, s: string)
    requires '%' !in s
    ensures Substituted(vars, s) == (s, [])
  {
    SplitOnceParts(s, '%');
  }

  lemma {:induction false} OneReferenceExpands(vars: Vars, used: string, value: string)
    requires '%' !in used && '%' !in value && Lower(used) in vars && vars[Lower(used)] == value
    ensures Expanded(vars, "%" + used + "%") == (value, [])
  {
    var s := "%" + used + "%";
    FirstReferenceIs(vars, "", used, "");
    NothingToReplace(vars, "");
    NothingToReplace(vars, value);
    assert "" + (['%'] + (used + (['%'] + ""))) == s && "" + (value + "") == value;
    assert Substituted(vars, s) == (value, []);
    assert s[0] == '%';
    assert value != s;
    assert Rounds(vars, value, [], 7) == (value, []);
  }

  lemma {:induction false} LowerHasNoPercent(s: string, t: string)
    requires Lower(s) == Lower(t) && '%' !in s
    ensures '%' !in t
  {
    assert |Lower(s)| == |s| && |Lower(t)| == |t|;
    forall i | 0 <= i < |t|
      ensures t[i] != '%'
    {
      LowerAt(s, i);
      LowerAt(t, i);
      assert s[i] in s;
    }
  }

  lemma {:induction false} SetLineSets(origin: string, fromBat: bool, name: string, value: string)
    requires SetName(name) && Bare(value) && name[0] != '-' && PlainLine("set " + (name + ("=" + value)))
    ensures Classify(origin, fromBat, "set " + (name + ("=" + value))) == SetVar(Lower(name), value)
  {
    SetLine(origin, fromBat, "set ", name + ("=" + value));
    TrimOfSetting(name, value);
    SetAssigns(name, value);
  }

  lemma {:induction false} SettingIsFound(vars: Vars, name: string, value: string, used: string)
    requires '%' !in name && '%' !in value && Lower(used) == Lower(name)
    ensures Expanded(vars[Lower(name) := value], "%" + used + "%") == (value, [])
  {
    LowerHasNoPercent(name, used);
    OneReferenceExpands(vars[Lower(name) := value], used, value);
  }

  /** What a `set` line sets, the lines behind it find under the name in any case. */
  lemma {:induction false} SettingsAreUsed(
    d: Dir, env: Env, origin: string, fromBat: bool, name: string, value: string, used: string)
    requires SetName(name) && Bare(value) && name[0] != '-' && '%' !in name && '%' !in value
    requires PlainLine("set " + (name + ("=" + value))) && Lower(used) == Lower(name)
    ensures var kind := Classify(origin, fromBat, "set " + (name + ("=" + value)));
      Expanded(EffectOf(d, env, origin, fromBat, kind).env.vars, "%" + used + "%") == (value, [])
  {
    SetLineSets(origin, fromBat, name, value);
    SettingIsFound(env.vars, name, value, used);
  }

  // ----- Commands -----

  /** The arguments that are payloads, in order. */
  ghost predicate PayloadsAre(d: Dir, cwd: string, args: seq<string>, files: seq<string>) {
    exists picks: seq<nat> :: Picks(picks, args, files) && forall k :: 0 <= k < |args| ==>
      (k in picks <==> LooksLikePayload(d, cwd, args[k]))
  }

  lemma {:induction false} PayloadsAreKept(d: Dir, cwd: string, args: seq<string>, flags: seq<bool>)
    requires |flags| == |args| && forall k :: 0 <= k < |args| ==> flags[k] == LooksLikePayload(d, cwd, args[k])
    ensures Payloads(d, cwd, args) == Flagged(args, flags)
    decreases |args|
  {
    if args != [] {
      assert flags[0] == LooksLikePayload(d, cwd, args[0]);
      PayloadsAreKept(d, cwd, args[1..], flags[1..]);
    }
  }

  lemma {:induction false} PayloadsArePicked(d: Dir, cwd: string, args: seq<string>)
    ensures PayloadsAre(d, cwd, args, Payloads(d, cwd, args))
  {
    var flags := seq(|args|, k requires 0 <= k < |args| => LooksLikePayload(d, cwd, args[k]));
    PayloadsAreKept(d, cwd, args, flags);
    var picks := FlaggedPicks(args, flags);
  }

  /** The command of a line as it is recorded: where it was read and run, its words, and what is wrong with it. */
  ghost predicate Records(
    d: Dir, env: Env, origin: string, fromBat: bool, line: string, words: seq<string>, i: Invocation)
  {
    && words != [] && i.origin == origin && i.cwd == env.cwd && i.fromBat == fromBat
    && i.exec == words[0] && i.args == JoinWith(words[1..], " ")
    && PayloadsAre(d, env.cwd, words[1..], i.files)
    && i.unresolved == Expanded(env.vars, line).1
  }

  /** A command line that calls no script is recorded, as the last command, unless it launches nothing the
      folder has and reads as prose; nothing else changes. */
  lemma {:induction false} CommandsAreRecorded(
    d: Dir, env: Env, origin: string, fromBat: bool, line: string, words: seq<string>)
    requires words == Arguments(Expanded(env.vars, line).0) && words != []
    requires !EndsWith(Lower(words[0]), ".nsh") && !EndsWith(Lower(words[0]), ".bat")
    ensures var e := CommandEffect(d, env, origin, fromBat, line);
      && e.Done? && e.env == env.(out := e.env.out)
      && if ResolveExecIn(d, env.cwd, words[0], !fromBat).None? && IsProse(words[0], words[1..])
         then e.env.out == env.out
         else exists i :: e.env.out == env.out + [i] && Records(d, env, origin, fromBat, line, words, i)
  {
    var files := Payloads(d, env.cwd, words[1..]);
    PayloadsArePicked(d, env.cwd, words[1..]);
    var i := Invocation(
      origin, env.cwd, words[0], JoinWith(words[1..], " "), files, Expanded(env.vars, line).1, fromBat);
    assert Records(d, env, origin, fromBat, line, words, i);
  }

  /** A line that names a script runs it in the same state, but for the note that the folder lacks it. */
  lemma {:induction false} ScriptsAreCalled(
    d: Dir, env: Env, origin: string, fromBat: bool, line: string, words: seq<string>)
    requires words == Arguments(Expanded(env.vars, line).0) && words != []
    requires EndsWith(Lower(words[0]), ".nsh") || EndsWith(Lower(words[0]), ".bat")
    ensures CommandEffect(d, env, origin, fromBat, line) == Include(
      env.(missing := env.missing + if GetIn(d, env.cwd, words[0]).None? then [(origin, words[0])] else []), words[0])
  {
    assert env.missing + [] == env.missing;
  }

  // ----- Scripts -----

  /** A script found from the working directory and not visited yet is read line by line, as a batch file exactly
      when its name ends in `.bat`; one visited is left alone, and one that cannot be read is only marked. */
  lemma {:induction false} ScriptsAreFound(d: Dir, env: Env, script: string, meta: FileMeta)
    requires GetIn(d, env.cwd, script) == Some(meta)
    ensures var (key, text) := (Lower(meta.name), ReadText(d, meta.name));
      if key in env.visited then Lookup(d, env, script) == Seen
      else if text.None? then Lookup(d, env, script) == Unreadable(key)
      else
        var f := Lookup(d, env, script);
        && f.Body? && f.key == key && f.name == meta.name && f.fromBat == EndsWith(key, ".bat")
        && |f.kinds| == |Lines(text.value)|
        && forall k :: 0 <= k < |f.kinds| ==> f.kinds[k] == Classify(f.name, f.fromBat, Lines(text.value)[k])
  {
  }

  /** One the folder lacks, from the working directory up to the root, is passed over. */
  lemma {:induction false} MissingScriptsArePassedOver(d: Dir, env: Env, script: string)
    requires GetIn(d, env.cwd, script) == None
    ensures Lookup(d, env, script) == Nothing
  {
  }

  /** A script's text: its lines, each ended in the Unix or the DOS way. */
  function TextOf(lines: seq<string>, dos: bool): string {
    if lines == [] then "" else lines[0] + ((if dos then "\r\n" else "\n") + TextOf(lines[1..], dos))
  }

  lemma {:induction false} LineIsCut(front: string, rest: string)
    requires '\n' !in front
    ensures Lines(front + ("\n" + rest)) == [DropCr(front)] + Lines(rest)
  {
    var s := front + ("\n" + rest);
    assert s[|front|] == '\n' && forall k :: 0 <= k < |front| ==> s[k] == front[k];
    FindIs(s, '\n', |front|);
    assert s[..|front|] == front && s[|front| + 1..] == rest;
  }

  lemma {:induction false} EndingsAreDropped(line: string, rest: string)
    requires line != "" ==> line[|line| - 1] != '\r'
    ensures line + ("\r\n" + rest) == (line + "\r") + ("\n" + rest)
    ensures DropCr(line + "\r") == DropCr(line) == line
  {
    assert (line + "\r")[..|line|] == line;
  }

  lemma {:induction false} OneLineIsRead(line: string, rest: string, dos: bool)
    requires '\n' !in line && (line != "" ==> line[|line| - 1] != '\r')
    ensures Lines(line + ((if dos then "\r\n" else "\n") + rest)) == [line] + Lines(rest)
  {
    EndingsAreDropped(line, rest);
    LineIsCut(if dos then line + "\r" else line, rest);
  }

  /** Reading the text gives the lines back. */
  lemma {:induction false} LinesAreRead(lines: seq<string>, dos: bool)
    requires forall l :: l in lines ==> '\n' !in l && (l != "" ==> l[|l| - 1] != '\r')
    ensures Lines(TextOf(lines, dos)) == lines
    decreases |lines|
  {
    if lines != [] {
      assert lines[0] in lines && lines == [lines[0]] + lines[1..];
      OneLineIsRead(lines[0], TextOf(lines[1..], dos), dos);
      LinesAreRead(lines[1..], dos);
    }
  }

  // ----- Tools -----

  /** In a UEFI script a command without a dot is its own file, else the `.efi`, else the `.exe`, else the
      `.com`; in a batch file the `.efi` comes last. */
  lemma {:induction false} ToolsAreFoundInOrder(d: Dir, cwd: string, name: string)
    requires '.' !in name && GetIn(d, cwd, name).None?
    ensures var efi, exe := GetIn(d, cwd, name + ".efi"), GetIn(d, cwd, name + ".exe");
      var com := GetIn(d, cwd, name + ".com");
      && ResolveExecIn(d, cwd, name, true) == (if efi.Some? then efi else if exe.Some? then exe else com)
      && ResolveExecIn(d, cwd, name, false) == (if exe.Some? then exe else if com.Some? then com else efi)
  {
    ThreeExtensions(d, cwd, name, ".efi", ".exe", ".com");
    ThreeExtensions(d, cwd, name, ".exe", ".com", ".efi");
  }

  lemma {:induction false} ThreeExtensions(d: Dir, cwd: string, name: string, a: string, b: string, c: string)
    ensures FirstExtension(d, cwd, name, [a, b, c]) ==
      if GetIn(d, cwd, name + a).Some? then GetIn(d, cwd, name + a)
      else if GetIn(d, cwd, name + b).Some? then GetIn(d, cwd, name + b)
      else GetIn(d, cwd, name + c)
  {
    assert [a, b, c][1..] == [b, c] && [b, c][1..] == [c] && [c][1..] == [];
    assert FirstExtension(d, cwd, name, [c]) == GetIn(d, cwd, name + c);
  }

  /** A command that names a file the folder has is that file, and one with a dot is nothing else. */
  lemma {:induction false} ToolsNamedWhole(d: Dir, cwd: string, name: string, preferEfi: bool)
    ensures GetIn(d, cwd, name).Some? ==> ResolveExecIn(d, cwd, name, preferEfi) == GetIn(d, cwd, name)
    ensures '.' in name ==> ResolveExecIn(d, cwd, name, preferEfi) == GetIn(d, cwd, name)
  {
  }
}
