/** What a single script line says, before any state is consulted. */
module ScriptText {
  import opened Wrappers
  import opened Text

  /** First words of lines that are the shell's own and launch nothing. */
  const BUILTIN: set<string> := {
    "echo", "pause", "cls", "goto", "if", "endif", "else", "for", "endfor", "set", "del", "rem",
    "type", "exit", "pushd", "popd", "cd", "copy", "xcopy", "md", "mkdir", "rd", "attrib", "cmd",
    "start", "timeout", "color", "title", "mode", "path", "prompt", "shift", "setlocal",
    "endlocal", "choice", "call", "reset", "map", "mount", "stall", "vol"
  }

  /** Names that exist only while a script runs. */
  const RUNTIME_FILE: set<string> := {"msdm.bin", "yes.txt"}

  /** Labels a `goto` gives up to. */
  const TERMINAL_LABEL: set<string> := {"end", "exit", "eof", "quit", "done", "lerror"}

  /** The part of a line's meaning that no state can change. */
  datatype Kind =
    | Skip
    | Label(mark: string)
    | EndIf
    | Else
    | IfThen(cond: string)
    | SetVar(name: string, value: string)
    | Goto(target: string)
    | Cd(path: string)
    | Command(line: string)

  function CleanLine(raw: string): string {
    Trim(TrimStart(Trim(FilterChars(raw, c => !IsControl(c))), c => c == '@'))
  }

  /** The cleaned line with the script's own name in place of `%0`. */
  function NamedLine(origin: string, raw: string): string {
    var line := CleanLine(raw);
    if Contains(line, "%0") then Replace(line, "%0", AfterLast(origin, '/')) else line
  }

  predicate StartsSkipped(line: string) {
    || line == ""
    || !(IsAsciiAlnum(line[0]) || line[0] in {'_', '%', '.', '\\', '/'})
    || (line[|line| - 1] == ':' && forall c :: c in line ==> !IsWhitespace(c))
  }

  /** The condition of an `if ... then` line. */
  function IfCondition(line: string): Option<string> {
    match StripCi(line, "if ")
    case None => None
    case Some(cond) =>
      if |cond| >= 4 && EqIgnoreCase(cond[|cond| - 4..], "then") then Some(cond[..|cond| - 4]) else None
  }

  /** A `%1`..`%9` or `%~` reference to the caller's arguments. */
  predicate HasPositional(line: string) {
    exists i :: 0 <= i < |line| - 1 && line[i] == '%' && ('1' <= line[i + 1] <= '9' || line[i + 1] == '~')
  }

  function RFindSpace(s: string): (r: Option<nat>)
    ensures r.Some? ==> r.value < |s|
  {
    if s == "" then None
    else if IsWhitespace(s[|s| - 1]) then Some(|s| - 1)
    else RFindSpace(s[..|s| - 1])
  }

  /** `%0`..`%9` as a word of its own; a space that takes several bytes does not separate. */
  predicate PositionalAt(s: string, space: nat)
    requires space < |s|
  {
    Utf8Width(s[space]) == 1 && |s| == space + 3 && s[space + 1] == '%' && IsAsciiDigit(s[space + 2])
  }

  function DropPositionals(s: string): (r: string)
    ensures |r| <= |s|
    decreases |s|
  {
    match RFindSpace(s)
    case None => s
    case Some(space) =>
      if PositionalAt(s, space) then DropPositionals(TrimEnd(s[..space], IsWhitespace)) else s
  }

  method StripTrailingPositionals(line: string) returns (r: string)
    ensures r == DropPositionals(TrimEnd(line, IsWhitespace))
  {
    r := TrimEnd(line, IsWhitespace);
    var space := RFindSpace(r);
    while space.Some?
      invariant space == RFindSpace(r)
      invariant DropPositionals(r) == DropPositionals(TrimEnd(line, IsWhitespace))
      decreases |r|, space.Some?
    {
      if PositionalAt(r, space.value) {
        r := TrimEnd(r[..space.value], IsWhitespace);
        space := RFindSpace(r);
      } else {
        return;
      }
    }
  }

  predicate IsBuiltin(word: string) {
    var w := TrimEnd(Lower(word), c => c in {'.', ':', ','});
    w in BUILTIN || StartsWith(w, "echo")
  }

  predicate IsRuntimeFile(name: string) {
    Lower(AfterLast(ReplaceChar(name, '\\', '/'), '/')) in RUNTIME_FILE
  }

  /** Name and value of a `set` line; a blank name sets nothing. */
  function ParseSet(rest: string): Option<(string, string)> {
    var body := match StripCi(rest, "-v ") case None => rest case Some(r) => r;
    var cut := match Find(body, '=') case Some(i) => Some(i) case None => FindSpace(body);
    match cut
    case None => None
    case Some(i) =>
      var name := Lower(Trim(body[..i]));
      if name == "" then None
      else Some((name, Trim(TrimBy(Trim(body[i + 1..]), c => c == '"'))))
  }

  function FindSpace(s: string): (r: Option<nat>)
    ensures r.Some? ==> r.value < |s|
  {
    if s == "" then None
    else if IsWhitespace(s[0]) then Some(0)
    else match FindSpace(s[1..]) case None => None case Some(i) => Some(i + 1)
  }

  /** What `raw` says in the script `origin`. */
  function Classify(origin: string, fromBat: bool, raw: string): Kind {
    var line := NamedLine(origin, raw);
    if line == "" then Skip
    else if line[0] == ':' then Label(Lower(Trim(line[1..])))
    else if StartsSkipped(line) then Skip
    else
      match BlockKind(line)
      case Some(kind) => kind
      case None =>
        ClassifyCommand(fromBat, if fromBat then DropPositionals(TrimEnd(line, IsWhitespace)) else line)
  }

  /** Block structure, when the line is that. */
  function BlockKind(line: string): (r: Option<Kind>)
    ensures r.Some? ==> r.value.EndIf? || r.value.Else? || r.value.IfThen?
  {
    if EqIgnoreCase(line, "endif") then Some(EndIf)
    else if EqIgnoreCase(line, "else") then Some(Else)
    else
      match IfCondition(line)
      case Some(cond) => Some(IfThen(cond))
      case None => None
  }

  function ClassifyCommand(fromBat: bool, line: string): (r: Kind)
    ensures !r.Label? && !r.EndIf? && !r.Else? && !r.IfThen?
  {
    var setting := StripCi(line, "set ");
    var target := StripCi(line, "goto ");
    var path := StripCi(line, "cd ");
    if HasPositional(line) then Skip
    else if setting.Some? then
      match ParseSet(setting.value) case None => Skip case Some(pair) => SetVar(pair.0, pair.1)
    else if !fromBat && target.Some? then Goto(Lower(TrimStart(Trim(target.value), c => c == ':')))
    else if path.Some? then Cd(path.value)
    else
      var called := StripCi(line, "call ");
      var command := if called.Some? then called.value else line;
      if IsBuiltin(FirstWord(command)) then Skip else Command(command)
  }

  function Kinds(origin: string, fromBat: bool, lines: seq<string>): (r: seq<Kind>)
    ensures |r| == |lines|
  {
    seq(|lines|, i requires 0 <= i < |lines| => Classify(origin, fromBat, lines[i]))
  }

  // ----- Arguments -----

  /** The scan for arguments from any point of it: the argument so far, and whether a quote is open. */
  function SplitFrom(s: string, cur: string, quoted: bool): seq<string> {
    if s == "" then (if cur == "" then [] else [cur])
    else if s[0] == '"' then SplitFrom(s[1..], cur, !quoted)
    else if IsWhitespace(s[0]) && !quoted then
      (if cur == "" then [] else [cur]) + SplitFrom(s[1..], "", quoted)
    else SplitFrom(s[1..], cur + [s[0]], quoted)
  }

  function Arguments(line: string): seq<string> { SplitFrom(line, "", false) }

  method SplitArgs(line: string) returns (out: seq<string>)
    ensures out == Arguments(line)
  {
    out := [];
    var cur, quoted := "", false;
    for i := 0 to |line|
      invariant out + SplitFrom(line[i..], cur, quoted) == Arguments(line)
    {
      var c := line[i];
      assert line[i..][0] == c && line[i..][1..] == line[i + 1..];
      if c == '"' {
        quoted := !quoted;
      } else if IsWhitespace(c) && !quoted {
        if cur != "" {
          assert out + ([cur] + SplitFrom(line[i + 1..], "", quoted))
            == (out + [cur]) + SplitFrom(line[i + 1..], "", quoted);
          out := out + [cur];
          cur := "";
        }
      } else {
        cur := cur + [c];
      }
    }
    if cur != "" {
      out := out + [cur];
    }
  }

  function Quoted(args: seq<string>): string {
    if args == [] then "" else "\"" + args[0] + "\" " + Quoted(args[1..])
  }

  lemma {:induction false} SplitInsideQuotes(a: string, cur: string, rest: string)
    requires '"' !in a
    ensures SplitFrom(a + "\"" + rest, cur, true) == SplitFrom(rest, cur + a, false)
    decreases |a|
  {
    var s := a + "\"" + rest;
    if a == "" {
      assert s[1..] == rest;
      assert cur + a == cur;
    } else {
      assert s[1..] == a[1..] + "\"" + rest;
      SplitInsideQuotes(a[1..], cur + [a[0]], rest);
      assert cur + [a[0]] + a[1..] == cur + a;
    }
  }

  /** Quoting each argument and splitting the line gives the arguments back. */
  lemma {:induction false} QuotedArgumentsRoundTrip(args: seq<string>)
    requires forall a :: a in args ==> a != "" && '"' !in a
    ensures Arguments(Quoted(args)) == args
    decreases |args|
  {
    if args != [] {
      var rest := Quoted(args[1..]);
      var s := Quoted(args);
      assert s[1..] == args[0] + "\"" + (" " + rest);
      SplitInsideQuotes(args[0], "", " " + rest);
      assert "" + args[0] == args[0];
      assert (" " + rest)[1..] == rest;
      QuotedArgumentsRoundTrip(args[1..]);
    }
  }

  predicate LooksLikeFilename(arg: string) {
    match RFind(arg, '.')
    case None => false
    case Some(i) =>
      i > 0 && 1 <= Utf8Len(arg[i + 1..]) <= 4 && forall c :: c in arg[i + 1..] ==> IsAsciiAlnum(c)
  }

  /** A sentence: an undotted word, then at least two that are neither switches nor file names. */
  predicate IsProse(exec: string, args: seq<string>) {
    '.' !in exec && |args| >= 2
    && forall a :: a in args ==> !(a != "" && a[0] in {'/', '-'}) && !LooksLikeFilename(a)
  }
}
