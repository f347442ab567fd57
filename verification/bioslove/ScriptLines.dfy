/** What written lines say: each form of line a script can have, read back from its text. */
module ScriptLines {
  import opened Wrappers
  import opened Text
  import opened ScriptText
  import opened ScriptTheorems

  // ----- Lines as they are written -----

  /** A line that cleaning leaves alone and that refers to none of the caller's arguments. */
  ghost predicate PlainLine(line: string) {
    && line != "" && Trimmed(line) && line[0] != '@' && (forall c :: c in line ==> !IsControl(c))
    && forall i :: 0 <= i < |line| - 1 && line[i] == '%' ==> !IsAsciiDigit(line[i + 1]) && line[i + 1] != '~'
  }

  lemma {:induction false} ContainsPair(s: string, t: string)
    requires |t| == 2 && forall k :: 0 <= k < |s| - 1 ==> s[k] != t[0] || s[k + 1] != t[1]
    ensures !Contains(s, t)
    decreases |s|
  {
    if s != "" {
      forall k | 0 <= k < |s[1..]| - 1
        ensures s[1..][k] != t[0] || s[1..][k + 1] != t[1]
      {
        assert s[k + 1] != t[0] || s[k + 2] != t[1];
      }
      ContainsPair(s[1..], t);
      if |s| >= 2 {
        assert s[..2][0] == s[0] && s[..2][1] == s[1];
        assert s[0] != t[0] || s[1] != t[1];
      }
    }
  }

  lemma {:induction false} PlainLineIsNamed(origin: string, line: string)
    requires PlainLine(line)
    ensures NamedLine(origin, line) == line && !HasPositional(line)
  {
    FilterKeepsAll(line, c => !IsControl(c));
    TrimOfTrimmed(line);
    assert TrimStart(line, c => c == '@') == line;
    ContainsPair(line, "%0");
  }

  lemma {:induction false} PlainLineKeepsItsEnd(line: string)
    requires PlainLine(line)
    ensures DropPositionals(TrimEnd(line, IsWhitespace)) == line
  {
    assert TrimEnd(line, IsWhitespace) == line;
    if RFindSpace(line).Some? {
      var space := RFindSpace(line).value;
      assert |line| == space + 3 && line[space + 1] == '%' ==> !IsAsciiDigit(line[space + 2]);
    }
  }

  // ----- Keywords, in any case -----

  lemma {:induction false} FirstDiffers(line: string, prefix: string)
    requires line != "" && prefix != "" && LowerChar(line[0]) != LowerChar(prefix[0])
    ensures !EqIgnoreCase(line, prefix) && StripCi(line, prefix) == None
  {
    assert Lower(line)[0] == LowerChar(line[0]) && Lower(prefix)[0] == LowerChar(prefix[0]);
    if |prefix| <= |line| {
      assert Lower(line[..|prefix|])[0] == LowerChar(line[0]);
    }
  }

  lemma {:induction false} SecondDiffers(line: string, prefix: string)
    requires |line| > 1 && |prefix| > 1 && LowerChar(line[1]) != LowerChar(prefix[1])
    ensures !EqIgnoreCase(line, prefix) && StripCi(line, prefix) == None
  {
    LowerAt(line, 1);
    LowerAt(prefix, 1);
    if |prefix| <= |line| {
      LowerAt(line[..|prefix|], 1);
    }
  }

  lemma {:induction false} KeywordIsStripped(word: string, prefix: string, rest: string)
    requires EqIgnoreCase(word, prefix)
    ensures StripCi(word + rest, prefix) == Some(Trim(rest))
  {
    assert |word| == |Lower(prefix)| == |prefix|;
    assert (word + rest)[..|prefix|] == word && (word + rest)[|prefix|..] == rest;
  }

  /** The letters of a keyword. */
  lemma {:induction false} KeywordLetters(word: string, prefix: string)
    requires EqIgnoreCase(word, prefix)
    ensures |word| == |prefix| && forall i :: 0 <= i < |word| ==> LowerChar(word[i]) == LowerChar(prefix[i])
  {
    assert |word| == |Lower(word)|;
    forall i | 0 <= i < |word|
      ensures LowerChar(word[i]) == LowerChar(prefix[i])
    {
      LowerAt(word, i);
      LowerAt(prefix, i);
    }
  }

  // ----- Labels and block structure -----

  /** `:name` is the label `name`, in lower case. */
  lemma {:induction false} LabelLine(origin: string, fromBat: bool, name: string)
    requires PlainLine(":" + name)
    ensures Classify(origin, fromBat, ":" + name) == Label(Lower(Trim(name)))
  {
    PlainLineIsNamed(origin, ":" + name);
    assert (":" + name)[1..] == name;
  }

  /** A line that starts with a letter and is neither a block line nor a drive change is a plain command. */
  lemma {:induction false} CommandLine(origin: string, fromBat: bool, line: string)
    requires PlainLine(line) && IsAsciiAlnum(line[0]) && BlockKind(line) == None
    requires line[|line| - 1] != ':' || exists c :: c in line && IsWhitespace(c)
    ensures Classify(origin, fromBat, line) == ClassifyCommand(fromBat, line)
  {
    PlainLineIsNamed(origin, line);
    PlainLineKeepsItsEnd(line);
  }

  lemma {:induction false} BlockLine(origin: string, fromBat: bool, line: string)
    requires PlainLine(line) && IsAsciiAlnum(line[0]) && BlockKind(line).Some?
    requires line[|line| - 1] != ':' || exists c :: c in line && IsWhitespace(c)
    ensures Classify(origin, fromBat, line) == BlockKind(line).value
  {
    PlainLineIsNamed(origin, line);
  }

  /** `else` and `endif`, in any case. */
  lemma {:induction false} ElseAndEndIfLines(origin: string, fromBat: bool, line: string)
    requires PlainLine(line)
    ensures EqIgnoreCase(line, "else") ==> Classify(origin, fromBat, line) == Else
    ensures EqIgnoreCase(line, "endif") ==> Classify(origin, fromBat, line) == EndIf
  {
    if EqIgnoreCase(line, "else") {
      KeywordLetters(line, "else");
      BlockLine(origin, fromBat, line);
    }
    if EqIgnoreCase(line, "endif") {
      KeywordLetters(line, "endif");
      BlockLine(origin, fromBat, line);
    }
  }

  lemma {:induction false} TrimStartOfJoin(s: string, t: string)
    requires t != "" && !IsWhitespace(t[0])
    ensures TrimStart(s + t, IsWhitespace) == TrimStart(s, IsWhitespace) + t
    decreases |s|
  {
    if s == "" {
      assert s + t == t;
    } else {
      assert (s + t)[1..] == s[1..] + t;
      TrimStartOfJoin(s[1..], t);
    }
  }

  lemma {:induction false} ConditionIs(cond: string, ending: string)
    requires EqIgnoreCase(ending, "then")
    ensures Trim(cond + ending) == TrimStart(cond, IsWhitespace) + ending
  {
    KeywordLetters(ending, "then");
    TrimStartOfJoin(cond, ending);
  }

  lemma {:induction false} LastFour(s: string, ending: string)
    requires |ending| == 4
    ensures var body := s + ending; body[|body| - 4..] == ending && body[..|body| - 4] == s
  {
  }

  lemma {:induction false} IfConditionIs(word: string, cond: string, ending: string)
    requires EqIgnoreCase(word, "if ") && EqIgnoreCase(ending, "then")
    ensures IfCondition(word + (cond + ending)) == Some(TrimStart(cond, IsWhitespace))
  {
    KeywordLetters(ending, "then");
    KeywordIsStripped(word, "if ", cond + ending);
    ConditionIs(cond, ending);
    LastFour(TrimStart(cond, IsWhitespace), ending);
  }

  lemma {:induction false} IfLetters(word: string, cond: string, ending: string)
    requires EqIgnoreCase(word, "if ") && EqIgnoreCase(ending, "then")
    ensures var line := word + (cond + ending);
      && !EqIgnoreCase(line, "endif") && !EqIgnoreCase(line, "else")
      && IsAsciiAlnum(line[0]) && line[|line| - 1] != ':'
  {
    var line := word + (cond + ending);
    KeywordLetters(word, "if ");
    KeywordLetters(ending, "then");
    assert line[0] == word[0] && line[|line| - 1] == ending[3];
    FirstDiffers(line, "endif");
    FirstDiffers(line, "else");
  }

  /** `if condition then`, in any case: what stands between the two words. */
  lemma {:induction false} IfLine(origin: string, fromBat: bool, word: string, cond: string, ending: string)
    requires EqIgnoreCase(word, "if ") && EqIgnoreCase(ending, "then") && PlainLine(word + (cond + ending))
    ensures Classify(origin, fromBat, word + (cond + ending)) == IfThen(TrimStart(cond, IsWhitespace))
  {
    IfConditionIs(word, cond, ending);
    IfLetters(word, cond, ending);
    BlockLine(origin, fromBat, word + (cond + ending));
  }

  // ----- Settings, jumps and directories -----

  lemma {:induction false} NoBlockLine(line: string)
    requires line != "" && LowerChar(line[0]) in {'s', 'g', 'c'}
    ensures BlockKind(line) == None
  {
    FirstDiffers(line, "endif");
    FirstDiffers(line, "else");
    FirstDiffers(line, "if ");
  }

  /** A word of a line that starts with an s, g or c and ends in a blank. */
  predicate Keyword(word: string) {
    && word != "" && IsAsciiAlnum(word[0]) && LowerChar(word[0]) in {'s', 'g', 'c'}
    && word[|word| - 1] == ' '
  }

  lemma {:induction false} IsKeyword(word: string, prefix: string)
    requires EqIgnoreCase(word, prefix) && prefix in {"set ", "goto ", "cd ", "call "}
    ensures Keyword(word)
  {
    KeywordLetters(word, prefix);
    var last := |prefix| - 1;
    assert prefix[last] == ' ' && LowerChar(word[last]) == LowerChar(' ');
  }

  lemma {:induction false} KeywordLine(origin: string, fromBat: bool, word: string, rest: string)
    requires Keyword(word) && PlainLine(word + rest)
    ensures Classify(origin, fromBat, word + rest) == ClassifyCommand(fromBat, word + rest)
    ensures !HasPositional(word + rest)
  {
    var line := word + rest;
    assert line[0] == word[0] && line[|word| - 1] == ' ' && line[|word| - 1] in line;
    NoBlockLine(line);
    PlainLineIsNamed(origin, line);
    CommandLine(origin, fromBat, line);
  }

  /** `set` and what follows it. */
  lemma {:induction false} SetLine(origin: string, fromBat: bool, word: string, rest: string)
    requires EqIgnoreCase(word, "set ") && PlainLine(word + rest)
    ensures Classify(origin, fromBat, word + rest) ==
      match ParseSet(Trim(rest)) case None => Skip case Some(pair) => SetVar(pair.0, pair.1)
  {
    IsKeyword(word, "set ");
    KeywordLine(origin, fromBat, word, rest);
    KeywordIsStripped(word, "set ", rest);
  }

  /** A value as it is meant: blanks and quotes around it removed by reading it. */
  predicate Bare(value: string) { Trimmed(value) && (value != "" ==> value[0] != '"' && value[|value| - 1] != '"') }

  lemma {:induction false} BareStays(value: string)
    requires Bare(value)
    ensures Trim(TrimBy(Trim(value), c => c == '"')) == value
  {
    TrimOfTrimmed(value);
  }

  lemma {:induction false} QuotedIsBared(value: string)
    requires Bare(value) && value != ""
    ensures Trim(TrimBy(Trim("\"" + value + "\""), c => c == '"')) == value
  {
    var quoted := "\"" + value + "\"";
    var p := (c: char) => c == '"';
    TrimOfTrimmed(quoted);
    assert quoted[1..] == value + "\"";
    assert (value + "\"")[..|value|] == value;
    assert TrimStart(quoted, p) == value + "\"";
    assert TrimEnd(value + "\"", p) == value;
    TrimOfTrimmed(value);
  }

  /** A variable's name: not blank, no blanks around it, no `=`, and not the switch. */
  predicate SetName(name: string) { name != "" && Trimmed(name) && '=' !in name }

  lemma {:induction false} SettingIs(name: string, written: string, value: string)
    requires SetName(name) && Trim(TrimBy(Trim(written), c => c == '"')) == value
    requires StripCi(name + ("=" + written), "-v ") == None
    ensures ParseSet(name + ("=" + written)) == Some((Lower(name), value))
  {
    var body := name + ("=" + written);
    FindIs(body, '=', |name|);
    assert body[..|name|] == name && body[|name| + 1..] == written;
    TrimOfTrimmed(name);
    assert |Lower(name)| == |name|;
  }

  lemma {:induction false} SwitchIsDropped(name: string, value: string)
    requires SetName(name) && Bare(value) && name[0] != '-'
    ensures ParseSet("-v " + (name + ("=" + value))) == Some((Lower(name), value))
  {
    var body := name + ("=" + value);
    BareStays(value);
    FirstDiffers(body, "-v ");
    SettingIs(name, value, value);
    KeywordIsStripped("-v ", "-v ", body);
    TrimOfSetting(name, value);
    FindIs(body, '=', |name|);
    assert body[..|name|] == name && body[|name| + 1..] == value;
  }

  /** `name=value` sets the name, in lower case, to the value; quotes around the value are not part of it,
      and neither is a `-v` in front. */
  lemma {:induction false} SetAssigns(name: string, value: string)
    requires SetName(name) && Bare(value) && name[0] != '-'
    ensures ParseSet(name + ("=" + value)) == Some((Lower(name), value))
    ensures value != "" ==> ParseSet(name + ("=" + ("\"" + value + "\""))) == Some((Lower(name), value))
    ensures ParseSet("-v " + (name + ("=" + value))) == Some((Lower(name), value))
  {
    var body := name + ("=" + value);
    BareStays(value);
    FirstDiffers(body, "-v ");
    SettingIs(name, value, value);
    if value != "" {
      QuotedIsBared(value);
      FirstDiffers(name + ("=" + ("\"" + value + "\"")), "-v ");
      SettingIs(name, "\"" + value + "\"", value);
    }
    SwitchIsDropped(name, value);
  }

  lemma {:induction false} TrimOfSetting(name: string, value: string)
    requires SetName(name) && Bare(value)
    ensures Trim(name + ("=" + value)) == name + ("=" + value)
  {
    var body := name + ("=" + value);
    assert body[0] == name[0] && body[|body| - 1] == if value == "" then '=' else value[|value| - 1];
    TrimOfTrimmed(body);
  }

  lemma {:induction false} FindSpaceIs(s: string, i: nat)
    requires i < |s| && IsWhitespace(s[i]) && forall k :: 0 <= k < i ==> !IsWhitespace(s[k])
    ensures FindSpace(s) == Some(i)
    decreases |s|
  {
    if i > 0 {
      assert forall k :: 0 <= k < i - 1 ==> s[1..][k] == s[k + 1];
      FindSpaceIs(s[1..], i - 1);
    }
  }

  lemma {:induction false} BlankCuts(name: string, value: string)
    requires (forall c :: c in name ==> !IsWhitespace(c)) && '=' !in name && '=' !in value
    ensures var body := name + (" " + value);
      && Find(body, '=') == None && FindSpace(body) == Some(|name|)
      && body[..|name|] == name && body[|name| + 1..] == value
  {
    var body := name + (" " + value);
    FindFacts(body, '=');
    assert forall k :: 0 <= k < |name| ==> body[k] == name[k] && name[k] in name;
    FindSpaceIs(body, |name|);
  }

  /** Without an `=` the first blank separates the name from the value. */
  lemma {:induction false} SetByBlank(name: string, value: string)
    requires SetName(name) && Bare(value) && name[0] != '-' && '=' !in value
    requires forall c :: c in name ==> !IsWhitespace(c)
    ensures ParseSet(name + (" " + value)) == Some((Lower(name), value))
  {
    var body := name + (" " + value);
    FirstDiffers(body, "-v ");
    BlankCuts(name, value);
    TrimOfTrimmed(name);
    BareStays(value);
    assert |Lower(name)| == |name|;
  }

  lemma {:induction false} GotoIs(word: string, written: string, name: string)
    requires EqIgnoreCase(word, "goto ") && Trimmed(written) && !HasPositional(word + written)
    requires TrimStart(written, c => c == ':') == name
    ensures ClassifyCommand(false, word + written) == Goto(Lower(name))
  {
    KeywordLetters(word, "goto ");
    KeywordIsStripped(word, "goto ", written);
    TrimOfTrimmed(written);
    FirstDiffers(word + written, "set ");
  }

  lemma {:induction false} OneGotoLine(origin: string, word: string, written: string, name: string)
    requires EqIgnoreCase(word, "goto ") && PlainLine(word + written) && Trimmed(written)
    requires TrimStart(written, c => c == ':') == name
    ensures Classify(origin, false, word + written) == Goto(Lower(name))
  {
    IsKeyword(word, "goto ");
    KeywordLine(origin, false, word, written);
    GotoIs(word, written, name);
  }

  /** `goto name` and `goto :name` in a UEFI script jump to `name`, in lower case. */
  lemma {:induction false} GotoLine(origin: string, word: string, name: string)
    requires EqIgnoreCase(word, "goto ") && name != "" && Trimmed(name) && name[0] != ':'
    ensures PlainLine(word + name) ==> Classify(origin, false, word + name) == Goto(Lower(name))
    ensures PlainLine(word + (":" + name)) ==> Classify(origin, false, word + (":" + name)) == Goto(Lower(name))
  {
    var marked := ":" + name;
    if PlainLine(word + name) {
      OneGotoLine(origin, word, name, name);
    }
    if PlainLine(word + marked) {
      assert marked[1..] == name && marked[0] == ':' && marked[|marked| - 1] == name[|name| - 1];
      OneGotoLine(origin, word, marked, name);
    }
  }

  /** `cd path`, in either kind of script. */
  lemma {:induction false} CdLine(origin: string, fromBat: bool, word: string, path: string)
    requires EqIgnoreCase(word, "cd ") && PlainLine(word + path)
    ensures Classify(origin, fromBat, word + path) == Cd(Trim(path))
  {
    KeywordLetters(word, "cd ");
    IsKeyword(word, "cd ");
    KeywordLine(origin, fromBat, word, path);
    KeywordIsStripped(word, "cd ", path);
    FirstDiffers(word + path, "set ");
    FirstDiffers(word + path, "goto ");
  }

  /** `call command` is the command, unless its first word is one of the shell's own. */
  lemma {:induction false} CallLine(origin: string, fromBat: bool, word: string, command: string)
    requires EqIgnoreCase(word, "call ") && PlainLine(word + command)
    ensures Classify(origin, fromBat, word + command)
      == if IsBuiltin(FirstWord(Trim(command))) then Skip else Command(Trim(command))
  {
    KeywordLetters(word, "call ");
    IsKeyword(word, "call ");
    KeywordLine(origin, fromBat, word, command);
    KeywordIsStripped(word, "call ", command);
    FirstDiffers(word + command, "set ");
    FirstDiffers(word + command, "goto ");
    SecondDiffers(word + command, "cd ");
  }

  lemma {:induction false} BatchCommandsDoNotJump(line: string)
    ensures !ClassifyCommand(true, line).Goto?
  {
  }

  lemma {:induction false} BlocksAreNoJumps(line: string)
    ensures BlockKind(line).Some? ==> !BlockKind(line).value.Goto?
  {
  }

  /** In a batch file `goto` is no jump. */
  lemma {:induction false} BatchFilesDoNotJump(origin: string, raw: string)
    ensures !Classify(origin, true, raw).Goto?
  {
    var line := NamedLine(origin, raw);
    BlocksAreNoJumps(line);
    BatchCommandsDoNotJump(DropPositionals(TrimEnd(line, IsWhitespace)));
  }

  // ----- Lines that are cleaned, skipped or cut -----

  /** Control characters at the end of a line and `@`s in front are no part of it. */
  lemma {:induction false} DecorationIsCleaned(line: string, front: string, back: string)
    requires PlainLine(line) && (forall c :: c in front ==> c == '@') && forall c :: c in back ==> IsControl(c)
    ensures CleanLine(front + line + back) == line
  {
    var shown := front + line;
    assert shown[|shown| - 1] == line[|line| - 1] && (front != "" ==> shown[0] == front[0] && front[0] in front);
    ControlsAreDropped(shown, back);
    TrimOfTrimmed(shown);
    TrimStartDrops(front, line, c => c == '@');
    TrimOfTrimmed(line);
  }

  lemma {:induction false} ControlsAreDropped(shown: string, back: string)
    requires (forall c :: c in shown ==> !IsControl(c)) && forall c :: c in back ==> IsControl(c)
    ensures FilterChars(shown + back, c => !IsControl(c)) == shown
  {
    var keep := (c: char) => !IsControl(c);
    FilterConcat(shown, back, keep);
    FilterKeepsAll(shown, keep);
    FilterDropsAll(back, keep);
    assert shown + "" == shown;
  }

  lemma {:induction false} FilterConcat(a: string, b: string, keep: char -> bool)
    ensures FilterChars(a + b, keep) == FilterChars(a, keep) + FilterChars(b, keep)
    decreases |a|
  {
    if a == "" {
      assert a + b == b;
    } else {
      assert (a + b)[1..] == a[1..] + b;
      FilterConcat(a[1..], b, keep);
    }
  }

  lemma {:induction false} FilterDropsAll(s: string, keep: char -> bool)
    requires forall c :: c in s ==> !keep(c)
    ensures FilterChars(s, keep) == ""
    decreases |s|
  {
    if s != "" {
      assert s[0] in s && forall c :: c in s[1..] ==> c in s;
      FilterDropsAll(s[1..], keep);
    }
  }

  lemma {:induction false} TrimStartDrops(front: string, s: string, p: char -> bool)
    requires s != "" && !p(s[0]) && forall c :: c in front ==> p(c)
    ensures TrimStart(front + s, p) == s
    decreases |front|
  {
    if front == "" {
      assert front + s == s;
    } else {
      assert front[0] in front && (front + s)[1..] == front[1..] + s;
      TrimStartDrops(front[1..], s, p);
    }
  }

  // ----- Lines that say nothing -----

  /** A line is read for nothing when it starts with none of the characters a command can start with, or is one
      word that ends in a colon. */
  lemma {:induction false} IdleLinesAreSkipped(origin: string, fromBat: bool, line: string)
    requires PlainLine(line) && line[0] != ':'
    requires (!IsAsciiAlnum(line[0]) && line[0] !in "_%.\\/")
      || (line[|line| - 1] == ':' && forall c :: c in line ==> !IsWhitespace(c))
    ensures Classify(origin, fromBat, line) == Skip
  {
    PlainLineIsNamed(origin, line);
  }

  lemma {:induction false} EmptyLinesAreSkipped(origin: string, fromBat: bool, raw: string)
    requires CleanLine(raw) == ""
    ensures Classify(origin, fromBat, raw) == Skip
  {
    assert !Contains("", "%0");
  }

  /** A UEFI script's command that refers to the caller's arguments is not run. */
  lemma {:induction false} PositionalCommandsAreSkipped(line: string, i: nat)
    requires i + 1 < |line| && line[i] == '%' && line[i + 1] in "123456789~"
    ensures ClassifyCommand(false, line) == Skip
  {
  }

  lemma {:induction false} LastSpaceIs(s: string, space: nat)
    requires space < |s| && IsWhitespace(s[space]) && forall k :: space < k < |s| ==> !IsWhitespace(s[k])
    ensures RFindSpace(s) == Some(space)
    decreases |s|
  {
    if space < |s| - 1 {
      LastSpaceIs(s[..|s| - 1], space);
    }
  }

  /** A batch file's command loses the arguments it only passes on, however many there are. */
  lemma {:induction false} PassedOnArgumentsAreDropped(command: string, digit: char)
    requires IsAsciiDigit(digit)
    ensures DropPositionals(TrimEnd(command + " %" + [digit], IsWhitespace))
      == DropPositionals(TrimEnd(command, IsWhitespace))
  {
    var line := command + " %" + [digit];
    assert |line| == |command| + 3 && line[|command|] == ' ' && line[|command| + 1] == '%' && line[|line| - 1] == digit;
    assert TrimEnd(line, IsWhitespace) == line;
    LastSpaceIs(line, |command|);
    assert line[..|command|] == command;
  }

  lemma {:induction false} ReplaceFirst(s: string, base: string)
    requires StartsWith(s, "%0")
    ensures Contains(s, "%0") && Replace(s, "%0", base) == base + Replace(s[2..], "%0", base)
  {
  }

  lemma {:induction false} ReplaceLater(s: string, base: string)
    requires s != "" && s[0] != '%'
    ensures Contains(s, "%0") <==> Contains(s[1..], "%0")
    ensures Replace(s, "%0", base) == [s[0]] + Replace(s[1..], "%0", base)
  {
    assert !StartsWith(s, "%0");
  }

  lemma {:induction false} ReplaceBehind(a: string, tail: string, base: string, out: string)
    requires '%' !in a && Contains(tail, "%0") && Replace(tail, "%0", base) == out
    ensures Contains(a + tail, "%0") && Replace(a + tail, "%0", base) == a + out
    decreases |a|
  {
    if a == "" {
      assert a + tail == tail && a + out == out;
    } else {
      var s := a + tail;
      assert s[0] == a[0] && a[0] in a && s[1..] == a[1..] + tail;
      ReplaceLater(s, base);
      ReplaceBehind(a[1..], tail, base, out);
      assert [a[0]] + (a[1..] + out) == a + out;
    }
  }

  lemma {:induction false} ReplaceOnce(a: string, b: string, base: string)
    requires '%' !in a && '%' !in b
    ensures Contains(a + ("%0" + b), "%0") && Replace(a + ("%0" + b), "%0", base) == a + (base + b)
  {
    var tail := "%0" + b;
    assert tail[..2] == "%0" && tail[2..] == b;
    ReplaceFirst(tail, base);
    NothingReplaced(b, base);
    ReplaceBehind(a, tail, base, base + b);
  }

  lemma {:induction false} NothingReplaced(b: string, base: string)
    requires '%' !in b
    ensures Replace(b, "%0", base) == b
    decreases |b|
  {
    if b != "" {
      assert b[0] in b && !StartsWith(b, "%0");
      NothingReplaced(b[1..], base);
    }
  }

  /** `%0` stands for the script's own name, without its folder. */
  lemma {:induction false} OwnNameIsFilledIn(folder: string, name: string, raw: string, a: string, b: string)
    requires CleanLine(raw) == a + ("%0" + b) && '%' !in a && '%' !in b && '/' !in name
    ensures NamedLine(folder + "/" + name, raw) == a + (name + b) && NamedLine(name, raw) == a + (name + b)
  {
    ReplaceOnce(a, b, name);
    RFindFacts(name, '/');
    var path := folder + "/" + name;
    assert path[|folder|] == '/' && forall k :: |folder| < k < |path| ==> path[k] == name[k - |folder| - 1];
    RFindIs(path, '/', |folder|);
    assert path[|folder| + 1..] == name;
  }

  predicate ListedBuiltin(w: string) {
    w in {
      "pause", "cls", "goto", "if", "endif", "else", "for", "endfor", "set", "del", "rem", "type", "exit", "pushd",
      "popd", "cd", "copy", "xcopy", "md", "mkdir", "rd", "attrib", "cmd", "start", "timeout", "color", "title", "mode",
      "path", "prompt", "shift", "setlocal", "endlocal", "choice", "call", "reset", "map", "mount", "stall", "vol"}
  }

  lemma {:induction false} BuiltinListIs(w: string)
    ensures w in BUILTIN || StartsWith(w, "echo") <==> ListedBuiltin(w) || StartsWith(w, "echo")
  {
  }

  lemma {:induction false} MarksAreDropped(word: string, marks: string, w: string)
    requires (forall c :: c in marks ==> c in ".:,") && (word != "" ==> word[|word| - 1] !in ".:,")
    requires w == TrimEnd(Lower(word + marks), c => c in {'.', ':', ','})
    ensures w == Lower(word)
  {
    var p := (c: char) => c in {'.', ':', ','};
    LowerConcat(word, marks);
    MarksInLowerCase(marks);
    TrimEndDrops(Lower(word), marks, p);
    if word != "" {
      LowerAt(word, |word| - 1);
    }
    assert TrimEnd(Lower(word), p) == Lower(word);
  }

  /** The shell's own words, in any case and with dots, colons or commas stuck on; `echo` with anything. */
  lemma {:induction false} BuiltinWordsAre(word: string, marks: string)
    requires (forall c :: c in marks ==> c in ".:,") && (word != "" ==> word[|word| - 1] !in ".:,")
    ensures IsBuiltin(word + marks) <==> ListedBuiltin(Lower(word)) || StartsWith(Lower(word), "echo")
  {
    MarksAreDropped(word, marks, TrimEnd(Lower(word + marks), c => c in {'.', ':', ','}));
    BuiltinListIs(Lower(word));
  }

  lemma {:induction false} MarksInLowerCase(marks: string)
    requires forall c :: c in marks ==> c in ".:,"
    ensures Lower(marks) == marks
    decreases |marks|
  {
    if marks != "" {
      assert marks[0] in marks && marks == [marks[0]] + marks[1..];
      MarksInLowerCase(marks[1..]);
    }
  }

  lemma {:induction false} TrimEndDrops(s: string, back: string, p: char -> bool)
    requires forall c :: c in back ==> p(c)
    ensures TrimEnd(s + back, p) == TrimEnd(s, p)
    decreases |back|
  {
    if back == "" {
      assert s + back == s;
    } else {
      assert back[|back| - 1] in back && (s + back)[..|s + back| - 1] == s + back[..|back| - 1];
      TrimEndDrops(s, back[..|back| - 1], p);
    }
  }
}
