/** Which candidates a folder has and in what order, and which lane its commands run on. */
module CandidateLaws {
  import opened Sequences
  import opened Text
  import opened Numbers
  import opened DirIndex
  import opened ScriptMachine
  import opened Recipe
  import opened Reachability

  // ----- Candidates -----

  /** Those of `names` that the folder has, in order. */
  ghost predicate PresentOf(d: Dir, names: seq<string>, present: seq<string>) {
    exists picks: seq<nat> :: Picks(picks, names, present) && forall k :: 0 <= k < |names| ==>
      (k in picks <==> Get(d, names[k]).Some?)
  }

  lemma {:induction false} PresentIsFlagged(d: Dir, names: seq<string>, flags: seq<bool>)
    requires |flags| == |names| && forall k :: 0 <= k < |names| ==> flags[k] == Get(d, names[k]).Some?
    ensures Present(d, names) == Flagged(names, flags)
    decreases |names|
  {
    if names != [] {
      assert flags[0] == Get(d, names[0]).Some?;
      PresentIsFlagged(d, names[1..], flags[1..]);
    }
  }

  lemma {:induction false} PresentIs(d: Dir, names: seq<string>)
    ensures PresentOf(d, names, Present(d, names))
  {
    var flags := seq(|names|, k requires 0 <= k < |names| => Get(d, names[k]).Some?);
    PresentIsFlagged(d, names, flags);
    var picks := FlaggedPicks(names, flags);
  }

  /** `step1` to `step9`. */
  ghost predicate NineSteps(ext: string, names: seq<string>) {
    |names| == 9 && forall k :: 0 <= k < 9 ==> names[k] == "step" + ["123456789"[k]] + "." + ext
  }

  lemma {:induction false} DigitIs(n: nat)
    requires 1 <= n <= 9
    ensures Decimal(n) == ["123456789"[n - 1]]
  {
    assert Decimal(n) == [DigitChar(n)];
  }

  lemma {:induction false} NumberedFrom(ext: string, from: nat)
    requires 1 <= from <= 10
    ensures |Numbered(ext, from)| == 10 - from
    ensures forall k :: 0 <= k < 10 - from ==>
      Numbered(ext, from)[k] == "step" + ["123456789"[from + k - 1]] + "." + ext
    decreases 10 - from
  {
    if from < 10 {
      DigitIs(from);
      NumberedFrom(ext, from + 1);
      var rest := Numbered(ext, from + 1);
      assert Numbered(ext, from) == ["step" + Decimal(from) + "." + ext] + rest;
      assert forall k :: 0 < k < 10 - from ==> Numbered(ext, from)[k] == rest[k - 1];
    }
  }

  lemma {:induction false} NumberedAreNine(ext: string)
    ensures NineSteps(ext, Numbered(ext, 1))
  {
    NumberedFrom(ext, 1);
  }

  /** The launchers' calls of scripts of this kind that the folder has, each once, in the order first called. */
  ghost predicate CalledOf(d: Dir, calls: seq<string>, ext: string, called: seq<string>) {
    exists picks: seq<nat> :: Picks(picks, calls, called) && forall k :: 0 <= k < |calls| ==>
      (k in picks <==>
        EndsWith(calls[k], ext) && Get(d, calls[k]).Some? && forall j :: 0 <= j < k ==> calls[j] != calls[k])
  }

  predicate Callable(d: Dir, ext: string, call: string) { EndsWith(call, ext) && Get(d, call).Some? }

  lemma {:induction false} CallableAre(d: Dir, calls: seq<string>, ext: string, flags: seq<bool>)
    requires |flags| == |calls| && forall k :: 0 <= k < |calls| ==> flags[k] == Callable(d, ext, calls[k])
    ensures Present(d, EndingIn(calls, ext)) == Flagged(calls, flags)
    decreases |calls|
  {
    if calls != [] {
      assert flags[0] == Callable(d, ext, calls[0]);
      CallableAre(d, calls[1..], ext, flags[1..]);
      var rest := EndingIn(calls[1..], ext);
      assert [] + rest == rest && ([calls[0]] + rest)[1..] == rest;
    }
  }

  /** Flagged, not seen, and not the same as a flagged item before it. */
  ghost predicate FirstFlagged(items: seq<string>, flags: seq<bool>, seen: set<string>, k: nat)
    requires |flags| == |items| && k < |items|
  {
    flags[k] && items[k] !in seen && forall j :: 0 <= j < k && flags[j] ==> items[j] != items[k]
  }

  lemma {:induction false} FirstFlaggedTail(items: seq<string>, flags: seq<bool>, seen: set<string>, k: nat)
    requires |flags| == |items| && 0 < k < |items|
    ensures FirstFlagged(items, flags, seen, k) <==>
      FirstFlagged(items[1..], flags[1..], if flags[0] then seen + {items[0]} else seen, k - 1)
  {
    assert forall j :: 0 <= j < |items| - 1 ==> flags[1..][j] == flags[j + 1] && items[1..][j] == items[j + 1];
    if FirstFlagged(items[1..], flags[1..], if flags[0] then seen + {items[0]} else seen, k - 1) {
      forall j | 0 <= j < k && flags[j]
        ensures items[j] != items[k]
      {
        assert j > 0 ==> flags[1..][j - 1] && items[1..][j - 1] == items[j];
      }
    }
  }

  /** The first of each among the flagged items. */
  lemma {:induction false} UniqueOfFlagged(items: seq<string>, flags: seq<bool>, seen: set<string>, firsts: seq<bool>)
    requires |flags| == |items| == |firsts|
    requires forall k :: 0 <= k < |items| ==> firsts[k] == FirstFlagged(items, flags, seen, k)
    ensures Unseen(Flagged(items, flags), (s: string) => s, seen) == Flagged(items, firsts)
    decreases |items|
  {
    if items != [] {
      var now := if flags[0] then seen + {items[0]} else seen;
      var rest := Flagged(items[1..], flags[1..]);
      forall k | 0 <= k < |items| - 1
        ensures firsts[1..][k] == FirstFlagged(items[1..], flags[1..], now, k)
      {
        FirstFlaggedTail(items, flags, seen, k + 1);
        assert firsts[1..][k] == firsts[k + 1];
      }
      UniqueOfFlagged(items[1..], flags[1..], now, firsts[1..]);
      assert [] + rest == rest && ([items[0]] + rest)[1..] == rest;
      assert flags[0] && items[0] in seen ==> now == seen;
      assert firsts[0] == FirstFlagged(items, flags, seen, 0);
    }
  }

  lemma {:induction false} CalledIs(d: Dir, calls: seq<string>, ext: string)
    ensures CalledOf(d, calls, ext, Unique(Present(d, EndingIn(calls, ext))))
  {
    var flags := seq(|calls|, k requires 0 <= k < |calls| => Callable(d, ext, calls[k]));
    var firsts := seq(|calls|, k requires 0 <= k < |calls| =>
      Callable(d, ext, calls[k]) && forall j :: 0 <= j < k ==> calls[j] != calls[k]);
    CallableAre(d, calls, ext, flags);
    forall k | 0 <= k < |calls|
      ensures firsts[k] == FirstFlagged(calls, flags, {}, k)
    {
    }
    UniqueOfFlagged(calls, flags, {}, firsts);
    var picks := FlaggedPicks(calls, firsts);
  }

  /** Each BIOS script with every EC script; without a BIOS script the EC scripts alone. */
  ghost predicate Paired(bios: seq<string>, ec: seq<string>, tier: Tier) {
    if bios == [] then tier == [ec]
    else |tier| == |bios| && forall k :: 0 <= k < |bios| ==> tier[k] == [bios[k]] + ec
  }

  lemma {:induction false} VariantsPair(bios: seq<string>, ec: seq<string>)
    ensures |Variants(bios, ec)| == |bios| && forall k :: 0 <= k < |bios| ==> Variants(bios, ec)[k] == [bios[k]] + ec
    decreases |bios|
  {
    if bios != [] {
      VariantsPair(bios[1..], ec);
      var rest := Variants(bios[1..], ec);
      assert Variants(bios, ec) == [[bios[0]] + ec] + rest;
      assert forall k :: 0 < k < |bios| ==> Variants(bios, ec)[k] == rest[k - 1] && bios[1..][k - 1] == bios[k];
    }
  }

  function Named(stem: string, ext: string): string { stem + "." + ext }

  function BiosNames(ext: string): seq<string> {
    [Named("FlashPCL", ext), Named("FlashXDX", ext), Named("FlashBBX", ext), Named("flash", ext)]
  }

  /** The four stages for one kind of script: numbered steps, what the launchers call, the conventional names,
      and the folder's own launcher. */
  ghost predicate StagesAre(d: Dir, folder: string, calls: seq<string>, ext: string, stages: seq<Tier>) {
    && |stages| == 4
    && (exists names: seq<string> :: NineSteps(ext, names)
          && |stages[0]| == 1 && PresentOf(d, names, stages[0][0]))
    && |stages[1]| == 1 && CalledOf(d, calls, ext, stages[1][0])
    && (exists bios: seq<string>, ec: seq<string> ::
          && PresentOf(d, BiosNames(ext), bios)
          && PresentOf(d, [Named("FlashEC", ext), Named("EcFlash", ext)], ec)
          && Paired(bios, ec, stages[2]))
    && |stages[3]| == 1 && PresentOf(d, [Named(folder, ext)], stages[3][0])
  }

  lemma {:induction false} FourNames(a: string, b: string, c: string, e: string, ext: string)
    ensures WithExt([a, b, c, e], ext) == [Named(a, ext), Named(b, ext), Named(c, ext), Named(e, ext)]
  {
    assert [a, b, c, e][1..] == [b, c, e] && [b, c, e][1..] == [c, e] && [c, e][1..] == [e] && [e][1..] == [];
    assert WithExt([e], ext) == [Named(e, ext)] + WithExt([], ext);
    assert WithExt([c, e], ext) == [Named(c, ext)] + WithExt([e], ext);
  }

  lemma {:induction false} TwoNames(a: string, b: string, ext: string)
    ensures WithExt([a, b], ext) == [Named(a, ext), Named(b, ext)]
  {
    assert [a, b][1..] == [b] && [b][1..] == [];
    assert WithExt([b], ext) == [Named(b, ext)] + WithExt([], ext);
  }

  lemma {:induction false} TiersAreStages(d: Dir, folder: string, calls: seq<string>, ext: string)
    ensures StagesAre(d, folder, calls, ext, TiersFor(d, folder, calls, ext))
  {
    var stages := TiersFor(d, folder, calls, ext);
    var bios, ec := Present(d, WithExt(FALLBACK_BIOS, ext)), Present(d, WithExt(FALLBACK_EC, ext));
    NumberedAreNine(ext);
    PresentIs(d, Numbered(ext, 1));
    CalledIs(d, calls, ext);
    FourNames("FlashPCL", "FlashXDX", "FlashBBX", "flash", ext);
    TwoNames("FlashEC", "EcFlash", ext);
    PresentIs(d, WithExt(FALLBACK_BIOS, ext));
    PresentIs(d, WithExt(FALLBACK_EC, ext));
    VariantsPair(bios, ec);
    assert Paired(bios, ec, stages[2]);
    PresentIs(d, [folder + "." + ext]);
  }

  /** The items that are not empty, in order. */
  ghost predicate FilledOf<T>(all: seq<seq<T>>, filled: seq<seq<T>>) {
    exists picks: seq<nat> :: Picks(picks, all, filled) && forall k :: 0 <= k < |all| ==> (k in picks <==> all[k] != [])
  }

  lemma {:induction false} NonEmptyIsFlagged<T>(xs: seq<seq<T>>, flags: seq<bool>)
    requires |flags| == |xs| && forall k :: 0 <= k < |xs| ==> flags[k] == (xs[k] != [])
    ensures NonEmpty(xs) == Flagged(xs, flags)
    decreases |xs|
  {
    if xs != [] {
      NonEmptyIsFlagged(xs[1..], flags[1..]);
    }
  }

  lemma {:induction false} NonEmptyIs<T>(xs: seq<seq<T>>)
    ensures FilledOf(xs, NonEmpty(xs))
  {
    var flags := seq(|xs|, k requires 0 <= k < |xs| => |xs[k]| > 0);
    NonEmptyIsFlagged(xs, flags);
    var picks := FlaggedPicks(xs, flags);
  }

  lemma {:induction false} NonEmptySetsAre(tiers: seq<Tier>)
    ensures |NonEmptySets(tiers)| == |tiers|
    ensures forall k :: 0 <= k < |tiers| ==> FilledOf(tiers[k], NonEmptySets(tiers)[k])
    decreases |tiers|
  {
    if tiers != [] {
      NonEmptyIs(tiers[0]);
      NonEmptySetsAre(tiers[1..]);
      var rest := NonEmptySets(tiers[1..]);
      assert NonEmptySets(tiers) == [NonEmpty(tiers[0])] + rest;
      forall k | 0 < k < |tiers|
        ensures FilledOf(tiers[k], NonEmptySets(tiers)[k])
      {
        assert NonEmptySets(tiers)[k] == rest[k - 1] && tiers[1..][k - 1] == tiers[k];
      }
    }
  }

  /** The candidates come from these stages: each without its empty sets, and left out when nothing is left. */
  ghost predicate ComeFrom(stages: seq<Tier>, kept: seq<Tier>, candidates: seq<Tier>) {
    && |kept| == |stages| && (forall k :: 0 <= k < |stages| ==> FilledOf(stages[k], kept[k]))
    && FilledOf(kept, candidates)
  }

  /** The candidates are the stages for UEFI scripts, then the stages for batch files, in this order, each
      without its empty sets and left out when nothing is left of it. */
  lemma {:induction false} CandidatesAreStages(d: Dir, folder: string, calls: seq<string>)
    returns (uefi: seq<Tier>, dos: seq<Tier>, kept: seq<Tier>)
    ensures StagesAre(d, folder, calls, "nsh", uefi) && StagesAre(d, folder, calls, "bat", dos)
    ensures ComeFrom(uefi + dos, kept, CandidateRecipes(d, folder, calls))
  {
    uefi, dos := TiersFor(d, folder, calls, "nsh"), TiersFor(d, folder, calls, "bat");
    kept := NonEmptySets(uefi + dos);
    TiersAreStages(d, folder, calls, "nsh");
    TiersAreStages(d, folder, calls, "bat");
    Cleaned(uefi + dos, kept);
  }

  lemma {:induction false} Cleaned(stages: seq<Tier>, kept: seq<Tier>)
    requires kept == NonEmptySets(stages)
    ensures ComeFrom(stages, kept, NonEmpty(kept))
  {
    NonEmptySetsAre(stages);
    NonEmptyIs(kept);
  }

  // ----- Steps -----

  /** The command could be launched as it stands: no unset name, its tool and every named file there, and no `%`
      left in the tool's path or the arguments. */
  predicate CanLaunch(d: Dir, i: Invocation) {
    && i.unresolved == [] && '%' !in i.args
    && (forall f :: f in i.files ==> GetIn(d, i.cwd, f).Some?)
    && match ResolveExecIn(d, i.cwd, i.exec, !i.fromBat)
       case None => false
       case Some(m) => '%' !in m.name
  }

  lemma {:induction false} PercentStays(path: string)
    ensures '%' in ShellPath(path) <==> '%' in path
    decreases |path|
  {
    if path != "" {
      PercentStays(path[1..]);
      assert path == [path[0]] + path[1..];
    }
  }

  /** A recipe is intact exactly when every command of it could be launched. */
  lemma {:induction false} IntactIffAllLaunch(d: Dir, run: seq<Invocation>)
    ensures Intact(d, run) <==> forall i :: i in run ==> CanLaunch(d, i)
  {
    forall i: Invocation
      ensures StepResolves(d, i) <==> CanLaunch(d, i)
    {
      if Tool(d, i).Some? {
        PercentStays(Tool(d, i).value.name);
      }
    }
  }

  /** The payload of a step is listed as the folder has it, with a size of zero where it does not. */
  lemma {:induction false} FilesAreListed(d: Dir, cwd: string, names: seq<string>)
    ensures var files := FilesOf(d, cwd, names);
      |files| == |names| && forall k :: 0 <= k < |names| ==>
        match GetIn(d, cwd, names[k])
        case None => files[k] == PayloadFile(names[k], 0)
        case Some(m) => files[k].name == ReplaceChar(m.name, '/', '\\') && files[k].size == m.size
    decreases |names|
  {
    if names != [] {
      FilesAreListed(d, cwd, names[1..]);
      var rest := FilesOf(d, cwd, names[1..]);
      assert FilesOf(d, cwd, names) == [FileOf(d, cwd, names[0])] + rest;
      assert forall k :: 0 < k < |names| ==> FilesOf(d, cwd, names)[k] == rest[k - 1] && names[1..][k - 1] == names[k];
    }
  }

  /** The size a step is judged by is that of its largest file. */
  lemma {:induction false} LargestIsMaximum(files: seq<PayloadFile>)
    ensures forall f :: f in files ==> f.size <= Largest(files)
    ensures files != [] ==> exists f :: f in files && f.size == Largest(files)
    ensures files == [] ==> Largest(files) == 0
    decreases |files|
  {
    if files != [] {
      LargestIsMaximum(files[1..]);
      assert files == [files[0]] + files[1..];
      assert files[0] in files;
      if |files| > 1 && Largest(files) != files[0].size {
        var f :| f in files[1..] && f.size == Largest(files[1..]);
        assert f in files;
      }
    }
  }

  /** Bare payloads are written one after the other, each by a step that needs nothing else. */
  lemma {:induction false} BareStepsAre(payloads: seq<FileMeta>, note: string)
    ensures |BareSteps(payloads, note)| == |payloads|
    ensures forall k :: 0 <= k < |payloads| ==>
      var p := payloads[k];
      BareSteps(payloads, note)[k] == FlashStep(k + 1, Bios, p.name, "", [PayloadFile(p.name, p.size)], true, note)
    decreases |payloads|
  {
    if payloads != [] {
      BareStepsAre(payloads[..|payloads| - 1], note);
    }
  }

  // ----- Lanes -----

  lemma {:induction false} AfterLastIsEnd(s: string, c: char, end: string)
    requires end == AfterLast(s, c)
    ensures |end| <= |s| && s[|s| - |end|..] == end && (c in s ==> |end| < |s| && s[|s| - |end| - 1] == c)
  {
    RFindFacts(s, c);
  }

  lemma {:induction false} EndOfEnd(name: string, base: string, ext: string)
    requires |base| <= |name| && name[|name| - |base|..] == base
    requires |ext| == 3 < |base| && base[|base| - 3..] == ext && base[|base| - 4] == '.'
    ensures name[|name| - 4..] == ['.'] + ext
  {
  }

  lemma {:induction false} EfiInLowerCase(name: string, ext: string)
    requires |ext| == 3 < |name| && name[|name| - 4..] == ['.'] + ext && Lower(ext) == "efi"
    ensures EndsWith(Lower(name), ".efi")
  {
    LowerSlice(name, |name| - 4);
    assert (['.'] + ext)[1..] == ext;
  }

  lemma {:induction false} EfiEnd(name: string, base: string, ext: string)
    requires |base| <= |name| && name[|name| - |base|..] == base && Lower(ext) == "efi"
    requires |ext| == 3 < |base| && base[|base| - 3..] == ext && base[|base| - 4] == '.'
    ensures EndsWith(Lower(name), ".efi")
  {
    EndOfEnd(name, base, ext);
    EfiInLowerCase(name, ext);
  }

  lemma {:induction false} EfiBase(name: string, base: string, ext: string)
    requires base == AfterLast(name, '/') && '.' in base && ext == AfterLast(base, '.')
    requires |ext| == 3 && Lower(ext) == "efi"
    ensures EndsWith(Lower(name), ".efi")
  {
    AfterLastIsEnd(name, '/', base);
    AfterLastIsEnd(base, '.', ext);
    EfiEnd(name, base, ext);
  }

  lemma {:induction false} ThreeLetters(ext: string, lower: string)
    requires Lower(ext) == lower && |lower| == 3
    ensures |ext| == 3
  {
  }

  lemma {:induction false} EndsAsEfi(name: string)
    requires EqIgnoreCase(ExtOf(name), "efi")
    ensures EndsWith(Lower(name), ".efi")
  {
    LowerDot();
    ThreeLetters(ExtOf(name), "efi");
    EfiBase(name, AfterLast(name, '/'), ExtOf(name));
  }

  /** `c` is not among the last `n` characters. */
  predicate NotAmongLast(s: string, n: nat, c: char) { n <= |s| && forall k :: |s| - n <= k < |s| ==> s[k] != c }

  lemma {:induction false} BaseKeepsItsEnd(s: string, n: nat, c: char)
    requires NotAmongLast(s, n, c)
    ensures |AfterLast(s, c)| >= n && AfterLast(s, c) == s[|s| - |AfterLast(s, c)|..]
  {
    RFindFacts(s, c);
  }

  lemma {:induction false} AfterLastDot(base: string)
    requires |base| >= 4 && base[|base| - 4] == '.' && NotAmongLast(base, 3, '.')
    ensures '.' in base && AfterLast(base, '.') == base[|base| - 3..]
  {
    RFindIs(base, '.', |base| - 4);
  }

  lemma {:induction false} EfiIsExtension(name: string)
    requires EndsWith(Lower(name), ".efi")
    ensures EqIgnoreCase(ExtOf(name), "efi")
  {
    var cut := |name| - 4;
    var last := name[cut..];
    LowerDot();
    LowerSlice(name, cut);
    EfiLetters(last);
    assert forall k :: cut <= k < |name| ==> name[k] == last[k - cut];
    BaseKeepsItsEnd(name, 4, '/');
    var base := AfterLast(name, '/');
    assert forall k :: |base| - 4 <= k < |base| ==> base[k] == name[k + |name| - |base|];
    AfterLastDot(base);
    assert base[|base| - 3..] == last[1..];
  }

  /** A file's extension is `efi`, in any case, exactly when its path ends so. */
  lemma {:induction false} EfiExtensionIff(name: string)
    ensures EqIgnoreCase(ExtOf(name), "efi") <==> EndsWith(Lower(name), ".efi")
  {
    if EqIgnoreCase(ExtOf(name), "efi") {
      EndsAsEfi(name);
    } else if EndsWith(Lower(name), ".efi") {
      EfiIsExtension(name);
    }
  }

  lemma LowerDot()
    ensures Lower(".efi") == ".efi" && Lower("efi") == "efi"
  {
    assert ".efi"[1..] == "efi" && "efi"[1..] == "fi" && "fi"[1..] == "i" && "i"[1..] == "";
    assert Lower("i") == "i" && Lower("fi") == "fi";
  }

  lemma {:induction false} EfiLetters(last: string)
    requires |last| == 4 && EqIgnoreCase(last, ".efi")
    ensures last[0] == '.' && EqIgnoreCase(last[1..], "efi") && forall k :: 1 <= k < 4 ==> last[k] !in {'.', '/'}
  {
    LowerDot();
    LowerSlice(last, 1);
    forall k | 0 <= k < 4
      ensures LowerChar(last[k]) == ".efi"[k]
    {
      LowerAt(last, k);
    }
  }

  /** A command the firmware can start: it names an `.efi`, or a UEFI script's command is found as one. */
  predicate StartsEfi(d: Dir, i: Invocation) {
    || EndsWith(Lower(i.exec), ".efi")
    || (!i.fromBat &&
        match ResolveExecIn(d, i.cwd, i.exec, true)
        case Some(m) => EndsWith(Lower(m.name), ".efi")
        case None => false)
  }

  /** A batch file's command with `win` in its name. */
  predicate ForWindows(i: Invocation) { i.fromBat && Contains(Lower(i.exec), "win") }

  /** A recipe is launched by the firmware when one of its commands can be; otherwise it is for Windows when all
      of them are, and for DOS when one is not. */
  lemma {:induction false} LanesAre(d: Dir, run: seq<Invocation>)
    ensures LaneOf(d, run) in {Uefi, DosOnly, WindowsOnly}
    ensures LaneOf(d, run) == Uefi <==> exists i :: i in run && StartsEfi(d, i)
    ensures LaneOf(d, run) == WindowsOnly <==> forall i :: i in run ==> ForWindows(i) && !StartsEfi(d, i)
  {
    forall i: Invocation
      ensures RunsEfi(d, i) <==> StartsEfi(d, i)
    {
      if ResolveExecIn(d, i.cwd, i.exec, true).Some? {
        EfiExtensionIff(ResolveExecIn(d, i.cwd, i.exec, true).value.name);
      }
    }
  }
}
