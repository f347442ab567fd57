/** The candidate recipes of a model directory, the steps of the chosen one, and the judgement
    that an entry is reachable. */
module Reachability {
  import opened Sequences
  import opened Wrappers
  import opened Text
  import opened Numbers
  import opened DirIndex
  import opened ScriptMachine
  import opened Recipe

  const FALLBACK_BIOS := ["FlashPCL", "FlashXDX", "FlashBBX", "flash"]
  const FALLBACK_EC := ["FlashEC", "EcFlash"]

  // ----- Candidates -----

  function Present(d: Dir, names: seq<string>): seq<string> {
    if names == [] then [] else (if Get(d, names[0]).Some? then [names[0]] else []) + Present(d, names[1..])
  }

  function Numbered(ext: string, from: nat): seq<string>
    decreases 10 - from
  {
    if from > 9 then [] else ["step" + Decimal(from) + "." + ext] + Numbered(ext, from + 1)
  }

  function WithExt(stems: seq<string>, ext: string): seq<string> {
    if stems == [] then [] else [stems[0] + "." + ext] + WithExt(stems[1..], ext)
  }

  function EndingIn(names: seq<string>, ext: string): seq<string> {
    if names == [] then [] else (if EndsWith(names[0], ext) then [names[0]] else []) + EndingIn(names[1..], ext)
  }

  /** Each BIOS recipe paired with all EC recipes. */
  function Variants(bios: seq<string>, ec: seq<string>): Tier {
    if bios == [] then [] else [[bios[0]] + ec] + Variants(bios[1..], ec)
  }

  function Unique(names: seq<string>): seq<string> { Unseen(names, (s: string) => s, {}) }

  /** The tiers of one script kind: numbered steps, what the launchers call, the conventional
      names, the folder's own launcher. */
  function TiersFor(d: Dir, folder: string, calls: seq<string>, ext: string): seq<Tier> {
    var ec := Present(d, WithExt(FALLBACK_EC, ext));
    var bios := Present(d, WithExt(FALLBACK_BIOS, ext));
    [ [Present(d, Numbered(ext, 1))],
      [Unique(Present(d, EndingIn(calls, ext)))],
      if bios == [] then [ec] else Variants(bios, ec),
      [Present(d, [folder + "." + ext])] ]
  }

  function NonEmpty<T>(xs: seq<seq<T>>): seq<seq<T>> {
    if xs == [] then [] else (if xs[0] != [] then [xs[0]] else []) + NonEmpty(xs[1..])
  }

  function NonEmptySets(tiers: seq<Tier>): seq<Tier> {
    if tiers == [] then [] else [NonEmpty(tiers[0])] + NonEmptySets(tiers[1..])
  }

  /** Every UEFI tier before any DOS one, nothing empty. */
  function CandidateRecipes(d: Dir, folder: string, calls: seq<string>): seq<Tier> {
    NonEmpty(NonEmptySets(TiersFor(d, folder, calls, "nsh") + TiersFor(d, folder, calls, "bat")))
  }

  // ----- Steps -----

  datatype StepKind = Bios | Ec | Me | Gate | Other

  datatype Lane = Uefi | DosOnly | InBiosOnly | WindowsOnly | Capsule

  datatype PayloadFile = PayloadFile(name: string, size: nat)

  datatype FlashStep = FlashStep(
    index: nat,
    kind: StepKind,
    exec: string,
    args: string,
    files: seq<PayloadFile>,
    resolved: bool,
    note: string)

  /** How the kind of a step is read off its tool, arguments and sizes. */
  type Classifier = (string, string, nat, nat, bool) -> StepKind

  function ShellPath(name: string): string { ReplaceChar(name, '/', '\\') }

  function FileOf(d: Dir, cwd: string, name: string): PayloadFile {
    match GetIn(d, cwd, name)
    case Some(m) => PayloadFile(ShellPath(m.name), m.size)
    case None => PayloadFile(name, 0)
  }

  function FilesOf(d: Dir, cwd: string, names: seq<string>): seq<PayloadFile> {
    if names == [] then [] else [FileOf(d, cwd, names[0])] + FilesOf(d, cwd, names[1..])
  }

  function Largest(files: seq<PayloadFile>): nat {
    if files == [] then 0
    else if files[0].size > Largest(files[1..]) then files[0].size else Largest(files[1..])
  }

  function ExecName(i: Invocation, tool: Option<FileMeta>): string {
    match tool
    case Some(m) => ShellPath(m.name)
    case None => i.exec
  }

  /** No `%` is left in the command as it would be launched. */
  predicate NothingLeft(i: Invocation, tool: Option<FileMeta>) { '%' !in ExecName(i, tool) && '%' !in i.args }

  predicate StepResolves(d: Dir, i: Invocation) { Resolves(d, i) && NothingLeft(i, Tool(d, i)) }

  method RealSteps(d: Dir, kindOf: Classifier, invocations: seq<Invocation>) returns (steps: seq<FlashStep>)
    ensures |steps| == |invocations|
    ensures forall k :: 0 <= k < |steps| ==> IsStepFor(d, kindOf, invocations[k], k, steps[k])
  {
    steps := [];
    for k := 0 to |invocations|
      invariant |steps| == k
      invariant forall j :: 0 <= j < k ==> IsStepFor(d, kindOf, invocations[j], j, steps[j])
    {
      var step := RealStep(d, kindOf, invocations[k], k);
      steps := steps + [step];
    }
  }

  /** What the step of a command says of it. */
  ghost predicate IsStepFor(d: Dir, kindOf: Classifier, i: Invocation, k: nat, s: FlashStep) {
    && s.index == k + 1 && s.args == i.args && s.exec == ExecName(i, Tool(d, i))
    && s.files == FilesOf(d, i.cwd, i.files)
    && (s.resolved <==> StepResolves(d, i))
    && (s.note == "" <==> i.unresolved == [] && NothingLeft(i, Tool(d, i)))
    && s.kind == kindOf(s.exec, i.args,
      match Tool(d, i) case Some(m) => m.size case None => 0, Largest(s.files), Tool(d, i).Some?)
  }

  /** The named files as the folder has them, and whether it has them all. */
  method CollectFiles(d: Dir, cwd: string, names: seq<string>) returns (files: seq<PayloadFile>, present: bool)
    ensures files == FilesOf(d, cwd, names)
    ensures present <==> FilesPresent(d, cwd, names)
  {
    files, present := [], true;
    for j := 0 to |names|
      invariant files + FilesOf(d, cwd, names[j..]) == FilesOf(d, cwd, names)
      invariant present <==> FilesPresent(d, cwd, names[..j])
    {
      assert names[j..][0] == names[j] && names[j..][1..] == names[j + 1..];
      assert names[..j + 1] == names[..j] + [names[j]];
      Shift(files, FileOf(d, cwd, names[j]), FilesOf(d, cwd, names[j + 1..]));
      match GetIn(d, cwd, names[j])
      case Some(m) => files := files + [PayloadFile(ShellPath(m.name), m.size)];
      case None =>
        present := false;
        files := files + [PayloadFile(names[j], 0)];
    }
    assert files + [] == files && names[..|names|] == names;
  }

  method RealStep(d: Dir, kindOf: Classifier, inv: Invocation, k: nat) returns (step: FlashStep)
    ensures IsStepFor(d, kindOf, inv, k, step)
  {
    var tool := ResolveExecIn(d, inv.cwd, inv.exec, !inv.fromBat);
    var execName := if tool.Some? then ShellPath(tool.value.name) else inv.exec;
    var resolved := tool.Some?;
    var files, present := CollectFiles(d, inv.cwd, inv.files);
    if !present {
      resolved := false;
    }
    var note := "";
    if inv.unresolved != [] {
      resolved := false;
      note := "unset variable %" + JoinWith(inv.unresolved, "%, %") + "%";
    }
    if note == "" && ('%' in execName || '%' in inv.args) {
      resolved := false;
      note := "a variable in this command was never expanded";
    }
    var size := if tool.Some? then tool.value.size else 0;
    var kind := kindOf(execName, inv.args, size, Largest(files), tool.Some?);
    step := FlashStep(k + 1, kind, execName, inv.args, files, resolved, note);
  }

  /** Without any command each bare payload is a BIOS step of its own. */
  function BareSteps(payloads: seq<FileMeta>, note: string): seq<FlashStep> {
    if payloads == [] then []
    else
      var last := payloads[|payloads| - 1];
      BareSteps(payloads[..|payloads| - 1], note)
      + [FlashStep(|payloads|, Bios, last.name, "", [PayloadFile(last.name, last.size)], true, note)]
  }

  // ----- The lane and the judgement -----

  predicate Launchable(lane: Lane) { lane == Uefi || lane == Capsule }

  function ExtOf(name: string): string {
    var base := AfterLast(name, '/');
    if '.' in base then AfterLast(base, '.') else ""
  }

  predicate RunsEfi(d: Dir, i: Invocation) {
    || EndsWith(Lower(i.exec), ".efi")
    || (!i.fromBat &&
        match ResolveExecIn(d, i.cwd, i.exec, true)
        case Some(m) => EqIgnoreCase(ExtOf(m.name), "efi")
        case None => false)
  }

  function LaneOf(d: Dir, run: seq<Invocation>): Lane {
    if exists i :: i in run && RunsEfi(d, i) then Uefi
    else if forall i :: i in run ==> i.fromBat && Contains(Lower(i.exec), "win") then WindowsOnly
    else DosOnly
  }

  datatype Judged = Judged(lane: Lane, steps: seq<FlashStep>, reachable: bool)

  ghost predicate StepsAre(d: Dir, kindOf: Classifier, run: seq<Invocation>, steps: seq<FlashStep>) {
    |steps| == |run| && forall k :: 0 <= k < |run| ==> IsStepFor(d, kindOf, run[k], k, steps[k])
  }

  ghost predicate SomeBios(steps: seq<FlashStep>) { exists s :: s in steps && s.kind == Bios }

  /** Steps, lane and reachability of an entry from its chosen commands, its bare payloads and
      whether one of those is a capsule. A scripted entry is reachable exactly when every tool and
      every named file is in the folder, no variable is left unexpanded, and the firmware would be
      launching a BIOS step. */
  method Judge(d: Dir, kindOf: Classifier, run: seq<Invocation>, payloads: seq<FileMeta>, capsule: bool, note: string)
    returns (r: Judged)
    ensures run == [] ==>
      r == Judged(if capsule then Capsule else InBiosOnly, BareSteps(payloads, note), payloads != [])
    ensures run != [] ==> r.lane == LaneOf(d, run) && StepsAre(d, kindOf, run, r.steps)
    ensures run != [] ==>
      (r.reachable <==> (forall i :: i in run ==> StepResolves(d, i)) && (r.lane == Uefi ==> SomeBios(r.steps)))
  {
    var lane, steps;
    if run == [] {
      lane := if capsule then Capsule else InBiosOnly;
      steps := BareSteps(payloads, note);
      BareStepsFlash(payloads, note);
    } else {
      lane := LaneOf(d, run);
      steps := RealSteps(d, kindOf, run);
      AllResolvedIff(d, kindOf, run, steps);
    }
    var reachable := steps != [] && forall s :: s in steps ==> s.resolved;
    if reachable && Launchable(lane) && !exists s :: s in steps && s.kind == Bios {
      reachable := false;
    }
    r := Judged(lane, steps, reachable);
  }

  lemma {:induction false} BareStepsFlash(payloads: seq<FileMeta>, note: string)
    ensures |BareSteps(payloads, note)| == |payloads|
    ensures forall s :: s in BareSteps(payloads, note) ==> s.resolved && s.kind == Bios
    decreases |payloads|
  {
    if payloads != [] {
      BareStepsFlash(payloads[..|payloads| - 1], note);
    }
  }

  lemma {:induction false} AllResolvedIff(d: Dir, kindOf: Classifier, run: seq<Invocation>, steps: seq<FlashStep>)
    requires StepsAre(d, kindOf, run, steps)
    ensures (forall s :: s in steps ==> s.resolved) <==> (forall i :: i in run ==> StepResolves(d, i))
  {
    if forall s :: s in steps ==> s.resolved {
      forall i | i in run
        ensures StepResolves(d, i)
      {
        var k :| 0 <= k < |run| && run[k] == i;
        assert steps[k] in steps && IsStepFor(d, kindOf, run[k], k, steps[k]);
      }
    }
    if forall i :: i in run ==> StepResolves(d, i) {
      forall s | s in steps
        ensures s.resolved
      {
        var k :| 0 <= k < |steps| && steps[k] == s;
        assert run[k] in run && IsStepFor(d, kindOf, run[k], k, steps[k]);
      }
    }
  }

  // ----- Whether an intact sibling is buried -----

  /** Every step of the run resolves. */
  predicate Intact(d: Dir, run: seq<Invocation>) { forall i :: i in run ==> StepResolves(d, i) }

  predicate LeavesPercent(d: Dir, run: seq<Invocation>) { exists i :: i in run && !NothingLeft(i, Tool(d, i)) }

  predicate HasIntact(d: Dir, runs: seq<seq<Invocation>>) { exists x :: x in runs && x != [] && Intact(d, x) }

  /** The alternative at `j` counts as complete with a `%` left in it, and no intact one is before it. */
  ghost predicate ShadowedBy(d: Dir, runs: seq<seq<Invocation>>, j: nat) {
    && j < |runs| && FullyResolved(d, runs[j]) && LeavesPercent(d, runs[j])
    && forall i :: 0 <= i < j ==> !Intact(d, runs[i])
  }

  ghost predicate Shadowed(d: Dir, runs: seq<seq<Invocation>>) { exists j: nat :: ShadowedBy(d, runs, j) }

  lemma {:induction false} IntactIs(d: Dir, run: seq<Invocation>)
    ensures Intact(d, run) <==> FullyResolved(d, run) && !LeavesPercent(d, run)
  {
    if Intact(d, run) {
      forall i | i in run
        ensures Resolves(d, i) && NothingLeft(i, Tool(d, i))
      {
        assert StepResolves(d, i);
      }
    }
  }

  ghost predicate FirstCleanAt(d: Dir, runs: seq<seq<Invocation>>, k: nat) {
    k < |runs| && FullyResolved(d, runs[k]) && forall j :: 0 <= j < k ==> !FullyResolved(d, runs[j])
  }

  lemma {:induction false} ShadowIsChosen(d: Dir, runs: seq<seq<Invocation>>, k: nat, j: nat)
    requires FirstCleanAt(d, runs, k) && ShadowedBy(d, runs, j)
    ensures !Intact(d, runs[k])
  {
    IntactIs(d, runs[j]);
    assert k <= j;
  }

  lemma {:induction false} ChosenIsShadow(d: Dir, runs: seq<seq<Invocation>>, k: nat)
    requires FirstCleanAt(d, runs, k) && !Intact(d, runs[k])
    ensures ShadowedBy(d, runs, k)
  {
    IntactIs(d, runs[k]);
    forall i | 0 <= i < k
      ensures !Intact(d, runs[i])
    {
      IntactIs(d, runs[i]);
    }
  }

  /** A tier's first complete alternative fails to be intact exactly when the tier is shadowed. */
  lemma {:induction false} FirstCleanIsIntactIff(d: Dir, runs: seq<seq<Invocation>>, r: seq<Invocation>)
    requires FirstClean(d, runs, r)
    ensures !Intact(d, r) <==> Shadowed(d, runs)
  {
    var k: nat :| FirstCleanAt(d, runs, k) && runs[k] == r;
    if j: nat :| ShadowedBy(d, runs, j) {
      ShadowIsChosen(d, runs, k, j);
    }
    if !Intact(d, r) {
      ChosenIsShadow(d, runs, k);
    }
  }

  lemma {:induction false} FirstToolDecides(
    d: Dir, runsOf: Runs, tiers: seq<Tier>, menu: seq<Invocation>, k: nat, r: seq<Invocation>)
    requires IsChoice(d, runsOf, tiers, menu, r) && k < |tiers| && NoToolBefore(d, runsOf, tiers, k)
    requires TierHasTool(d, runsOf, tiers[k]) && TierHasRun(d, runsOf, tiers[k])
    ensures TierPicks(d, runsOf, tiers[k], r)
  {
    if j: nat :| ChosenAt(d, runsOf, tiers, j, r) {
      assert TierHasTool(d, runsOf, tiers[j]);
      assert j == k;
    }
  }

  lemma {:induction false} IntactHasTool(d: Dir, runs: seq<seq<Invocation>>)
    requires HasIntact(d, runs)
    ensures HasClean(d, runs) && HasTool(d, runs) && runs != []
  {
    var x :| x in runs && x != [] && Intact(d, x);
    IntactIs(d, x);
    CleanHasTool(d, x);
  }

  lemma {:induction false} IntactTierDecides(
    d: Dir, runsOf: Runs, tiers: seq<Tier>, menu: seq<Invocation>, k: nat, r: seq<Invocation>)
    requires IsChoice(d, runsOf, tiers, menu, r) && k < |tiers| && NoToolBefore(d, runsOf, tiers, k)
    requires HasIntact(d, runsOf(tiers[k]))
    ensures FirstClean(d, runsOf(tiers[k]), r)
  {
    IntactHasTool(d, runsOf(tiers[k]));
    FirstToolDecides(d, runsOf, tiers, menu, k, r);
  }

  /** Of a tier with a tool, the alternative picked is intact exactly when there is an intact one and the
      tier is not shadowed. */
  lemma {:induction false} PickedIsIntactIff(d: Dir, runsOf: Runs, tier: Tier, r: seq<Invocation>)
    requires TierPicks(d, runsOf, tier, r) && forall x :: x in runsOf(tier) ==> x != []
    ensures r in runsOf(tier)
    ensures Intact(d, r) <==> HasIntact(d, runsOf(tier)) && !Shadowed(d, runsOf(tier))
  {
    var runs := runsOf(tier);
    IntactIs(d, r);
    if HasClean(d, runs) {
      FirstCleanIsIntactIff(d, runs, r);
    } else if HasIntact(d, runs) {
      IntactHasTool(d, runs);
    }
  }

  /** The recipe chosen where some tier has a tool is intact exactly when the first such tier has an intact
      alternative and no alternative that counts as complete, but leaves a `%`, comes before every intact one. */
  lemma {:induction false} ChosenIsIntactIff(
    d: Dir, runsOf: Runs, tiers: seq<Tier>, menu: seq<Invocation>, k: nat, r: seq<Invocation>)
    requires IsChoice(d, runsOf, tiers, menu, r) && k < |tiers| && NoToolBefore(d, runsOf, tiers, k)
    requires TierHasTool(d, runsOf, tiers[k]) && forall x :: x in runsOf(tiers[k]) ==> x != []
    ensures r in runsOf(tiers[k])
    ensures Intact(d, r) <==> HasIntact(d, runsOf(tiers[k])) && !Shadowed(d, runsOf(tiers[k]))
  {
    FirstToolDecides(d, runsOf, tiers, menu, k, r);
    PickedIsIntactIff(d, runsOf, tiers[k], r);
  }

  /** Tier `k` is the first with a tool. */
  ghost predicate DecidesFor(d: Dir, runsOf: Runs, tiers: seq<Tier>, k: nat) {
    k < |tiers| && NoToolBefore(d, runsOf, tiers, k) && TierHasTool(d, runsOf, tiers[k])
  }

  ghost predicate DecidesAt(d: Dir, tiers: seq<Tier>, k: nat) { DecidesFor(d, tier => RunsOf(d, tier), tiers, k) }

  /** No tier has a tool, so what stands is the first command there is, or the menu's. */
  ghost predicate NoneDecides(d: Dir, tiers: seq<Tier>) { forall k: nat :: !DecidesAt(d, tiers, k) }

  /** A launchable entry has a BIOS step. */
  ghost predicate FlashesBios(r: Judged) { r.lane == Uefi ==> SomeBios(r.steps) }

  /** No alternative of any tier runs a command. */
  ghost predicate NoRuns(d: Dir, tiers: seq<Tier>) { forall k :: 0 <= k < |tiers| ==> RunsOf(d, tiers[k]) == [] }

  lemma {:induction false} NoToolAnywhere(d: Dir, runsOf: Runs, tiers: seq<Tier>, k: nat)
    requires k <= |tiers| && forall j: nat :: !DecidesFor(d, runsOf, tiers, j)
    ensures NoToolBefore(d, runsOf, tiers, k)
    decreases k
  {
    if k > 0 {
      NoToolAnywhere(d, runsOf, tiers, k - 1);
      assert !DecidesFor(d, runsOf, tiers, k - 1);
    }
  }

  /** Without a tool in any tier the choice is the menu, or a run that launches no tool at all. */
  lemma {:induction false} UndecidedIs(d: Dir, tiers: seq<Tier>, menu: seq<Invocation>, run: seq<Invocation>)
    requires IsChoice(d, tier => RunsOf(d, tier), tiers, menu, run) && NoneDecides(d, tiers)
    ensures if NoRuns(d, tiers) then run == menu else run != [] && !Intact(d, run)
  {
    var runsOf: Runs := tier => RunsOf(d, tier);
    forall j: nat
      ensures !DecidesFor(d, runsOf, tiers, j)
    {
      assert !DecidesAt(d, tiers, j);
    }
    NoToolAnywhere(d, runsOf, tiers, |tiers|);
    assert forall k :: 0 <= k < |tiers| ==> runsOf(tiers[k]) == RunsOf(d, tiers[k]);
    if !NoRuns(d, tiers) {
      var j: nat :| FallsBackTo(d, runsOf, tiers, j, run);
      assert run in RunsOf(d, tiers[j]) && !TierHasTool(d, runsOf, tiers[j]);
      ToollessIsBroken(d, run);
    }
  }

  lemma {:induction false} ToollessIsBroken(d: Dir, run: seq<Invocation>)
    requires run != [] && !AnyExecResolves(d, run)
    ensures !Intact(d, run)
  {
    assert run[0] in run && !StepResolves(d, run[0]);
  }

  lemma {:induction false} DecidedIsIntactIff(
    d: Dir, tiers: seq<Tier>, menu: seq<Invocation>, k: nat, run: seq<Invocation>)
    requires IsChoice(d, tier => RunsOf(d, tier), tiers, menu, run) && DecidesAt(d, tiers, k)
    ensures run != [] && (Intact(d, run) <==> HasIntact(d, RunsOf(d, tiers[k])) && !Shadowed(d, RunsOf(d, tiers[k])))
  {
    var runsOf: Runs := tier => RunsOf(d, tier);
    assert runsOf(tiers[k]) == RunsOf(d, tiers[k]);
    RunsAreNonEmpty(d, tiers[k]);
    ChosenIsIntactIff(d, runsOf, tiers, menu, k, run);
  }

  /** Choosing a recipe and judging the entry it gives. Where some tier has a tool, the entry is reachable
      exactly when the first such tier has an intact alternative, is not shadowed, and the entry would not
      launch without a BIOS step. Where none has, it is reachable at most through its menu or, with no
      command at all, its bare payloads. */
  method BuildEntry(
    d: Dir, kindOf: Classifier, folder: string, calls: seq<string>, menu: seq<Invocation>, payloads: seq<FileMeta>,
    capsule: bool, note: string)
    returns (r: Judged)
    ensures var tiers := CandidateRecipes(d, folder, calls);
      && (forall k: nat :: DecidesAt(d, tiers, k) ==>
            var runs := RunsOf(d, tiers[k]);
            r.reachable == (HasIntact(d, runs) && !Shadowed(d, runs) && FlashesBios(r)))
      && (NoneDecides(d, tiers) ==>
            r.reachable == (NoRuns(d, tiers) &&
              if menu == [] then payloads != [] else Intact(d, menu) && FlashesBios(r)))
  {
    var tiers := CandidateRecipes(d, folder, calls);
    var run := ChooseRecipe(d, tiers, menu);
    r := Judge(d, kindOf, run, payloads, capsule, note);
    forall k: nat | DecidesAt(d, tiers, k)
      ensures r.reachable ==
        (HasIntact(d, RunsOf(d, tiers[k])) && !Shadowed(d, RunsOf(d, tiers[k])) && FlashesBios(r))
    {
      DecidedIsIntactIff(d, tiers, menu, k, run);
    }
    if NoneDecides(d, tiers) {
      UndecidedIs(d, tiers, menu, run);
    }
  }

  // ----- Candidates name only what is there -----

  predicate AllPresent(d: Dir, names: seq<string>) { forall n :: n in names ==> Get(d, n).Some? }

  predicate TierPresent(d: Dir, tier: Tier) { forall scripts :: scripts in tier ==> AllPresent(d, scripts) }

  lemma {:induction false} PresentArePresent(d: Dir, names: seq<string>)
    ensures AllPresent(d, Present(d, names))
    decreases |names|
  {
    if names != [] {
      PresentArePresent(d, names[1..]);
    }
  }

  lemma {:induction false} VariantsPresent(d: Dir, bios: seq<string>, ec: seq<string>)
    requires AllPresent(d, bios) && AllPresent(d, ec)
    ensures TierPresent(d, Variants(bios, ec))
    decreases |bios|
  {
    if bios != [] {
      assert bios == [bios[0]] + bios[1..];
      VariantsPresent(d, bios[1..], ec);
      assert AllPresent(d, [bios[0]] + ec);
    }
  }

  lemma {:induction false} CalledPresent(d: Dir, names: seq<string>)
    requires AllPresent(d, names)
    ensures AllPresent(d, Unique(names))
  {
    UnseenComeFrom(names, (s: string) => s, {});
  }

  lemma {:induction false} OneSetPresent(d: Dir, names: seq<string>)
    requires AllPresent(d, names)
    ensures TierPresent(d, [names])
  {
  }

  lemma {:induction false} TiersPresent(d: Dir, folder: string, calls: seq<string>, ext: string)
    ensures forall t :: t in TiersFor(d, folder, calls, ext) ==> TierPresent(d, t)
  {
    var ec := Present(d, WithExt(FALLBACK_EC, ext));
    var bios := Present(d, WithExt(FALLBACK_BIOS, ext));
    var steps := Present(d, Numbered(ext, 1));
    var called := Present(d, EndingIn(calls, ext));
    var own := Present(d, [folder + "." + ext]);
    PresentArePresent(d, WithExt(FALLBACK_EC, ext));
    PresentArePresent(d, WithExt(FALLBACK_BIOS, ext));
    PresentArePresent(d, Numbered(ext, 1));
    PresentArePresent(d, EndingIn(calls, ext));
    PresentArePresent(d, [folder + "." + ext]);
    CalledPresent(d, called);
    VariantsPresent(d, bios, ec);
    OneSetPresent(d, steps);
    OneSetPresent(d, Unique(called));
    OneSetPresent(d, ec);
    OneSetPresent(d, own);
  }

  lemma {:induction false} NonEmptyFacts<T>(xs: seq<seq<T>>)
    ensures forall x :: x in NonEmpty(xs) <==> x in xs && x != []
    decreases |xs|
  {
    if xs != [] {
      assert xs == [xs[0]] + xs[1..];
      NonEmptyFacts(xs[1..]);
    }
  }

  lemma {:induction false} NonEmptySetsPresent(d: Dir, tiers: seq<Tier>)
    requires forall t :: t in tiers ==> TierPresent(d, t)
    ensures forall t :: t in NonEmptySets(tiers) ==> TierPresent(d, t) && forall x :: x in t ==> x != []
    decreases |tiers|
  {
    if tiers != [] {
      assert tiers[0] in tiers;
      NonEmptyFacts(tiers[0]);
      assert TierPresent(d, NonEmpty(tiers[0]));
      NonEmptySetsPresent(d, tiers[1..]);
    }
  }

  /** Every candidate is a non-empty set of scripts the folder has, in a non-empty tier. */
  lemma {:induction false} CandidatesExist(d: Dir, folder: string, calls: seq<string>)
    ensures forall t :: t in CandidateRecipes(d, folder, calls) ==>
      t != [] && TierPresent(d, t) && forall x :: x in t ==> x != []
  {
    TiersPresent(d, folder, calls, "nsh");
    TiersPresent(d, folder, calls, "bat");
    var tiers := TiersFor(d, folder, calls, "nsh") + TiersFor(d, folder, calls, "bat");
    NonEmptySetsPresent(d, tiers);
    NonEmptyFacts(NonEmptySets(tiers));
  }
}
