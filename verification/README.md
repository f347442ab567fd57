# Verified models of the Mastertech algorithmic cores

A Dafny project that models the parts of the Mastertech repository where behaviour is decided by an
algorithm or a protocol rather than by an operating system or a user interface, and proves what those
parts are for. `dafny verify dfyconfig.toml` checks everything.

| directory | what it models |
|---|---|
| `text/` | the Rust string operations the code relies on, UTF-8 (section 3 of RFC 3629), numbers as digits, the order of strings |
| `bioslove/` | the BIOSLove index builder: case-insensitive directory index, vendor script expander, recipe choice, reachability, matcher-ambiguity report, the firmware matcher the report is about, and family tokens |
| `crash/` | the GPU crash-context reader: breadcrumb parser, longest active chain, XML entities and tags |
| `session/` | the direct admin session: handshake, length-prefixed frames, and the whole session as a state machine over its tasks |
| `toollog/` | the bounded log of MCP tool calls and its UTF-8-safe payload clamp |
| `update/` | reassembly of an uploaded binary from chunks |
| `shape/` | the redacting renderer for logged commands |
| `tunnel/` | the lock-free cap on relay-tunnel sessions |
| `relay/` | the relay room socket's deadlines and the redial loop |
| `live/` | a task list kept current by live-query events |

## How the models are built

Code that changes fields step by step is a class (`Expander.Expander`, `BreadcrumbScanner.Scanner`,
`ActiveChain.Walk`, `DirIndex.Indexer`, `FrameStream.Stream`, `ToolLogStore.Store`,
`SelfUpdate.SelfUpdateBuffer`, `Redaction.Formatter`, `LiveTasks.LiveList`); code that loops over growing
buffers is a method with loops. Each is proved equal to a specification function, and the theorems are
about those functions. Protocols with several tasks (`Session`, `TunnelSlots`) are state machines whose
theorems range over every interleaving.

The main results:

* The script expander keeps nested `if`/`else`/`endif` as a flat stack of flags. `StructuredScript` evaluates
  the same script by recursion on its block tree, with forward `goto` as a jump out of the tree and includes as
  recursive evaluations. `ScriptSimulation` proves the two equal for every include graph, cycles included,
  whenever the scripts the run visits are tidy: they close no more blocks than they open, from their start and from
  any label a jump leads to. Without `goto` that is counting `if`s and closings (`TidyIsCounting`); labels alone never
  matter. Over any run, from any state and with any jumps, no script reaches into its caller's blocks exactly when every
  script entered while a block is open closes no more than it opens on the lines it does not jump over
  (`FlagsStayIff`). Without `goto` in those scripts that is counting their lines as written
  (`FlagsStayWithoutJumpsIff`), and tidiness is enough for any of them (`FlagsStayWhenTidy`);
  `StrayEndIfReachesCaller` is a folder where one does reach in. No script runs twice. A jump to an end label from
  inside an `if` is as good as not written (`UntakenGotoCanBeDeleted`); every other one goes on behind its label.
  `ScriptLines` and `EffectLaws` say what written lines, conditions, paths and commands mean.
* An indexed folder holds exactly the files and folders that can be reached in it (`IndexedFilesAre`).
* Repeated `%NAME%` substitution equals token replacement on every text, and eight passes remove every
  reference to a set variable exactly when no chain of variables is longer than eight, given values whose percent
  signs pair up (`UnpairedValueJoins` is an input without). The report of unset names is not always the references left
  (`SelfReferenceGoesUnreported`); on such values `ReportIsExactIff` says exactly when it is.
* The recipe choice is meant not to bury an intact sibling behind a broken one. It does so exactly when a sibling
  that counts as complete, but leaves a `%` behind, comes before every intact one: `ChosenIsIntactIff` says when the
  chosen recipe is intact, `BuildEntry` when the entry is reachable, and `BrokenSiblingWins` is a folder where it is not.
* The breadcrumb parser accepts exactly the printed trees of a concrete grammar within its two limits, both
  directions proved, and reads exactly the forests of trimmed names within those limits; the chain search returns
  the longest root path of active nodes that is first in the tree, each name the longest front that can be shown.
* Reading what the frame writer wrote gives back exactly the known frames; cut anywhere, it gives a prefix, with
  the kind of ending decided by where the cut falls; and on arbitrary bytes the reader returns only what whole
  frames at the front carry. In every interleaving of the session's tasks every ping is answered, every frame offered
  is accepted, and a clean end delivers every command and every accepted frame; and from any point of the teardown
  the session can still finish.
* The collision report is empty exactly when the firmware, given any exact token of any entry, finds that entry
  alone by name or family; on such an index the board product's entry outranks every other.
* The two tables of the tool log agree over every run, and a call may be started under an id exactly when the log
  does not list that id: under a listed one some continuation leaves a call no result can reach (`StartIsSafeIff`).
  Every listed call is as its start and its first ending left it (`CallsAreRecorded`).
* An upload of each chunk once, chunk 0 first, is assembled to what was sent, from any earlier state. Sent in another
  order it comes to nothing, or, exactly when an earlier upload left the missing chunks, to a mixture of the two.
* However the relay's sockets end, dials are at least five seconds apart, and after failures the doubled backoff; that
  a recycled socket lasted ten minutes, and that no ping falls due unsent, is proved of its rounds.
* Values that differ only in what is sensitive, counted or too deep render alike, and every other scalar is in the
  text.

Where the code and its own comments disagree the code is followed: the handshake treats any end of stream before
four bytes as a probe, not only an empty one (`Mastertech4.0/src/tcp_listener.rs:428-445`); unknown frame tags are
skipped any number of times, not once (`Mastertech4.0/src/tcp_listener.rs:768-778`).

## Model

| member | source | states |
|---|---|---|
| Utf8.DecodeInvertsEncode | Mastertech4.0/src/tcp_listener.rs:762-764 | decoding the encoding of any text gives the text back |
| Utf8.EncodeInvertsDecode | Mastertech4.0/src/tcp_listener.rs:762-764 | only the encoding of a text decodes to it, so decoding is injective |
| DirIndex.CollectKeys | bioslove-index/src/dirindex.rs:57-70 | the shrinking-base loop yields the lookup key of every directory from the working directory to the root |
| DirIndex.KeysFollowAncestors | bioslove-index/src/dirindex.rs:57-70 | the keys are the name under each ancestor directory, nearest first |
| DirIndex.NearestDirectoryWins | bioslove-index/src/dirindex.rs:119-133 | a lookup finds a file exactly when some directory on the way up has it, and then the nearest one's |
| DirIndex.Indexer.Absorb | bioslove-index/src/dirindex.rs:85-112 | indexing a listing and, to depth two, its subdirectories fills both tables with exactly what the tree specification gives |
| DirIndex.AbsorbedIsConsistent | bioslove-index/src/dirindex.rs:85-112 | after indexing, every directory's parent is indexed and every key is the lower-cased spelling it stands for |
| IndexedTree.IndexedFilesAre | bioslove-index/src/dirindex.rs:85-112 | after indexing a listing the file table has exactly the lower-cased paths of the files at most two folders down, besides those it had, each with the spelling and size of such a file |
| IndexedTree.ReachedFileIsIndexed | bioslove-index/src/dirindex.rs:85-112 | a file whose path folds together with no other is indexed with its own spelling and size |
| IndexedTree.IndexedFoldersAre | bioslove-index/src/dirindex.rs:85-112 | the same for the folders at most two levels down and the directory table |
| EffectLaws.LookupFoldsNames | bioslove-index/src/dirindex.rs:57-70 | lookups ignore case, the kind of slash and slashes in front |
| EffectLaws.ToolsAreFoundInOrder | bioslove-index/src/dirindex.rs:136-152 | a command without a dot that is no file is its `.efi`, `.exe` or `.com`, the `.efi` first in a UEFI script and last in a batch file |
| EffectLaws.ToolsNamedWhole | bioslove-index/src/dirindex.rs:136-152 | a command that is a file is that file, and one with a dot nothing else |
| ScriptText.StripTrailingPositionals | bioslove-index/src/script.rs:419-430 | the backward scan removes exactly the trailing `%digit` words |
| ScriptText.SplitArgs | bioslove-index/src/script.rs:447-467 | the loop over the line equals the quote-aware split |
| ScriptText.QuotedArgumentsRoundTrip | bioslove-index/src/script.rs:447-467 | quoting each argument and splitting gives the arguments back |
| ScriptLines.LabelLine | bioslove-index/src/script.rs:121-127 | `:name` is the label, in lower case |
| ScriptLines.ElseAndEndIfLines | bioslove-index/src/script.rs:205-216 | `else` and `endif` in any case |
| ScriptLines.IfLine | bioslove-index/src/script.rs:217-224 | `if … then` in any case opens a block on what stands between the words |
| ScriptLines.SetLine | bioslove-index/src/script.rs:149-152 | a `set` line sets what its text assigns, or nothing |
| ScriptLines.SetAssigns | bioslove-index/src/script.rs:281-295 | `name=value` sets the lower-cased name to the value without quotes around it, with or without `-v` |
| ScriptLines.SetByBlank | bioslove-index/src/script.rs:281-295 | without an `=` the first blank separates the name from the value |
| EffectLaws.SettingsAreUsed | bioslove-index/src/script.rs:281-338 | what a `set` line sets, later references find under the name in any case |
| ScriptLines.GotoLine | bioslove-index/src/script.rs:153-159 | in a UEFI script `goto name` and `goto :name` jump to the lower-cased name |
| ScriptLines.BatchFilesDoNotJump | bioslove-index/src/script.rs:153-159 | no line of a batch file is a jump |
| ScriptLines.CdLine | bioslove-index/src/script.rs:160-163 | `cd path` changes to the path |
| ScriptLines.CallLine | bioslove-index/src/script.rs:164-168 | `call command` is the command, unless its first word is the shell's own |
| ScriptLines.BuiltinWordsAre | bioslove-index/src/script.rs:363-368 | the shell's own words are the listed ones in any case and with punctuation stuck on, and all that start with `echo` |
| ScriptLines.DecorationIsCleaned | bioslove-index/src/script.rs:381-389 | `@`s in front and control characters behind are no part of a line |
| ScriptLines.OwnNameIsFilledIn | bioslove-index/src/script.rs:111-117 | `%0` stands for the script's own name without its folder |
| ScriptLines.IdleLinesAreSkipped | bioslove-index/src/script.rs:391-399 | a line that starts as no command can, or is a drive change, says nothing |
| ScriptLines.EmptyLinesAreSkipped | bioslove-index/src/script.rs:118-120 | an empty line says nothing |
| ScriptLines.PositionalCommandsAreSkipped | bioslove-index/src/script.rs:432-438 | a command that refers to the caller's arguments is not run |
| ScriptLines.PassedOnArgumentsAreDropped | bioslove-index/src/script.rs:419-430 | a trailing `%digit` word of a batch command changes nothing |
| Substitution.Substitute | bioslove-index/src/script.rs:314-340 | one scanning pass equals the substitution specification, text and unset names |
| Substitution.ExpandVars | bioslove-index/src/script.rs:299-312 | the pass loop with its early exit equals repeated substitution |
| Substitution.FirstReferenceIs | bioslove-index/src/script.rs:314-338 | the first reference becomes its value, in any case, or stays and is reported, and the pass goes on behind it |
| Substitution.ParsedShowsBack | bioslove-index/src/script.rs:314-340 | every text is a sequence of literals and references, shown back unchanged |
| Substitution.SubstituteReplacesTokens | bioslove-index/src/script.rs:314-340 | on every text, paired or not, one pass is token replacement and reports exactly the references to unset names, in order |
| Substitution.PassesSettleExactlyBoundedChains | bioslove-index/src/script.rs:299-340 | with values whose percent signs pair up, after n passes no reference to a set variable is left exactly when every chain of variables ends within n steps |
| Substitution.UnpairedValueJoins | bioslove-index/src/script.rs:314-340 | an input where it fails without that: two lone percent signs join into a reference no chain starts with |
| Substitution.ExpansionSettlesExactlyBoundedChains | bioslove-index/src/script.rs:299-312 | on such values expansion settles exactly when no chain is longer than the pass budget |
| Substitution.ReportIsExactIff | bioslove-index/src/script.rs:299-312 | with values whose percent signs pair up, the reported names are exactly the references left in the text exactly when every value reached by following references for seven steps refers to nothing; the text is then settled |
| Substitution.SelfReferenceGoesUnreported | bioslove-index/src/script.rs:299-312 | a variable naming itself is left in the text and reported by no pass |
| Expander.Expander.Expand | bioslove-index/src/script.rs:85-107 | running a script in place is the machine's script step: one visit per script, own floor, caller's jump and floor put back |
| Expander.Expander.Body | bioslove-index/src/script.rs:96-106 | a body runs from a floor of its own and its blocks are cut back to it |
| Expander.Expander.RunLines | bioslove-index/src/script.rs:101-103 | the line loop is the machine's run over the classified lines |
| Expander.Expander.Line | bioslove-index/src/script.rs:109-203 | one line in place is one machine step on the classified line |
| Expander.Expander.ParseLine | bioslove-index/src/script.rs:109-167 | cleaning and dispatching a raw line gives the classification the machine runs on |
| Expander.Expander.ChangeDir | bioslove-index/src/script.rs:259-279 | descending component by component equals the walk specification |
| Expander.Expander.Descend | bioslove-index/src/script.rs:266-278 | the component loop equals the walk: parents up, indexed subdirectories down, anything else stops |
| Expander.Expander.Invoke | bioslove-index/src/script.rs:169-202 | a command includes a script, is dropped as prose, or is recorded with its payloads and unset names |
| GotoRuns.EndingGotoIsNoLine | bioslove-index/src/script.rs:250-252 | inside an `if` of its script a `goto` to `end`, `exit`, `eof`, `quit`, `done` or `lerror` leaves the state as it is |
| GotoRuns.OtherGotoJumps | bioslove-index/src/script.rs:245-255 | any other label, or any outside the script's `if`s, cuts the blocks to the floor and is searched for |
| GotoRuns.IdleGotoIsNoLine | bioslove-index/src/script.rs:245-249 | a `goto` without a label, behind a jump or in a block that does not run does nothing |
| GotoRuns.UntakenGotoCanBeDeleted | bioslove-index/src/script.rs:245-255 | a script runs the same without a jump that is not taken |
| GotoRuns.TakenGotoSearchesForward | bioslove-index/src/script.rs:121-129 | a taken jump goes on behind the first line with its label, or runs nothing more |
| EffectLaws.ExistHoldsIff | bioslove-index/src/script.rs:226-237 | `if exist file` holds exactly when the file is found or is one that a script makes itself |
| EffectLaws.NotExistHoldsIff | bioslove-index/src/script.rs:226-237 | `if not exist file` holds exactly when it is neither |
| EffectLaws.OtherConditionsHold | bioslove-index/src/script.rs:236-237 | any other condition is taken |
| EffectLaws.RuntimeFilesAre | bioslove-index/src/script.rs:370-377 | the files a script makes are `msdm.bin` and `yes.txt`, in any folder and case |
| EffectLaws.CdDescends | bioslove-index/src/script.rs:274-277 | a component that names a folder below leads there |
| EffectLaws.CdStops | bioslove-index/src/script.rs:274-277 | one that no directory up to the root has ends the walk |
| EffectLaws.CdGoesUp | bioslove-index/src/script.rs:266-273 | `..` leads to the parent, `.` and empty components nowhere |
| EffectLaws.CdDownAndUp | bioslove-index/src/script.rs:266-277 | down into a folder and up again is where one was |
| EffectLaws.CdFollowsThePath | bioslove-index/src/script.rs:259-266 | the path is split at both kinds of slash and starts at the root when it starts with one |
| EffectLaws.CommandsAreRecorded | bioslove-index/src/script.rs:169-202 | a command is recorded with its words, its own directory and origin, exactly its payload arguments and its unset names, unless it is prose |
| EffectLaws.PayloadIff | bioslove-index/src/script.rs:341-361 | an argument is a payload exactly when it is long enough, no switch and no file that scripts make, and the folder has it or it is written as a file |
| EffectLaws.FilenameIff | bioslove-index/src/script.rs:411-417 | a word is written as a file exactly when it has a stem and an extension of one to four letters or digits |
| EffectLaws.ProseIff | bioslove-index/src/script.rs:403-409 | a command is prose exactly when it has no dot and two or more words follow, none a switch or a file name |
| EffectLaws.ScriptsAreCalled | bioslove-index/src/script.rs:175-182 | a line that names a script runs it, noting it when the folder lacks it |
| EffectLaws.ScriptsAreFound | bioslove-index/src/script.rs:85-101 | a script found and not visited is read line by line, as a batch file exactly when its name ends in `.bat`; a visited one is left alone and an unreadable one marked |
| EffectLaws.MissingScriptsArePassedOver | bioslove-index/src/script.rs:87-89 | a script the folder lacks is passed over |
| EffectLaws.LinesAreRead | bioslove-index/src/script.rs:99-101 | lines ended in the Unix or the DOS way are read back as they are |
| StructuredScript.TidyIsCounting | bioslove-index/src/script.rs:205-241 | a script without `goto` is tidy exactly when counting its `if`s and closings never goes below zero, wherever it has labels |
| StructuredScript.CountingIsTidy | bioslove-index/src/script.rs:205-257 | with `goto`s it is tidy when it counts from its first line and from every label they name |
| StructuredScript.ScriptSimulation | bioslove-index/src/script.rs:85-257 | when the scripts a run newly visits are tidy, read from their start and from any label a jump of theirs leads to, the flat flag stack has exactly the effect of evaluating nested blocks, through includes, cycles and jumps |
| StructuredScript.SkipToLabel | bioslove-index/src/script.rs:245-257 | after a jump the run is that of the lines behind the first one carrying the label, or of none |
| ScriptRuns.JumpsStayInside | bioslove-index/src/script.rs:96-106 | a pending jump and the floor are the same after any script as before |
| ScriptFlags.FlagsStayIff | bioslove-index/src/script.rs:85-257 | over a whole run from any state, whatever it calls and wherever it jumps, no script reaches into its caller's blocks exactly when in every script entered while a block is open the lines met since its last jump never close one block too many |
| ScriptFlags.FlagsStayWithoutJumpsIff | bioslove-index/src/script.rs:85-241 | when none of those scripts has a `goto`, exactly when each of them as written never closes one block too many |
| ScriptFlags.FlagsStayWhenTidy | bioslove-index/src/script.rs:85-257 | no script reaches into its caller's blocks when every script entered while a block is open is tidy |
| ScriptFlags.FlagsStayWhenCounting | bioslove-index/src/script.rs:85-257 | in particular when each of them counts from its first line and from every label its `goto`s name |
| ScriptRuns.ScriptKeeps | bioslove-index/src/script.rs:85-203 | what every line keeps, every run of a script keeps |
| ScriptRuns.InvocationsWithinLines | bioslove-index/src/script.rs:85-107 | a run adds at most as many invocations as the newly visited scripts have lines |
| ScriptTheorems.ScriptRunIsStructured | bioslove-index/src/script.rs:85-257 | the simulation for the scripts of a real directory, whatever scripts it holds that the run does not visit |
| ScriptTheorems.StrayEndIfReachesCaller | bioslove-index/src/script.rs:96-106 | a folder where it fails: a script of one `endif` closes the block it is called from |
| ScriptLog.NoScriptRunsTwice | bioslove-index/src/script.rs:85-107 | no run enters a script twice, nor one visited before it, however scripts include each other |
| ScriptTheorems.WorkingDirectoryStaysIndexed | bioslove-index/src/script.rs:259-279 | whatever a script does, its working directory stays the root or an indexed directory |
| ScriptTheorems.InvocationsBoundedByLines | bioslove-index/src/script.rs:85-130 | a fresh run emits no more invocations than its visited scripts have lines |
| Recipe.Run | bioslove-index/src/entry.rs:326-332 | running a set of scripts on one expander and dropping repeats equals the fold specification |
| Recipe.SetsRunInTurn | bioslove-index/src/entry.rs:326-332 | the scripts of a set run one after the other, each from the state the one before left |
| Recipe.DedupKeepsFirsts | bioslove-index/src/entry.rs:566-578 | deduplication keeps, in order, exactly the commands before which no other has the same directory, tool and arguments up to case |
| Recipe.TierRuns | bioslove-index/src/entry.rs:361-365 | the non-empty runs of a tier's alternatives, in order |
| Recipe.FindClean | bioslove-index/src/entry.rs:366-368 | the first complete run, or that there is none |
| Recipe.FindWithTool | bioslove-index/src/entry.rs:369-371 | the first run with a resolvable tool, or that there is none |
| Recipe.ChooseRecipe | bioslove-index/src/entry.rs:353-381 | the first tier with a resolvable tool decides, its first complete run before its first with a tool; else the first run; else the menu |
| Recipe.ChoiceIsUnique | bioslove-index/src/entry.rs:353-381 | those rules leave exactly one choice |
| Reachability.CandidatesExist | bioslove-index/src/entry.rs:388-439 | every candidate is a non-empty set of scripts the folder has, in a non-empty tier |
| CandidateLaws.CandidatesAreStages | bioslove-index/src/entry.rs:388-439 | the candidates are, for UEFI and then for batch scripts, the numbered steps, the launchers' calls, each BIOS name with the EC names, and the folder's own launcher, as far as the folder has them and without what is empty |
| Reachability.RealStep | bioslove-index/src/entry.rs:612-677 | one command's step: resolved, files, note and kind |
| Reachability.RealSteps | bioslove-index/src/entry.rs:610-680 | each step resolves exactly when its tool and files are there and no variable is left unexpanded |
| Reachability.Judge | bioslove-index/src/entry.rs:60-82 | a scripted entry is reachable exactly when every step resolves and, on a launchable lane, one writes the BIOS; a bare one when it has payloads |
| CandidateLaws.FilesAreListed | bioslove-index/src/entry.rs:625-643 | a step lists each named file as the folder has it, with size zero when it does not |
| CandidateLaws.LargestIsMaximum | bioslove-index/src/entry.rs:665-669 | a step is judged by the size of its largest file |
| CandidateLaws.IntactIffAllLaunch | bioslove-index/src/entry.rs:612-663 | a recipe is intact exactly when each command has its tool, all its files and no variable left |
| CandidateLaws.BareStepsAre | bioslove-index/src/entry.rs:693-723 | each bare payload, in order, is a BIOS step of its own |
| CandidateLaws.LanesAre | bioslove-index/src/entry.rs:582-603 | a recipe runs on the UEFI lane exactly when a command can be started by the firmware, and otherwise for Windows exactly when every command is a batch file's with `win` in its name |
| Reachability.ChosenIsIntactIff | bioslove-index/src/entry.rs:335-381 | where some tier has a tool, all steps of the chosen run resolve exactly when the first such tier has an alternative whose steps all resolve and none that counts as complete but leaves a `%` comes before every such one |
| Reachability.UndecidedIs | bioslove-index/src/entry.rs:353-381 | where no tier has a tool, the choice is the menu if no alternative runs a command, and otherwise has a step that does not resolve |
| Reachability.BuildEntry | bioslove-index/src/entry.rs:54-82 | choosing and judging end to end: exactly when the entry of a folder is reachable, in both of these cases |
| BuriedSibling.CandidatesAre | bioslove-index/src/entry.rs:388-439 | a folder with the scripts `FlashPCL.nsh` and `FlashXDX.nsh`, a tool and a payload has one tier of candidates, the two scripts as alternatives |
| BuriedSibling.BrokenSiblingWins | bioslove-index/src/entry.rs:335-381 | among the candidates of that folder, its scripts read and run, the one whose command has an unclosed `%` is chosen over the intact one |
| Ambiguity.Collisions | bioslove-index/src/ambiguity.rs:80-130 | the table-building and reporting loops equal the report specification |
| FamilyTokens.WildcardPattern | bioslove-index/src/tokens.rs:161-180 | the loop over a token marks exactly its wildcards, and gives no pattern when there is none |
| FamilyTokens.WildcardsAre | bioslove-index/src/tokens.rs:156-180 | which characters of a family name stand for any character |
| FamilyTokens.PatternAcceptsExactly | bioslove-index/src/tokens.rs:156-180 | a family pattern, normalized, matches exactly the names that agree with the token wherever it has no wildcard, separators aside |
| FamilyTokens.FamilyMatchesItsOwnNameIff | bioslove-index/src/tokens.rs:156-180 | a family matches the normalized name it is written as exactly when it has no `#` |
| FamilyTokens.NormalizeKeepsLettersAndDigits | bioslove-index/src/ambiguity.rs:12-18 | a normalized name is its letters and digits, in order and in upper case |
| AmbiguityTheorems.ExactTokensAre | bioslove-index/src/ambiguity.rs:68-77 | an entry's exact tokens are its normalized names of three characters or more, each once, in order |
| AmbiguityTheorems.SharedTokensReported | bioslove-index/src/ambiguity.rs:86-104 | a token is reported shared exactly when more than one entry of the side answers to it, with exactly their folders, sorted |
| AmbiguityTheorems.SwallowedAre | bioslove-index/src/ambiguity.rs:106-117 | the folders a pattern swallows are exactly the other folders with an exact token it matches, each once, in order |
| AmbiguityTheorems.SwallowingPatternsReported | bioslove-index/src/ambiguity.rs:106-127 | a pattern is reported exactly when an entry of the side carries it and it swallows the listed folders |
| AmbiguityTheorems.NothingReportedIff | bioslove-index/src/ambiguity.rs:80-130 | with distinct folders per side the report is empty exactly when every exact token has one owner and no other entry's pattern matches it |
| AmbiguityTheorems.ReportIsOrdered | bioslove-index/src/ambiguity.rs:80-130 | the report lists laptops first, and on each side shared tokens, ascending, before swallowing patterns |
| Ordering.LessIff | bioslove-index/src/ambiguity.rs:68-90 | the order of tokens: the first differing character decides, and a prefix comes first |
| FirmwareMatch.HitIs | uefi/src/bioslove.rs:405-437 | an entry hits a value exactly when it answers to it, and by family when only a pattern covers it |
| FirmwareMatch.PartialHitIff | uefi/src/bioslove.rs:405-437 | an entry hits a value partially exactly when it hits it neither way and a name of four or more letters overlaps it |
| FirmwareMatch.RankIsBest | uefi/src/bioslove.rs:386-470 | an entry ranks as the strongest of its matches on the four fields, confidence before field before own name |
| FirmwareMatch.NothingReportedIffFirmwareSettles | bioslove-index/src/ambiguity.rs:1-5 | the report is empty exactly when the firmware finds each exact token's entry alone |
| FirmwareMatch.SettledIffTiebreakDecides | bioslove-index/src/ambiguity.rs:55-65 | a shared token counts as settled exactly when the firmware's own-name tiebreak singles out one entry |
| FirmwareMatch.BoardNameRanksFirst | uefi/src/bioslove.rs:386-470 | on a collision-free index the entry of the board product ranks strictly above every other of its side |
| BreadcrumbScanner.Scanner.Node | dump-triage/src/gpu.rs:527-587 | parsing a node in place moves the cursor forward only and gives the specification's result |
| BreadcrumbScanner.Scanner.Take | dump-triage/src/gpu.rs:514-523 | the byte loop takes what comes before the first stop and leaves the cursor on it |
| BreadcrumbScanner.Scanner.Head | dump-triage/src/gpu.rs:541-551 | the state marker and whether children follow |
| BreadcrumbScanner.Scanner.Items | dump-triage/src/gpu.rs:556-577 | the child loop collects nodes, skips markers and stops where the specification does |
| BreadcrumbScanner.Roots | dump-triage/src/gpu.rs:313-335 | the root loop returns the roots before the first malformed one |
| BreadcrumbGrammar.PrintedNodeParses | dump-triage/src/gpu.rs:527-587 | a printed node parses to its meaning and stops at its end, and fails exactly when a limit is exceeded |
| BreadcrumbSoundness.AcceptedNodeIsPrinted | dump-triage/src/gpu.rs:527-587 | whatever the parser accepts is a printed node with that meaning |
| BreadcrumbSoundness.PrintedRootsParse | dump-triage/src/gpu.rs:318-335 | a list of printed roots parses to exactly those before the first broken or oversized one |
| BreadcrumbForests.ReadableForestsAre | dump-triage/src/gpu.rs:313-335 | the forests some text is read as are exactly those within the two limits whose names are trimmed and free of closing braces |
| BreadcrumbParser.ActiveIff | dump-triage/src/gpu.rs:583-587 | a node is active exactly when its trimmed state is the letter A in either case |
| ActiveChain.Walk.Visit | dump-triage/src/gpu.rs:474-486 | the push-and-pop walk restores its path and keeps the earliest longest chain |
| ActiveChain.ActiveBreadcrumbPath | dump-triage/src/gpu.rs:313-342 | the result is the earliest longest chain of the parsed roots |
| ActiveChain.ResultIsLongestActiveChain | dump-triage/src/gpu.rs:336-342 | the result names a root path of active nodes, none is longer, and it is empty exactly when no root is active |
| ActiveChain.FirstLongestWins | dump-triage/src/gpu.rs:474-486 | among the longest chains the first in preorder wins |
| ChainOrder.FirstInTheTreeWins | dump-triage/src/gpu.rs:474-486 | every other path of active nodes as long as the one returned comes later in the tree, by the places of its nodes among their siblings |
| ActiveChain.CleanNameIsClean | dump-triage/src/gpu.rs:346-377 | a cleaned name is trimmed and no format specifier starts anywhere in it |
| ActiveChain.CleanNameIdempotent | dump-triage/src/gpu.rs:346-361 | cleaning twice is cleaning once |
| NameCleaning.CleanNameIsLongestFront | dump-triage/src/gpu.rs:346-361 | a cleaned name is the longest front of the trimmed name that no specifier starts in and that ends in no separator |
| NameCleaning.FormatSpecIff | dump-triage/src/gpu.rs:364-377 | a specifier is a `%`, any flags and digits, any length marks and a conversion letter |
| NameCleaning.SeparatorsAre | dump-triage/src/gpu.rs:356-359 | the separators are blanks and eight marks |
| XmlText.UnescapeXml | dump-triage/src/gpu.rs:421-463 | the decoding loop equals the one-pass specification |
| XmlText.UnescapeInvertsEscape | dump-triage/src/gpu.rs:421-463 | however each character is written, raw, named or numeric, decoding gives the text back |
| XmlText.EscapedTextRoundTrips | dump-triage/src/gpu.rs:421-463 | escaping the five predefined entities and decoding gives any text back |
| XmlText.OtherAmpersandsStay | dump-triage/src/gpu.rs:421-460 | an ampersand that starts no reference stays |
| XmlText.DecimalNumbersDecode | dump-triage/src/gpu.rs:444-450 | `#` with decimal digits stands for the character with that code, when there is one |
| XmlText.HexadecimalNumbersDecode | dump-triage/src/gpu.rs:444-450 | so does `#x` or `#X` with hexadecimal digits in either case |
| XmlText.TagRecoversValue | dump-triage/src/gpu.rs:380-392 | a trimmed value written between its first opening tag and the matching close is recovered |
| XmlText.TagNeedsItsElement | dump-triage/src/gpu.rs:379-392 | a tag has a value only where its element is, and it is the unescaped text between |
| Framing.Le32RoundTrip | Mastertech4.0/src/tcp_listener.rs:815-819 | a length written little-endian reads back |
| Framing.Le32IsLittleEndian | Mastertech4.0/src/tcp_listener.rs:733-739 | the lowest byte of a length comes first |
| Framing.TagsAre | Mastertech4.0/src/tcp_listener.rs:756-778 | which tag each kind of frame has on the wire, and that other tags are skipped |
| Framing.CapIs | Mastertech4.0/src/tcp_listener.rs:743-745 | a frame fits when its tag and payload take at most 64 MiB |
| Framing.FrameCutsBack | Mastertech4.0/src/tcp_listener.rs:733-760 | a written frame in front of anything is cut off whole |
| Framing.PartialFrameEnds | Mastertech4.0/src/tcp_listener.rs:735-760 | a frame cut inside its length prefix is a clean end, cut later a truncation |
| Framing.CutWireReadsBack | Mastertech4.0/src/tcp_listener.rs:733-781 | reading written frames cut inside the next gives exactly the known frames, and a clean end exactly when at most part of a length prefix is left |
| Framing.WireReadsBack | Mastertech4.0/src/tcp_listener.rs:733-823 | reading everything written gives the known frames, then a clean end |
| Framing.CutWireKeepsAPrefix | Mastertech4.0/src/tcp_listener.rs:733-781 | cutting the wire anywhere gives a prefix of the known frames, then a clean end or a truncation error |
| Framing.ReadIsAWire | Mastertech4.0/src/tcp_listener.rs:733-781 | on any bytes the reader returns exactly what whole frames at the front carry and stops at the first bytes that begin no further frame |
| Framing.WrittenNeverMalformed | Mastertech4.0/src/tcp_listener.rs:800-805 | no frame the writer sends is malformed to the reader |
| FrameStream.Stream.NextKnownFrame | Mastertech4.0/src/tcp_listener.rs:733-781 | reading in place equals the frame specification, skipping any run of unknown tags |
| FrameStream.Stream.ReadTask | Mastertech4.0/src/tcp_listener.rs:705-719 | the reader task forwards every frame up to the end or the first error |
| FrameStream.Stream.PerformHandshake | Mastertech4.0/src/tcp_listener.rs:420-493 | the handshake's outcome for any bytes, and that frames start right behind an admitted preamble |
| FrameStream.AuthenticatedIff | Mastertech4.0/src/tcp_listener.rs:420-493 | a peer is admitted exactly when it sends the magic, a supported version and this machine's id |
| FrameStream.PreambleIs | Mastertech4.0/src/tcp_listener.rs:428-490 | the preamble is `MTRX`, the version, and the id behind its length |
| FrameStream.GreetingSays | Mastertech4.0/src/tcp_listener.rs:428-480 | which greetings are probes, and which are refused for their magic or version |
| FrameStream.FrameBytes | Mastertech4.0/src/tcp_listener.rs:800-819 | a frame within the cap becomes length, tag and payload in one buffer; an oversized one nothing |
| FrameStream.Writer.DrainAndClose | Mastertech4.0/src/tcp_listener.rs:783-826 | once all senders are gone every control frame is written, then every file frame, then the stream closes |
| SessionRuns.ChosenFramesMergeTheQueues | Mastertech4.0/src/tcp_listener.rs:789-799 | in every interleaving the wire merges both queues in order, a file frame only after every control frame accepted by then, the fingerprint first of all |
| SessionRuns.CleanEndDeliversEverything | Mastertech4.0/src/tcp_listener.rs:339-384 | without shutdown or write failure a closed session has run every command of its input in order and written every accepted frame that fits |
| SessionRuns.WrittenCommandsRunInOrder | Mastertech4.0/src/tcp_listener.rs:395-406 | a peer that writes frames and ends the stream has its commands run in order |
| SessionReplies.PingsAreAnswered | Mastertech4.0/src/tcp_listener.rs:612-618 | in every interleaving without a failed write the accepted pongs are exactly those of the received pings, in order; after one, of the first of them |
| SessionReplies.CleanEndAnswersEveryPing | Mastertech4.0/src/tcp_listener.rs:612-618 | at a clean end the pongs on the wire are exactly those of the input's pings that fit a frame |
| SessionReplies.OfferedFramesAreAccepted | Mastertech4.0/src/tcp_listener.rs:642-693 | without a failed write every frame forwarded or sent by a handler is accepted, in order, and nothing else but the fingerprint and the pongs |
| SessionReplies.CommandsAreServed | Mastertech4.0/src/tcp_listener.rs:551-610 | the commands begun are, in order, exactly what the received text frames and command frames ask for |
| SessionRuns.WireIsAlwaysAPrefix | Mastertech4.0/src/tcp_listener.rs:783-826 | at any moment, failed write or not, a reader of the wire gets a prefix of the chosen frames, and commands ran in arrival order |
| SessionRuns.TeardownCanFinish | Mastertech4.0/src/tcp_listener.rs:366-384 | once the session loop has ended the session can always run to a closed stream |
| SessionRuns.ShutdownCanFinish | Mastertech4.0/src/tcp_listener.rs:534-542 | a serving session can be shut down at any time and run to a closed stream |
| SessionRuns.NothingIsReceivedAfterShutdown | Mastertech4.0/src/tcp_listener.rs:534-542 | after the signal no frame is handled |
| Clamp.FloorBoundary | displays/src/mcp_tool_log.rs:43-51 | the downward search stops at the character boundary the specification names |
| Clamp.CeilBoundary | displays/src/mcp_tool_log.rs:54-59 | the upward search stops at the character boundary the specification names |
| Clamp.ClampPayload | displays/src/mcp_tool_log.rs:62-76 | the clamp leaves 8 KiB alone and otherwise keeps both ends around the notice |
| Clamp.ClampedIsText | displays/src/mcp_tool_log.rs:62-76 | clamping valid UTF-8 gives valid UTF-8 |
| Clamp.ClampKeepsBothEnds | displays/src/mcp_tool_log.rs:62-76 | head and tail are cut within 3 bytes of the 4 KiB marks, and head, reported count and tail add up to the length |
| Clamp.SmallPayloadsStay | displays/src/mcp_tool_log.rs:62-65 | a payload of at most 8 KiB is not touched |
| ToolLogStore.Store.StartCall | displays/src/mcp_tool_log.rs:124-149 | starting a call in place maps its id, appends it pending and evicts the overflow |
| ToolLogStore.Store.EvictOverflow | displays/src/mcp_tool_log.rs:242-270 | the eviction loop sheds what the specification sheds and forgets those ids |
| ToolLogStore.Store.FinishCall | displays/src/mcp_tool_log.rs:154-170 | finishing in place ends the first call with the id and forgets the id |
| ToolLogStore.Store.MarkAborted | displays/src/mcp_tool_log.rs:175-189 | aborting in place ends the call only if it is still pending |
| ToolLogRuns.EvictionKeepsTheNewest | displays/src/mcp_tool_log.rs:242-270 | eviction in closed form: the newest completed calls that fit beside the pending ones, the newest 400 pending |
| ToolLogRuns.PendingShedOnlyWhenAllPending | displays/src/mcp_tool_log.rs:37-38 | a pending call is shed exactly when all 401 are pending |
| ToolLogRuns.RunKeepsAgreement | displays/src/mcp_tool_log.rs:124-270 | over every run an id is mapped to a client exactly when that client's list holds a pending call with it, ids are listed once, lists are in start order and at most 400 long |
| ToolLogRuns.EveryRunAgrees | displays/src/mcp_tool_log.rs:124-270 | the same from the empty log on |
| ToolLogHistory.CallsAreRecorded | displays/src/mcp_tool_log.rs:124-189 | over every run a listed call has the plugin, tool, clamped arguments and time of the last start under its id, and the status, time and result of the first ending of its id since |
| ToolLogHistory.StatusTellsTheEnding | displays/src/mcp_tool_log.rs:154-189 | it is pending exactly when its id was not ended since, and a success exactly when it was first ended as one |
| ToolLogHistory.OtherListsStay | displays/src/mcp_tool_log.rs:124-240 | no operation touches the calls of a client it is not about |
| ToolLogHistory.AbortsKeepEndedCalls | displays/src/mcp_tool_log.rs:175-190 | in any tables aborting touches no call that has ended |
| ToolLogHistory.OwnListAfter | displays/src/mcp_tool_log.rs:228-240 | clearing leaves the calls in flight in their order, dropping nothing |
| ToolLogRuns.ClearKeeps | displays/src/mcp_tool_log.rs:228-233 | clearing a client takes no call in flight away from any client and leaves nothing else of that client listed |
| ToolLogRuns.DropKeeps | displays/src/mcp_tool_log.rs:236-240 | dropping a client ends exactly its calls in flight and forgets exactly the ids mapped to it |
| ToolLogRuns.StartIsSafeIff | displays/src/mcp_tool_log.rs:132-170 | a call may be started under an id exactly when the log does not list it: otherwise some continuation, its later starts under new ids, leaves a call in flight with no id mapped |
| ToolLogRuns.ReuseBreaksLater | displays/src/mcp_tool_log.rs:154-170 | start, finish and start again under one id: the tables still agree, and the next finish breaks them |
| ToolLogRuns.AbortAfterFinishIsNothing | displays/src/mcp_tool_log.rs:172-189 | a finished call is not ended again by the guard dropped behind it, nor an aborted one by a late result |
| ToolLogRuns.PendingCountIsMapped | displays/src/mcp_tool_log.rs:213-226 | the pending count is the number of ids mapped to the client and to no client |
| ToolLogRuns.ViewMergesInStartOrder | displays/src/mcp_tool_log.rs:204-211 | a client's view is the merge of its own and the global calls by start time, its own first at equal times |
| SelfUpdate.SelfUpdateBuffer.Push | Mastertech4.0/src/remote_self_update.rs:34-51 | pushing in place resets, stores, and drains the chunks in index order on completion |
| SelfUpdateRuns.PushCompletesIff | Mastertech4.0/src/remote_self_update.rs:34-51 | with indices in range bytes come back exactly when all indices have arrived since the last reset, the latest chunk of each in order |
| SelfUpdateRuns.CompleteIffInRange | Mastertech4.0/src/remote_self_update.rs:40 | a completed push has all indices exactly when none held is out of range |
| SelfUpdateRuns.OutOfRangeIndexCompletes | Mastertech4.0/src/remote_self_update.rs:34-40 | an out-of-range index completes an upload that misses a chunk |
| SelfUpdateRuns.UploadReturnsThePayload | Mastertech4.0/src/remote_self_update.rs:34-51 | from any earlier state an upload starting with chunk 0 returns nothing until every chunk has arrived, the others in any order and however often, then the payload |
| SelfUpdateRuns.LastRestartCounts | Mastertech4.0/src/remote_self_update.rs:34-51 | whatever was pushed before, chunk 0 included, only what follows the last chunk 0 decides when the payload comes back |
| SelfUpdateRuns.InOrderUpload | Mastertech4.0/src/remote_self_update.rs:34-51 | from any earlier state an in-order upload returns the payload on its last push |
| SelfUpdateRuns.PermutedUpload | Mastertech4.0/src/remote_self_update.rs:34-51 | each chunk once, in some order, onto any earlier state: with chunk 0 first the payload comes back on the last push; with chunk 0 later bytes come back exactly when the earlier upload had as many chunks and left every chunk sent from there on, and they mix the two uploads |
| SelfUpdateRuns.PermutedUploadCompletesIff | Mastertech4.0/src/remote_self_update.rs:35-37 | onto a buffer with no chunk 0 of an upload of that length, bytes come back exactly when chunk 0 is sent first |
| SelfUpdateRuns.TwoUploadsMix | Mastertech4.0/src/remote_self_update.rs:35-40 | chunk 0 left by an abandoned upload and chunk 1 of a new one complete a binary no one sent |
| Redaction.Formatter.Render | displays/src/shape_fp.rs:92-144 | writing to the formatter appends exactly the specified text |
| Redaction.Formatter.RenderFields | displays/src/shape_fp.rs:146-174 | the field loop with its `first` flag writes exactly the specified text |
| Redaction.TextsAre | displays/src/shape_fp.rs:92-174 | the text of every value, part by part: names, labels and joined parts, counts for bytes and maps, and two dots from the twelfth level on |
| Redaction.RedactionIsNonInterfering | displays/src/shape_fp.rs:92-174 | values that differ only inside sensitive fields, in map entries or bytes of the same number, or from the depth limit on render to the same text |
| Redaction.VisibleScalarsAppear | displays/src/shape_fp.rs:92-174 | every scalar above the depth limit and outside sensitive fields, maps and byte lists is in the text |
| TunnelSlots.NeverMoreThanEight | Mastertech4.0/src/tunnel_session.rs:98-107 | in every interleaving at most 8 sessions are active and the counter is active sessions plus admissions in flight, zero exactly when there are none |
| TunnelSlots.RefusedIff | Mastertech4.0/src/tunnel_session.rs:98-103 | an admission is refused exactly when active sessions and admissions in flight fill the cap |
| TunnelSlots.RefusesBelowTheCap | Mastertech4.0/src/tunnel_session.rs:98-103 | from any full state an admission can be refused with a slot free |
| TunnelSlots.RefusedWithASlotFree | Mastertech4.0/src/tunnel_session.rs:98-103 | such a run from the start: eight sessions, a ninth admission, one session ended, and the tenth admission refused with seven active |
| RelayControl.ServeRoomSocket | Mastertech4.0/src/relay_control.rs:182-259 | the socket loop equals the round specification |
| RelayControl.ServedKeepsDeadlines | Mastertech4.0/src/relay_control.rs:226-250 | a surviving socket was neither silent nor too old at its last checks and had no ping due, a recycled one is open and ten minutes old by the clock it ends on, and pings are at least ten seconds apart |
| RelayControl.EventsAreHeard | Mastertech4.0/src/relay_control.rs:195-224 | every event counts as heard when it comes, one that says so opens the room, and the first close or error ends the socket |
| RelayControl.EndsForAReason | Mastertech4.0/src/relay_control.rs:195-258 | a socket ends only for the stop, a close or error, silence, age or the shutdown |
| RelayControl.Run | Mastertech4.0/src/relay_control.rs:145-179 | the redial loop, serving each socket and with all its exits, makes the dials and keeps the backoff of its specification |
| RelayControl.DialsAreSpaced | Mastertech4.0/src/relay_control.rs:145-179 | whatever the rounds of the sockets bring, dials are at least 5 seconds apart and the backoff stays between 5 and 60 seconds |
| RelayControl.OpenSocketsResetTheBackoff | Mastertech4.0/src/relay_control.rs:150-179 | after an open socket the next dial comes after 5 seconds, or at once when it was recycled, with the backoff started again |
| RelayControl.FailuresDoubleTheBackoff | Mastertech4.0/src/relay_control.rs:145-179 | after k dials in a row that are refused or never report the room open, the backoff has doubled k times, up to a minute |
| RelayControl.FailedDialsWait | Mastertech4.0/src/relay_control.rs:172-179 | and each dial after one that failed waits out the backoff reached by then |
| LiveTasks.LiveList.UpdateOrInsert | database/src/live_data.rs:188-212 | the search loop replaces the first task with the id or appends |
| LiveTasks.LiveList.HandleLiveData | database/src/live_data.rs:18-33 | each event changes the list in place as specified |
| LiveTasks.UpsertRefines | database/src/live_data.rs:188-212 | an insert or update stores under the id and leaves every other lookup alone |
| LiveTasks.ListRefinesMap | database/src/live_data.rs:96-119 | under any events a list with unique ids keeps them unique and answers lookups as a map would |
| LiveTasks.DeleteRefinesIff | database/src/live_data.rs:109-119 | a delete is a map delete exactly when the list holds the id at most once |

## Left out

- Strings are sequences of Unicode scalar values, not bytes; byte lengths are modelled where the code compares them.
- Expander.Expander.ParseLine: an `if` condition sliced four bytes from its end (`bioslove-index/src/script.rs:219-222`) panics when a multi-byte character straddles that point; the model looks at characters and does not.
- Lossy UTF-8 conversion of file contents and breadcrumb names: files are given as text.
- Substitution.PassesSettleExactlyBoundedChains: a value with an unpaired percent sign is excluded, since the names it forms with its neighbours are in no value; Substitution.ReportIsExactIff likewise.
- Substitution.ExpansionSettlesExactlyBoundedChains: excludes the same values.
- ScriptFlags.FlagsStayWhenTidy: one direction, since which jumps are taken depends on the run; ScriptFlags.FlagsStayIff is the exact condition.
- Files, directories, hashing and file heads: a directory is a finite map, and SHA-256 fields, capsule detection and bare-payload selection are parameters or absent.
- Recipe.ChooseRecipe: what following a menu launcher yields is a parameter; the words a menu names are a heuristic with no law to prove.
- Reachability.BuildEntry: the commands of a menu, the bare payloads and the capsule test are parameters.
- Reachability.RealSteps: the step-kind keyword table (`bioslove-index/src/entry.rs:727-782`) is a parameter, and the after-step guess, hashes and warnings are absent.
- `bioslove-index/src/entry.rs` identity tokens, MSI board codes and the missing-file sweep, and in `bioslove-index/src/tokens.rs` everything but the wildcards: which vendor words name a model is a heuristic with no law to prove.
- FirmwareMatch.BoardNameRanksFirst: ranks by confidence, SMBIOS field and own name; the final tiebreaks by reachability and folder name never matter where the first two are strict.
- FrameStream.Stream.PerformHandshake: timeouts, connection resets and error texts; the outcome depends only on the bytes received before the stream ends.
- SessionRuns.CleanEndDeliversEverything: which binary frames decode as commands (bincode and JSON) is a parameter, and handlers that keep a sender after they return, broadcast lag and a panicking dispatch task are not modelled.
- SessionReplies.PingsAreAnswered: handlers send no pongs of their own, as none in the source does; the other results about replies and offered frames say the same.
- Framing.WireReadsBack: the reader modelled is the agent's; the admin side knows Pong where the agent knows Ping.
- Mutex poisoning and wall-clock time in the tool log: every operation takes the time as a number.
- SelfUpdateRuns.UploadReturnsThePayload: indices are below the total and the total below 2^32, as the sender sends them; `SelfUpdateRuns.OutOfRangeIndexCompletes` shows what an out-of-range index does. The same holds of SelfUpdateRuns.PermutedUpload and the chunks an earlier upload left.
- Writing, swapping and relaunching the updated binary.
- Redaction.RedactionIsNonInterfering: `facet` reflection is a datatype of values, and a scalar carries its own debug text.
- RelayControl.ServeRoomSocket: the three clock readings that start a socket are one, and log levels and tunnel requests are absent.
- The tunnel's idle-read timer.
- Live-query paths for notes, clients and generic rows: they push without an id check or delete by full equality and refine no map.
- User interfaces, SurrealDB, HTTP, Win32 and async runtime internals.
