# Verification of NestWeaver's setup, restore, release-gate and reader logic

This project models the parts of NestWeaver that are algorithms in their own right
and proves what they keep, for all inputs and over whole runs. It is plain Dafny 4.11;
`dafny verify dfyconfig.toml` checks everything.

| file | component |
|---|---|
| `ShellWord.dfy`, `HookGroups.dfy`, `ClaudeHooks.dfy` | quoting, recognising and installing the Claude Code hooks |
| `Argv.dfy`, `Registration.dfy` | reconciling an MCP registration, in JSON and in TOML |
| `RestoreProtocol.dfy`, `RestoreAuthority.dfy` | the two-level lock protocol of a destructive restore, against every interleaving |
| `CivilDate.dfy`, `StampText.dfy` | the date arithmetic and the text of a snapshot's `built_at` |
| `Pagination.dfy`, `CiGate.dfy` | CI evidence read from a server that changes meanwhile |
| `GuideSection.dfy` | rewriting only the marked section of a guide |
| `MutationAccounting.dfy` | accounting for a mutation run |
| `NpmRetry.dfy` | the deadline-bounded probe of a package |
| `ShapeClosure.dfy` | the dependency closure that decides the shape hash |
| `SetupProbe.dfy` | the argument grammar and the paged tool catalogue of the setup probe |
| `TomlLexer.dfy`, `TomlText.dfy`, `TomlPath.dfy` | the reader that finds a top-level `db` string, and which paths it reads back |
| `LegacyAider.dfy` | removing the block older releases appended |
| `Base.dfy`, `Json.dfy`, `Sequences.dfy` | shared datatypes and facts |

Code that changes things step by step is modelled by classes and methods with loops,
each proved against a specification function; the laws are lemmas about that function.
Calls into the outside world (`canonicalize`, `is_file`, HTTP replies, clocks, random
numbers, the other end of a pipe) are parameters.

## What the code does not do

Some statements one might expect, or that the repository's own comments make, are
false of the code. Each is kept as the code has it, with a witness and the exact
condition under which it holds.

- A second `setup` run need not be quiet. When the first `--config` of an existing JSON
  entry is followed by a non-string, every run appends another pair
  (`Argv.NonTextConfigGrows`); with `--force`, a `--config` whose value slot holds the
  `--db` flag loses that flag (`Argv.ForcedConfigErasesDb`). `Argv.JsonMergeTwiceIff`
  gives the condition. Where `--config` has no string after it the Codex writer refuses,
  and that is the only place where the two writers differ (`Argv.WritersAgreeIff`).
- Hooks and registration can disagree about the database, although the hooks are bound
  to the one the registration is said to use (src/setup.rs:715-718). An entry without a
  `--db` string that is not forced keeps the server's default, and the hooks get the
  requested database (`Argv.HooksAndServerDisagree`); an entry without an argv array is
  left alone even when forced, with the same effect (`Registration.EntryWithoutArgv`);
  and a forced `--config` may erase the `--db` flag. `Argv.EffectiveDbIsNamedIff` gives
  the condition on the argv, `Registration.HooksAgreeIff` that on the document.
- `is_one_shell_word` accepts a bare word that starts with `#`, which a shell reads as a
  comment (`ShellWord.CommentIsRecognised`, `ShellWord.RecognisedIsOneWord`).
- Not every command an older release wrote is recognised: one with an unquoted path of
  several words is not, as the source says (`ClaudeHooks.SpacedPathIsNotOurs`,
  `ClaudeHooks.UnquotedIsOursIff`).
- `remove_nestweaver_hooks` also drops a matcher group the user left empty; its comment
  speaks of groups left empty by the removal (`HookGroups.EmptyGroupIsDropped`,
  `HookGroups.GroupSurvivesIff`).
- While a restore has authority, another process can still hold the lock of a database
  path in the live directory: a writer that lost the race for a file it created removes
  it by path although the winner has it open and locked, and a dropping lease releases
  its namespace before its database (`RestoreAuthority.RemainsAreReachable`). Without
  such a lost race authority is alone, before and after it destroys
  (`RestoreAuthority.AuthorityIsAlone`).
- Authority does not stop a creator that may skip the namespace claim
  (`RestoreAuthority.UnclaimedCreatorSlipsIn`). Two kinds can meet a restore: releases
  from before the protocol (src/cli/backup.rs:380-386 speaks of upgraded creators only),
  and a writer that may not create files in the directory's parent beside a restore that
  may, since the bypass is decided for each process on its own
  (crates/nestweaver-store/src/write_lease.rs:531-541). Authority is exact in every run
  if and only if both directories are free of such creators
  (`RestoreAuthority.AuthorityIsExactIff`), in particular among upgraded processes with
  equal rights, whatever scratch roots are in use
  (`RestoreAuthority.UpgradedAuthorityIsExact`).
- A multiline TOML string, basic or literal, that ends in exactly one delimiter of its
  own derails the reader of `db`; with none or two it does not
  (`TomlLexer.MultilineIsOpaqueIff`, `TomlLexer.DbAfterOwnQuoteIsLost`). A value that
  goes on over several lines, such as a nested array (`TomlPath.NestedArrayHidesDb`),
  hides `db` if and only if one of its lines starts with `[`
  (`TomlPath.ContinuedValueHidesIff`).
- A path written as a basic string is not always read back, because scalars that join
  are one Swift Character. A combining mark at its start fuses with the opening quote,
  and one after an escape spoils the escape; a prepended sign such as U+0600 fuses with
  the closing quote at its end, and with the backslash of an escape after it, and then
  another text may be read. Whatever lines stand before and behind, the path comes back
  if and only if no quote and no escape is joined to a neighbour and it is not empty
  (`TomlPath.DatabaseReadIff`, `TomlPath.QuotedValueIff`).

## Model

| member | source | states |
|---|---|---|
| ShellWord.EscapedTextIsLiteral | src/setup.rs:734-736 | inside single quotes, the escaped text and its closing quote add exactly the value to the word being read, whatever follows |
| ShellWord.QuotedTextInContext | src/setup.rs:728-736 | anywhere outside quotes a quoted value is literal text: no expansion, no split, in any context |
| ShellWord.QuotedIsOneWord | src/setup.rs:734-736 | for every string, POSIX tokenisation of its quoted form is one word whose value is the string |
| ShellWord.UnescapeEscape | src/setup.rs:840-844 | the recogniser's `replace` undoes the quoting's `replace` |
| ShellWord.ShellQuoteInjective | src/setup.rs:734-736 | different values have different quoted forms |
| ShellWord.QuotedBranchIsExact | src/setup.rs:839-844 | the quoted branch of the recogniser accepts exactly the image of `shell_quote` |
| ShellWord.BareWordInContext | src/setup.rs:845-848 | a bare word without `#` in front is read as literal text |
| ShellWord.BareCharacterIff | src/setup.rs:845-848 | a character may stand in a bare word if and only if the shell reads it as itself, it is no pattern or brace character and no white space |
| ShellWord.RecognisedIsOneWord | src/setup.rs:834-849 | what is recognised is one shell word if and only if it does not start with `#` |
| ShellWord.CommentIsRecognised | src/setup.rs:845-849 | `#a` is recognised as a word and is a comment to the shell |
| ClaudeHooks.OurCommandsExactly | src/setup.rs:851-868 | a command is taken for ours if and only if some release of setup wrote it and its path, if unquoted, was one shell word |
| ClaudeHooks.OurHooksExactly | src/setup.rs:855-868 | a hook is taken for ours if and only if it has a command text and that is such a command |
| ClaudeHooks.UnquotedIsOursIff | src/setup.rs:834-849 | the command an old release wrote for any path is recognised if and only if the path is a bare word or the quoted form of a database |
| ClaudeHooks.SpacedPathIsNotOurs | src/setup.rs:837-838 | an old unquoted command whose path holds a space is not recognised |
| ClaudeHooks.SessionStartIsOurs | src/setup.rs:769-776 | the SessionStart command for any database is recognised |
| ClaudeHooks.SessionStartRunsOneArgument | src/setup.rs:769-776 | the shell sees `nestweaver brain status --db`, the path as one fifth word, and the fixed tail, for every path |
| ClaudeHooks.InstallLastWriterWins | src/setup.rs:893-1006 | installing for one database and then another is installing for the other; a repeat changes nothing |
| ClaudeHooks.InstallLeavesOneOfOurs | src/setup.rs:898-1006 | each of the two events ends with exactly one hook of ours, in last place, after all the user's |
| ClaudeHooks.InstallWritesCommands | src/setup.rs:952-971 | the last group under `SessionStart` has matcher `""` and the one command that names the database, the last under `PreToolUse` has matcher `Bash` and the current PreToolUse command |
| HookGroups.ClaudeSettings.RemoveNestWeaverHooks | src/setup.rs:872-888 | the pruning loop computes `PruneGroups` |
| HookGroups.ClaudeSettings.InstallHooks | src/setup.rs:921-1006 | the settings become those of `Install`, or stay untouched when a slot has the wrong shape; the status says which |
| HookGroups.PruneGroupsTwice | src/setup.rs:872-888 | pruning twice is pruning once |
| HookGroups.OurGroupVanishes | src/setup.rs:872-888 | the group setup appends disappears without trace when the event is pruned again |
| HookGroups.InstallOverwrites | src/setup.rs:921-1006 | installing one generation of hooks and then another is installing the second |
| HookGroups.FlattenOfPruned | src/setup.rs:870-888 | the event's hooks, flattened in order, lose exactly ours |
| HookGroups.GroupSurvivesIff | src/setup.rs:870-888 | a matcher group survives if and only if it has no hook list or a hook that is not ours; its other keys are kept |
| HookGroups.EmptyGroupIsDropped | src/setup.rs:881-886 | a group whose hook list the user left empty is dropped |
| HookGroups.UpdatedIff | src/setup.rs:937-949 | an update is reported if and only if the installation takes a hook of ours away |
| HookGroups.InstallKeepsTheRest | src/setup.rs:921-1006 | refused exactly on a wrongly shaped slot; otherwise user hooks survive in order followed by one of ours, other events and settings unchanged |
| Argv.BindDbAgain | src/setup.rs:1387-1402 | once the database is bound, binding again finds it in place |
| Argv.ForcedConfig | src/setup.rs:1404-1424 | forcing `--config` keeps the `--db` lookup if and only if the overwritten slot was not the `--db` flag |
| Argv.JsonMergeTwiceIff | src/setup.rs:1365-1430 | a second run changes nothing, and says so, if and only if the argv settles |
| Argv.TomlMergeTwiceIff | src/setup.rs:1573-1626 | when the Codex writer refuses, and when its second run changes nothing |
| Argv.WellFormedSettles | src/setup.rs:1365-1430 | every well-formed argv settles |
| Argv.ForcedMergeBinds | src/setup.rs:1365-1430 | after a forced merge of a well-formed argv both lookups give the wanted values and a second merge is quiet |
| Argv.OutcomeIsTruthful | src/setup.rs:1365-1430 | points elsewhere, rebound and unchanged are reported exactly when that is so, with the text that stood after `--db` |
| Argv.EffectiveDbIsNamedIff | src/setup.rs:1233-1240 | the database hooks are bound to is the one the merged argv names if and only if the merge was forced and did not overwrite `--db`, or the argv has a `--db` string |
| Argv.HooksAndServerDisagree | src/setup.rs:715-718 | an entry without `--db`, not forced: the hooks name the requested database and the registration does not |
| Argv.WritersAgreeIff | src/setup.rs:1573-1626 | without deprecated flags the JSON and Codex writers agree on argv and outcome if and only if the Codex writer does not refuse |
| Argv.WellFormedWritersAgree | src/setup.rs:1573-1626 | they agree on every well-formed argv, forced or not |
| Argv.JsonMergeKeeps | src/setup.rs:1365-1430 | everything but deprecated flags and forced value slots keeps its value and place; an entry that points elsewhere gains nothing |
| Argv.TomlMergeKeeps | src/setup.rs:1573-1626 | the same for the Codex writer |
| Argv.NonTextConfigGrows | src/setup.rs:1404-1416 | a `--config` followed by a non-string makes every run append another pair |
| Argv.ForcedConfigErasesDb | src/setup.rs:1417-1422 | a forced `--config` whose value slot holds `--db` erases that flag, and the next run finds no database |
| Registration.JsonArgv.SetFlag | src/setup.rs:1467-1476 | sets the value after a flag in place; all other values are the ones that were there |
| Registration.JsonArgv.StripDeprecated | src/setup.rs:1378-1385 | `retain` drops the deprecated flags, in order, and tells whether it did |
| Registration.JsonArgv.BindDatabase | src/setup.rs:1387-1402 | the database step of the merge |
| Registration.JsonArgv.Configure | src/setup.rs:1404-1424 | the `--config` step of the merge |
| Registration.JsonArgv.Reconcile | src/setup.rs:1365-1430 | the steps in place compute `JsonMerge`, and non-strings stay the values they were |
| Registration.TomlArgv.SetFlag | src/setup.rs:1480-1499 | the same change in a TOML array, with every element's layout kept |
| Registration.TomlArgv.Reconcile | src/setup.rs:1573-1626 | computes `TomlMerge` with the layout kept; a refused document is left as it was |
| Registration.McpConfigFile.Merge | src/setup.rs:1312-1445 | the document becomes that of `MergeMcp`, or stays as it was when refused |
| Registration.TextsOfJsonArgs | src/setup.rs:1365-1430 | the values written read back as the merged argv |
| Registration.JsonArgsTwice | src/setup.rs:1365-1430 | value by value, a second merge is quiet if and only if the argv settles |
| Registration.GeneratedEntryIsQuiet | src/setup.rs:629-680 | the entry setup generates, in each host's format, is one that setup leaves alone |
| Registration.GeneratedEntryLaunches | src/setup.rs:655-680 | in every host's format the entry runs `nestweaver` with the generated argv; the transport and the enabled key are there for the hosts that want them |
| Registration.MergeKeepsTheRest | src/setup.rs:1332-1430 | other servers, other keys of the document and other keys of the entry are unchanged |
| Registration.HooksAgreeIff | src/setup.rs:715-718 | in the merged document the entry names the database hooks are bound to if and only if it is new, or had an argv array that meets the condition of `EffectiveDbIsNamedIff` |
| Registration.EntryWithoutArgv | src/setup.rs:1367-1376 | an entry without an argv array stays as it is, forced or not, and names no database while the hooks name the requested one |
| Registration.MergeMcpTwice | src/setup.rs:1312-1445 | running the whole merge twice: the second run is quiet if and only if an entry that was there settles; a new one always does |
| RestoreProtocol.WriterStepKeepsInv | crates/nestweaver-store/src/write_lease.rs:567-827 | every step of a claiming writer keeps lock tables and phases in agreement and namespaces exclusive |
| RestoreProtocol.UnscopedStepKeepsInv | crates/nestweaver-store/src/write_lease.rs:605-657 | so does every step of a writer without a namespace claim, and only those go without who may |
| RestoreProtocol.RestoreStepKeepsInv | src/cli/backup.rs:377-470 | so does every step of a restore, including every unwinding after a failure; a directory whose lock file is out of reach is never closed |
| RestoreProtocol.ExitKeepsInv | src/cli/backup.rs:366-368 | so does the exit of any process, when the kernel releases what it held |
| RestoreProtocol.ExecuteKeepsInv | src/cli/backup.rs:377-470 | the invariant holds after every run of any number of processes |
| RestoreAuthority.EnterIff | crates/nestweaver-store/src/write_lease.rs:605-657 | a writer enters a namespace unless its lock file is out of reach or a restore has closed it |
| RestoreAuthority.CloseIff | src/cli/backup.rs:380-402 | a restore closes the live directory and then its sibling, each unless its lock file is out of reach, a writer is inside or a restore has closed it |
| RestoreAuthority.LeaseIff | src/cli/backup.rs:404-438 | a restore leases a database it listed, in a directory it closed, unless somebody has the lease |
| RestoreAuthority.LockIff | crates/nestweaver-store/src/write_lease.rs:780-815 | a writer gets the lease unless somebody has it, and removes the file if and only if it did not and had created it |
| RestoreAuthority.DestroyIff | src/cli/backup.rs:461-469 | authority lets a restore do anything to its two directories and nothing elsewhere |
| RestoreAuthority.EveryoneCanEnd | src/cli/backup.rs:450-456 | from every state of every run each process can end by its own steps with nothing locked and nobody disturbed; a restore that gives up changes no file |
| RestoreAuthority.ShieldedIff | crates/nestweaver-store/src/write_lease.rs:523-541 | claims cannot be skipped in a directory that is no scratch root, is written to by no old release and whose parent refuses nobody |
| RestoreAuthority.AuthorityExcludes | src/cli/backup.rs:377-448 | in every reachable state, a restore with authority holds the lease of each listed database alone, and nobody is inside or has closed either namespace |
| RestoreAuthority.LeasesAreNested | src/cli/backup.rs:404-456 | every database lease of a restore sits inside a namespace it holds, in every reachable state |
| RestoreAuthority.ClosedDirectoriesStandStill | src/cli/backup.rs:380-402 | no step of any other process adds or removes a database in a closed directory where claims cannot be skipped |
| RestoreAuthority.NextKeepsListings | crates/nestweaver-engine/src/backup.rs:2708-2758 | in every run, what a restore has listed of such a directory stays what is there |
| RestoreAuthority.LeasedIsActual | src/cli/backup.rs:403-448 | in every run, the leases of an authority not yet used are exactly the databases that exist in its directories, if claims cannot be skipped there |
| RestoreAuthority.AuthorityIsExactIff | src/cli/backup.rs:380-448 | authority is exact in every run if and only if no process may skip the claim in either directory |
| RestoreAuthority.UpgradedAuthorityIsExact | crates/nestweaver-store/src/write_lease.rs:489-495 | among upgraded processes with equal rights authority is exact whatever the directories: where a writer skips the claim, a restore is refused |
| RestoreAuthority.OtherLeasesAreRemains | src/cli/backup.rs:362-372 | a lease another process still has there is one being dropped and, until the restore destroys, on a file already removed |
| RestoreAuthority.AuthorityIsAlone | src/cli/backup.rs:370-372 | in every run without a lost race of a creator there, a restore with authority is the only lease holder, before and after it destroys, until it drops its authority |
| RestoreAuthority.RemainsAreReachable | crates/nestweaver-store/src/write_lease.rs:793-809 | a run in which authority is gained while a dropping writer still holds the lock of a removed file |
| RestoreAuthority.AuthorityLasts | src/cli/backup.rs:458-470 | over any stretch of a run without its own steps, an authority and such a directory do not change |
| RestoreAuthority.AuthorityIsReachable | src/cli/backup.rs:377-448 | an undisturbed restore does gain authority over whatever databases exist, and leases all of those in its directories |
| RestoreAuthority.UnclaimedCreatorSlipsIn | src/cli/backup.rs:380-386 | a reachable state in which a creator that may skip the claim has added a database under an authority |
| CivilDate.YearOfEraByParts | src/cli/backup.rs:798-800 | the year formula gives the year that century, four-year cycle and year spell out |
| CivilDate.FromDaysSuccessor | src/cli/backup.rs:796-805 | one more day gives the next day of the Gregorian calendar |
| CivilDate.FromDaysIsCalendar | src/cli/backup.rs:796-805 | the result is the calendar's date for every day count, starting at 1970-01-01 |
| CivilDate.FromDaysIncreases | src/cli/backup.rs:796-805 | later days have later dates, so the map is injective |
| CivilDate.NoUnderflow | src/cli/backup.rs:796-805 | no unsigned subtraction goes below zero |
| CivilDate.BuiltAtIsOrdered | src/cli/backup.rs:782-807 | stamps are valid and ordered as the seconds they come from |
| StampText.BuiltAtText | src/cli/backup.rs:806 | for every instant the text spells year, month, day, hours, minutes and seconds as decimal numbers where RFC 3339 has them; it has twenty characters if and only if the year has four digits, and up to then texts sort as the instants do |
| Pagination.CheckIds | scripts/verify-release-required-ci.py:27-29 | accepted exactly when every id is positive and none repeats |
| Pagination.ReadPages | scripts/verify-release-required-ci.py:12-30 | accepted exactly when the pages agree on a total, hold that many items and repeat no id |
| Pagination.AcceptedPagesAreComplete | scripts/verify-release-required-ci.py:12-30 | accepted pages of a growing listing are the whole listing at every instant from the first page to the last |
| CiGate.SelectedIsNewest | scripts/verify-release-required-ci.py:33-38 | the selected run was served as it is, and nothing newer existed until the last page |
| CiGate.MatchIff | scripts/verify-release-required-ci.py:33-38 | the checks on a listed run single out the runs of the CI workflow that a push of the commit has started |
| CiGate.NothingChangedBetween | scripts/verify-release-required-ci.py:73-84 | two reads that select the same run and attempt pin down every instant between them |
| CiGate.ClassifyIff | scripts/verify-release-required-ci.py:41-64 | pass, pending and malformed in terms of the jobs listed |
| CiGate.PollPassIsSound | scripts/verify-release-required-ci.py:73-84 | over every server history: on pass, throughout the reading of the jobs the run was the newest exact-SHA push run at its current attempt, and its Required CI job had succeeded |
| CiGate.PollFailIsSound | scripts/verify-release-required-ci.py:73-84 | on fail, too, the run was the newest throughout, and its Required CI job was served as neither a success nor on the way to one, or the run was completed without such a job |
| CiGate.PollFinalIff | scripts/verify-release-required-ci.py:73-84 | a poll passes or fails exactly when both reads select one run on one attempt and its jobs say so |
| CiGate.PollOfSteadyRuns | scripts/verify-release-required-ci.py:73-84 | while the run listing stands still, a poll waits for a run and then says what its jobs say |
| CiGate.PollOfChangedRun | scripts/verify-release-required-ci.py:81-83 | when another run or attempt has taken its place, a readable poll waits |
| CiGate.SteadyServerPasses | scripts/verify-release-required-ci.py:73-84 | a server that stands still with a successful run does let the poll pass |
| CiGate.EveryJobWasRead | scripts/verify-release-required-ci.py:12-30 | accepted job pages leave no job of the run out |
| CiGate.CollectRuntimeJobs | scripts/verify-mutation-prerequisite.py:18-31 | the appending loop computes `RequireRuntimeJobs` |
| CiGate.RuntimeJobsAreEvidence | scripts/verify-mutation-prerequisite.py:18-31 | each chosen job was served as succeeded and was the only one of its name in the attempt |
| CiGate.ShaIff | scripts/verify-mutation-prerequisite.py:36-37 | the accepted commit names are the forty lower-case hexadecimal digits |
| CiGate.ObserveSelectedIsSound | scripts/verify-mutation-prerequisite.py:34-59 | an accepted selected run was the CI workflow's run of the commit, completed with success, at both reads; it stayed on one attempt while its jobs were read, and the four jobs are that attempt's |
| CiGate.ObserveSelectedIff | scripts/verify-mutation-prerequisite.py:34-59 | of a server that stands still, a selected run is accepted if and only if it is such a run and each of the four names has exactly one job in its attempt, a success |
| CiGate.ObserveIsSound | scripts/verify-mutation-prerequisite.py:62-85 | main named the commit at both ends, and in between the run was the newest of the commit on one attempt, one of main's, with its four jobs |
| CiGate.ObserveIff | scripts/verify-mutation-prerequisite.py:62-85 | of a server that stands still, the run of main is accepted if and only if main names the commit, it is the newest push run, one of main's, its jobs can be judged and each of the four names has exactly one job in its attempt, a success |
| GuideSection.TheMarkers | src/guide_section.rs:10-11 | the two markers open with their only `<`, close with their only `>` and differ |
| GuideSection.MatchesAreOccurrences | src/guide_section.rs:67-74 | for such markers the non-overlapping matches are all the occurrences |
| GuideSection.AssembledPair | src/guide_section.rs:93-101 | clean text around and between a pair holds exactly that pair; no marker forms across a seam |
| GuideSection.AcceptedIff | src/guide_section.rs:65-92 | a file is accepted if and only if it is one pair of markers in order with clean text around and between |
| GuideSection.SpliceLastWriterWins | src/guide_section.rs:65-101 | the text before and after is unchanged, the result is again one pair in order, and a second splice replaces the first |
| GuideSection.SpliceIntoRendered | src/guide_section.rs:60-101 | splicing into a rendered file is rendering anew |
| GuideSection.WriteLastWriterWins | src/guide_section.rs:38-58 | whatever the file was, writing twice is writing the second time only |
| GuideSection.WriteMeans | src/guide_section.rs:38-113 | refused exactly when the generated text holds a marker or the file is not one pair; otherwise the file is what stood before the pair, the markers around the generated text on its own lines, and what stood after; a new file has nothing before and a line feed after |
| GuideSection.RefusedIff | src/guide_section.rs:65-92 | which of the refusals a file gets, in terms of where the markers occur |
| GuideSection.GuideFile.Splice | src/guide_section.rs:65-101 | the `push_str` sequence computes `SpliceMarked` |
| GuideSection.GuideFile.WriteMarkedSection | src/guide_section.rs:38-58 | creates or updates as `Write` says; a refused write leaves the file as it was |
| MutationAccounting.VerdictsAreEarned | scripts/report-mutation-results.py:41-57 | in an accepted report every verdict was earned by its mutant's own phases |
| MutationAccounting.TrustworthyIff | scripts/report-mutation-results.py:41-57 | a mutant's record can be trusted if and only if its fields are there and its verdict was earned by its phases |
| MutationAccounting.ReadReport | scripts/report-mutation-results.py:97-123 | a report is accepted exactly when every record can be trusted, no outcome is unplanned or repeated and the counters agree; what was read before a bad record is kept |
| MutationAccounting.CompareCounters | scripts/report-mutation-results.py:119-123 | the report's counters and total are those of its outcomes |
| MutationAccounting.ReadVerdictFiles | scripts/report-mutation-results.py:124-135 | the verdict files are accepted exactly when all four exist and no name is unplanned or repeated; the lines before a bad one are kept |
| MutationAccounting.Classify | scripts/report-mutation-results.py:61-157 | exit 0 if and only if there were no packages, a recognised empty plan, or a complete accounting; exit 1 otherwise; the counters are those of the verdicts read, also in a refused result |
| MutationAccounting.NoPackageRunIff | scripts/report-mutation-results.py:72-75 | the run without packages: exit 0, within budget, no package in the diff |
| MutationAccounting.ZeroRunIff | scripts/report-mutation-results.py:76-96 | the run without mutants: exit 0, within budget, discovery and tool agree, and neither plan nor report holds anything |
| MutationAccounting.CompleteRunIff | scripts/report-mutation-results.py:97-152 | the complete run: the plan is the discovered one, one verdict for each of its mutants, and the exit status is 3 with a timeout, otherwise 2 with a survivor, otherwise 0 |
| MutationAccounting.PlanIff | scripts/report-mutation-results.py:17-34 | a plan is sound if and only if no field is missing and no name is repeated |
| MutationAccounting.PlannedIff | scripts/report-mutation-results.py:76-82 | what is reported as planned: the mutants of a sound plan file, or none where a missing one is explained by discovery and tool |
| MutationAccounting.FileLinesMean | scripts/report-mutation-results.py:124-135 | a name is read with a verdict if and only if it stands in the file of that verdict |
| MutationAccounting.CompleteIsBijection | scripts/report-mutation-results.py:97-157 | complete means exactly one verdict for every planned mutant and none for anything else, with counters that sum to the plan |
| NpmRetry.Verify | scripts/verify-npm-immutable.py:61-85 | terminates, ends at the deadline or with the last probe, bounds every probe by twenty seconds and what remains; each gap is exactly the backoff with its jitter, or that would reach the deadline and one last probe follows; at most half the budget plus two probes; gives up only after that last probe or at the deadline |
| NpmRetry.NextPause | scripts/verify-npm-immutable.py:79-83 | the pause is the delay lengthened by its jitter if that is before the deadline; otherwise it is the last one and ends a second before it |
| ShapeClosure.WorkspaceShapeRoots | crates/nestweaver-mcp/build.rs:159-209 | nothing outside a workspace; otherwise, sorted, exactly the crates with sources that are reachable with the leaves' edges cut, and the leaves |
| ShapeClosure.FindRoots | crates/nestweaver-mcp/build.rs:174-206 | the search ends on every manifest graph and finds each such crate once |
| ShapeClosure.SearchIsComplete | crates/nestweaver-mcp/build.rs:182-206 | an exhausted queue means that exactly the closure has been seen |
| ShapeClosure.PopKeeps | crates/nestweaver-mcp/build.rs:182-186 | taking a crate from the queue keeps the search invariant, up to its own edges |
| ShapeClosure.PushKeeps | crates/nestweaver-mcp/build.rs:197-205 | queueing the dependencies of an expanded crate restores it |
| ShapeClosure.RootsIgnoreOrder | crates/nestweaver-mcp/build.rs:207-208 | the result is the same sequence whatever order the dependency tables and leaves are listed in |
| SetupProbe.ValidateInvocation | src/setup_probe.rs:160-222 | accepted exactly when nothing is added to the environment, the command is this program and the arguments are in the grammar |
| SetupProbe.CheckArguments | src/setup_probe.rs:187-222 | the scanning loop accepts exactly what the left-to-right grammar reads |
| SetupProbe.ShortcutsAgree | src/setup_probe.rs:99-107 | on every accepted argv the pair scans for `--db` and `--tools` and the test for `--lite` give what the grammar reads |
| SetupProbe.GeneratedArgvIsAcceptedIff | src/setup.rs:629-641 | the argv setup generates is read as the database, config and profile it was made from if database and config are values and the config is a file, and refused otherwise |
| SetupProbe.SplitCommas | src/setup_probe.rs:104 | the parts hold no comma, and joined by commas they are the text |
| SetupProbe.ExpectedIff | src/setup_probe.rs:99-107 | a selection is refused if and only if it names a tool the catalogue does not have; otherwise each selected tool is expected as often as the catalogue has it, and no other |
| SetupProbe.AddPage | src/setup_probe.rs:79-85 | a page is taken exactly when each tool has a name and a schema and no name repeats |
| SetupProbe.ListTools | src/setup_probe.rs:73-98 | against any server at most 101 pages are read, and the names are accepted exactly when those pages are a listing without repeats |
| SetupProbe.Probe | src/setup_probe.rs:73-112 | succeeds exactly when the listing honors the selected profile |
| SetupProbe.ProfileIsExact | src/setup_probe.rs:99-112 | with no expected name twice, a server that passes offers exactly the selected tools |
| SetupProbe.RetainIsDistinctIff | src/setup_probe.rs:103-107 | the selection keeps no name twice if and only if it selects none that the catalogue repeats |
| SetupProbe.ComparisonIsExactIff | src/setup_probe.rs:108-112 | the final comparison admits only the expected tools if and only if no expected name repeats |
| TomlLexer.SplitStatements | app/Sources/DatabaseSelection.swift:86-133 | the scanning loop computes `Statements` |
| TomlLexer.ReadStringValue | app/Sources/DatabaseSelection.swift:146-181 | the decoding loop computes `StringValue` |
| TomlLexer.HexDigitValues | app/Sources/DatabaseSelection.swift:168-171 | the sixteen digits of a numbered escape, in either case, stand for their places |
| TomlLexer.ReadTopLevelDatabase | app/Sources/DatabaseSelection.swift:86-144 | the whole reader computes `TopLevelDatabase` |
| TomlLexer.TokensAreOpaque | app/Sources/DatabaseSelection.swift:83-132 | nothing inside a single-line or multiline string is a newline, a comment or a quote to the reader |
| TomlLexer.StatementsAreLines | app/Sources/DatabaseSelection.swift:83-133 | the statements of a document are its logical lines, whatever their strings hold |
| TomlText.CharactersSplit | app/Sources/DatabaseSelection.swift:87 | Swift Characters do not reach over a seam between two scalars that do not join |
| TomlText.DecodeEncode | app/Sources/DatabaseSelection.swift:154-180 | a string comes back from its basic-string form if and only if no escape is joined to a neighbour; otherwise nothing does, or a text with a backslash that is not the string |
| TomlText.BackslashStays | app/Sources/DatabaseSelection.swift:157-177 | a written text with a backslash in front is never read as the text, wherever a quote ends it |
| TomlText.OnlyTheWhole | app/Sources/DatabaseSelection.swift:146-181 | if the string may end at any quote, inside the written text or behind it, it is read as the text only when it ends at the text's own closing quote |
| TomlPath.OtherAssignment | app/Sources/DatabaseSelection.swift:138-140 | an assignment of anything to another key is passed over |
| TomlPath.QuotedKeyIsOther | app/Sources/DatabaseSelection.swift:139-140 | a quoted key other than `db` is another key, also where it holds equal signs and is cut at the first |
| TomlPath.KeysOfDb | app/Sources/DatabaseSelection.swift:139-140 | `db`, `"db"` and `'db'` name the database |
| TomlLexer.SectionHidesTheRest | app/Sources/DatabaseSelection.swift:134-137 | a line that starts like a section before any `db` hides whatever follows |
| TomlPath.QuotedValueIff | app/Sources/DatabaseSelection.swift:146-181 | a quoted string is read as itself if and only if it is not empty and neither its quotes nor its escapes are joined to a neighbour; whatever else is read holds a backslash |
| TomlPath.LiteralValue | app/Sources/DatabaseSelection.swift:154-180 | a literal string is taken as it stands |
| TomlPath.DatabaseReadIff | app/Sources/DatabaseSelection.swift:86-181 | in a whole document, after any comments and assignments to other keys and before anything, a path written as a basic string under any spelling of the key `db` is what is read if and only if it is such a string; where nothing swallows an escape or the closing quote, otherwise nothing is read |
| TomlPath.DatabaseRoundTrip | app/Sources/DatabaseSelection.swift:86-181 | in particular such a path is read back |
| TomlPath.ContinuedValueHidesIff | app/Sources/DatabaseSelection.swift:134-141 | after any lines that are comments, assignments to other keys, their continuations or start like a section, `db` is found if and only if none of them starts with a bracket |
| TomlPath.NestedArrayHidesDb | app/Sources/DatabaseSelection.swift:134-137 | after an array of arrays written over three lines, `db` is not found |
| TomlLexer.MultilineIsOpaqueIff | app/Sources/DatabaseSelection.swift:102-130 | of the endings TOML allows, a multiline string is read as a whole if and only if it does not end in exactly one delimiter of its own |
| TomlLexer.OwnDelimiterOpensString | app/Sources/DatabaseSelection.swift:121-129 | one delimiter of its own opens a string that goes on into the rest |
| TomlLexer.DbAfterOwnQuoteIsLost | app/Sources/DatabaseSelection.swift:102-143 | a `db` line after such a string is not found |
| LegacyAider.MarkLegacy | src/setup.rs:1146-1161 | marks exactly the key lines, the comment directly above one, and the blank directly above that comment |
| LegacyAider.LineKindsIff | src/setup.rs:1149-1157 | blank means white space only; the comment is its text in any white space; a key line is its text after any white space, and may go on |
| LegacyAider.RemoveLegacyBlock | src/setup.rs:1146-1167 | the marking and filtering compute `Cleaned`, the other lines in order and byte for byte |
| LegacyAider.SplitThenJoin | src/setup.rs:1147 | splitting at line ends loses nothing |
| LegacyAider.CleanedTwice | src/setup.rs:1141-1167 | no key line is left, and cleaning the cleaned text changes nothing |
| LegacyAider.AppendedBlockGoes | src/setup.rs:1141-1167 | of a file with such a block exactly the block goes, whatever white space it has; the lines before and after come out as they were |
| LegacyAider.OtherFilesAreUntouched | src/setup.rs:1141-1167 | a text without key lines stays as it is |

## Left out

- Effects on files, processes and the network: atomic replacement, symlink resolution, `guard_user_owned_write`, JSONC and TOML parsing and printing, subprocesses, JSON-RPC framing and timeouts. Only the values they return appear.
- Wanted values that are themselves flags: the registration laws take `--db` and `--config` values other than the three flags looked for (`IsPlain`). Setup makes the database path absolute and canonicalises the config path, so they start with a slash (src/setup.rs:111-113, 364, 591, 605).
- The texts of the three PreToolUse commands and the jq program: they are parameters, of which only the opening words are used.
- Appending a new Codex section as text, and finding `args` inside the TOML document: the model of the Codex writer starts at the existing array.
- The restore is a transition system on values, not imperative code: its steps interleave with other processes, so one call has no contract of its own. Renames, inodes and the sidecar lock are not distinguished from the database path and its lock; failures to open a file are the refusal step. A namespace lock file that another user left behind is not distinguished from one the process could create.
- RestoreAuthority.AuthorityIsAlone: does not say that every run with a lost race ends badly, because the winner may drop its lease before a restore begins.
- Bytes: positions and texts are in Unicode scalars, not UTF-8. Swift's Characters are modelled by which scalar joins the next, for any such relation that is right below U+0080; joining that depends on more than the two neighbours (flags, emoji sequences), and trimming inside a Character, are not.
- MutationAccounting.Classify: does not model the texts of its reasons, because they are wording.
- ShapeClosure.WorkspaceShapeRoots: does not model the parsing of dependency tables, because crate names and edges are given.
- The outer loops of the release gate and the saved-state modes of the npm probe: argument handling around the modelled functions.
- Pidfile and watcher-lock guards, renderers, guide generators, benchmarks and the graph engine: easy members, or code with other concerns.
