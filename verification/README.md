# Verified models of tokensave's stateful core

tokensave keeps a code index for a repository and serves it to editors and agents. This
project models eleven of its components in Dafny and proves what they keep over every
input and every run:

- `ExtractionWire.dfy`, `ExtractionPool.dfy`, `PoolOutput.dfy`, `PoolProgress.dfy`,
  `PoolShutdown.dfy`, `SharedPool.dfy`: the extraction worker pool. Frames on the pipes, the
  token handshake and serve loop, and the threads, queue, timeouts, crashes, respawns and
  cancellation as a transition system over every interleaving.
- `UtcCalendar.dfy`: the two separately typed civil-from-days routines and RFC 3339 printing,
  against a calendar defined from leap years and month lengths.
- `Snapshots.dfy`, `KeyMigration.dfy`: the monotonic snapshot upsert over whole delivery
  histories, and the one-time canonicalisation of project keys.
- `ShellScan.dfy`, `ShellTokens.dfy`, `CommandPrefixes.dfy`, `HookPolicy.dfy`: the shell-line
  scanners behind the command hook, on one quoting automaton (sections 2.2.1 to 2.2.3 of the
  POSIX Shell Command Language), and the denial rule they support; `ShellLines.dfy` and
  `PrefixReading.dfy`: splitting undoes joining, and peeling undoes prefixing.
- `ShellLexer.dfy`, `HookScope.dfy`, `HookInputs.dfy`: how bash itself reads a line, with
  comments, `$'...'`, `${...}` and continued lines; when a denial discards only the search by
  that reading; and lines on which it discards more.
- `Benchmark.dfy`: the once-only machine benchmark, run by many processes over one file.
- `Branches.dfy`: branch metadata, branch database names and the guarded operations.
- `Discovery.dfy`: the upward search for the project that owns a directory.
- `FileHistory.dfy`, `HistoryEvents.dfy`: blob de-duplication along a file's history, run
  grouping of events, and which commits have one.
- `ReleaseVersions.dfy`, `VersionPrecedence.dfy`: version order and upgrade classification, and
  where that order is the precedence of Semantic Versioning 2.0.0.
- `ChangelogText.dfy`, `Changelog.dfy`, `ChangelogRuns.dfy`, `ChangelogEntries.dfy`: the
  release script's parse, merge and print of the changelog.
- `CancelGate.dfy`: the cancellation flag and its one-permit notifier.
- `Common.dfy`: optional values and Rust's order on strings.

Code that changes state is modelled by classes and loops whose contracts equate the new
state with a function of the old one; the theorems are about those functions and about the
runs built from them. What such a function computes is also said without it: by reading its
output back, by the inputs alone, or by what whole runs conserve. The handlers of `SharedPool.Pool` and `CancelGate.Gate` and the typed
steps of the calendar have no rows of their own: `SharedPool.ExtractFiles`,
`CancelGate.Gate.Drive` and `UtcCalendar.CivilIsCorrect` rest on them.
`dafny verify dfyconfig.toml` checks everything.

Where the code and its documentation, or what one would expect of it, differ, the model
follows the code, an input shows the difference and a theorem says exactly when there is none:

- A denial of a whole line discards the peeled `cd`s and one search, and nothing else the
  shell would run, if and only if the prefixes show all they run and the remainder has no
  further line, no process substitution and nothing that is open to the shell but quoted to
  the hook's own automaton (`HookScope.DenialDiscardsOnlyTheSearchIff`); a command that splits
  likewise (`HookScope.SplitSeesAllIff`). Both automata agree up to a comment, `$'`, `${`,
  `$[` or a `$` at the end of a continued line (`ShellLexer.AutomataAgree`). src/hooks.rs:563-565
  refuses newlines when splitting, but the check of whole lines looks neither at them nor at
  `<`, comments, `$'...'` or `${...}` (`HookInputs.NewlineHidesWork`, `ProcessHidesWork`,
  `CommentHidesWork`, `AnsiQuoteHidesWork`, `BraceHidesWork`), and prefixes are stripped
  without being read (`HookInputs.AssignmentHidesWork`, `ValueHidesWork`, `EscapeHidesWork`,
  `CdHidesWork`).
- src/global_db.rs:368-369 promises that a failed key migration leaves the database as it was
  and is retried. With something to rewrite, it is left if and only if the SELECT or the
  DELETE fails, and retried exactly then or when the flag cannot be set
  (`KeyMigration.LeftAsItWasIff`). After the DELETE the absolute total is kept if and only if
  the unread absolute rows and the keys of failing INSERTs hold nothing
  (`KeyMigration.TokensConservedIff`), and the ledger follows if and only if no UPDATE that
  concerns it fails (`KeyMigration.LedgerFollowsIff`). `KeyMigration.FailuresAreNotUndone` and
  `KeyMigration.UnreadRowsAreLost` are inputs.
- src/global_db.rs:690-697 lists a rising counter or credit as the upsert's only triggers. A
  rising Augment cost, a first Codex cost and the repair of a legacy Codex row move a row too
  (`Snapshots.FollowsItsDocumentationIff`), as in `Snapshots.UndocumentedTriggers`.
- `normalize_key_string` strips one verbatim prefix, so it is idempotent exactly on the paths
  that do not carry a second one with text behind it (`KeyMigration.NormalizeIsIdempotentIff`,
  `KeyMigration.VerbatimInputs`).
- The credits stored for a growing session depend on the delivery order if and only if the
  largest delivered snapshot carries none and a smaller one does
  (`Snapshots.CreditsSettledIff`, `Snapshots.MixedCreditsDependOnOrder`).
- `ymd_hms_from_unix` casts the year to `i32`; the fields rebuild the timestamp exactly on the
  seconds whose year fits (`UtcCalendar.StampRebuildsSeconds`).
- src/blame_engine.rs:115-118 and 211-215 attribute a body to the commit that introduced it. A
  visit is the newest commit of a run of equal blobs, so all visits name introducing commits
  if and only if no walked commit shares its blob with the next older one, unless the nearest
  newer present commit has it too (`FileHistory.VisitsNameIntroducersIff`,
  `FileHistory.NewestNotIntroducing`); all events do if and only if no commit with an event
  shares its blob with the next older walked one, nor the last walked one its body with the
  first that was not walked (`HistoryEvents.LogNamesIntroducersIff`,
  `HistoryEvents.EventNotIntroducing`).
- src/cloud.rs:589-591 speaks of a semver comparison. Newness is the precedence of section 11
  of Semantic Versioning 2.0.0 between two compared versions if and only if their texts do not
  mislead: by numbers, by a hyphen against a dot, or by build text
  (`VersionPrecedence.NewerIsPrecedenceIff`, with an input for each).
- The benchmark probes the machine a second time. A complete result makes the file valid if
  and only if its CPU count and total memory fit what the callers probed
  (`Benchmark.ValidIffFits`), and a valid file stays valid if and only if no unfit result is
  written (`Benchmark.AValidFileStaysValidIff`, `Benchmark.UnknownMemoryBreaksAFile`).
- `unique_branch_db_file` does not check the hashed name again, so an ordinary branch can
  already have it (`Branches.StepKeepsFilesDistinctIff`, `Branches.HashedNameCanBeTaken`).
- Removing a branch leaves its children's `parent` dangling, and tracking the name again can
  close a cycle (`Branches.OrphaningBreaksForest`, `Branches.RemovalCanCloseCycle`).
- The changelog script drops entries that stand before the first unreleased sub-section when
  it merges, and everything when the version is `Unreleased`
  (`ChangelogEntries.EntriesAreConservedIff`); with a version that makes no readable header a
  second run is not a no-op (`ChangelogRuns.SecondRunIsNoOpIff`).

## Model

| member | source | states |
|---|---|---|
| `ExtractionWire.HeaderReadsBack` | src/extraction_worker.rs:525-541 | the four little-endian length bytes give back every length below 2^32 |
| `ExtractionWire.HeaderIsLittleEndian` | src/extraction_worker.rs:525-541 | byte by byte, lowest first, what a length is written as and what four bytes are read as |
| `ExtractionWire.ReadFrameOfFrame` | src/extraction_worker.rs:525-541 | reading a frame followed by anything gives its message and leaves exactly the rest |
| `ExtractionWire.ReadFrameExactly` | src/extraction_worker.rs:525-532 | on any bytes: a message needs its four length bytes and as many bytes as they say, and then exactly those are used up, readable or not; fewer bytes are end of input |
| `ExtractionWire.WriteThenRead` | src/extraction_worker.rs:525-541 | writing any list of frameable messages and reading the stream gives that list, then end of input |
| `ExtractionWire.TruncationReadsAPrefix` | src/extraction_worker.rs:118-122 | any truncation of a written stream reads as the messages whose frames survived whole, then end of input |
| `ExtractionWire.WholeFramesIsMaximal` | src/extraction_worker.rs:525-541 | the prefix a truncation reads is the longest one that fits in the surviving bytes |
| `ExtractionWire.SlicesEq` | src/extraction_worker.rs:543-552 | the comparison without early exit decides equality of the two byte strings |
| `ExtractionWire.Reader.ReadExact` | src/extraction_worker.rs:525-531 | fills the buffer from the front of the stream and consumes that much, or reports end of input and uses the stream up |
| `ExtractionWire.Reader.ReadMessage` | src/extraction_worker.rs:525-532 | returns and consumes what the frame reader specifies: a message, end of input, or a malformed payload |
| `ExtractionWire.Writer.WriteMessage` | src/extraction_worker.rs:534-541 | appends exactly the frame of the message, or refuses one of 2^32 bytes or more and writes nothing |
| `ExtractionWire.SessionIsAnswers` | src/extraction_worker.rs:118-127 | a session sends the answers to the requests its input holds, in order, and exits cleanly only when all were answered and the input ended |
| `ExtractionWire.Serve` | src/extraction_worker.rs:118-127 | the serve loop sends and exits as the session specification says, from any point of it |
| `ExtractionWire.WorkerMain` | src/extraction_worker.rs:92-128 | nothing is served without the matching 32 token bytes; with them every whole request is answered in order |
| `ExtractionWire.ServedRequestsRoundTrip` | src/extraction_worker.rs:92-128 | the pool reads back the answers to the requests it wrote, in order: all of them if and only if each can be framed, else those before the first that cannot |
| `ExtractionPool.InitialInv` | src/extraction_worker.rs:231-238 | the numbered queue, idle threads and fresh workers satisfy the pool's invariant |
| `ExtractionPool.StepKeepsInv` | src/extraction_worker.rs:331-420 | every step of every thread, worker or canceller keeps it: queue suffix, one place per file, threads and workers in step, books balanced |
| `PoolOutput.EveryReachableState` | src/extraction_worker.rs:222-297 | in every reachable state the queue is a suffix of the input; each file is queued, held by one thread or finished once; results and skips are the answered and lost files, and every result is its own file's answer |
| `PoolOutput.OutputIsExpected` | src/extraction_worker.rs:278-296 | once all threads stopped, the sorted results are the answered files of the finished prefix in input order, each with its own answer |
| `PoolOutput.ScheduleNeverShows` | src/extraction_worker.rs:232-296 | two finished runs with equal per-file outcomes return equal lists, whatever the schedules and thread counts |
| `PoolOutput.SortIsStrict` | src/extraction_worker.rs:288-294 | sorting by index gives a strictly increasing list of the same results |
| `PoolProgress.WorkIsBounded` | src/extraction_worker.rs:331-420 | no schedule takes more steps than the measure of the starting state allows |
| `PoolProgress.JobIsBounded` | src/extraction_worker.rs:222-297 | in every interleaving a job takes at most nine steps per file and two per thread |
| `PoolProgress.NeverStuck` | src/extraction_worker.rs:331-420 | every thread that has not stopped can take a step of its own; files left behind mean that no thread stopped for an empty queue |
| `PoolShutdown.CancelledRun` | src/extraction_worker.rs:332-340 | from any state with the flag set, along any run that does not clear it, the queue loses at most one file for every thread about to pop, and a thread that polls takes no further file |
| `PoolShutdown.PollingStops` | src/extraction_worker.rs:332-340 | a thread that polls while the flag is set stops for the shutdown |
| `PoolShutdown.OnlyWhenAsked` | src/extraction_worker.rs:332-340 | threads stop for a shutdown only if one was requested |
| `PoolShutdown.UncancelledJobsDrain` | src/extraction_worker.rs:331-420 | a job nobody cancels, one of whose threads keeps its worker, takes every file off the queue |
| `PoolShutdown.OutcomesHaveCauses` | src/extraction_worker.rs:350-420 | every finished file ended as some step of the run says: with data a worker served, without because one served none, or lost as its pipe broke or its watchdog fired |
| `PoolShutdown.RoundTripsAddUp` | src/extraction_worker.rs:350-420 | on every run the replies received in time are the files finished with or without data, and the broken and timed-out round trips those lost for that reason, but for those on their way to being recorded |
| `PoolShutdown.ResultsAreAnswers` | src/extraction_worker.rs:278-296 | the results are exactly the files finished with data, each with that data |
| `PoolShutdown.SkipsAreLost` | src/extraction_worker.rs:278-296 | the skips are exactly the files lost, each with its reason; files without data are neither |
| `SharedPool.Pool.Perform` | src/extraction_worker.rs:331-420 | each step of the shared pool is one transition of the system |
| `SharedPool.ExtractFiles` | src/extraction_worker.rs:222-297 | it finishes where the given schedule leads, every scheduled action being taken when it is enabled, and returns the files answered on that run in input order, each with its own answer, and the files lost; once a turn cancels the job for good, no more files are returned or lost than were taken by then and threads were about to pop, and none when that is the first turn |
| `UtcCalendar.YearLength` | src/display.rs:543-557 | the calendar used as reference has 366 days exactly in leap years |
| `UtcCalendar.NextDayCountsOne` | src/display.rs:543-557 | in the reference calendar the next date is valid and one day later |
| `UtcCalendar.DayNumberIsInjective` | src/display.rs:543-557 | dates and day numbers correspond one to one, and in the same order |
| `UtcCalendar.EraIsFloor` | src/display.rs:546-548 | the correction before the truncating division makes the era the floor, and the day of era fits the unsigned cast |
| `UtcCalendar.YearOfEra` | src/display.rs:549-551 | the year-of-era estimate is exact: no unsigned underflow, a year below 400 and a day of year that fits it |
| `UtcCalendar.CivilIsCorrect` | src/display.rs:545-556 | every day number in range yields a valid date whose day number it is |
| `UtcCalendar.CivilIsABijection` | src/display.rs:545-556 | civil-from-days and days-from-civil are inverse both ways and keep the order |
| `UtcCalendar.CivilFollowsTheCalendar` | src/display.rs:545-556 | day z + 1 is the calendar successor of day z |
| `UtcCalendar.CivilStartsAtTheEpoch` | src/display.rs:543-546 | day 0 is 1970-01-01 |
| `UtcCalendar.CopiesAgree` | src/blame_engine.rs:654-663 | the `u64` copy computes the same date as the `u32` one |
| `UtcCalendar.StampRebuildsSeconds` | src/blame_engine.rs:646-665 | the fields rebuild the timestamp, and the copies agree on the date, if and only if the year fits the `i32` it is cast to |
| `UtcCalendar.TimeOfDay` | src/blame_engine.rs:648-652 | hour, minute and second are in range and rebuild the second of the day |
| `UtcCalendar.LessPadded` | src/blame_engine.rs:643 | fixed-width printed numbers compare as strings the way they compare as numbers |
| `UtcCalendar.PadReadsBack` | src/blame_engine.rs:643 | a padded number is made of the digits 0 to 9 and an independent reader gets the number back |
| `UtcCalendar.SignedReadsBack` | src/display.rs:556 | so does a signed one, with its sign |
| `UtcCalendar.StringOrderIsTimeOrder` | src/blame_engine.rs:640-644 | for years 0 to 9999 the printed timestamps sort as strings exactly by time |
| `UtcCalendar.DateStartsTheStamp` | src/display.rs:543-557 | the printed date of a day starts the printed timestamps of its seconds, for every year that fits the `i32` |
| `UtcCalendar.DateReadsBack` | src/display.rs:556 | for years 0 to 9999 the printed date has ten characters, hyphens at 4 and 7, and digits that read back as the valid date of that day |
| `UtcCalendar.StampReadsBack` | src/blame_engine.rs:640-644 | for years 0 to 9999 the printed timestamp has twenty characters, separators at 4, 7, 10, 13, 16 and 19, and six numbers that rebuild the second |
| `UtcCalendar.DateOrderIsDayOrder` | src/display.rs:556 | for years 0 to 9999 the printed dates sort as strings exactly by day |
| `Snapshots.TurnsTable.UpsertMonotonicTurn` | src/global_db.rs:762-848 | the row becomes the upsert of the old one, and a change is reported exactly when the guard accepts |
| `Snapshots.TurnsTable.InsertTurn` | src/global_db.rs:635-662 | inserts exactly when the message is new and never touches an existing row |
| `Snapshots.TurnsTable.AddToolResultTokens` | src/global_db.rs:676-688 | adds to the stored size of a known message, nothing for zero tokens or an unknown one |
| `Snapshots.HistoriesGrow` | src/global_db.rs:795-824 | over any history, between any two points: input, cache and credits never fall, the agent stays, the revision moves only from 0 to 1, output falls only at that repair, and the tool-result size grows by exactly the results delivered between them |
| `Snapshots.ToolResultsAddUp` | src/global_db.rs:676-688 | over every history the stored tool-result size is that of the results delivered since the row was made, whatever snapshots came between |
| `Snapshots.RowsShowDeliveries` | src/global_db.rs:773-824 | over every history, field by field, which delivered turn a stored row shows: the last that moved it, with the time of the first or for Copilot of that one, and the credits of the last such turn that had any |
| `Snapshots.AsI64KeepsTheBits` | src/global_db.rs:773-794 | stored integers are the delivered ones modulo 2^64 |
| `Snapshots.ReplayIsRefused` | src/global_db.rs:795-824 | delivering an accepted snapshot again changes nothing and reports no change |
| `Snapshots.AcceptedClimbs` | src/global_db.rs:795-824 | every accepted snapshot moves the row up a fixed order |
| `Snapshots.AboveIsStrictOrder` | src/global_db.rs:795-824 | that order is irreflexive and transitive |
| `Snapshots.HistoriesNeverReturn` | src/global_db.rs:773-848 | after an update no history brings the row back; without one only the tool-result size moves |
| `Snapshots.FollowsItsDocumentationIff` | src/global_db.rs:690-697 | when the guard and the documented rule agree: where the rule applies, for the same agent and revision or the Codex repair; elsewhere, unless an Augment cost rises, a Codex cost appears first or it is the repair |
| `Snapshots.UndocumentedTriggers` | src/global_db.rs:795-824 | an input for each trigger the rule does not list |
| `Snapshots.AnyOrderEndsOnTheTop` | src/global_db.rs:773-824 | for a growing chain of snapshots of one kind, any order with duplicates and gaps ends on the largest delivered one, with the credits last kept on the way up |
| `Snapshots.AnyOrderEndsOnTheLargest` | src/global_db.rs:773-824 | when the largest delivered snapshot carries credits or none does, the whole row is that snapshot's |
| `Snapshots.CreditsSettledIff` | src/global_db.rs:793-802 | the stored credits are the same for every order of the deliveries if and only if the largest delivered snapshot carries credits or none does |
| `Snapshots.MixedCreditsDependOnOrder` | src/global_db.rs:793-802 | two snapshots, only the smaller with credits, whose order decides the stored credits |
| `KeyMigration.NormalizeKeyString` | src/global_db.rs:85-106 | editing in place computes prefix stripping, drive folding and separator trimming |
| `KeyMigration.TrimTo` | src/global_db.rs:138-149 | trimming keeps a prefix, never eats the root, and leaves no separator after it |
| `KeyMigration.NormalizeIsKey` | src/global_db.rs:85-106 | the key, said of the characters: one verbatim prefix gone, the drive letter in upper case, no separator at the end behind the root, all else kept |
| `KeyMigration.KeyIsUnique` | src/global_db.rs:85-106 | that description fits one string only |
| `KeyMigration.FoldIsIdempotent` | src/global_db.rs:97-106 | drive folding and trimming are idempotent |
| `KeyMigration.NormalizeIsIdempotentIff` | src/global_db.rs:85-106 | normalising twice is normalising once if and only if the path is not a verbatim prefix followed by another one with text behind it |
| `KeyMigration.VerbatimInputs` | src/global_db.rs:90-94 | two paths on which it is not, one without a doubled prefix, and a doubled prefix on which it is |
| `KeyMigration.MergeRows` | src/global_db.rs:396-410 | the loop yields one sum per canonical key of an absolute row, the rows that move in order, and whether any row is dropped |
| `KeyMigration.GlobalStore.MigrateProjectPaths` | src/global_db.rs:370-440 | the whole migration, with every pattern of failing statements |
| `KeyMigration.GlobalStore.RewriteLedger` | src/global_db.rs:424-433 | the ledger after the UPDATE statements that do not fail, one after the other |
| `KeyMigration.OrderOfUpdatesIsIrrelevant` | src/global_db.rs:424-433 | with an idempotent normaliser the one-at-a-time updates, in any order, equal the simultaneous renaming |
| `KeyMigration.MigrationConserves` | src/global_db.rs:396-440 | without failures: one row per canonical key, no token of an absolute row lost, and every ledger row whose project was read is found under that project's key, every other one under its own |
| `KeyMigration.LeftAsItWasIff` | src/global_db.rs:366-440 | with something to rewrite among the rows read, the store is left as it was if and only if the SELECT or the DELETE fails, and is tried again exactly then or when the flag cannot be set |
| `KeyMigration.TokensConservedIff` | src/global_db.rs:380-423 | after the DELETE exactly the tokens of the unread absolute rows and of the failing keys are gone, so the absolute total is kept if and only if both hold none; once the flag is set no later run makes up for them |
| `KeyMigration.LedgerFollowsIff` | src/global_db.rs:424-433 | every ledger row follows its project if and only if no UPDATE fails whose old key is in the ledger |
| `KeyMigration.FailuresAreNotUndone` | src/global_db.rs:366-440 | a store on which failing statements lose the tokens, strand the ledger row and set the flag |
| `KeyMigration.UnreadRowsAreLost` | src/global_db.rs:382-387 | a table of which one row fails to read, and whose tokens go with the DELETE |
| `ShellScan.HasChainedCommand` | src/hooks.rs:1573-1614 | true exactly when some position chains, pipes, substitutes or redirects under the quoting automaton |
| `ShellScan.SliceIsUnchained` | src/hooks.rs:613-649 | a piece that starts outside quotes holds no chaining position that the whole line does not hold there |
| `ShellScan.CutTurn` | src/hooks.rs:577-611 | a turn of the scanner neither skips nor invents a separator or a refused shape |
| `ShellScan.ScanSegments` | src/hooks.rs:570-649 | the scan loop finds exactly the cut that reading position by position under the quoting automaton gives, and refuses exactly when that reading does |
| `ShellScan.SplitTopLevelSegments` | src/hooks.rs:559-669 | succeeds exactly on the modelled shapes with more than one stage; then the untrimmed pieces and the separators spell out the command, no separator is quoted or escaped, and no returned stage is chained |
| `ShellScan.TidyAll` | src/hooks.rs:651-669 | trims stages, drops blank segments, refuses a blank stage in a pipeline |
| `ShellLines.SplitUndoesBatch` | src/hooks.rs:559-669 | pipelines of plain stages joined by `&&`, `||` or `;` split into exactly those pipelines and stages; one stage alone does not split |
| `ShellLines.SplitIsSimple` | src/hooks.rs:559-611 | a command that splits closes its quotes and has no newline, substitution, subshell or redirect but of standard error |
| `ShellTokens.Tokenize` | src/hooks.rs:2070-2128 | the loop computes the token specification and stops at the first unquoted, unescaped control or redirect character |
| `ShellTokens.UnchainedStopsOnlyAtRedirects` | src/hooks.rs:2104-2114 | on a line without chained commands it stops early only at an unquoted `<` or the `>` of an unquoted `2>` |
| `ShellTokens.PrintReadsBack` | src/hooks.rs:2070-2128 | tokenizing undoes single-quote printing, for exactly the lists without empty tokens |
| `ShellTokens.EveryStyleReadsBack` | src/hooks.rs:2070-2128 | words in single quotes, in double quotes or escaped character by character are read back as what they say |
| `ShellTokens.OtherPair` | src/hooks.rs:2084-2098 | inside double quotes a backslash before any other character stands for itself |
| `CommandPrefixes.ParseLeadingEnvAssignment` | src/hooks.rs:1932-1965 | its two loops find the name, value and remainder of a leading assignment |
| `CommandPrefixes.LeadingAssignment` | src/hooks.rs:1932-1965 | name, equals sign, value and remainder spell out the text; the name is an identifier and white space follows the value |
| `CommandPrefixes.LeadingCd` | src/hooks.rs:1971-2060 | a leading `cd` has white space after it, and the remainder is a proper suffix |
| `CommandPrefixes.StripCommandPrefixes` | src/hooks.rs:1840-1883 | the fixed-point loop terminates and computes the peeling: remainder, last opt-out assignment, first `cd` |
| `CommandPrefixes.StripIsASuffixAndFixed` | src/hooks.rs:1840-1883 | the remainder is a suffix behind exactly the peeled items, and stripping it again changes nothing |
| `CommandPrefixes.PeelKeepsText` | src/hooks.rs:1840-1883 | the peeled items and the remainder spell out the trimmed command, and nothing more leads it |
| `CommandPrefixes.OptsOutIff` | src/hooks.rs:1855-1899 | the flag is on exactly when the last assignment to the opt-out variable, unquoted, is not empty, not `0` and not `false` in any case |
| `CommandPrefixes.FirstCdIff` | src/hooks.rs:1864-1873 | the directory is that of the first peeled `cd`, if there is one |
| `PrefixReading.WrapperIsPeeled` | src/hooks.rs:1847-1852 | `rtk`, `sudo`, `time` or `nice` in front of a command changes nothing |
| `PrefixReading.AssignmentIsPeeled` | src/hooks.rs:1854-1862 | a plain assignment in front changes nothing but, for the opt-out variable, the flag |
| `PrefixReading.CdIsPeeled` | src/hooks.rs:1864-1873 | a plain `cd` in front changes nothing but the directory |
| `HookPolicy.IsReadOnlySed` | src/hooks.rs:505-529 | true exactly when no word starts with `-i`, `--in-place` or `-e` and the first word that is no option has only addresses and `p`, `d`, `q`; clustered options such as `-ni` pass |
| `HookPolicy.SedScriptsOnlyPrint` | src/hooks.rs:505-529 | what it accepts has no word starting with `-i`, `-e` or `--in-place`, and its script none of the commands that write, read, run, substitute or insert |
| `HookPolicy.IsInertCommand` | src/hooks.rs:484-500 | decides the inert heads, `true` and `:` only ahead of the search |
| `HookPolicy.IsReadOnlyFilter` | src/hooks.rs:534-547 | decides the filters; a `sort` with the word `-o` or one that starts with `--output`, and a `uniq` with a word that is no option, count as work |
| `HookPolicy.EvaluateBashSegment` | src/hooks.rs:706-716 | None for every environment when the text opts out; any answer is what the search named by the text, its tokens and its first `cd` are judged to be, and such a judgement is always the answer |
| `HookPolicy.OptedOutIsLeftAlone` | src/hooks.rs:707-712 | a command whose last assignment to the opt-out variable switches the hook off is never redirected |
| `HookPolicy.SearchTailIff` | src/hooks.rs:1702-1713 | what counts as a search is exactly `grep`, `rg` or `ag` and a blank, or `git` and `grep` with white space and perhaps `--no-pager` between them |
| `HookPolicy.EvaluateBashCommand` | src/hooks.rs:671-703 | denies if and only if the stripped command is one judged search, or it splits into expendable pipelines with at least one judged search; the reason is the first one's, from a segment that does not opt out; an opted-out command that does not split is let through |
| `HookPolicy.BatchDeniedIff` | src/hooks.rs:688-703 | a split command is denied exactly when every segment's later stages only filter and its head is redirected or inert, and one head is redirected |
| `HookPolicy.JudgeSegments` | src/hooks.rs:689-703 | the loop denies exactly when every pipeline is expendable and one holds a judged search |
| `HookPolicy.JudgeStages` | src/hooks.rs:691-700 | one pipeline: its head's reason and whether all of it may be discarded |
| `HookPolicy.SearchIsReadThrough` | src/hooks.rs:1694-1716 | the tokens of a judged search reach the end of the line or an unquoted `<` or `2>`: nothing after them is chained |
| `HookScope.DenialDiscardsOnlyTheSearchIff` | src/hooks.rs:706-716 | a denied whole line runs only its peeled `cd`s and the search if and only if the prefixes show all they run and the remainder has no further line, no process substitution and nothing hidden from the scanner |
| `HookScope.LineIsOnlyTheSearchIff` | src/hooks.rs:1840-1883 | for any line and any cut into items and remainder, the shell runs only the search if and only if the prefixes show all they run and the remainder is one command |
| `HookScope.PlainPrefixIsShown` | src/hooks.rs:1840-1883 | prefixes without quoting, substitution, comment, redirection or a separator but those of the peeled `cd`s show all they run |
| `HookScope.PeeledIsWellFormed` | src/hooks.rs:1840-2013 | a peeled item ends in white space or a separator, an unquoted assignment is one word, and a `cd` holds its separator |
| `HookScope.SplitSeesAllIff` | src/hooks.rs:559-669 | the splitter sees every command end the shell sees, and nothing is run inside, if and only if no such end or process is quoted to it |
| `HookScope.AgreementShowsAll` | src/hooks.rs:559-669 | a line both automata read alike hides nothing from either scanner |
| `ShellLexer.UnchainedIsOneCommandIff` | src/hooks.rs:1573-1614 | a line that counts as unchained is one command to the shell, with none inside it, if and only if it has no further line, substitutes no process and hides nothing from the scanner |
| `ShellLexer.AutomataAgree` | src/hooks.rs:1573-1614 | up to the first comment, `$'`, `${`, `$[` or `$` before a line joint, the scanner quotes as the shell does |
| `HookInputs.NewlineHidesWork` | src/hooks.rs:1573-1614 | a line with a newline is judged as one search, with the second command among its tokens |
| `HookInputs.ProcessHidesWork` | src/hooks.rs:1573-1614 | a line with a process substitution is judged as the search in front of it |
| `HookInputs.CommentHidesWork` | src/hooks.rs:1573-1614 | an apostrophe in a comment hides the command on the next line |
| `HookInputs.AnsiQuoteHidesWork` | src/hooks.rs:1573-1614 | an escaped quote in `$'...'` hides a separator and the command behind it |
| `HookInputs.BraceHidesWork` | src/hooks.rs:1573-1614 | quotes in a `${...}` within double quotes hide the command on the next line |
| `HookInputs.AssignmentHidesWork` | src/hooks.rs:1932-1965 | a substitution in a stripped assignment is discarded with the search |
| `HookInputs.ValueHidesWork` | src/hooks.rs:1932-1965 | so is a command behind a separator in its value |
| `HookInputs.EscapeHidesWork` | src/hooks.rs:1932-1965 | an escaped blank ends the value for the hook only, so the line runs what it seems to search for |
| `HookInputs.CdHidesWork` | src/hooks.rs:1971-2013 | a command behind a newline inside a stripped `cd` is discarded with the search |
| `Benchmark.WritableIffValidHere` | src/global_benchmark.rs:151-216 | a measurement that saw this machine's resources is valid for later checks exactly when it is complete enough to be written |
| `Benchmark.ValidIffFits` | src/global_benchmark.rs:151-216 | a complete result, whose resources its own probe reported, is valid for a later check if and only if its CPU count and total memory fit what that check probed |
| `Benchmark.ValidExactly` | src/global_benchmark.rs:151-216 | a file is valid exactly when it is a table of schema 1 with a complete result of algorithm 2 that fits |
| `Benchmark.ToleranceIsATenthOfTheSavedValue` | src/global_benchmark.rs:218-220 | memory may move by a tenth of the saved value either way; the test is not symmetric |
| `Benchmark.FailedProbesKeepValidity` | src/global_benchmark.rs:188-216 | an unknown current value never invalidates a file |
| `Benchmark.Cache.Write` | src/global_benchmark.rs:241-253 | refuses incomplete results, and otherwise replaces the file wholly or leaves it |
| `Benchmark.Cache.EnsureIn` | src/global_benchmark.rs:258-290 | when it is disabled, skipped, cached or measured; with the lock and no force a file that became valid during the wait is returned as cached and kept; a measured result is saved or the file left as it was |
| `Benchmark.SoloRunIsUndisturbed` | src/global_benchmark.rs:258-290 | a lone caller of the protocol, locked or not, gets what a single check decides |
| `Benchmark.EveryCallIsEnsureIn` | src/global_benchmark.rs:258-290 | in every interleaving every finished caller has the outcome of `ensure_in` for the files it looked at, and the file it leaves unless another caller changed it since |
| `Benchmark.StartsAreBounded` | src/global_benchmark.rs:258-290 | in every interleaving, with forced callers and failed locks, writes and callers, benchmarks start at most once more than there are forced or unlocked starts and failed, lost or unfit results |
| `Benchmark.StepKeepsOnce` | src/global_benchmark.rs:258-290 | every step, crash, failed write and unfit result keeps the protocol's invariant when nobody forces and locks are obtained |
| `Benchmark.MeasuresAtMostOnce` | src/global_benchmark.rs:258-290 | then in every interleaving at most one benchmark starts beyond those lost, not saved or unfit, none over a valid file, and unless a result was unfit or not saved all callers return the one the file holds |
| `Benchmark.AValidFileStaysValidIff` | src/global_benchmark.rs:258-290 | with forced callers, failed locks, refused or failed writes and crashes too, a valid file stays valid throughout if and only if no unfit result is written |
| `Benchmark.WritesDecideValidity` | src/global_benchmark.rs:241-253 | only writes change the file, none removes it, and a write leaves it valid if and only if the result fits |
| `Benchmark.FilesEndWell` | src/global_benchmark.rs:258-290 | between any two points of a run the file is untouched, valid, or replaced by an unfit result |
| `Benchmark.UnknownMemoryBreaksAFile` | src/global_benchmark.rs:90-98 | a forced benchmark that does not learn the total memory leaves a valid file invalid |
| `Benchmark.FailedLocksMeasureTwice` | src/global_benchmark.rs:226-239 | without the lock two callers both measure |
| `Branches.SanitizeBranchName` | src/branch.rs:433-457 | the loop computes substitution, collapsing and trimming |
| `Branches.SanitizeIsClean` | src/branch.rs:429-457 | the stem has no unsafe character, no double and no outer underscore, and keeps every other character in order |
| `Branches.SanitizeFixesExactlyCleanNames` | src/branch.rs:433-457 | exactly the clean names are unchanged, so sanitizing is idempotent |
| `Branches.BranchMeta.RemoveAllBranches` | src/branch_meta.rs:85-97 | keeps the default's entry and returns all others |
| `Branches.BranchMeta.RenameBranch` | src/branch_meta.rs:107-124 | renames, with default and parents following, or changes nothing and says so |
| `Branches.BranchMeta.UniqueBranchDbFile` | src/branch.rs:547-565 | the stem's file unless another branch has it, then the hashed one |
| `Branches.BranchMeta.TrackBranchCopy` | src/branch.rs:578-618 | tracks exactly an untracked, non-default branch whose parent database exists |
| `Branches.BranchMeta.SetDefaultBranch` | src/branch.rs:395-427 | promotes, renames the previous default, or refuses an unknown branch |
| `Branches.BranchMeta.ReconcileDefaultBranch` | src/branch.rs:323-379 | renames a vanished default only to a detected, untracked one |
| `Branches.EveryRunIsRooted` | src/branch_meta.rs:37-137 | after every run of the guarded operations the default branch is tracked and has no parent |
| `Branches.StepKeepsFilesDistinctIff` | src/branch.rs:547-565 | a step keeps database files pairwise distinct if and only if it needs no hashed name already taken |
| `Branches.FreshRunsKeepFilesDistinct` | src/branch.rs:537-565 | so runs with fresh hashed names keep them distinct throughout |
| `Branches.HashedNameCanBeTaken` | src/branch.rs:547-565 | a possible run of three tracked branches after which two have the same file |
| `Branches.RetrackIsStable` | src/branch.rs:541-565 | asking again for a branch just tracked gives the file it has |
| `Branches.RenameMovesOneKey` | src/branch_meta.rs:104-124 | a rename moves one key; every entry is kept under its new name with its parent under its new name, and the default branch follows |
| `Branches.RenamingBackUndoesIff` | src/branch_meta.rs:104-124 | renaming back restores everything if and only if no entry named the new name as its parent |
| `Branches.DefaultMovesIff` | src/branch.rs:323-379 | to which branch each operation moves the default, if at all |
| `Branches.StepLeavesTheRest` | src/branch_meta.rs:56-137 | which entries a step leaves exactly as they were |
| `Branches.AskedEntry` | src/branch_meta.rs:76-137 | touching moves the sync time alone, promoting clears the parent alone |
| `Branches.TrackedEntry` | src/branch.rs:537-565 | a tracked branch gets the ancestor found, or else the default, as its parent, and one time; an untrackable one changes nothing |
| `Branches.RemovalIsExact` | src/branch_meta.rs:69-97 | removing forgets exactly the branches asked for, never the default |
| `Branches.RunsConserveFiles` | src/branch_meta.rs:104-137 | runs of set-default, reconcile and touch conserve, for every file, the number of branches using it |
| `Branches.StepKeepsForest` | src/branch_meta.rs:56-137 | a step keeps parents tracked and links acyclic unless it removes a branch that is still a parent |
| `Branches.OrphaningBreaksForest` | src/branch_meta.rs:70-75 | and such a removal always breaks that |
| `Branches.RunsKeepForest` | src/branch_meta.rs:37-137 | runs that never remove a parent, in particular runs without removal, stay a forest |
| `Branches.ForestHasNoCycle` | src/branch_meta.rs:14-24 | in a forest no branch is its own ancestor and parent chains are bounded by the number of branches |
| `Branches.RemovalCanCloseCycle` | src/branch_meta.rs:56-75 | a possible run with a removal after which two branches are each other's parent |
| `Discovery.Discover` | src/config.rs:769-797 | the upward walk returns what the nearest-project-unless-cut-off rule says; an initialized root has a database, an incomplete one a configuration outside the home directory and no database |
| `Discovery.OwnerIsUnique` | src/config.rs:746-762 | the rule has one answer, so it says exactly what the walk returns |
| `Discovery.MarkedAbove` | src/config.rs:782 | decides whether a directory or one above it carries a git marker |
| `Discovery.EveryDirectoryBetweenAgrees` | src/config.rs:748-751 | every directory between a start and its root resolves to the same root |
| `Discovery.GitRootIsAFixedPoint` | src/config.rs:740-743 | starting from a reported git root gives the same answer |
| `Discovery.OuterRepositoryIsNeverUsed` | src/config.rs:753-758 | a project above an independent repository is used only when it is itself inside no repository |
| `FileHistory.WalkFileHistory` | src/blame_engine.rs:540-618 | the loop visits the heads of the blob runs of the walked commits, and hits the cap exactly when the chain is longer |
| `FileHistory.VisitedBlobsAreDeduplicated` | src/blame_engine.rs:572-595 | the visits' blobs are the chain's present blobs with adjacent repeats removed |
| `FileHistory.VisitsAreRunHeads` | src/blame_engine.rs:572-595 | exactly which commits are visited, newest first |
| `FileHistory.VisitsNameIntroducersIff` | src/blame_engine.rs:115-118 | all visits of a walk name the commit that introduced their blob if and only if no walked commit shares its blob with the next older one, unless the nearest newer present commit has it too |
| `FileHistory.NewestNotIntroducing` | src/blame_engine.rs:572-595 | of two commits with one blob the newer is visited; after an absence the visit did change the file |
| `FileHistory.Group` | src/blame_engine.rs:120-230 | the pending slot yields one match per maximal run of equal hashes before the entity vanishes, the oldest of its run |
| `FileHistory.Log` | src/blame_engine.rs:84-297 | without renames: those events oldest first; the cap is the boundary exactly when it was hit and no walked blob lacks the entity, exhaustion exactly when every blob of the chain was skipped |
| `FileHistory.BoundaryIsExact` | src/blame_engine.rs:278-288 | whether the entity vanishes, and whether nothing was found, said of the walked commits themselves |
| `FileHistory.EventsAreDeduplicated` | src/blame_engine.rs:206-230 | the events' hashes are the matches' hashes with adjacent repeats removed |
| `FileHistory.EventsAreOldestFirst` | src/blame_engine.rs:275-276 | the events are strictly oldest first |
| `FileHistory.EventNamesIntroducerIff` | src/blame_engine.rs:206-230 | an event names the commit that introduced its body if and only if the next older commit holds another blob, or past the end of the walk another body |
| `HistoryEvents.EventsAreEmitted` | src/blame_engine.rs:84-297 | the events are exactly those of the walked commits that are visited and matched before any newer visited one lacks the entity and whose next visited match is another |
| `HistoryEvents.LogNamesIntroducersIff` | src/blame_engine.rs:206-230 | all events name the commits that introduced their bodies if and only if no such commit shares its blob with the next older walked one, nor the last walked one its body with the first that was not walked |
| `HistoryEvents.EventNotIntroducing` | src/blame_engine.rs:206-230 | two commits with one blob, whose event names the newer |
| `ReleaseVersions.PrintReadsBack` | src/cloud.rs:500-510 | every version parses back from its printed form |
| `ReleaseVersions.NumbersAreRead` | src/cloud.rs:500-510 | a number is read with or without a plus sign, and only below 2^64 |
| `ReleaseVersions.FurtherPartsAreIgnored` | src/cloud.rs:500-510 | further dotted parts of a version are ignored |
| `ReleaseVersions.TwoPartsAreNotEnough` | src/cloud.rs:500-510 | a version with two parts is not read |
| `ReleaseVersions.NewerIsStrictOrder` | src/cloud.rs:592-614 | newness is irreflexive, asymmetric and transitive |
| `ReleaseVersions.NewerIsTotalWithinAChannel` | src/cloud.rs:592-614 | parseable versions are comparable or parse alike exactly within one channel |
| `ReleaseVersions.BumpsCompose` | src/cloud.rs:551-587 | two upgrades in a row call for the larger of their kinds |
| `ReleaseVersions.BumpIffNewer` | src/cloud.rs:551-587 | from a parseable version a bump is reported exactly when the new one is newer |
| `ReleaseVersions.BumpNamesTheFirstDifference` | src/cloud.rs:551-587 | between printed versions of one channel: major, minor or patch as the first number that grows, and a patch between growing pre-releases of one base |
| `ReleaseVersions.BumpOverUnreadable` | src/cloud.rs:551-587 | over a version that cannot be read every stable release is a major bump |
| `ReleaseVersions.NewerMinorIffMinorOrMajor` | src/cloud.rs:620-634 | the update notice fires exactly on minor and major bumps |
| `VersionPrecedence.NewerIsPrecedenceIff` | src/cloud.rs:592-614 | two versions that are compared are ordered by precedence if and only if their texts do not mislead; versions that are not compared are never newer |
| `VersionPrecedence.TagOrderIff` | src/cloud.rs:606-610 | the string order of two pre-release tags is their precedence if and only if, where they first differ, no number and no hyphen is misread |
| `VersionPrecedence.TenIsTakenForLess` | src/cloud.rs:606-610 | beta.10 is taken for older than beta.9 |
| `VersionPrecedence.NumberIsTakenForMore` | src/cloud.rs:606-610 | 2 is taken for newer than 1a |
| `VersionPrecedence.HyphenIsTakenForLess` | src/cloud.rs:606-610 | alpha-1 is taken for older than alpha.1 |
| `VersionPrecedence.BuildIsTakenForNewer` | src/cloud.rs:500-510 | build text makes a pre-release newer |
| `VersionPrecedence.SomeReleasesAreNeverNewer` | src/cloud.rs:592-614 | a release never replaces its pre-release, nor does one with build text replace an older release |
| `ChangelogText.CutSections` | scripts/prepare-release.py:86-136 | the loop of both parsers computes the cut into lead and headed sections |
| `ChangelogText.FlatUndoesSections` | scripts/prepare-release.py:86-136 | cutting loses no line, every section starts with its header and holds no other |
| `ChangelogText.SectionsUndoesFlat` | scripts/prepare-release.py:86-145 | cutting a printed document gives it back |
| `ChangelogText.HeaderNameIsBracketed` | scripts/prepare-release.py:58 | which lines are version headers, and of which version |
| `ChangelogText.MarkedLinesAreBullets` | scripts/prepare-release.py:60 | a dash, a star or digits and a dot, then a blank, make an entry at any indentation |
| `ChangelogText.JoinUndoesSplit` | scripts/prepare-release.py:88 | splitting a text into lines and joining them gives it back |
| `Changelog.PrintUndoesParse` | scripts/prepare-release.py:86-116 | a changelog survives parse and join if and only if it does not start with a version header; then a newline is added |
| `Changelog.RebuildUndoesSplit` | scripts/prepare-release.py:119-145 | a body survives split and rebuild if and only if it is not empty |
| `Changelog.TrimTrailingBlank` | scripts/prepare-release.py:153-157 | keeps the prefix up to the last line that is not blank |
| `Changelog.TrimKeepsEntries` | scripts/prepare-release.py:153-157 | trimming loses no entry |
| `Changelog.MergeSubsections` | scripts/prepare-release.py:222-246 | the merging loop computes the merged sub-sections and the reported count |
| `Changelog.MergeAddsEntriesInOrder` | scripts/prepare-release.py:222-246 | the first sub-section of every name ends with its old entries and then the unreleased ones of that name, in order |
| `Changelog.MergeKeepsRest` | scripts/prepare-release.py:222-246 | no other sub-section changes, and one is added only under a new name |
| `Changelog.PrepareRelease` | scripts/prepare-release.py:170-257 | the script does nothing, promotes or merges, as its specification says |
| `ChangelogRuns.LinkRefIsIdempotentIff` | scripts/prepare-release.py:160-167 | the link reference is added at most once if and only if the version is one line not ending in a blank |
| `ChangelogRuns.SecondRunIsNoOpIff` | scripts/prepare-release.py:170-257 | a second run does nothing if and only if the first one merged or wrote a readable header |
| `ChangelogRuns.SecondRunIsNoOp` | scripts/prepare-release.py:29-30 | so re-runs are safe for every ordinary version |
| `ChangelogRuns.EmptyVersionPromotesAgain` | scripts/prepare-release.py:192-215 | with an empty version the next run promotes again |
| `ChangelogEntries.MergedBlockReadsBack` | scripts/prepare-release.py:217-248 | read again, the merged block holds its old preface, and the old entries and then the unreleased ones, section by section |
| `ChangelogEntries.MergeLeavesTheRest` | scripts/prepare-release.py:217-257 | read again, the merged file has the same preface, headers and bodies but for the emptied unreleased block and the released one, which keeps its preface and sub-sections |
| `ChangelogEntries.MergedIsTotal` | scripts/prepare-release.py:246 | the reported number counts exactly the merged entries |
| `ChangelogEntries.PromotionKeepsTotal` | scripts/prepare-release.py:192-215 | a promotion moves all entries under the new header and no others |
| `ChangelogEntries.EntriesAfterARun` | scripts/prepare-release.py:170-257 | what a run keeps, loses and reports |
| `ChangelogEntries.EntriesAreConservedIff` | scripts/prepare-release.py:170-257 | the entries are conserved if and only if the run promotes, or merges into another block an unreleased block without entries before its first sub-section |
| `CancelGate.NoLostWakeUps` | src/cancel.rs:36-68 | in every interleaving a waiter past its check with the flag set has a permit or a requester still owing one |
| `CancelGate.SetFlagIsAlwaysSeen` | src/cancel.rs:36-68 | from any reachable state with the flag set, the owed notifications and the waiter's own steps make it return |
| `CancelGate.FlagFollowsRequests` | src/cancel.rs:36-74 | the flag is set exactly when the last store or reset was a request |
| `CancelGate.NoFalseReturn` | src/cancel.rs:56-74 | the waiter returns only at a check made while a request stands, so a left-over permit never ends it |
| `CancelGate.Gate.Drive` | src/cancel.rs:36-74 | the gate with its flag and notifier, driven through any interleaving, ends where the transitions do |

## Left out

- bincode is a pair of functions assumed inverse on the messages sent; the payload encodings themselves are not modelled.
- I/O errors half-way through a write, and reads that fail other than by end of input, are not modelled apart from ending a round trip.
- PoolOutput.EveryReachableState: a worker process is seen through its two pipes only; that it answers a request with that file's data is the `answersFor` parameter. Spawning, killing and reaping processes, and poisoned locks, are steps or are not modelled.
- SharedPool.ExtractFiles: threads are interleaved by an arbitrary schedule of steps, one at a time; the messages printed, the progress callback and the skip texts are not modelled.
- Snapshots.AnyOrderEndsOnTheLargest: costs are real numbers, not floating point, and SQLite's overflow of an added 64-bit integer into a float is not modelled.
- KeyMigration.MigrationConserves: path canonicalisation against the file system is the `normalize` parameter with stated idempotence; sums are unbounded, so an overflow of `i64` is not modelled; a failure to read the flag is not modelled.
- HookPolicy.EvaluateBashCommand: what the tokens of a search mean and whether the index knows the symbol are the `judge` parameter; file-finding commands, whole-file reads and the messages are not modelled.
- ShellScan.SplitTopLevelSegments: the Windows branches, in which a backslash does not escape, are not modelled, here and in the other scanners.
- HookScope.DenialDiscardsOnlyTheSearchIff: the shell is bash, with its own reading of quotes inside `${...}`; here-documents, arithmetic and parentheses that make a syntax error or define a function count as further text or as a substitution, and two assignments that the shell joins into one count as read otherwise. Redirections discarded with the search are not commands.
- HookPolicy.IsReadOnlyFilter: that the filters and `sed` scripts it accepts write nothing is not claimed; options it does not know, such as `-ni` or `-oout`, pass as in the code.
- Benchmark.MeasuresAtMostOnce: all callers' checks probe the same resources, while every measurement probes again with any outcome; a restart onto other hardware between two callers is not modelled. The `reset` command, which deletes the file, and `save_measurement`, a locked write without a check, are not steps.
- Benchmark.Cache.EnsureIn: TOML text is a table that parses or not; the resolution of worker counts from the result and the benchmark itself are not modelled.
- Branches.FreshRunsKeepFilesDistinct: SHA-256 is a function parameter, and freshness of the hashed names is the stated assumption.
- Branches.EveryRunIsRooted: loading, saving and locking the metadata file and copying or deleting databases are not modelled; the ancestor search and the repository's branch list are parameters.
- Discovery.Discover: directories are positions in a chain with three markers each; symbolic links and reading `.git` files are not modelled.
- FileHistory.Log: rename probing, with the recursion of `log` into earlier files that has no proved bound (src/blame_engine.rs:342-349), similarity scoring, git object access and parsing are not modelled; errors from the object store are not modelled.
- VersionPrecedence.NewerIsPrecedenceIff: texts that are not semantic versions, such as a leading `+` or further dotted parts that `parse_version` accepts, have no precedence to compare with.
- ReleaseVersions.NewerIsStrictOrder: fetching releases and the notice scopes are not modelled.
- ChangelogText.HeaderNameIsBracketed: the sub-section and list patterns use ASCII letters and digits for `\w` and `\d`; the dates of headers, which the script parses and never uses, are not kept.
- Changelog.PrepareRelease: reading the version from Cargo.toml, the clock and the file system are parameters or not modelled.
- CancelGate.NoLostWakeUps: one waiter; a waiter dropped by `select!` while it holds a notification is not modelled.
- SQL beyond the row semantics of the cited statements, HTTP and TLS, command-line parsing, printing, `doctor`, hardware timing, directory scanning and the memory, CPU and documentation helpers would only add easy members or are outside the model.
