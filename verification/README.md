# RouterCommander, modelled and proved in Dafny

RouterCommander runs command scripts against routers, decides from their output whether a failure was
reproduced, and collects logs. This project models the parts of it that are state machines, protocols and
parsers, in the form the Go code gives them, and proves what they keep over every input, every run and every
interleaving.

Run `dafny verify dfyconfig.toml` to verify everything.

## How the model is built

Code that changes things step by step is a method on objects or local state, and its `ensures` equates the
result and the new state with a function of the old state. The properties are then lemmas about that function,
so they hold of the method. Code that only computes is a function; what it means is stated by lemmas beside it.
Go's run-time panics are results of the model (`FieldParser.Panic`, `Schedule.NoReproSection`,
`Framing.SlicePanic`), not preconditions. What the program gets from outside is an input: the answers of a
router, the chunks in which a stream arrives, how a write ends, which actions of a concurrent system are taken in
which order.

| file | models |
|---|---|
| Bytes.dfy | bytes, sequences, trimming, searching, reading lines |
| FieldParser.dfy | `getValue`: the line around a match, splitting it, one field |
| Verdict.dfy | `check` and the declarative verdict of one test |
| ValueHistory.dfy | the values a test leaves behind over its iterations |
| Model.dfy | the entities of a command file |
| TestRunner.dfy | `runTest` and `matchPatterns` |
| Schedule.dfy, ScheduleTheorems.dfy, ScheduleForm.dfy | the engine as a function of file and answers, the declarative schedule, the refinement, and the schedule without recursion |
| RunHistory.dfy | one test inside whole runs of the engine |
| RunReports.dfy | what a run leaves with the commands |
| Pipeline.dfy | `process`, `processMainGroupOfCommands`, `runTests` on objects |
| CommandFile.dfy | `parseCommandFile` after decoding |
| LogQueue.dfy | the linked queue of log chunks on the heap |
| LogActor.dfy, LogTheorems.dfy | the logger as a step relation over any number of clients, and its guarantees |
| LogWorker.dfy | the worker loop on the heap, tied to the step relation |
| Framing.dfy, FramingTheorems.dfy | reading one command's output from a stream and cutting it out |
| Platform.dfy, Locations.dfy | the `show platform` inventory and the expansion of location names |
| Dispatch.dfy | starting one process per router and collecting the results |
| KnownHosts.dfy | the pinned host keys, in memory and in the file |
| Shortfalls.dfy | concrete inputs on which the code does not do what it is for |

## Main results

* **A run follows its schedule.** Whatever the file and the router, a run sends the schedule of the tests it
  recorded as fired: all of it without a fault, a beginning of it when the router refuses a command, exactly the part
  before the failing test when a test fails (`ScheduleTheorems.RunFollowsSchedule`, `TestThatFails`). A refused
  command is the last (`RefusalEndsRun`); how many iterations there are is `RunLength`. A run that no fault ends sends
  its iterations one after the other, each command in its place and with its collect flag (`ScheduleForm.WholeRunSends`,
  `MainForm`), and leaves with each command what its last answer matched and fired (`RunReports.RunLeaves`). With
  `stop_when_triggered` the whole list is known in closed form (`StoppingRunSends`). The heap program computes exactly
  this run (`Pipeline.Process`).
* **A test fires on its history.** In any run, the store of a test that one command names is, at the start of an
  iteration, the history built from what its command was answered so far (`RunHistory.StoreIsHistory`). In every
  recorded iteration of every run the test fires only when its verdict on that history is true and, with
  `stop_when_triggered`, no test named before it triggers; and then it does, unless a fault ended its command
  (`FiresByHistory`), which only the last recorded command of a run can meet (`FinishedWhen`). For a single
  `compare_with_previous_neq` field, with any other settings of the test and of the run, that verdict is spelled out
  (`FiresOnChange`); with a fixed occurrence it is a change of the value (`FiresOnChangeOfOccurrence`).
* **The verdict is the quantified one.** The counters and early returns of `runTest` compute the outcome of the
  first decisive result (`Verdict.VerdictIsFirstDecisive`, `Verdict.CountersDecide`, `TestRunner.RunTest`), what a
  result decides is known from its matches and cells (`Verdict.OutcomeExactly`), and the order of the fields does not
  matter (`ValueHistory.VerdictOfPermutedFields`).
* **The logger is linearizable** (`LogTheorems.ReachableHistories`, `LogReply`, `GetLogReply`, `GetLogSeesEarlierLogs`,
  `ServedInRealTimeOrder`): a Log returns nil exactly when its write succeeded, a GetLog returns exactly the chunks
  stored before it, and the worker on the heap does the same (`LogWorker.Work`). It deadlocks exactly when calls are
  left behind by a stopped worker (`DeadlockExactly`), and never closes the file under its writer
  (`FileOutlivesWorker`).
* **How reads of at most 1024 bytes split an output does not matter** exactly when no beginning of it that a reader
  can get to shows a prompt elsewhere, for outputs without escape sequences whose prompt comes after the echo line
  (`FramingTheorems.ChunkingExactly`, `LiteralStableExactly`). For every output with an echo, the slice of the body
  panics for no reads exactly when no such beginning shows a prompt whose offset, taken in the text without escape
  sequences, comes before the end of the echo (`SlicePanicsExactly`). Any of the prompt patterns ends an output
  (`Framing.FindPromptExactly`, `AnyPatternEnds`).
* **Every line sent names its location**, in the order of the expanded list and as often as asked for
  (`Locations.SendCommandWithLocations`, `LineNamesLocation`, `LinesDiffer`).
* **Dispatch ends, never blocks on its channel, and its status says whether every router was dealt with** (`Dispatch.SendNeverBlocks`,
  `NeverStuck`, `StepsRunOut`, `FinalStatus`).
* **Pinned keys stay pinned** (`KnownHosts.AcceptedExactly`, `FirstUsePins`), the trust-on-first-use model of section
  4.1 of RFC 4251: a call is accepted exactly when it shows the key recorded first, or is the first to be recorded;
  and after every callback the file rebuilds the map and ends its last line, exactly as long as no write of a new key
  fails with a part already written (`FileAgreesWithMap`).

## Where the code falls short of its purpose

Each of these is modelled as the code has it. Proved are the exact condition under which the code does what it is
for, an input on which it does not, or both.

* `t.ValuesStore[iteration]` is replaced by every field (cmd/pipeline.go:250), so an iteration remembers only the
  last field of the last occurrence, and every `compare_with_previous_neq` check of the next iteration is compared
  with that (`ValueHistory.PairFiresExactly`). When such a check is right: `ComparePreviousNeqExact`; with a fixed
  occurrence, a check of the last field always is: `FixedOccurrenceAgrees`. The same for
  `compare_with_previous_eq`: `EqPairFiresExactly`, `ComparePreviousEqExact`. Two unchanged outputs that fire:
  `TwoFieldsMisfire` for another field, `TwoOccurrencesMisfire` for another occurrence.
* The line search takes the last line start of `b[:en-1]` (cmd/pipeline.go:393). It is right exactly when the
  match touches a line that is not empty (`FieldParser.LocateExact`); on an empty first line it panics
  (`LocatePanicsExactly`), on any empty later line it returns two lines (`LocateEmptyLine`). An input for each:
  `LocateEmptyLineFails`.
* With `check_all_results` the passing occurrences are compared with all matches even when one occurrence was
  asked for (cmd/pipeline.go:271-275): `Verdict.AllResultsWithOccurrence`, `Shortfalls.AllResultsNeverFires`.
* Without a repro section a trigger dereferences nil (cmd/pipeline.go:62). Which files let some router do that:
  `RunHistory.CanMissReproExactly`; which runs do: `MissingReproByVerdicts`; one that does:
  `Shortfalls.TriggerWithoutRepro`.
* The prompt is found in text without escape sequences, but its offset is used on text that has them
  (pkg/types/router.go:563-567), so the body can end too early: `FramingTheorems.CutEndsAtPromptExactly`,
  `FramingTheorems.EscapeCutsShort`.
* Prompt text inside the output can end it early, depending on how reads split the stream
  (pkg/types/router.go:522-528): `FramingTheorems.ChunkingExactly`, `FramingTheorems.MisleadingStream`. Behind the
  echo on a line that has not ended it does so without a panic: `FramingTheorems.PromptBehindEcho`.
* The slice bounds can be out of order (pkg/types/router.go:567), because a prompt stands before the end of the echo
  or because an escape sequence on the echo line moves the offset of a later one: `FramingTheorems.SlicePanicsExactly`,
  `PanicCauses`, `PromptInEchoPanics`, `EscapeInEchoPanics`.
* Without line cards "all" names every route processor twice: `Locations.AllOfParsed`, `Shortfalls.OneProcessorTwice`.
  A location with a reserved name can make the expansion endless: `Locations.ExpansionEndsExactly`,
  `Shortfalls.AllIsEndless`.
* A `Log` or `GetLog` that is still on its channel when the worker is stopped never returns:
  `LogTheorems.LeftBehind`, `LogTheorems.DeadlockExactly`, `LogTheorems.AbandonedReachable`.
* The normal form of a host writes an IPv6 address and its port without brackets (cmd/ssh.go:89), so different
  endpoints can share a pin: `KnownHosts.AlikeExactly`, `KnownHosts.AddressesCollide`; host names never do:
  `KnownHosts.NamesAlikeExactly`.
* The comment at pkg/types/types.go:19-22 says that a command without test ids runs all its tests; the code runs
  none (cmd/pipeline.go:155): `Shortfalls.NoIdsNoTests`, `Shortfalls.TestsNotRun`.
* A new host's key is kept out of the map when its line cannot be written, but the bytes already written stay in the
  file (cmd/ssh.go:59-62), and then it no longer loads to the map or leaves a line that the next one will extend:
  `KnownHosts.CallAgrees`, `KnownHosts.FailedWriteDisagrees`, `KnownHosts.PartialWrite`.

## Model

| member | source | states |
|---|---|---|
| Bytes.TrimMeaning | cmd/pipeline.go:409 | Trimming takes bytes of the cut set off both ends of the text, nothing else, until neither end has one |
| Bytes.ReadLinesMeaning | cmd/pipeline.go:299-308 | Reading lines loses nothing; a newline ends every line but the last and stands nowhere else |
| Bytes.ContainsExactly | cmd/pipeline.go:348-365 | A text contains another exactly when it can be cut into something, the other, and something |
| FieldParser.EndOfLineMeaning | cmd/pipeline.go:387-391 | The end found for a match is the nearest newline at or after it, or the end of the buffer |
| FieldParser.LastLineStart | cmd/pipeline.go:393-397 | The last match of the line-start pattern begins the newline-free tail of the text |
| FieldParser.LineAroundUnique | cmd/pipeline.go:386-398 | At most one maximal newline-free stretch holds a position |
| FieldParser.LocateExact | cmd/pipeline.go:386-398 | The located segment is the line around the match if and only if that line is not empty |
| FieldParser.LocateMatch | cmd/pipeline.go:386-398 | For every match whose first byte is no newline, wherever its line lies, the line around it is located without an index underflow |
| FieldParser.LocatePanicsExactly | cmd/pipeline.go:386-398 | The slice bound underflows if and only if the match stands on an empty first line |
| FieldParser.LocateEmptyLine | cmd/pipeline.go:386-398 | On every later empty line the segment returned is the line before it, its newline, and the empty line |
| FieldParser.LocateEmptyLineFails | cmd/pipeline.go:386-398 | Two buffers: one with an empty first line, where the slice bound underflows, and one with an empty second line, where two lines come back |
| FieldParser.WeaveOfSplit | cmd/pipeline.go:400-404 | Every line is its parts joined by the separator runs that were removed; parts have no separators, runs nothing else |
| FieldParser.SplitOfWeave | cmd/pipeline.go:400-404 | Splitting recovers the parts from any line joined out of parts and non-empty runs, so the division is unique |
| FieldParser.SplitOfTokens | cmd/pipeline.go:400-404 | Split undoes join for tokens with runs around them: a leading run shifts the numbering by one, a trailing run adds an empty field |
| FieldParser.FieldOfJoinedLine | cmd/pipeline.go:374-410 | Field k of the line around a match is token k without blanks, newlines, tabs and commas around it; past the last token the extraction fails, and a negative k panics |
| FieldParser.ReadingFails | cmd/pipeline.go:374-410 | Exactly when a field cannot be read, and why: an empty first line, a separator that is no character class, a number past the last part, a negative one |
| Verdict.CheckAfterWrite | cmd/pipeline.go:246-258 | A check through the store it just overwrote depends only on its own value and the entry of the previous iteration |
| Verdict.SubstringChecks | cmd/pipeline.go:348-365 | The substring checks fire on a deviation: contain_substring exactly on values without the text, not_contain_substring exactly on values with it |
| Verdict.ValueChecks | cmd/pipeline.go:338-347 | compare_with_value_neq fires on every value but the one given, compare_with_value_eq on that one only |
| Verdict.PreviousChecks | cmd/pipeline.go:320-337 | The checks against the previous iteration never fire in the first; later they compare with its value of the same field; an unknown operation is an error |
| Verdict.VerdictIsFirstDecisive | cmd/pipeline.go:182-284 | The verdict is the outcome of the first decisive result, whichever position that is, and false when no result decides |
| Verdict.AllResultsWithOccurrence | cmd/pipeline.go:227-275 | All-results mode with an explicit occurrence fires on its fields if and only if there is one match and it passes |
| Verdict.RowTallyMeaning | cmd/pipeline.go:240-258 | Counting the fields fails exactly when some field's check does; otherwise the count is full exactly when all fire and positive exactly when one does |
| Verdict.WindowTallyMeaning | cmd/pipeline.go:236-270 | The same for the occurrences examined |
| Verdict.CountersDecide | cmd/pipeline.go:236-280 | Comparing the occurrence counter with the number of matches, or with zero, decides the quantified verdict |
| Verdict.FieldsByCells | cmd/pipeline.go:226-280 | The fields of a result, by their cells: an error if one fails; otherwise the test fires when one cell fires, or with check_all_results when all do and every match was examined |
| Verdict.OutcomeExactly | cmd/pipeline.go:186-282 | What one result decides: it fires, ends the test without firing, or fails, each if and only if a condition on the number of matches, the occurrence asked for and the cells holds |
| Verdict.StoreAfter | cmd/pipeline.go:246-250 | A test changes no entry but that of its own iteration, and single-field entries stay single-field |
| ValueHistory.VerdictOfPermutedFields | cmd/pipeline.go:237-280 | Permuting the fields of a test keeps its verdict, although every check overwrites what the next one reads; only which error comes first may change |
| ValueHistory.HistoryKeepsEntries | cmd/pipeline.go:246-250 | Later iterations alter no entry of an earlier one |
| ValueHistory.WriteIsLastField | cmd/pipeline.go:237-258 | An error-free iteration that reaches its fields leaves exactly the last field of the last occurrence |
| ValueHistory.HistoryOfCleanRun | cmd/pipeline.go:246-258 | The entry of iteration i is what the last field read in iteration i |
| ValueHistory.PreviousOfCleanRun | cmd/pipeline.go:320-337 | What iteration i compares with is what the last field read at the last occurrence of iteration i - 1 |
| ValueHistory.PairFiresExactly | cmd/pipeline.go:246-258 | At every occurrence examined, a compare_with_previous_neq check that reads a value fires unless the last field of the previous iteration has its number and read the same value at the last occurrence |
| ValueHistory.ComparePreviousNeqExact | cmd/pipeline.go:246-258 | At every occurrence, such a check fires exactly on a change at its own occurrence if and only if: for the last field's number, the last occurrence of the previous iteration read this value exactly when the same occurrence did; for another number, the value did change |
| ValueHistory.EqPairFiresExactly | cmd/pipeline.go:320-337 | At every occurrence examined from the second iteration on, a compare_with_previous_eq check that reads a value fires if and only if the last field of the previous iteration has its number and read the same value at the last occurrence |
| ValueHistory.ComparePreviousEqExact | cmd/pipeline.go:246-258 | Such a check fires exactly when nothing changed at its own occurrence if and only if the condition of ComparePreviousNeqExact holds |
| ValueHistory.FixedOccurrenceAgrees | cmd/pipeline.go:246-258 | With a fixed occurrence, a check of the last field's number fires exactly on a change |
| ValueHistory.TwoFieldsMisfire | cmd/pipeline.go:246-258 | A test with two fields fires on the first of them although the same output came twice |
| ValueHistory.TwoOccurrencesMisfire | cmd/pipeline.go:246-258 | A one-field test of every match fires although the same output came twice, because its first match is compared with the last one |
| ValueHistory.OneFieldNeqVerdict | cmd/pipeline.go:182-284 | A one-field test, with any occurrence, expected count and all-results setting, fires exactly when the count differs from the expected one, or every occurrence examined can be read and one of them (all matches, in all-results mode) differs from what the previous iteration read last |
| ValueHistory.FixedOccurrenceVerdict | cmd/pipeline.go:320-337 | With a fixed occurrence and no expected count that means: this iteration reads a value there and the previous one read another value or none |
| TestRunner.CheckField | cmd/pipeline.go:242-254 | One field: its result is the pure verdict of its value, its write the only entry of the iteration |
| TestRunner.CheckFields | cmd/pipeline.go:240-258 | The loop over the fields counts the firing ones and stops, reading and writing nothing more, at the first error |
| TestRunner.CheckOccurrences | cmd/pipeline.go:236-270 | The loop over the occurrences counts the passing ones and stops at the first error |
| TestRunner.CheckMatches | cmd/pipeline.go:212-280 | One result with matches gives the declarative outcome: count mismatch, missing occurrence, no fields, or the fields over the window |
| TestRunner.RunTest | cmd/pipeline.go:182-284 | The test's verdict is the declarative one, its store becomes the declarative one, and with any result to look at its pattern ends up compiled to what its text means, if it compiles |
| TestRunner.MatchPatterns | cmd/pipeline.go:296-318 | Every line of every result once per pattern that matches it, trimmed, in order |
| TestRunner.LineForm | cmd/pipeline.go:309-313 | A line is there once for every pattern that compiles and matches it, without newlines, carriage returns and tabs around it |
| TestRunner.MatchesForm | cmd/pipeline.go:296-318 | The matches are what the lines give, line by line and result by result |
| ScheduleTheorems.SendGroupTrace | cmd/pipeline.go:286-294 | A group is sent in order up to its end or its first refused command, and touches nothing else |
| ScheduleTheorems.RunTestsTrace | cmd/pipeline.go:151-180 | The commands sent while tests run are those of the tests that fired, in their order, or a beginning of them before a fault |
| ScheduleTheorems.RunCommandTrace | cmd/pipeline.go:96-146 | One main command sends itself, then what its fired tests ask for; only tests it names fire, at most one when stopping |
| ScheduleTheorems.RunMainTrace | cmd/pipeline.go:85-149 | The main group sends the main part of what it recorded as fired, or a beginning of it when a command is refused; the record is a legal one, or after a fault the beginning of one |
| ScheduleTheorems.IterateTrace | cmd/pipeline.go:52-74 | An iteration sends its part of the schedule for what it recorded, a beginning of it when a command is refused, and exactly the main part when a test fails; it is the last exactly when it triggered and the run stops on triggers |
| ScheduleTheorems.RunFollowsSchedule | cmd/pipeline.go:16-83 | For every file and router, a run sends the schedule of the tests it recorded as fired: all of it without a fault, a beginning of it when a command is refused, exactly the part before the failing test when a test fails; the record is legal or the beginning of a legal one |
| ScheduleTheorems.RefusalEndsRun | cmd/pipeline.go:52-74 | A run ends with a router error if and only if some command was refused, and that command is the last one sent |
| ScheduleTheorems.MissingReproExactly | cmd/pipeline.go:59-62 | The missing repro section is read if and only if the file has none and the one iteration triggers |
| ScheduleTheorems.StoppedMain | cmd/pipeline.go:96-146 | With stop_when_triggered a triggered iteration ends at the command of its only fired test |
| ScheduleTheorems.StoppedRun | cmd/pipeline.go:52-74 | With stop_when_triggered, no main command follows the one whose test is recorded last, and the post-mortem group is sent once, at the end |
| ScheduleTheorems.RunLength | cmd/pipeline.go:16-83 | A run has at most as many iterations as the repro section says (one without a section or with a number that is not positive) and at least one; it has exactly that many unless a fault ends it, or something fires and the section asks to stop |
| ScheduleTheorems.UntriggeredRun | cmd/pipeline.go:52-74 | With stop_when_triggered, an untriggered run sends its main group as often as the repro section says |
| ScheduleTheorems.StoppingRunSends | cmd/pipeline.go:16-83 | The exact list of commands of every fault-free run whose repro section asks to stop, for the command and the test that its record ends with, and the number of rounds the section says when nothing fires |
| ScheduleTheorems.TestsThatFire | cmd/pipeline.go:151-180 | The ids recorded are those of the tests whose verdict, taken before any of them ran, is true, in order, or the first of them when stopping; when a fault ends the list, they are a beginning of these |
| ScheduleTheorems.TestThatFails | cmd/pipeline.go:151-163 | The test that ends a run is the first of its list whose verdict is an error; those before it fired as their verdicts say |
| ScheduleTheorems.UncollectedNeverFires | cmd/pipeline.go:182-185 | A command without results triggers nothing |
| ScheduleTheorems.RunKeepsHistory | cmd/pipeline.go:246-258 | Over a whole run no iteration alters entries of earlier ones, and every entry holds exactly one field |
| ScheduleForm.RequestsForm | cmd/pipeline.go:286-294 | A group is all its commands in order, each with the same collect flag |
| ScheduleForm.FiredForm | cmd/pipeline.go:164-171 | The fired tests ask for their commands, not collected, in the order in which they fired |
| ScheduleForm.MainForm | cmd/pipeline.go:85-105 | The main group is its commands in order, each followed by what its tests ask for; a command is collected when there is a repro section, a collect section that processes results, or it asks for it |
| ScheduleForm.RunForm | cmd/pipeline.go:52-74 | A run is its iterations in order, each followed by the post-mortem group, collected, when something fired in it |
| ScheduleForm.WholeRunSends | cmd/pipeline.go:16-83 | A run that no fault ends sends exactly that |
| RunReports.CommandReports | cmd/pipeline.go:96-146 | A main command changes no report but its own: the pattern matches of its answer when that is processed, the ids that fired when it has tests |
| RunReports.GroupReports | cmd/pipeline.go:85-149 | After the main group every command carried out has reported, and the others keep their report |
| RunReports.RunLeaves | cmd/pipeline.go:16-83 | After a run that no fault ends, every command of its last iteration holds the matches of its last answer and the tests that fired on it |
| RunHistory.OtherTests | cmd/pipeline.go:155-177 | Running a list of tests leaves the store of a test it does not name alone |
| RunHistory.OneTest | cmd/pipeline.go:155-177 | A list that names a test once evaluates it once, on the store it had, without an error |
| RunHistory.GroupStores | cmd/pipeline.go:96-146 | Through the main group the store of a test is unchanged up to its command and evaluated once from then on |
| RunHistory.StoreIsHistory | cmd/pipeline.go:52-74 | At the start of every iteration reached, a test's store is the history built from its command's answers so far |
| RunHistory.FinishedWhen | cmd/pipeline.go:52-74 | A fault can end only the last command that a run recorded, and the missing repro section ends none |
| RunHistory.FiredByCommand | cmd/pipeline.go:151-180 | One command: a test that it names once fires only when its verdict is true and, when stopping, no test named before it triggers; and then it does, unless a fault ends the command |
| RunHistory.FiresByHistory | cmd/pipeline.go:16-83 | In every recorded iteration of every run, a test that one command names fires only when its verdict on that history is true and, when stopping, no test named before it triggers; and then it does, unless a fault ended its command |
| RunHistory.VerdictsGiven | cmd/pipeline.go:160-163 | No iteration that a run got past had an error in the test |
| RunHistory.FiresOnChange | cmd/pipeline.go:320-337 | In every recorded iteration n of every run with one answer per iteration, a one-field compare_with_previous_neq test, whatever its other settings, fires only under the condition of OneFieldNeqVerdict and, when stopping, when no test named before it triggers; and then it does, unless a fault ended its command |
| RunHistory.FiresOnChangeOfOccurrence | cmd/pipeline.go:320-337 | With a fixed occurrence that condition is n > 0 and a value read there that differs from what iteration n - 1 read |
| RunHistory.FiredIds | cmd/pipeline.go:151-180 | Without stop_when_triggered a main command fires exactly the tests it names whose verdict is true |
| RunHistory.MissingReproByVerdicts | cmd/pipeline.go:59-62 | Without a repro section, the run reads it if and only if nothing else ends the main group and the verdict of some named test is true |
| RunHistory.CanMissReproExactly | cmd/pipeline.go:59-62 | From a start without history, some router makes a run read the missing repro section if and only if the file has none and some main command that collects results has an answer on which a test that it runs triggers and none of them fails |
| RunHistory.UnprocessedIsSafe | cmd/pipeline.go:85-114 | A file without a repro section that processes no result never does so, for any router |
| Pipeline.Router.ProcessCommand | pkg/types/router.go:52 | The router as the engine sees it: the n-th command gets the n-th answer or an error, and results come back only when collected |
| Pipeline.ProcessGroup | cmd/pipeline.go:286-294 | Sending a group is the specification's step |
| Pipeline.RunIndexedTest | cmd/pipeline.go:160-163 | Running one test changes its store as specified and leaves every command ready |
| Pipeline.EvaluateTest | cmd/pipeline.go:160-163 | Only that test's store changes |
| Pipeline.RunTests | cmd/pipeline.go:151-180 | The loop over the test ids is the specification's, in results, commands sent and stores |
| Pipeline.KeepMatches | cmd/pipeline.go:107-114 | The pattern matches of a processed command are kept with it |
| Pipeline.KeepTriggered | cmd/pipeline.go:136 | The fired ids are kept with their command |
| Pipeline.ProcessMainCommand | cmd/pipeline.go:96-146 | The body of the main loop is the specification's step |
| Pipeline.ProcessMainGroup | cmd/pipeline.go:85-149 | The main loop is the specification's, and it reports a trigger exactly when something fired |
| Pipeline.ProcessIteration | cmd/pipeline.go:52-74 | One iteration with its post-mortem group is the specification's |
| Pipeline.Process | cmd/pipeline.go:16-83 | The whole run, on objects, is the specification's run from the same start; the commander stays ready throughout |
| CommandFile.EffectiveIsIndexed | pkg/types/commands.go:55-73 | The last test with an id, in the last group for a command, is found under that command and id |
| CommandFile.IndexedIsEffective | pkg/types/commands.go:55-73 | Nothing else is found |
| CommandFile.TestedExactly | pkg/types/commands.go:55-73 | The commands with tests are those for which a group was written |
| CommandFile.AllCompileExactly | pkg/types/commands.go:32-70 | The patterns that must compile are those of the processed main commands and of all tests |
| CommandFile.CompilePatterns | pkg/types/commands.go:42-48 | It succeeds exactly when every pattern compiles, and then each holds what its text means |
| CommandFile.PrepareCommand | pkg/types/commands.go:40-54 | A main command gets an empty result object of its own, and compiled patterns if its output is processed |
| CommandFile.PrepareCommands | pkg/types/commands.go:40-54 | The same for all main commands, with distinct result objects |
| CommandFile.PrepareTests | pkg/types/commands.go:57-70 | One group: every test pattern compiled, empty stores, and the index of its tests |
| CommandFile.PrepareGroups | pkg/types/commands.go:55-73 | The index of all groups, the commands that have tests, and empty stores |
| CommandFile.Prepare | pkg/types/commands.go:32-76 | It succeeds exactly when every pattern a run will use compiles, and then all test patterns are compiled and everything a run needs is established |
| CommandFile.PreparedStores | pkg/types/commands.go:68 | A prepared file starts with no history for any test |
| LogQueue.Queue.constructor | pkg/log/logger.go:84-89 | An empty, valid queue |
| LogQueue.Queue.Link | pkg/log/logger.go:40-56 | A new node goes behind the last one; the chain stays acyclic, `last` its tail, `size` the sum of the lengths |
| LogQueue.Queue.Push | pkg/log/logger.go:39-57 | The chunk is appended as a copy that shares no memory with the caller's bytes |
| LogQueue.Queue.Pop | pkg/log/logger.go:59-70 | The oldest chunk comes off as a fresh copy; nil exactly on an empty queue; draining leaves a valid queue |
| LogQueue.Queue.GetAll | pkg/log/logger.go:72-82 | A fresh buffer of exactly the right size holds all chunks in order |
| LogActor.StartInv | pkg/log/logger.go:156-181 | The invariant holds at the start, for any number of clients |
| LogActor.NextClientsInv | pkg/log/logger.go:106-154 | Every step keeps clients, worker and stop handshake in step |
| LogActor.NextServes | pkg/log/logger.go:136-154 | Every step keeps the copy in memory equal to the chunks whose write succeeded, and the file equal to what every write left of its chunk |
| LogActor.NextFits | pkg/log/logger.go:136-154 | Every reply ever given is the one a sequential log gives: nil to a Log exactly when its write succeeded, to a GetLog the chunks stored before it |
| LogActor.NextPhase | pkg/log/logger.go:106-125 | Where each client stands is what the history says |
| LogActor.NextHistoryInv | pkg/log/logger.go:106-154 | Every step keeps the history sound |
| LogActor.RunInv | pkg/log/logger.go:106-154 | So does every sequence of steps |
| LogTheorems.ReachableHistories | pkg/log/logger.go:106-154 | In every interleaving the history is that of a sequential log, memory holds the chunks whose write succeeded, the file what every write left of its chunk, and both are the same if no write failed |
| LogTheorems.ReturnInterval | pkg/log/logger.go:106-125 | A call that returned was served once between its invocation and its return, with the reply it returned |
| LogTheorems.OneReplyPerCall | pkg/log/logger.go:106-125 | Between two replies to a client lies another call of that client |
| LogTheorems.ServedInRealTimeOrder | pkg/log/logger.go:136-154 | A call that returned before another began is served before it |
| LogTheorems.LogReply | pkg/log/logger.go:117-125 | A Log returns nil if and only if its write, which lies inside the call, succeeded |
| LogTheorems.GetLogReply | pkg/log/logger.go:106-110 | A GetLog returns the concatenation, in service order, of exactly the chunks accepted up to a moment within the call |
| LogTheorems.GetLogSeesEarlierLogs | pkg/log/logger.go:106-125 | That includes every chunk whose Log returned nil before the GetLog began |
| LogTheorems.FileOutlivesWorker | pkg/log/logger.go:127-134 | The stop channel is closed at most once, and the file is open as long as the worker can still write |
| LogTheorems.DeadlockExactly | pkg/log/logger.go:106-154 | Nobody under way can move if and only if the worker is gone and all of them are still calling it; never before the stop is taken |
| LogTheorems.AcceptedIsAnswered | pkg/log/logger.go:140-151 | A request the worker took is answered within two of its steps |
| LogTheorems.LeftBehind | pkg/log/logger.go:147-149 | A request still on its channel when the stop is taken is never answered |
| LogTheorems.AbandonedReachable | pkg/log/logger.go:127-154 | One client closing the logger while another calls GetLog can leave the latter stuck |
| LogWorker.Answer | pkg/log/logger.go:139-151 | The worker's handling of one request, on heap queue and file, is the protocol's |
| LogWorker.ServeAllMeaning | pkg/log/logger.go:136-154 | What the protocol's worker answers to a list of requests, and what it leaves in memory and file, by the outcomes of their writes |
| LogWorker.Work | pkg/log/logger.go:136-154 | The worker loop tells each Log whether its write succeeded, gives each GetLog the chunks stored before it, leaves in the file what every write left, gives the protocol's replies up to the first stop, and takes nothing after it |
| Framing.PromptIgnoresCR | pkg/types/router.go:29-42 | The finder gives the same answer on raw and on CR-free bytes |
| Framing.FindPromptExactly | pkg/types/router.go:29-42 | A prompt is found if and only if one of the patterns matches the text without carriage returns and escape sequences; it is the match of the first that does |
| Framing.AnyPatternEnds | pkg/types/router.go:34-42 | Patterns in front that match nothing change no result, so the prompt of any pattern ends an output |
| Framing.ReadUntilPrompt | pkg/types/router.go:505-535 | The reading loop is its specification, for every sequence of chunks |
| Framing.FoundAgain | pkg/types/router.go:552-566 | For an echo without carriage returns, the two "failed to find" errors cannot occur |
| FramingTheorems.EscapeInPrefix | pkg/types/router.go:27-32 | A complete escape sequence in a beginning of the text is one in the whole |
| FramingTheorems.EscapeExactly | pkg/types/router.go:27 | An escape sequence is ESC, a bracket, digits, semicolons or question marks, bytes from blank to slash, and a final byte from @ to ~; it ends behind that |
| FramingTheorems.StripAnsiFirst | pkg/types/router.go:29-32 | Stripping takes the first sequence out as a whole, keeps what stands before it, and goes on behind it |
| FramingTheorems.RawOffsetExactly | pkg/types/router.go:27-42 | An offset in the text without escape sequences is the same in the text with them if and only if none starts up to it |
| FramingTheorems.CutEndsAtPromptExactly | pkg/types/router.go:552-577 | The body returned ends where the prompt stands if and only if no escape sequence starts up to the offset used |
| FramingTheorems.EscapeCutsShort | pkg/types/router.go:552-577 | A command whose output has an escape sequence, and whose body ends inside that sequence |
| FramingTheorems.SlicePanicsExactly | pkg/types/router.go:505-577 | No way to read a stream makes the slice panic if and only if no beginning of it that a reader can get to shows a prompt whose offset comes before the end of the echo |
| FramingTheorems.PanicCauses | pkg/types/router.go:559-567 | Such an offset has two causes: the prompt stands before the end of the echo, or an escape sequence on the echo line moved the offset; without one on that line only the first is left |
| FramingTheorems.PromptInEchoPanics | pkg/types/router.go:559-567 | An output of the first kind and its panic |
| FramingTheorems.EscapeInEchoPanics | pkg/types/router.go:559-567 | An output of the second kind, whose prompt stands behind the echo line, and its panic |
| FramingTheorems.PromptBehindEcho | pkg/types/router.go:559-567 | A prompt behind the echo on a line that has not ended gives a body and no panic |
| FramingTheorems.ReadResult | pkg/types/router.go:505-535 | However a stream comes in reads of at most 1024 bytes, the reader stops at a position it can get to that shows a prompt |
| FramingTheorems.StopsThere | pkg/types/router.go:505-535 | At every such position some reads make it stop |
| FramingTheorems.ChunkingIrrelevant | pkg/types/router.go:505-577 | However reads split a stable stream, the result is the CR-free text from the end of the echo line up to the prompt |
| FramingTheorems.EarlyPromptMisleads | pkg/types/router.go:522-528 | If a beginning that a reader can get to shows a prompt elsewhere, some reads of the stream give something else |
| FramingTheorems.ChunkingExactly | pkg/types/router.go:505-577 | All reads of a stream give the text up to its prompt if and only if no beginning that a reader can get to shows a prompt anywhere else, on the echo line or behind it |
| FramingTheorems.CalmStream | pkg/types/router.go:505-577 | An output of which all reads give the same body |
| FramingTheorems.FourthPattern | pkg/types/router.go:34-42 | The same output when only the last of four patterns matches its prompt |
| FramingTheorems.MisleadingWhole | pkg/types/router.go:522-528 | An output with prompt text in its body, and the body that one read of it gives |
| FramingTheorems.MisleadingStream | pkg/types/router.go:522-528 | Two reads of the same output after which that text is taken for the prompt |
| FramingTheorems.LiteralStableExactly | pkg/types/router.go:34-42 | For a literal prompt, no reader is misled if and only if its text does not stand earlier in the output, where a reader that has the echo can see it |
| Platform.RpsMeaning | pkg/types/platform.go:26-57 | The route processors found are the locations of the matching lines |
| Platform.LcsMeaning | pkg/types/platform.go:67-98 | The line cards found are the locations of the matching lines |
| Platform.RpsValues | pkg/types/platform.go:40-50 | A route processor is active exactly when the last line for its location says so in its second column |
| Platform.NodeLine | pkg/patterns/patterns.go:35-39 | The line of a node: a slot of digits makes it a line card, "RP" or "RSP" and digits a route processor; its location is the node without commas in front, its second column the card type |
| Platform.GetRPs | pkg/types/platform.go:26-57 | The scan is its specification; no route processor at all is an error |
| Platform.GetLCs | pkg/types/platform.go:67-98 | The scan is its specification; no line card at all gives no map |
| Platform.NoInvalidLine | pkg/types/platform.go:40-44 | Every line that matches the patterns has three columns, so no text is rejected for an invalid line and acceptance asks only for a route processor |
| Platform.PopulatePlatformInfo | pkg/types/platform.go:105-118 | A text is accepted exactly when its matching lines have three columns and one names a route processor, and the inventory then describes it |
| Locations.Enumerate | pkg/types/router.go:99-104 | The filling loop stays in bounds and yields every key exactly once |
| Locations.GetAllRPs | pkg/types/router.go:109-127 | Every route processor once |
| Locations.GetAllLCs | pkg/types/router.go:89-107 | Every line card once, or every route processor when there is none |
| Locations.GetAllLocations | pkg/types/router.go:129-141 | As a multiset, the two together |
| Locations.AllOfParsed | pkg/types/router.go:89-141 | On an accepted text: all route processors and all line cards, or every route processor twice when no line card exists; the empty-map branch is never taken |
| Locations.PrepareLocations | pkg/types/router.go:244-261 | Each entry is replaced by what it stands for, and on a platform with ordinary names no reserved name is left |
| Locations.PlainExpansion | pkg/types/router.go:286-331 | A list without reserved names stands for itself, so the recursive branches are not taken on it |
| Locations.SendCommand | pkg/types/router.go:336-372 | The line is sent as often as asked (once without times or interval), each answer kept with it in order, up to the first failure; a negative interval panics exactly when there is something to repeat, and sends nothing |
| Locations.LineNamesLocation | pkg/types/router.go:312 | The line sent for a location begins with the command; the words behind it are "location", the location, and those of the pipe modifier |
| Locations.LinesDiffer | pkg/types/router.go:312 | Different locations get different lines |
| Locations.BeginningNamed | pkg/types/router.go:286-331 | In every beginning of the flat schedule each line names the location whose turn it is |
| Locations.SendEntry | pkg/types/router.go:287-330 | One entry sends the flat schedule of what it comes to after all expanding, whenever that ends |
| Locations.SendCommandWithLocations | pkg/types/router.go:276-334 | For every list whose expanding ends, the recursion sends and returns the flat schedule of the fully expanded list, or a beginning of it that ends at the failing line, or panics exactly when the interval is negative, times is not zero and there is a location; every line names the location it was sent for |
| Locations.UnfoldsListPlain | pkg/types/router.go:276-334 | On a platform whose locations have ordinary names, the flat results are those of the expanded list |
| Locations.UnfoldsPlain | pkg/types/router.go:286-308 | On a platform whose locations have ordinary names, what an entry comes to is what its name stands for |
| Locations.UnfoldedIsPlain | pkg/types/router.go:286-308 | No reserved name is left in what an entry comes to |
| Locations.ProcessCommand | pkg/types/router.go:177-221 | A command without locations is sent as one line with its pipe modifier behind a bar, one with locations to the prepared list, each line naming its location; results come back only when collected |
| Locations.ExpansionEndsExactly | pkg/types/router.go:276-334 | Expansion ends for every entry if and only if the reserved names form no loop among the platform's locations |
| Locations.LoopNeverEnds | pkg/types/router.go:287-308 | In a loop it does not end at any depth |
| Dispatch.NextInv | cmd/routercommander.go:290-365 | Every step of the dispatcher or of a process keeps counts, results and status in step |
| Dispatch.RunInv | cmd/routercommander.go:290-365 | So does every interleaving |
| Dispatch.SendNeverBlocks | cmd/routercommander.go:276-279 | No send on the result channel blocks, inline or not, at any moment |
| Dispatch.NoSendAfterClose | cmd/routercommander.go:352-360 | When the channel is closed every started process has sent its result, it was received, and the process has left |
| Dispatch.FinalStatus | cmd/routercommander.go:290-365 | For every configuration and interleaving, the status is zero or one, and zero if and only if every router's process is started and ends without an error, or the router is passed over because errors are tolerated |
| Dispatch.StartedExactly | cmd/routercommander.go:290-349 | One process is started for each router that can be reached, up to the first that cannot be when errors are not tolerated or for which a local resource is missing |
| Dispatch.AllCollected | cmd/routercommander.go:352-360 | Unless a local resource was missing, as many results are received as processes started |
| Dispatch.NeverStuck | cmd/routercommander.go:290-365 | Until the program exits somebody can move |
| Dispatch.StepsRunOut | cmd/routercommander.go:290-365 | Every step brings the end nearer |
| KnownHosts.NameForms | cmd/ssh.go:71-90 | A host name means the same with and without the default port, in any case; another port is kept |
| KnownHosts.AddressForms | cmd/ssh.go:71-90 | An IPv6 address means the same bare, in brackets, and in brackets with the default port |
| KnownHosts.EndpointForm | cmd/ssh.go:71-90 | The normal form of a written endpoint is the lower-case host, with the port unless it is the default one |
| KnownHosts.AlikeExactly | cmd/ssh.go:71-90 | Two endpoints share a normal form if and only if host and port are the same up to case, or one has the default port and its host reads like the other's host and port |
| KnownHosts.NamesAlikeExactly | cmd/ssh.go:71-90 | Host names share one if and only if they are the same up to the case of letters and the port is the same |
| KnownHosts.BlanksIgnored | cmd/ssh.go:72 | Blanks around a host are ignored |
| KnownHosts.SplitHostPortExactly | cmd/ssh.go:74 | Host and port are told apart exactly in "host:port" without colons or brackets in the host and in "[host]:port" without brackets in either, with no colon in the port |
| KnownHosts.AddressesCollide | cmd/ssh.go:71-90 | Two different IPv6 endpoints that share one |
| KnownHosts.Verifier.RemoteHostKeyCallback | cmd/ssh.go:44-69 | The callback accepts and updates map and file as specified, for every way the write can end; insecure mode accepts and changes nothing |
| KnownHosts.NewVerifier | cmd/ssh.go:92-116 | Opening yields the map the file holds and fails exactly when a line does not parse |
| KnownHosts.LoadMeaning | cmd/ssh.go:98-107 | A host is pinned when some line names it, perhaps among others, to the key of the last that does |
| KnownHosts.PinStays | cmd/ssh.go:52-64 | A recorded key is never changed or dropped |
| KnownHosts.RecordedKey | cmd/ssh.go:44-69 | What is recorded for a host: its key from the start, or the one shown by the first call for it whose write succeeded |
| KnownHosts.AcceptedExactly | cmd/ssh.go:44-69 | A call of a run is accepted if and only if the key recorded for its host is the one it shows, or nothing is recorded and the write of this call succeeds |
| KnownHosts.FirstUsePins | cmd/ssh.go:44-69 | After a first accepted use of a host, a later call for it is accepted if and only if it shows the same key |
| KnownHosts.ScanAppend | cmd/ssh.go:60-105 | A line behind a file that ends its last line is read back as one more line, whether a newline ends it, a carriage return and a newline, or the file |
| KnownHosts.FailedWriteDisagrees | cmd/ssh.go:59-62 | A write of a new key that fails after some bytes ends the agreement, wherever in the line it fails |
| KnownHosts.CallAgrees | cmd/ssh.go:44-69 | One callback keeps file and map in agreement (the file loads to the map and ends its last line) if and only if the host has a pin, the write succeeds, or it fails before its first byte |
| KnownHosts.FileAgreesWithMap | cmd/ssh.go:44-113 | Reloading the file after each of any callbacks rebuilds the map if and only if each of them is of that kind when it comes |
| KnownHosts.PartialWrite | cmd/ssh.go:59-62 | A first key whose write fails after one byte, and a file that no longer loads |
| Shortfalls.AllResultsNeverFires | cmd/pipeline.go:271-275 | A test of the first of two matches with check_all_results, whose only occurrence passes and which does not fire |
| Shortfalls.TriggerWithoutRepro | cmd/pipeline.go:59-62 | A collect file and an answer on which the run reads the missing repro section |
| Shortfalls.NoIdsNoTests | cmd/pipeline.go:151-180 | A command without test ids evaluates no test and sends nothing but itself |
| Shortfalls.TestsNotRun | cmd/pipeline.go:151-180 | A command without test ids whose test would trigger on the answer, and which fires nothing |
| Shortfalls.OneProcessorTwice | pkg/types/router.go:89-141 | An accepted text with one route processor and no line card, whose only location "all" names twice |
| Shortfalls.AllIsEndless | pkg/types/router.go:287-292 | An accepted text with a location called "all", where expanding "all" never ends |

## Left out

- The regular-expression engine: a compiled pattern is a table of the match starts in each text, a character class a set of bytes; only `(?m)^`, `(?m)$`, `\n`, `[sep]+`, `\s+`, the escape-sequence pattern and a literal prompt are written out. The echo is a literal.
- YAML decoding: the model starts from decoded lists without null entries, each entry an object of its own.
- Go templates (`transforLocation`, `LocationFmtTmpl`, `LocationCustomized`): library code.
- SSH dialling, PTY and session setup, `drainUntilPrompt`, timers, tickers, `Delay`, command timeouts and glog: external input and time; waiting does nothing in the model.
- The deferred notification and closing in `process` (cmd/pipeline.go:31-49), the e-mail messenger, the local router, flags, passwords and the inventory: no state of their own that the results need.
- `GetActiveRP` and `IsExistingLocation`: easy lookups.
- Several routers sharing one command file: value stores would be shared between goroutines; every run property is about one router per commander.
- Several verifiers on one known-hosts file: the store properties are about one verifier.
- Characters beyond ASCII: text is bytes, lower-casing and blank-trimming cover ASCII, and a character class matches single bytes.
- The scanner's limit on the length of a known-hosts line.
- A process that panics inside dispatch: a process ends with or without an error.
- The exact error texts; after an error the model's record keeps the ids that had fired, which the source drops.
- TestRunner.CheckField: takes and returns the store as a value; `RunTest` writes it back to the test once per result, so the store between two fields is not on the heap. The same holds for `CheckFields`, `CheckOccurrences` and `CheckMatches`.
- Pipeline.RunTests: finds tests in one map by command and id, where the source has a map of groups that each hold a map; that two groups for one command replace each other is kept.
- Pipeline.Router.ProcessCommand: the answers are a fixed list; how one command becomes lines and results is `Locations.ProcessCommand`, how a line becomes a body is `Framing.Command`, and neither is composed with the engine.
- RunHistory.FiresByHistory: is about a test that one main command names once; a test evaluated several times in one iteration is covered by `RunKeepsHistory` and `TestsThatFire` only.
- RunHistory.FiresOnChange: is about a test with one compare_with_previous_neq field whose command answers once per iteration; for other tests `FiresByHistory` gives the verdict and `ComparePreviousNeqExact` each check.
- ValueHistory.ComparePreviousNeqExact: is about one result per iteration and earlier iterations without an extraction error.
- LogWorker.Work: runs on a finite sequence of messages; the source's loop ends only at a stop.
- LogTheorems.AcceptedIsAnswered: gives the steps that answer a request; that the scheduler takes them is not modelled.
- ScheduleForm.WholeRunSends: is about runs that no fault ends; what the others send is `RunFollowsSchedule`.
- RunReports.RunLeaves: is about runs that no fault ends, and says nothing of commands that the last iteration did not get to: they keep what an earlier one left.
- Framing.FoundAgain: requires an echo without carriage returns, which a command line cannot contain.
- FramingTheorems.ChunkingExactly: requires an output without escape sequences from the echo on, whose echo line ends before its prompt; what escape sequences do to the body is `CutEndsAtPromptExactly`, to the slice bounds `PanicCauses`.
- Platform.PopulatePlatformInfo: takes the lines that name a route processor or a line card as a parameter; `ShowPlatform` writes the two line patterns out, by bytes.
- RunHistory.CanMissReproExactly: lets the router answer every command with any result, and starts without history, as `CommandFile.PreparedStores` establishes.
- Locations.SendCommandWithLocations: requires that expanding ends for the locations given, because a method must end; the platforms on which it ends for all are those of `ExpansionEndsExactly`.
- Locations.Enumerate: picks keys in an arbitrary order that the proofs never use, like Go's map iteration.
- Locations.LineNamesLocation: reads the words of a line only for a location that is not empty and has no blank; a blank in it splits it into several words.
- KnownHosts.CallAgrees: assumes that the library's line printer and parser agree up to normalisation (`RoundTrips`).
- KnownHosts.FileAgreesWithMap: starts from a file that loads and ends its last line, and assumes the same round trip.
