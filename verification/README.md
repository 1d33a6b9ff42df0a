# Verified model of the Runner, the answer splitter, the settings writer and four smaller parts

The project models the parts of the repository whose correctness depends on more than one function:
protocols that interleave with crashes and with each other, a streaming classifier whose output a consumer
takes apart again, and a file writer whose result is read back later. Every main result is a statement over
all inputs, all streams or all runs.

**The sandbox Runner's task ledger** (`LedgerRows`, `RunnerProtocol`, `RunnerSafety`, `RunnerRuns`,
`RunnerOutcomes`, `RunnerEndings`, `RunnerRace`, `RunnerRestart`, `RunnerLink`). The critical section of a submit,
each ledger access, each docker command and each locked access to the active set is a step of its own; any number of
executors, cancel requests and reconciles interleave, docker commands fail with or without effect, and a crash loses
the active set and every thread. The ledger rows, containers and workspaces survive. `RunnerSafety` carries the
invariant (what an executor knows at each of its places, what a reconciler's stale copies still say), `RunnerRuns`
the promises over whole runs. `RunnerOutcomes` keeps what docker answered as history and holds every concluded row
against it; `RunnerEndings` says with which status an execution or a cancel request ends when nothing else writes
its row, whatever the other threads do. `RunnerRace` says how far a reconcile can reach that runs beside submits.
`RunnerRestart` has the same repair code in its own form: a class whose methods update rows, containers and
workspaces in place, with nothing running beside it, and any docker command may fail or raise. Runs, crashes,
startups that complete and startups that are interrupted are put together there; `RunnerLink` shows that the
reconciler thread of the protocol, left alone, meets the contract of the method.

**The streaming answer splitter** (`AnswerSplitter`, `SplitterMeaning`). The class `Splitter` keeps the ordered
table of segments as the source does; it is proved against a machine that keeps one open segment only. On the
machine it is shown that what was streamed is always what was retracted followed by the provisional answer, that a
consumer's substring search therefore recovers the answer, and what that answer means in terms of model messages.

**The `.env` writer** (`EnvText`, `EnvRoundTrip`, `EnvLines`, `EnvOverride`, `EnvExactly`, `EnvFile`, `EnvPromise`,
`EnvWhole`, `EnvFailures`, `EnvMeaning`, `EnvLock`). The escaper as a chain of replacements, the quote scanner, the
rewriting loop with its nested continuation loop, reading and writing physical lines in text mode, and the lock with
its temporary file and atomic replace. A reference reader gives files a meaning. The main result,
`EnvWhole.WholePromiseIsKeptExactly`, says for every text and every dict of settings when a save overrides that
meaning, keeps everything unrelated verbatim and in order, and has every value read back, in both directions.

**Smaller parts.** `TableCopy`: batches of conflict-ignoring inserts, the order-insensitive content hash, the
verdict, killing and rerunning; `TableMeaning`: the stored cells, and the verdict on the source's own rows.
`Gateway`: attach, invoke, disable, revoke and mismatch detaches over the shared table of attached services.
`AttachmentTurns`: the coordinator's callbacks and scan as methods; `TurnResolvers`: its resolvers interleaving read
by read with parses, retries, deletions and each other. `Supervisor`: worker restarts with backoff. `Wrappers` holds
a type for values that may be missing.

## Where the code does less than its documentation says

The model follows the code. In each case a run or an input shows the failure, and a theorem says when the
promise does hold; it is an if-and-only-if unless the item says otherwise.

- *Splitter.* The comment in `feed` (src/agents/runner.py:1287-1290) counts on text after a tool call to
  recognise providers that reuse one id across calls. The first text chunk then opens a fresh segment, and
  the next chunk, still under the old id, turns that segment into narration: the start of a streamed final
  answer is lost (`SplitterMeaning.ReusedIdLosesText`). `LastMessageSurvivesExactly` says when the last
  message is the answer: the predicate `Survives`.
- *Settings.* "Preserving comments and unrelated settings" (src/settings.py:1734) holds, with every value read
  back, exactly for files that are `Undisturbed` and do not run into `Joins`, and for values with `ReadsBack`
  (`WholePromiseIsKeptExactly`). An unrelated quoted value that runs over several lines is judged line by line:
  lines without `=` are dropped, a line that looks like a saved key is replaced, and what is appended behind an
  open value is swallowed. Saving `B=1` into the two lines `A="x` and `y"` leaves `A` without a value and `B`
  unread (`TwoLineValueLosesBoth`). A last line that lacks its newline is joined with the first appended key:
  saving `B=2` into `A=1` leaves `A=1B=2` (`UnterminatedLineLosesTheKey`). A value that begins with a single quote
  and does not close it is written as it is; the next save of its key removes the lines behind it, up to and
  including the first one with a single quote (`SecondSaveSwallowsExactly`). A written value that cannot be read
  back is not read back, whatever the file around it says (`NeverReadsBack`).
- *Table copy.* "Copies rows idempotently" (the script's module comment): a further pass inserts nothing exactly
  for tables with a primary key, or with nothing to insert (`RerunInsertsNothingExactly`). A row whose key is taken
  is dropped without an error, so with a primary key a pass completes the table exactly if no two keys collide
  after coercion (`PassCompletesExactly`, and `CollidingKeysLoseARow` for two rows that do); if they collide, the
  verdict is count_mismatch (`KillAndRerunConverges`). The verdict compares rows after coercion and normalisation; it is
  about the rows themselves when their cells fit their columns (`VerdictOnTidyRows`), and can be deceived when they
  do not (`UntidyRowsLookAlike`). `FullPassIsCompleteExactly` says for every table and every batch size
  when one pass over an empty target copies it.
- *Gateway.* The final identity check of invoke compares with a record that was read again after the
  verification. A re-attach between the two reads goes unnoticed, and the answer of the old endpoint is
  returned (`ReattachGoesUnnoticed`); `ReturnedResults` says when the two records are the same.
- *Reconcile beside submits.* The containers of executions in this process are always safe. Once it has copied
  the active set, a reconcile can still overwrite the row and remove the workspace of an open task exactly if
  the task lies in its scope and outside its copy (`ReconcileReachesExactly`), and such a task can be a live
  execution (`ReconcileMayOverrunANewExecution`). If it finishes a requested cancellation in place of the execution,
  the execution no longer sees one and launches the container of a cancelled task (`CancelledTaskMayStillLaunch`);
  the launch happens exactly if the row does not say cancel_requested when the execution looks
  (`LaunchIsDecidedByTheRow`), so it does not if nothing else writes the row (`CancelledInTimeIsNotLaunched`).
- *Coordinator.* A resolver's readings may be stale when it writes. If nothing touched a required attachment
  since the rows were read, what is written is exactly the resolution at that moment
  (`UndisturbedDecisionIsExact`). Otherwise, one way only, a failed turn has something broken unless an asset
  was re-opened, and a released turn has everything ready or degraded except what was re-opened, deleted or
  reclaimed (`DecisionsHoldWhenWritten`). Both exceptions happen (`RetryCanComeTooLate`,
  `DeletionCanComeTooLate`).

## Model

| member | source | states |
|---|---|---|
| `LedgerRows.UpdateEvolves` | deploy/sandbox-runner/runner.py:672-687 | whatever guarded write is applied, even one computed from an older version of the row, every row keeps its key and fingerprint, final rows stay, no row is re-opened, a recorded cancellation stays recorded, and only success carries a manifest |
| `LedgerRows.ValidTaskIdMeans` | deploy/sandbox-runner/runner.py:90-90 | an id is valid if and only if it is `task-` followed by 16 to 64 letters, digits, underscores and hyphens |
| `RunnerSafety.ApplyKeeps` | deploy/sandbox-runner/runner.py:672-1009 | every step of every thread, every request and every crash keeps the invariant and lets the ledger evolve |
| `RunnerSafety.ExecutorStepKeeps` | deploy/sandbox-runner/runner.py:919-1009 | each step of an execution keeps what that execution knows about its own row, claim and launches, whatever docker answers |
| `RunnerSafety.CopyActiveIsFresh` | deploy/sandbox-runner/runner.py:722-730 | because the listing precedes the copy of the active set, a listed container outside the copy has no executor in this process |
| `RunnerSafety.ReconcilerRemovesOnlyStrays` | deploy/sandbox-runner/runner.py:748-779 | a reconciler's step removes only containers named as a task's or orphan's and owned by no live execution |
| `RunnerSafety.SubmitReplyFacts` | deploy/sandbox-runner/runner.py:1290-1322 | what the critical section answers: an existing task has the key and fingerprint asked for and the id when one was named, an accepted id and key are new, and a bound key is answered with its task or refused |
| `RunnerRuns.AtMostOneLaunch` | deploy/sandbox-runner/runner.py:919-947 | over every run the container of a task is launched at most once, and only for a claimed task |
| `RunnerRuns.WithdrawnIsNeverLaunched` | deploy/sandbox-runner/runner.py:927-935 | a task that left the queue before it was claimed is never launched in any later run |
| `RunnerRuns.CancellationIsNeverLost` | deploy/sandbox-runner/runner.py:690-771 | after a cancellation was requested the row is, in every later state, cancel_requested, cancelled, or cleanup_pending under the cancellation's own error code |
| `RunnerRuns.FinalRowsAreForever` | deploy/sandbox-runner/runner.py:1455-1472 | succeeded, failed, timed_out and cancelled rows never change, only succeeded rows have a manifest, and what is collectable stays collectable with the same manifest |
| `RunnerRuns.ExecutionEndsSettled` | deploy/sandbox-runner/runner.py:1006-1009 | when an executor leaves, its row is not queued, running or cancel_requested, its id is not active, and no other thread executes it |
| `RunnerRuns.EveryExecutionEnds` | deploy/sandbox-runner/runner.py:811-1009 | over every run and every continuation an accepted execution has left, or was cut off, before it has taken 61 steps and one for each poll of its container before the deadline |
| `RunnerOutcomes.OutcomesAreTrue` | deploy/sandbox-runner/runner.py:941-1005 | over every run, with what docker reported kept as history: a row is succeeded only if its container exited with 0, and then has the manifest that was collected; timed_out only if its deadline passed; failed only if the container exited with another code, as bundle_failed, or something raised, under its code |
| `RunnerOutcomes.ActiveSetIsExact` | deploy/sandbox-runner/runner.py:925-1009 | over every run, crashes included, a task is in the active set if and only if a thread of this process is inside its execution |
| `RunnerOutcomes.OnlyExecutionsConclude` | deploy/sandbox-runner/runner.py:672-1009 | over every run a row becomes succeeded, failed or timed_out only by its own execution's settling step, and cancelled only from a recorded cancellation |
| `RunnerEndings.UndisturbedExecutionEnds` | deploy/sandbox-runner/runner.py:919-1009 | an execution from its queued row that nothing cuts off and whose row nothing else writes, among any other threads: one launch, and exit code 0 ends it succeeded with the collected manifest, another code failed with bundle_failed, a passed deadline timed_out; what raises ends it failed with that code; the task is no longer active, and its workspace is gone if its last removal works |
| `RunnerEndings.UndisturbedCancelTakes` | deploy/sandbox-runner/runner.py:1442-1447 | among any other threads, a cancel request whose row nothing else writes leaves a queued, running or cancel_requested row cancel_requested, and any other row as it is |
| `RunnerEndings.CancelRemovesTheContainer` | deploy/sandbox-runner/runner.py:1442-1450 | a cancel request of an open row leaves it cancel_requested and removes the container if its last command works |
| `RunnerEndings.UndisturbedCancellationEnds` | deploy/sandbox-runner/runner.py:690-716 | an execution whose row is cancel_requested, at whatever place before its cleanup looks at the container, leaves with the row cancelled and container and workspace gone, or in cleanup_pending under the cancellation's code, which happens only if one of its cleanup commands failed |
| `RunnerEndings.CancelStopsTheContainer` | deploy/sandbox-runner/runner.py:858-870 | a running container of a cancelled task is removed at the next poll that times out, however far the deadline is |
| `RunnerEndings.CancelledInTimeIsNotLaunched` | deploy/sandbox-runner/runner.py:927-947 | a cancellation requested before the execution has looked for one: if nothing cuts the execution off and nothing else writes the row, the container is never launched |
| `RunnerEndings.ExecutionsLeaveNoWorkspace` | deploy/sandbox-runner/runner.py:935-1009 | an execution that claimed its task and is not cut off leaves no workspace behind if its last removal works, whatever the outcome and whoever else writes its row |
| `RunnerRuns.ReconcileSparesLiveContainers` | deploy/sandbox-runner/runner.py:719-780 | a reconcile beside anything else leaves the containers of executions of this process and all service containers |
| `RunnerRuns.ReconcileSparesCopiedExecutions` | deploy/sandbox-runner/runner.py:729-742 | it leaves the row and workspace of each task that was in the copied active set |
| `RunnerRace.ReconcileReachesExactly` | deploy/sandbox-runner/runner.py:729-771 | once a reconcile has copied the active set, some continuation makes it overwrite the row of an open task, or remove its workspace, if and only if the task has a valid id, is in its scope and outside its copy |
| `RunnerRace.ReconcileMayOverrunANewExecution` | deploy/sandbox-runner/runner.py:729-771 | runs in which the running row of a live execution is about to be overwritten, and its workspace removed, by a reconcile of the same process |
| `RunnerRace.CancelledTaskMayStillLaunch` | deploy/sandbox-runner/runner.py:690-771 | a run in which a reconcile finishes a cancellation in place of the execution, which then launches the container of a task whose row is already cancelled |
| `RunnerRace.LaunchIsDecidedByTheRow` | deploy/sandbox-runner/runner.py:941-947 | when an execution looks for a cancellation before its launch, it goes on to launch the container if and only if the row does not say cancel_requested at that moment |
| `RunnerRuns.SubmitAnswersItsOwnRequest` | deploy/sandbox-runner/runner.py:1290-1327 | a submit that is not refused answers with a row carrying its own key, fingerprint and named id; an accepted one adds exactly a queued row and its execution; a refused or repeated one changes nothing |
| `RunnerRuns.KeyIsBoundForever` | deploy/sandbox-runner/runner.py:1290-1309 | once a non-empty key is bound, in every later state it belongs to that task and fingerprint alone, and every submit of it gets that task or is refused, exactly by fingerprint and named id |
| `RunnerRestart.Runner.FinalizeCancellation` | deploy/sandbox-runner/runner.py:690-716 | it handles exactly a requested cancellation; the row ends cancelled with container and workspace gone, or in cleanup_pending under the cancellation's code because a command failed; nothing else is touched |
| `RunnerRestart.Runner.ReconcileRow` | deploy/sandbox-runner/runner.py:744-771 | one row gets its verdict by name, and a clean verdict means container and workspace are gone; while the container stays listed the workspace is untouched; if nothing failed the row is clean; if removing the container raises, the row and the workspace are untouched |
| `RunnerRestart.Runner.ReconcileTasks` | deploy/sandbox-runner/runner.py:719-780 | the whole reconcile with any pattern of failures: when it completes every covered row has its verdict, every other row is as before, and only strays disappear; if no command failed, every covered row is clean with container and workspace gone, and no task or orphan container is left that is not active; when a command raises midway each row is as before or judged; when listing fails nothing happens |
| `RunnerRestart.Runner.Sweep` | deploy/sandbox-runner/runner.py:772-779 | the last loop removes neither service containers nor containers of active tasks, nothing at all within a scope, and every other listed one if no command fails |
| `RunnerRestart.VerdictByName` | deploy/sandbox-runner/runner.py:755-771 | after a completed reconcile a covered row is cancelled if and only if it is clean and was cancel_requested or in cleanup_pending under the cancellation's code, unknown with restart_reconciled if and only if it is clean otherwise, cleanup_pending if and only if it is not clean, with its error code in each case; never succeeded, failed or timed_out |
| `RunnerRestart.StartupRepairsEveryCrash` | deploy/sandbox-runner/runner.py:1224-1227 | from whatever a crash left, no valid row stays queued, running or cancel_requested, final and untrusted rows are untouched, rows marked clean have neither container nor workspace, and only a recorded cancellation ends as cancelled |
| `RunnerRestart.StartupsAfterEveryCrash` | deploy/sandbox-runner/runner.py:1224-1227 | over any number of runs, crashes and startups, interrupted ones included: the ledger evolves, the invariant behind the promises over runs holds again, and after a completed startup no valid row is open |
| `RunnerRestart.SecondStartupKeepsCleanRows` | deploy/sandbox-runner/runner.py:1224-1227 | a second startup changes no row that the first marked clean |
| `RunnerLink.UndisturbedReconcileRepairs` | deploy/sandbox-runner/runner.py:719-780 | the reconciler thread of the protocol, with nothing moving beside it and every row selected once, ends unchanged or in a state that meets the contract of the method |
| `RunnerLink.UndisturbedReconcileCleansUp` | deploy/sandbox-runner/runner.py:719-780 | and if none of its commands fails it ends with every covered row clean, container and workspace gone, and no stray container left |
| `AnswerSplitter.Splitter.StartSegment` | src/agents/runner.py:1262-1270 | opening a segment in the table of segments is the machine's opening step, also when the key was used before |
| `AnswerSplitter.Splitter.FeedChunk` | src/agents/runner.py:1278-1301 | feeding a chunk refines the one-segment machine, and the returned text is exactly what the stream grows by |
| `AnswerSplitter.Splitter.Finish` | src/agents/runner.py:1303-1310 | the result is the machine's answer, and the announcements made here never announce anything |
| `AnswerSplitter.Find` | src/agents/runner.py:1330-1332 | the first occurrence at or after a position, or none |
| `AnswerSplitter.StripNarrationSegments` | src/agents/runner.py:1313-1338 | the removal loop with its retry from the start equals its recursive form |
| `SplitterMeaning.TakesOutFirst` | src/agents/runner.py:1324-1338 | one narration is removed at its first occurrence behind the removal before it, else at its first occurrence anywhere, else not at all, and the search goes on from there |
| `AnswerSplitter.FeedAllBalanced` | src/agents/runner.py:1256-1301 | for every stream the streamed text is the retracted texts, in order, followed by the provisional answer: each character is retracted once or is in the answer |
| `AnswerSplitter.StripsJoinedPrefix` | src/agents/runner.py:1324-1338 | substring removal of the parts of a joined prefix leaves exactly what follows it, whatever the texts contain |
| `AnswerSplitter.StrippingRecoversTheAnswer` | src/agents/runner.py:1256-1338 | for every stream of chunks, stripping the announced narrations gives exactly the finished answer, also when a notice was appended |
| `AnswerSplitter.ConsumeStream` | src/api/routes/query.py:835-835 | a consumer that joins the deltas and strips the narrations shows the splitter's own answer |
| `SplitterMeaning.AnswerIsTheLastMessage` | src/agents/runner.py:1233-1254 | for messages under distinct neighbouring ids, or without ids and each but the last calling tools, and no text after a tool call, the answer is the last message's whole text, or empty if it called tools |
| `SplitterMeaning.LastMessageSurvivesExactly` | src/agents/runner.py:1278-1310 | after any earlier stream a tool-free message is the whole answer if and only if `Survives` |
| `SplitterMeaning.ReusedIdOutcome` | src/agents/runner.py:1287-1290 | after a tool call under the same id, a message is the whole answer if and only if all its text is in its final chunk |
| `SplitterMeaning.ReusedIdDropsTheStart` | src/agents/runner.py:1287-1290 | for every reused id and every final answer streamed in two chunks with a non-empty first one, the answer is the second chunk alone, unless the id is the key of the fresh segment, and then the whole |
| `SplitterMeaning.ReusedIdLosesText` | src/agents/runner.py:1287-1290 | a two-message stream whose final answer loses its first chunk |
| `SplitterMeaning.FreshKeyIsNumbered` | src/agents/runner.py:1290-1290 | a fresh key ends in the number of segments in decimal digits, so fresh keys differ |
| `EnvText.EnvValueQuoteClosed` | src/settings.py:1713-1730 | the scanning loop with its escape flag decides `QuoteClosed` |
| `EnvText.QuoteClosedMeaning` | src/settings.py:1713-1730 | a value is closed exactly when it is unquoted or its quote occurs again, for double quotes behind an even number of backslashes |
| `EnvRoundTrip.EscapedIsEscape` | src/settings.py:1701-1708 | the chain of five replacements is one pass over the text with normalised newlines |
| `EnvRoundTrip.RoundTripExactly` | src/settings.py:1697-1710 | reading a formatted value returns it, newlines normalised, if and only if it has a hash, a double quote, a blank or a newline, or is bare text without outer blanks, carriage returns or a leading single quote |
| `EnvMeaning.SpecialsAreQuoted` | src/settings.py:1697-1710 | a value with a hash, a double quote, a blank or a newline is written as one line that begins and ends with a double quote, and is read back newlines normalised; any other value is written as it is |
| `EnvMeaning.NormaliseMeans` | src/settings.py:1702-1705 | the two newline replacements turn CRLF and a bare carriage return into one newline each and keep every other character |
| `EnvRoundTrip.FormatsToOneClosedLine` | src/settings.py:1697-1730 | a value formats to one physical line the scanner accepts if and only if it is admissible |
| `EnvRoundTrip.SameTextSameValue` | src/settings.py:1697-1710 | values formatted alike are equal up to newline style |
| `EnvWhole.WholePromiseIsKeptExactly` | src/settings.py:1697-1810 | for every text and every dict of settings whose keys can stand before an equals sign, whatever its values: the map is overridden, everything unrelated is verbatim and in order, and every value is read back, if and only if the file is undisturbed, the save does not run into an unterminated last line, and every value is one that reads back |
| `EnvWhole.NeverReadsBack` | src/settings.py:1697-1810 | for every text and all settings without carriage returns in what is written: a value that cannot be read back is not read back from the saved text, whatever follows it |
| `EnvPromise.PromiseIsKeptExactly` | src/settings.py:1733-1810 | for every text and all valid settings: the saved text reads as the old map overridden and has everything unrelated verbatim and in order, if and only if the file is undisturbed and the save does not run into an unterminated last line |
| `EnvExactly.SaveIsInOrderExactly` | src/settings.py:1753-1788 | the same for the lines of a file, if and only if it is undisturbed: no continued line of another assignment is dropped or taken for a saved key, and nothing is appended to an open value |
| `EnvPromise.JoiningBreaksThePromise` | src/settings.py:1749-1799 | a save that runs into an unterminated last line never keeps everything unrelated, whatever the joined line says |
| `EnvFailures.TwoLineValueLosesBoth` | src/settings.py:1756-1788 | for a file of two lines, an unrelated value left open and a line without an equals sign, and every new value that is written on one line: the saved text, what the unrelated key read before and reads afterwards, that it has no value if its quote does not occur again, and that the saved key is not read |
| `EnvFailures.UnterminatedLineLosesTheKey` | src/settings.py:1756-1799 | for every file of one assignment without its newline and every new value that is written on one line: the joined text, that the old key reads as both, and that the saved key is not read |
| `EnvFailures.SecondSaveSwallowsExactly` | src/settings.py:1710-1788 | two saves of one key, the first with an open single quote: of the lines behind the key, exactly those up to and including the first one with a single quote are gone |
| `EnvLines.EntryParses` | src/settings.py:1767-1770 | the line written for a setting is parsed by the loop as an assignment of exactly that key and value text |
| `EnvMeaning.NotesAre` | src/settings.py:1759-1764 | a line is copied as a note if and only if it is blank or its first character that is no blank is a hash |
| `EnvMeaning.AssignmentsAre` | src/settings.py:1767-1770 | a line that is no note assigns if and only if it has an equals sign: the stripped text before the first one, and the text behind it |
| `EnvFile.SkipContinuation` | src/settings.py:1771-1775 | the nested loop skips exactly the lines that continue an open value |
| `EnvFile.RewriteLines` | src/settings.py:1756-1784 | the rewriting loop copies, replaces and drops lines as its specification says, and knows the keys it replaced |
| `EnvFile.AppendMissing` | src/settings.py:1786-1788 | the keys not replaced are appended in the order of the settings |
| `EnvFile.EnvStore.Save` | src/settings.py:1748-1810 | the file afterwards is the specified text, from an existing or a missing file |
| `EnvFile.WrittenLinesReadBackExactly` | src/settings.py:1749-1799 | physical lines written one after another are read back as themselves if and only if all but the last end in a newline |
| `EnvFile.JoinsMeans` | src/settings.py:1756-1788 | the rewritten lines end unterminated with entries to append if and only if the text ends unterminated, its last line is copied, and some key is assigned by no line the loop reaches |
| `EnvOverride.SaveIsOverride` | src/settings.py:1753-1788 | on an undisturbed file the map read after a save is the map before, overridden by the settings, and everything unrelated, to any larger set of keys as well, comes through verbatim and in order |
| `EnvOverride.UpdatedKeys` | src/settings.py:1767-1788 | the keys the loop counts as replaced are those the reader sees and those that stand in continued lines |
| `EnvOverride.SaveKeepsOthers` | src/settings.py:1759-1782 | in a file of one-line entries the comments, blanks and unrelated lines survive verbatim and in order, and the result is such a file again |
| `EnvOverride.UnrelatedFileSurvivesExactly` | src/settings.py:1756-1784 | a file that assigns none of the saved keys passes the loop unchanged if and only if each of its lines is blank, a comment or has an equals sign |
| `EnvOverride.SavingTwiceIsSavingOnce` | src/settings.py:1753-1788 | for every file, saving the same settings again writes the same lines |
| `EnvOverride.OpenQuoteSwallowsTheRest` | src/settings.py:1771-1775 | replacing a value with an open single quote removes the lines behind it up to and including the first one with a single quote, or all of them |
| `EnvFile.SaveReadsBackExactly` | src/settings.py:1749-1799 | the saved file reads back as the intended lines if and only if the save did not run into an unterminated last line |
| `EnvFile.SavedFileReads` | src/settings.py:1733-1810 | in the file's text every saved key reads as its value (exactly if it reads back) and every other key as before |
| `EnvFile.SavedFileIsStable` | src/settings.py:1733-1810 | saving the same settings again leaves the file's text as it is |
| `EnvFile.OneSaveOfWellFormed` | src/settings.py:1733-1810 | a save keeps a well-formed file well-formed, overrides its map, and keeps its other lines, also those outside any larger set of keys |
| `EnvFile.RunOfSaves` | src/settings.py:1733-1810 | over any run of saves a well-formed file stays well-formed, reads as the overridden map, and keeps its comments, blanks and every assignment to a key outside the run verbatim and in order |
| `EnvLock.ApplyKeeps` | src/settings.py:1748-1811 | each step of a saver, each failure and each crash keeps the file equal to the completed saves in lock order |
| `EnvLock.NoLostOrTornSave` | src/settings.py:1733-1811 | over every interleaving with failures and crashes the file is the initial file with the completed saves applied in lock order; a caller whose replace went through is among them in every later state, also after it has returned, and a turn that was passed without replacing the file never takes effect |
| `EnvLock.UndisturbedSaveLands` | src/settings.py:1748-1811 | a call that finds the lock free and in which nothing fails makes the file the save of what it was, and frees the lock |
| `TableCopy.Sort` | scripts/production_hardening/migrate_sqlite_to_postgres.py:113-113 | the digests are sorted and the same as a multiset |
| `TableCopy.ContentHash` | scripts/production_hardening/migrate_sqlite_to_postgres.py:101-115 | the accumulating loop computes the hash that the next row is about |
| `TableCopy.HashIsMultisetIdentity` | scripts/production_hardening/migrate_sqlite_to_postgres.py:101-115 | with a collision-free digest two row lists hash alike if and only if one is a permutation of the other after normalisation |
| `TableCopy.VerdictIsExact` | scripts/production_hardening/migrate_sqlite_to_postgres.py:185-201 | the verdict is ok if and only if source and target hold the same normalised rows, each as often, whatever the target held before |
| `TableMeaning.StoredCell` | scripts/production_hardening/migrate_sqlite_to_postgres.py:123-135 | what is stored for every cell and column type: all but booleans and bytes as they are, bytes decoded outside BYTEA columns, booleans as words or numbers |
| `TableMeaning.VerdictOnTidyRows` | scripts/production_hardening/migrate_sqlite_to_postgres.py:185-201 | for rows whose cells fit their columns: ok if and only if both sides hold the same rows themselves, each as often, count_mismatch if and only if there are not as many, hash_mismatch otherwise |
| `TableMeaning.UntidyRowsLookAlike` | scripts/production_hardening/migrate_sqlite_to_postgres.py:90-98 | bytes and the text of their base64 in one BYTEA column: different tables with the verdict ok |
| `TableCopy.PgTable.ExecuteMany` | scripts/production_hardening/migrate_sqlite_to_postgres.py:161-181 | conflict-ignoring inserts row by row, and a row count that is the growth of the table |
| `TableCopy.PgTable.CopyRows` | scripts/production_hardening/migrate_sqlite_to_postgres.py:168-181 | the batch loop inserts the coerced rows of all its batches, and copied is the growth of the table |
| `TableCopy.PgTable.CopyTable` | scripts/production_hardening/migrate_sqlite_to_postgres.py:152-211 | the copied table, the verdict on it and the counts |
| `TableCopy.FullPassSendsEverything` | scripts/production_hardening/migrate_sqlite_to_postgres.py:168-177 | a batch size of at least one sends every row once and in order; zero sends nothing |
| `TableCopy.FullPassIsCompleteExactly` | scripts/production_hardening/migrate_sqlite_to_postgres.py:168-181 | for every table and every batch size: a pass over an empty target copies the table if and only if there is nothing to copy, or the size is at least one and there is no key or no two keys collide, or (the one accident) the size is -2 and the table has no key and four rows of which the last three are the same |
| `TableCopy.InsertsAllExactly` | scripts/production_hardening/migrate_sqlite_to_postgres.py:161-181 | inserting rows into an empty table gives exactly them if and only if there is no key or no two keys collide |
| `TableCopy.PassCompletesExactly` | scripts/production_hardening/migrate_sqlite_to_postgres.py:161-181 | from any part of the rows, with a key: one pass makes the target the same rows, and as many, if and only if no two keys collide |
| `TableCopy.CollidingKeysLoseARow` | scripts/production_hardening/migrate_sqlite_to_postgres.py:123-135 | two different rows whose byte keys decode alike: one of them is dropped, and the verdict is count_mismatch |
| `TableCopy.RerunInsertsNothingExactly` | scripts/production_hardening/migrate_sqlite_to_postgres.py:161-181 | a second pass inserts nothing if and only if there is a primary key or nothing to insert; otherwise it inserts every row again |
| `TableCopy.KilledRunLeavesAPart` | scripts/production_hardening/migrate_sqlite_to_postgres.py:168-181 | a first run into an empty table that is killed leaves a part of the rows, and all that were sent if and only if there is no key or no two of them collide |
| `TableCopy.KilledRunsLeaveAPart` | scripts/production_hardening/migrate_sqlite_to_postgres.py:168-181 | however often the copy of a table with a primary key is killed and started again, the target holds a part of the rows, also when keys collide |
| `TableCopy.KillAndRerunConverges` | scripts/production_hardening/migrate_sqlite_to_postgres.py:152-201 | from any part of the rows, after one full pass the target is the coerced source and the verdict ok if and only if no two keys collide (without a key: if and only if the target was empty), and otherwise the verdict is count_mismatch; a further pass inserts nothing if and only if there is a key or nothing to insert |
| `TableMeaning.TidyTableIsCopied` | scripts/production_hardening/migrate_sqlite_to_postgres.py:152-201 | from any part of a table whose rows fit their columns, one full pass makes the target the source's own rows and the verdict ok if and only if no two rows have the same key cells (without a key: if and only if the target was empty) |
| `Gateway.ApplyKeeps` | deploy/mcp-gateway/gateway.py:117-335 | every step of attach, invoke, disable and revoke keeps: a record once read is the entry again only while the entry has not changed since |
| `Gateway.ReturnedResults` | deploy/mcp-gateway/gateway.py:282-301 | a result is returned only if the entry was not removed or replaced between the second read and the final check, and its endpoint was confirmed on all six fields within the call; the two records read are the same if and only if nothing changed in between |
| `Gateway.OnlyReviewedIsAttached` | deploy/mcp-gateway/gateway.py:203-238 | over every interleaving what is attached has a stable identity and an endpoint, and what an attach installs was attested by the Runner in all four fields |
| `Gateway.MismatchDetaches` | deploy/mcp-gateway/gateway.py:117-133 | an answer that differs in one of the six fields ends the invoke without a result and detaches the deployment |
| `Gateway.DetachStopsResults` | deploy/mcp-gateway/gateway.py:310-331 | once a disable or revoke has taken its step, and until the deployment is attached again, it has no entry and no invoke returns a result, neither one begun since nor one on its way |
| `Gateway.ReattachGoesUnnoticed` | deploy/mcp-gateway/gateway.py:283-294 | a run in which the returned result comes from an endpoint that is no longer the attached one |
| `AttachmentTurns.ResolutionIsExact` | src/attachments/coordinator.py:134-200 | a waiting turn is failed if and only if a required attachment is missing, deleted, without asset or broken, and released if and only if it requires something and all of it is active and ready or degraded |
| `AttachmentTurns.Coordinator.ResolveTurn` | src/attachments/coordinator.py:134-177 | one resolution in place, and that its answer says whether the turn left the waiting status |
| `AttachmentTurns.Coordinator.NotifyAssetSettled` | src/attachments/coordinator.py:32-44 | afterwards no turn linked to an attachment of the known asset can still be decided, every other turn is as it was, and the answer is the number of turns that stopped waiting |
| `AttachmentTurns.Coordinator.NotifyAttachmentDeleted` | src/attachments/coordinator.py:46-61 | afterwards no turn linked to the attachment can still be decided, every other turn is as it was, the answer is the number of turns that stopped waiting, and an empty id changes nothing |
| `AttachmentTurns.Coordinator.ReconcileWaitingTurns` | src/attachments/coordinator.py:70-84 | after a scan a turn can still be decided if and only if it could be before and the limit kept it from being looked at; the answer is the number of turns that stopped waiting |
| `AttachmentTurns.WaitingOn` | src/attachments/coordinator.py:101-114 | exactly the waiting turns that one of the attachments is linked to |
| `AttachmentTurns.OldestAreScanned` | src/attachments/coordinator.py:116-132 | a waiting turn is scanned if and only if fewer than the limit of older turns are waiting |
| `AttachmentTurns.ScanLeavesExactly` | src/attachments/coordinator.py:70-84 | the same for any list of scanned turns |
| `TurnResolvers.LostWakeupsAreRecovered` | src/attachments/coordinator.py:70-84 | for every interleaving of callbacks with assets that only settle: a scan afterwards ends with the turns that the scan alone gives on the final attachments and assets |
| `TurnResolvers.TurnsLeaveOnce` | src/core/conversation.py:1348-1402 | over every interleaving a turn leaves the waiting status at most once |
| `TurnResolvers.DecisionsHoldWhenWritten` | src/attachments/coordinator.py:134-200 | over every interleaving, at the moment of the write: a failed turn has a required attachment that is broken, deleted or missing unless one was re-opened since the rows were read, and a released turn has each of them ready or degraded except those re-opened, deleted or reclaimed since |
| `TurnResolvers.UndisturbedDecisionIsExact` | src/attachments/coordinator.py:134-200 | if nothing touched a required attachment since the rows were read, the turn is written exactly as resolving it at that moment would leave it |
| `TurnResolvers.RetryCanComeTooLate` | src/attachments/service.py:515-535 | a run in which a retried parse has its turn failed although its one attachment is queued again |
| `TurnResolvers.DeletionCanComeTooLate` | src/attachments/coordinator.py:134-200 | a run in which a turn is released although its one attachment was deleted before the write |
| `Supervisor.Tick` | src/api/worker_supervisor.py:28-45 | one pass over all children gives each the specified next state, including the early continue for a live process |
| `Supervisor.TickMeans` | src/api/worker_supervisor.py:28-45 | a live process is left alone; one that has exited is counted and gets its next start 2, 4, 8, 16, 32 or 60 s from now; a child without a process is started if and only if the supervisor is not stopping and the start is due |
| `Supervisor.RestartsAreSpaced` | src/api/worker_supervisor.py:28-45 | over every run with a non-decreasing clock consecutive starts are apart by the backoff of the failure count, which restarts after a lifetime over 60 s, and at most one started process is not reaped |
| `Supervisor.CrashLoopIsSlow` | src/api/worker_supervisor.py:36-40 | from whichever start on, the n-th restart in a row after short lifetimes comes no earlier than the sum of the n delays for the failures counted, which is at least the sum of the first n delays, in closed form 62 s and a minute for each after the fifth |

## Left out

- `EnvWhole.NeverReadsBack`: a bare carriage return breaks the written line in two, and a later piece may be read for another key of the same dict; such settings are covered by `WholePromiseIsKeptExactly` only.
- `RunnerRuns.EveryExecutionEnds`: time is counted in polls; each poll of the source waits until the deadline or half a second, whichever comes first, and at least 10 ms, so a timeout in seconds bounds the number of polls.
- `RunnerRuns.ExecutionEndsSettled`: errors of the ledger database itself are not modelled; an execution whose own update raises would leave its row open.
- `RunnerRuns.FinalRowsAreForever`: the manifest is an arbitrary text; how `_collect_outputs` walks and hashes the output directory is not part of this model.
- `TurnResolvers.DecisionsHoldWhenWritten`: required attachments are taken to be among the rows known when the run starts, and attachment rows are never inserted afterwards.
- `AttachmentTurns.Coordinator.NotifyAttachmentDeleted`: the id is taken as already stripped.
- `AttachmentTurns.Coordinator.ReconcileWaitingTurns`: the limit is an integer; the fallback to 100 for something that is no number is not modelled.
- `TableCopy.HashIsMultisetIdentity`: the digest is an arbitrary injective function on JSON payloads, and the JSON text of a row is taken to determine the row; floats are their bits, so payloads of different NaNs count as different.
- `EnvFile.SavedFileReads`: the reader is the model's own; python-dotenv's treatment of inline comments and `export` prefixes is not part of this model.
- `EnvLock.NoLostOrTornSave`: only callers of the save function take the lock; a program that writes the file without it is not modelled.
- Columns `execution_id`, `observed_state`, `bundle_*` and the timestamps of the task ledger: written beside the modelled ones, never read by the protocol.
- HTTP, authentication, bundle, profile and parameter validation, and the request fingerprint's computation in the Runner and the Gateway; a fingerprint is an arbitrary text here.
- Skill builds, service containers' own life cycle and image attestation in the Runner.
- Extraction of text and tool calls from a model chunk, and the rest of the agent runner.
- `discover`, the tool allowlist, argument checks and bridge errors in the Gateway; in the protocol they end a request early (`Abandon`).
- File mode, byte-order mark, temporary-file names, `CONFIG_REVISION` and the per-key validators of the settings.
- Type mapping, DDL, NULL primary keys and PostgreSQL's type errors in the table copy; UTF-8 decoding and base64 are parameters.
- Turn events, metrics, messages and `expire_waiting_turns` in the coordinator.
- Process creation errors, stop signals and the join window of the supervisor; a stopped supervisor is one that starts nothing.
