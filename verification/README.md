# Agent-manager: verified model of the queue, apply and graph core

Agent-manager moves task records through queue directories, applies model-written changes to a
repository, and keeps an import graph of it. The code that writes, retries, undoes and recovers is
deterministic; this project models that code in Dafny and proves what it keeps.

What is a regular expression, a model's answer, a vote, Git's outcome, path arithmetic or a library
call in the original appears here as a field of a record or as an arbitrary function. Control flow,
maps, counters, sequences, file operations and arithmetic are concrete. Methods follow the
original's loops and branches and are proved against specification functions; the theorems are about
those functions, over every input or every run.

| module | what it models |
|---|---|
| `EditMatch`, `GroupB` | the transactional create/edit/delete batch and its match rule |
| `JsonText`, `BracketScan`, `SpanText`, `ArrayExtract`, `VerdictParse` | JSON as it is printed, the two scanners that find it in free text, and what they find without a scanner |
| `Utf`, `GitPath` | UTF-8 and UTF-16, Git's path quoting and its inverse |
| `Decimal`, `AtomicWrite` | the temp-file, fsync, rename protocol with concurrent writers, readers and power failures |
| `Queue`, `Spool`, `RetryCheck`, `BlockedDrain`, `ConfirmGate`, `ApplyOutcome`, `QueueRuns`, `RedraftBound` | the queue directories, the sweeps that move tasks, whole runs of them, and how often a run can redraft a task |
| `HubFold`, `HubQueue`, `DraftBudget` | splitting a task into a hub of pieces, and the continuation budget before it |
| `AbandonedScan`, `AbandonedRecheck` | the incremental index of abandoned records and its fair, bounded recheck |
| `ClusterSweep` | clusters of blocked tasks and the throttle on reporting them |
| `ImportGraph`, `Coverage`, `StarLayout`, `Spindle` | the graph builder's cache, its review state across rebuilds, and its star and spindle layout |

## Where the code falls short of its comments

The model follows the code. Each of these is proved, with the exact condition under which the
promise does hold.

- The rollback of a batch restores "the exact prior bytes" only of UTF-8 files: inverses hold the
  file as decoded text (`GroupB.RollbackIsExactIff`, `GroupB.RollbackChangesBinaryFile`).
- An accepted edit may match at two overlapping places; for a given `find` this never happens if and
  only if it does not overlap itself (`EditMatch.AcceptedEditsAreUniqueIffUnbordered`).
- Bracketed prose before a JSON array is skipped if and only if its apostrophes pair up; an odd one
  opens a "string" and the search gives up (`ArrayExtract.BracketedProseIsSkippedIff`,
  `ArrayExtract.ApostropheExample`).
- When Git leaves high bytes unquoted (`core.quotePath=false`), a path that is quoted for another
  reason loses characters outside the basic plane (`GitPath.VerbatimRoundTripIff`).
- A task whose branch diverged is redrafted after all once it was ever escalated before
  (`RetryCheck.DivergedIsRedraftedIff`).
- The escalation of a conflicting edit runs inside the `try` of the classification; if its unlink
  throws, the task is both escalated and redrafted (`RetryCheck.EscalatedAndRedraftedIff`).
- A redraft whose unlink throws leaves a copy in blocked/ with its budget unspent, so the bound on
  automatic redrafts grows with every such cut (`RedraftBound.CutRedraftKeepsBudget`,
  `RedraftBound.AutomaticRedraftsAreBounded`).
- Folded verification steps, and the carried partial diff, are dropped when the piece that should
  hold them is routed as a brain-dump disposition (`HubQueue.FoldedTextKeptIff`,
  `HubQueue.CarriedDiffReachesFirstPieceIff`), and a split without work of its own hands on what an
  earlier split left (`DraftBudget.SplitKeepsStaleWork`).
- A hub's slots stay within its total only if its parent's did (`HubQueue.SlotsWithinTotalIff`). A
  nested hub takes over its parent's slot, but the pieces after the parent keep theirs: the second
  piece of the nested hub has the slot of the parent's next sibling (`HubQueue.SlotSharedIff`).
- An answer `implemented` with an empty diff meets no gate: it is recorded as finished whatever the
  gates would say (`DraftBudget.PassIsWritten`).
- The minute of overlap is the longest delay the scan allows for: every scan is right if and only if
  no record becomes visible more than a minute after its mtime (`AbandonedScan.OverlapIsTheMostDelay`),
  and a later one is never found (`AbandonedScan.LateRecordStaysMissed`). Ids whose recheck throws keep
  their place and can starve the rest (`AbandonedRecheck.FailingIdsStarve`).
- Filtering the cached targets of an untouched file is not enough when files come or go. It is right
  for a statement if and only if no candidate came or went in front of the one it resolved to, or
  neither result is an edge (`ImportGraph.ReuseIsRightIff`), and for a whole file if and only if other
  statements make up for the rest (`ImportGraph.FileReuseIsRightIff`).
- The extensions a script import tries are an unordered set, so a fresh process may prefer another of
  two files that are both there (`ImportGraph.ExtensionOrderDecidesIff`).
- A spindle between hubs at one point draws every leaf on that point (`Spindle.NonCrossingIff`). In a
  later render, with the hubs where they were, the i-th new leaf lands on the i-th old one
  (`Spindle.CachedLeafIsClearIff`).

## Model

| member | source | states |
|---|---|---|
| `EditMatch.SplitCountIsMaximal` | src/apply-group-b.js:79 | the split count is the largest number of pairwise disjoint occurrences of `find` |
| `EditMatch.EditAcceptedIff` | src/apply-group-b.js:73-85 | an edit is accepted exactly when `find` is non-empty and occurs, but not at two disjoint places |
| `EditMatch.EditReplacesLeftmost` | src/apply-group-b.js:86-95 | an edit gives prefix + replacement + suffix, verbatim, if and only if `find` stands between that prefix and suffix and occurs nowhere apart from there |
| `EditMatch.EditRefusedIff` | src/apply-group-b.js:77-85 | each refusal: `find` is empty or absent; or it occurs at two places apart, and then the split count is reported |
| `EditMatch.AcceptedEditsAreUniqueIffUnbordered` | src/apply-group-b.js:77-95 | acceptance means exactly one occurrence in every text, if and only if `find` has no proper border |
| `GroupB.Repo.ApplyOneChange` | src/apply-group-b.js:58-117 | a create writes the content at an absent path, an edit writes back the text with its one occurrence of `find` replaced, a delete removes the file; each refusal if and only if its condition on item and tree holds, with nothing changed; the inverse is captured |
| `GroupB.MeaningIsApplied` | src/apply-group-b.js:58-117 | the meaning of an item is exactly that, over every tree |
| `GroupB.Repo.RevertOne` | src/apply-group-b.js:126-133 | for every change an inverse was captured for: on the tree after it, with later paths restored, the revert succeeds and gives the tree before it, that path restored too |
| `GroupB.Repo.Unwind` | src/apply-group-b.js:160-167 | unwinding all inverses in reverse never fails, whatever paths they share, and gives back the tree before the batch with touched files re-encoded |
| `GroupB.Repo.ApplyItems` | src/apply-group-b.js:148-177 | either the fold of all the items' meanings, or the first refused item, its reason, and the rolled-back tree |
| `GroupB.Repo.ApplyGroupB` | src/apply-group-b.js:135-178 | all or nothing for the whole call: every item carried out on the tree the one before left, or the first that is refused with its reason and the rollback; the parse and empty-batch errors |
| `GroupB.BatchIsAllApplied` | src/apply-group-b.js:135-178 | a batch succeeds with a tree if and only if its items can be carried out one after another, ending there |
| `GroupB.UndoOne` | src/apply-group-b.js:66-70 | one captured inverse takes the restored later tree to the restored earlier tree, key set included |
| `GroupB.RollbackIsExactIff` | src/apply-group-b.js:96-100 | a rollback gives the tree before the batch exactly, if and only if every existing file it touched is UTF-8 |
| `GroupB.RollbackChangesBinaryFile` | src/apply-group-b.js:111-113 | a concrete failing batch after which a deleted binary file has other bytes |
| `GroupB.FailureIsFirstFailure` | src/apply-group-b.js:150-172 | a batch fails exactly when some item is refused by the tree its predecessors leave |
| `GroupB.UnnamedFilesUntouched` | src/apply-group-b.js:58-117 | files no item names come through a successful batch unchanged |
| `GroupB.OnlyDeletesAreHeld` | src/apply-group-b.js:35-44 | the look-ahead holds a batch exactly when it parses and has a delete item |
| `GroupB.UnconfirmedBatchRemovesNothing` | src/apply-group-b.js:35-44 | a batch the delete look-ahead lets through never removes an existing file |
| `GroupB.CreateEditDeleteIsIdentity` | src/apply-group-b.js:62-114 | create, edit and delete of one path in one batch changes nothing |
| `GroupB.KillSwitchCreatedByBatchStopsIt` | src/apply-group-b.js:103-107 | a batch that creates the kill-switch marker cannot delete afterwards |
| `BracketScan.SpanIsPrintedValue` | src/agentic-draft-common.js:233-251 | from the bracket of any printed JSON array or object, in any text, the scan ends exactly at its last character |
| `BracketScan.StringReads` | src/agentic-draft-common.js:238-243 | a printed string with escapes, brackets and either quote is skipped whole |
| `SpanText.SpanEndIff` | src/agentic-draft-common.js:233-251 | for any text: the scan from a bracket ends at a place if and only if what lies between reads as strings (either quote, escapes, unbalanced brackets inside) and single characters whose brackets first balance there |
| `ArrayExtract.BalancedBracketSpanAt` | src/agentic-draft-common.js:233-251 | the loop computes the balanced span, or nothing when the bracket is never closed |
| `ArrayExtract.ExtractFirstJsonArray` | src/agentic-draft-common.js:264-278 | the search terminates with the first span that is an array and whose earlier brackets were all passed over |
| `ArrayExtract.FoundAtIff` | src/agentic-draft-common.js:264-278 | where the array is found, without the scanner: the first `[` whose span is an array, if all the earlier ones have spans that are not |
| `ArrayExtract.PrintedArrayFoundIff` | src/agentic-draft-common.js:253-278 | a printed array is found at its own place if and only if every earlier `[` opens a closed span that is no array |
| `ArrayExtract.RoundTrip` | src/agentic-draft-common.js:264-278 | any printed array after any text without `[`, before any text, is returned exactly |
| `ArrayExtract.BracketedProseIsSkippedIff` | src/agentic-draft-common.js:253-278 | bracketed prose before a printed array is skipped and the array returned, if and only if the number of apostrophes in the prose is even |
| `ArrayExtract.ApostropheInBracketedProseGivesUp` | src/agentic-draft-common.js:257-263 | an apostrophe after plain text in a bracket, closed or not, makes the search return nothing, whatever follows |
| `VerdictParse.ParseVerdictResponse` | src/brain-dump-resolution-check.js:176-198 | the nested loops return the first brace span that parses, else the `unclear` verdict |
| `VerdictParse.ParsesAtIff` | src/brain-dump-resolution-check.js:179-196 | a brace is tried successfully if and only if balanced text from it parses |
| `VerdictParse.PrintedObjectFoundIff` | src/brain-dump-resolution-check.js:176-198 | a printed object is the one recovered if and only if no earlier brace span parses |
| `VerdictParse.RoundTrip` | src/brain-dump-resolution-check.js:176-198 | the verdict written comes back through any prose in which no earlier span parses |
| `Utf.EncodeInjective` | src/apply-adhoc-diff.js:322-329 | no two texts have the same UTF-8 bytes |
| `GitPath.UnquoteBody` | src/apply-adhoc-diff.js:317-328 | the loop collects the bytes that the escapes and characters stand for |
| `GitPath.UnquoteFront` | src/apply-adhoc-diff.js:317-328 | one turn of the loop: three octal digits up to 377, a named escape, or a backslash standing for itself |
| `GitPath.UnquoteGitPath` | src/apply-adhoc-diff.js:313-330 | on any quoted path the bytes come back as text, and on any quoted file name the name itself |
| `GitPath.BytesUnquote` | src/apply-adhoc-diff.js:317-328 | for every byte string the loop inverts quoting |
| `GitPath.UnquoteInvertsQuote` | src/apply-adhoc-diff.js:313-330 | for every file name, quoting then unquoting gives the name |
| `GitPath.BytesSurviveIffUtf8` | src/apply-adhoc-diff.js:329 | the returned path denotes the same bytes if and only if they are UTF-8 |
| `GitPath.VerbatimRoundTripIff` | src/apply-adhoc-diff.js:322 | with high bytes unquoted, the round trip holds exactly for names that need no quoting or stay in the basic plane |
| `AtomicWrite.TempNamesDistinct` | src/atomic-write.js:22 | different processes or milliseconds give different temporary names |
| `AtomicWrite.StepKeepsSafe` | src/atomic-write.js:21-31 | every step of any writer, a flush, a death or a power failure keeps the invariant |
| `AtomicWrite.StepAndReader` | src/atomic-write.js:11-16 | a reader sees a change only at a rename (the whole payload) or after a power failure (an earlier value) |
| `AtomicWrite.AtomicReplace` | src/atomic-write.js:11-31 | over every run the target, as read and as any power failure would leave it, is the original or one whole payload |
| `AtomicWrite.GarbledUntilFsyncIff` | src/atomic-write.js:12-15 | what the fsync is for: a power failure may leave any text at all in the file of a call until the call has fsynced it, and the whole payload from then on |
| `AtomicWrite.Disk.WriteAtomicSync` | src/atomic-write.js:21-31 | success: the target holds the contents on disk and the temporary name is gone; exception anywhere: the target reads as before, and the temporary file stays with what had been written |
| `Queue.SweepKeepsNames` | src/apply-retry-check.js:206-218 | a crash between any two file operations of a sweep, or a throwing operation, loses no task |
| `Queue.SweepOnOne` | src/apply-retry-check.js:185-416 | the files of different tasks do not interfere: a sweep does to each what its own operations do |
| `Queue.CutSweepOnOne` | src/apply-retry-check.js:185-416 | the same when the sweep is cut after any number of file operations |
| `Queue.DuplicateIffUnlinkThrows` | src/apply-retry-check.js:206-218 | one file's handling leaves its task in exactly one directory unless a throw hits an unlink |
| `RetryCheck.CheckOne` | src/apply-retry-check.js:185-416 | one file is handled by its own decision, with every early exit and the caught throw in the conflict branch |
| `RetryCheck.ApplyRetryCheck` | src/apply-retry-check.js:175-419 | the whole sweep: every task ends in approved/, needs-clarification/, pending/ or blocked/, each exactly by fields of its record and what was seen, with the record it has there; and every count of the summary |
| `RetryCheck.DecisionDisposes` | src/apply-retry-check.js:196-407 | released or resolved to approved/ with the failure cleared; a first divergence, a conflict, or two retries used up to needs-clarification/ -- a design decision exactly in the last case, and then stamped exhausted; else a redraft, or a mark made once |
| `RetryCheck.EscalatedIsLastMark` | src/lib/reject-retry-check.js:246-254 | already escalated: of the escalations and draft starts in the history the last is an escalation |
| `RetryCheck.SweepCounts` | src/apply-retry-check.js:176-419 | each number of the summary counts the tasks of one kind |
| `RetryCheck.BudgetsCharged` | src/apply-retry-check.js:204-255 | a redraft costs one of two retries, a timeout release one of four, nothing else touches either count |
| `RetryCheck.InfrastructureNeverRedrafts` | src/apply-retry-check.js:96-119 | infrastructure and timeout failures never cost a redraft and never reach a human |
| `RetryCheck.DivergedIsRedraftedIff` | src/apply-retry-check.js:257-282 | exactly when a diverged-history failure is redrafted |
| `RetryCheck.EscalatedAndRedraftedIff` | src/apply-retry-check.js:303-346 | exactly when a conflicting edit ends both escalated and redrafted |
| `BlockedDrain.DrainDir` | src/blocked-drain.js:47-144 | one directory: a task goes to pending/, stripped, if and only if the fix is for it, it is no gate flake and no open design question, was not drained for this signature before, and pending/ has no task of its name; those are reported, and nothing else changes |
| `BlockedDrain.RequeueBlockedTasksForSignature` | src/blocked-drain.js:42-147 | the same for all the directories, one after another; the ids reported are exactly the tasks drained |
| `BlockedDrain.DrainedOncePerSignature` | src/blocked-drain.js:88-92 | a drained task is not drained again for the signature and starts with clean budgets |
| `BlockedDrain.NotDrainedAgain` | src/blocked-drain.js:88-92 | wherever the drained task goes next, no drain for the signature takes it again |
| `ConfirmGate.MoveTaskFile` | src/auto-confirm-review.js:275-282 | the move is made if and only if the destination is free and both operations go through; a taken destination is not overwritten |
| `ConfirmGate.ReviewOne` | src/auto-confirm-review.js:275-417 | no other file changes and the task stays somewhere; it is approved (with the stamp) or archived if and only if hold, vote and free destination say so; it is asked about again if and only if nothing was settled; and the record it leaves in each case |
| `ConfirmGate.AutoConfirmReview` | src/auto-confirm-review.js:330-421 | the tasks before the first paused vote are each settled as their own review settles them, no other file changes |
| `ConfirmGate.GateOpensOnlyOnConfirm` | src/auto-confirm-review.js:355-417 | only a confirmed, unreviewed, recognised task gains the stamp; a reviewed one is left alone |
| `ApplyOutcome.RecordApplyOutcome` | src/apply-task.js:583-653 | the stage precedence and its status; a failed apply always reads as an apply failure, any other keeps the earlier failure's stage and reason; exactly when a no-op is stamped; what is appended to the history at each stage; the budgets stay |
| `ApplyOutcome.FailedApplyEntersRetryMachine` | src/apply-task.js:598-613 | a failed apply always reads as an apply failure to the retry sweep, and no apply touches the budgets |
| `QueueRuns.ApplyLandsInStep` | src/apply-task.js:616-623 | after an apply the task's status names the directory it is in: done/ exactly when it was applied, blocked/ exactly when it failed, coordinating/ exactly when it was split |
| `QueueRuns.NoTaskLost` | src/apply-retry-check.js:185-416 | over every run of sweeps, applies, drafts and arrivals with any crashes and throws, no task disappears |
| `QueueRuns.ExactlyOneDirectory` | src/auto-confirm-review.js:275-328 | without crashes every task is in exactly one directory between events |
| `QueueRuns.EventAndMeasure` | src/blocked-drain.js:88-122 | in an event that completes, every redraft, drain and timeout release drops (unused signatures, retries left, releases left) lexicographically; every other event leaves all three as they are |
| `RedraftBound.AutomaticRedraftsAreBounded` | src/apply-retry-check.js:204-255 | over every run, crashes and throws included: at most (3S+2)(1+2c) automatic redrafts and (4S+4)(1+2c) timeout releases, with S signatures and c events cut before an unlink of the task |
| `RedraftBound.CrashFreeRedraftsAreBounded` | src/apply-retry-check.js:204-255 | without crashes and throws: at most 2(S+1)+S automatic redrafts and 4(S+1) timeout releases |
| `RedraftBound.CutRedraftKeepsBudget` | src/apply-retry-check.js:243-255 | a redraft whose unlink throws leaves the task in pending/ and, budget unspent, in blocked/ |
| `HubFold.InferMissingAfterLinks` | src/apply-adhoc-diff.js:56-77 | the loops compute the linked proposals |
| `HubFold.InferredLinks` | src/apply-adhoc-diff.js:56-77 | an inferred link points to the earliest earlier piece that creates a file whose name the text holds; a model's link is kept; none is missed; nothing else about a proposal changes |
| `HubFold.FoldTargets` | src/apply-adhoc-diff.js:171-180 | the forward pass maps exactly the verification-only pieces but the first, each to where following the declared links, or else the pieces before, ends |
| `HubFold.FoldsToSurvivor` | src/apply-adhoc-diff.js:171-180 | from each piece the folds lead to one piece, whatever way they are followed |
| `HubFold.SurvivorSurvives` | src/apply-adhoc-diff.js:164-180 | every chain of folds ends at an earlier surviving piece; the first piece always survives |
| `HubFold.FoldedOnce` | src/apply-adhoc-diff.js:182-187 | each verification-only piece but the first is listed once, in order, under the piece it folds to and no other |
| `HubQueue.MemberIdsDistinct` | src/hub-serial.js:70-72 | members of one hub have different ids whatever their titles |
| `HubQueue.ExtraCriteria` | src/apply-adhoc-diff.js:182-187 | for each survivor the texts folded into it, in order |
| `HubQueue.WriteRecords` | src/apply-adhoc-diff.js:222-276 | exactly the hub's records are written, one per survivor, none over another |
| `HubQueue.QueueSubTasks` | src/apply-adhoc-diff.js:155-281 | linking, folding and writing end to end: one file per surviving piece under its numbered id, with its own text and fields, the texts folded into it, and the prior work on the first only |
| `HubQueue.RecordOfHub` | src/apply-adhoc-diff.js:225-276 | every field of the k-th record, from its proposal and the parent |
| `HubQueue.SurvivorHasOneRecord` | src/apply-adhoc-diff.js:225-276 | a proposal has a record of its own exactly when it survives, and then one, with its text |
| `HubQueue.FoldedTextKeptIff` | src/apply-adhoc-diff.js:227-246 | a folded text is kept if and only if its survivor is not a brain-dump disposition |
| `HubQueue.OneChain` | src/apply-adhoc-diff.js:211-257 | in fields: a nested hub goes on with its parent's branch, slot and total, a hub of its own starts at 1 of its pieces; consecutive slots, each piece depending on the one before |
| `HubQueue.SlotsWithinTotalIff` | src/apply-adhoc-diff.js:211-221 | slots stay within the total exactly when the parent's did |
| `HubQueue.NestedSlotsWithinTotal` | src/apply-adhoc-diff.js:207-221 | hubs nested to any depth below a plain task: no slot exceeds its total |
| `HubQueue.LineageSharesBranch` | src/apply-adhoc-diff.js:207-213 | over a line of nested hubs of any length all pieces are on one branch |
| `HubQueue.NestedTakesParentSlot` | src/apply-adhoc-diff.js:207-214 | the k-th piece of a nested hub has its parent's slot plus k |
| `HubQueue.SlotsRise` | src/apply-adhoc-diff.js:207-218 | no piece of a hub further down shares a slot with a piece before the one it comes from |
| `HubQueue.SlotSharedIff` | src/apply-adhoc-diff.js:207-218 | exactly which piece of a nested hub shares its slot with which later sibling of the parent |
| `HubQueue.BuildDecomposedPlan` | src/apply-adhoc-diff.js:292-311 | the hub's records are queued, field by field, and the parent gives up its copy of the diff, or nothing happens |
| `HubQueue.CarriedDiffReachesFirstPieceIff` | src/apply-adhoc-diff.js:258-263 | the carried diff reaches the first record and no other, if and only if the first proposal is not a disposition |
| `DraftBudget.TaskRecord.RecordOutcome` | src/agentic-draft-common.js:876-1104 | each outcome if and only if its condition on pass and task holds, and every field of the task afterwards; the cap is kept and captured work is never dropped |
| `DraftBudget.PassIsWritten` | src/agentic-draft-common.js:491-1104 | finished, split, continued, held for a human, blocked for good: each exactly when; what each writes to resolution, diff, partial work, budgets and flags |
| `DraftBudget.PassAndBudget` | src/agentic-draft-common.js:521-536 | the budget is charged exactly by a continuation, which takes the partial work along; a split only when nothing can be continued |
| `DraftBudget.ContinuationsAreCapped` | src/agentic-draft-common.js:646-673 | over any run the count never passes its cap and equals the continuations |
| `DraftBudget.SplitWorkReachesFirstPieceIff` | src/agentic-draft-common.js:675-686 | from the split to the pieces: captured work reaches exactly the first piece, if and only if it is no disposition |
| `DraftBudget.SplitKeepsStaleWork` | src/agentic-draft-common.js:681 | a split without work of its own keeps what an earlier one left, if no pass finished since |
| `AbandonedScan.IndexState.ScanForAbandoned` | src/abandoned-recheck.js:32-49 | after the scan a file's id is held exactly when it is abandoned and was touched since the watermark, or held before, or never scanned; ids of missing files stay; the watermark is a minute back; no id is held twice |
| `AbandonedScan.IncrementalScanIsExact` | src/abandoned-recheck.js:32-49 | after every scan of any run with timely visibility, the held ids among existing files are exactly the abandoned ones |
| `AbandonedScan.OverlapIsTheMostDelay` | src/abandoned-recheck.js:42-49 | every scan of every run is exact if and only if records become visible at most 60000 milliseconds after their mtime |
| `AbandonedScan.ScanIsRightIff` | src/abandoned-recheck.js:42 | exactly when one scan is right about a file |
| `AbandonedScan.LateRecordStaysMissed` | src/abandoned-recheck.js:42-48 | a late record is missed by every later scan |
| `AbandonedRecheck.RecheckDue` | src/abandoned-recheck.js:58-93 | one pass picks at most `limit` listed ids, all never checked or checked at least ttl ago, oldest first, leaving none of those while there is room; each leaves the list, is stamped or keeps its stamp, and nothing else changes |
| `AbandonedRecheck.DueSortedIs` | src/abandoned-recheck.js:58-59 | the ids never checked or checked at least ttl ago, each once, oldest first, list order between equals |
| `AbandonedRecheck.RechecksAreApart` | src/abandoned-recheck.js:58-87 | over any run of passes and scans two rechecks of one id that do not throw are at least ttl apart |
| `AbandonedRecheck.PassShortensQueue` | src/abandoned-recheck.js:58-93 | a pass that misses an id moves all it stamps behind it, and nothing new gets ahead |
| `AbandonedRecheck.FairSchedulingBound` | src/abandoned-recheck.js:58-96 | a due id is rechecked within floor(k/limit)+1 passes; with f failing ids ahead, within floor(k/(limit-f))+1 |
| `AbandonedRecheck.FairSchedulingFromScan` | src/abandoned-recheck.js:48-96 | the same from a pass whose scan has just found new ids, in whatever order it lists them, where an id with an equal stamp counts when it is earlier in that or in the saved order |
| `AbandonedRecheck.FailingIdsStarve` | src/abandoned-recheck.js:88-92 | `limit` failing ids ahead of an id keep it out of every pass |
| `ClusterSweep.FindBlockedClusters` | src/blocked-cluster-sweep.js:65-99 | exactly the fingerprints shared by enough tasks, each with the ids of all its tasks in listing order; largest first, and clusters of one size in the order of their first tasks |
| `ClusterSweep.RunBlockedClusterSweep` | src/blocked-cluster-sweep.js:131-159 | exactly the new or grown clusters are reported, each once and the largest first, and remembered |
| `ClusterSweep.NoUnreportedGrowth` | src/blocked-cluster-sweep.js:124-128 | after a sweep no cluster has doubled or grown by five unreported |
| `ClusterSweep.ReportsAreThrottled` | src/blocked-cluster-sweep.js:124-159 | for the sizes of one fingerprint, sweep by sweep: reported sizes strictly increase, the k-th is at least 5k-4, so at most (M+4)/5 reports |
| `ClusterSweep.SweepsAreThrottled` | src/blocked-cluster-sweep.js:131-159 | the same over whole runs of sweeps, each starting from the state the one before saved |
| `ClusterSweep.ThresholdsAreAttained` | src/blocked-cluster-sweep.js:124-128 | slow growth is reported at every threshold, so the thresholds cannot be raised |
| `ImportGraph.ExtractEdges` | python/graph_edge_resolution.py:175-234 | the loop lists the targets of the import statements |
| `ImportGraph.EdgesAreImports` | python/graph_edge_resolution.py:175-234 | they are exactly the other source files some statement resolves to |
| `ImportGraph.TargetIff` | python/graph_edge_resolution.py:49-172 | what one statement leads to: the first existing candidate, or the Lua path itself, else the only source file of its name -- if that is another source file |
| `ImportGraph.BuildImportGraph` | python/graph_edge_resolution.py:237-299 | the graph and the cache after a build, from any cache or none |
| `ImportGraph.ColdBuildIs` | python/graph_edge_resolution.py:237-299 | a build without a cache joins two source files exactly when one imports the other |
| `ImportGraph.EdgesStayLive` | python/graph_edge_resolution.py:285-297 | over any history every edge joins two different existing files and the cache holds existing files only |
| `ImportGraph.EntryIsOrigin` | python/graph_edge_resolution.py:250-297 | after any history a file's entry is exactly the stamp and targets of the build that last parsed it |
| `ImportGraph.CachedBuildIsColdBuild` | python/graph_edge_resolution.py:250-283 | with a fixed file set, while every edit since the last build that could read the file changes its time or size, every cached build has the edges of a cold one |
| `ImportGraph.CachedBuildIsRight` | python/graph_edge_resolution.py:250-283 | the same with files added and removed, when every reused file's statements are kept or made up for |
| `ImportGraph.ReuseIsRightIff` | python/graph_edge_resolution.py:259-262 | for one statement of an untouched file: filtering the cached target gives the right edge if and only if no candidate came or went in front of the one it resolved to, or neither result is an edge |
| `ImportGraph.FileReuseIsRightIff` | python/graph_edge_resolution.py:250-283 | for a whole file: its reused edges are right if and only if each statement is kept or made up for by the others |
| `ImportGraph.ExtensionOrderDecidesIff` | python/graph_edge_resolution.py:58-64 | two candidates resolve alike in either order of the extension set if and only if not both are there |
| `ImportGraph.ChangedFileSetLosesEdge` | python/graph_edge_resolution.py:259-262 | whole builds in which an added and a removed file lose an edge |
| `Coverage.MergeCoverage` | python/graph_communities.py:110-136 | each new community keeps its number and name and takes the two review fields of the last old community with the same members, if there is one |
| `Coverage.ReviewFollowsMembership` | python/graph_communities.py:100-136 | over any run, a community carries a review if and only if that exact member set was reviewed, not again since, and every build since had it |
| `Coverage.NumberingDoesNotMatter` | python/graph_communities.py:100-107 | renumbering communities changes nothing that is carried |
| `StarLayout.BuildAdjacency` | python/visualize_graph.py:82-90 | neighbours over links between two different listed nodes |
| `StarLayout.DetectStarClusters` | python/visualize_graph.py:109-135 | one group per set of one or two hubs with at least six exclusive leaves, listing each leaf once |
| `StarLayout.StarLeafIff` | python/visualize_graph.py:109-135 | a star leaf has one or two neighbours, each with ten or more, and shares exactly these with five or more other nodes |
| `StarLayout.OneGroupPerLeaf` | python/visualize_graph.py:109-135 | each star leaf is in exactly one group, no other node is in any, no hub is a leaf |
| `StarLayout.ResolvePositions` | python/visualize_graph.py:290-345 | every node ends with a position, cached ones are kept, the freshly placed are exactly the uncached star leaves, each where its group's formula puts it |
| `Spindle.PositionDualHubLeaves` | python/visualize_graph.py:151-168 | the i-th leaf stands at a right angle off the midpoint of the hubs, on the left of their line, 90 + 50 i away |
| `Spindle.NonCrossingIff` | python/visualize_graph.py:152-157 | for any number of leaves the spindle's edges do not cross, if and only if the hubs are at different points |
| `Spindle.RenderedSpindleDoesNotCross` | python/visualize_graph.py:335-345 | in a rendered graph the new leaves between two hubs are drawn without crossings |
| `Spindle.CachedLeafIsClearIff` | python/visualize_graph.py:330-337 | with the hubs where they were, the i-th leaf of an earlier render is clear of all the new ones if and only if at most i are new |

## Left out

- Git, worktrees, `git apply`, pushes, model calls, majority votes and prompts: their outcomes are inputs.
- The regular expressions on reasons, titles and texts: what they find is a field of the record.
- `JSON.parse`: an arbitrary predicate on texts; the scanners' theorems need only what they assume of it.
- `parseSubTaskProposals` and `renameSources`: a filter over parsed entries and a line filter, easy members on top of the scanner and the unquoter.
- Directories, permissions and I/O errors of the Group B applier; a write that fails halfway is not undone by the original either.
- `GroupB.Repo.Unwind`: assumes reverts meet no I/O error, so its failure count is shown to be zero.
- Torn in-place rewrites of a task file: each write or unlink is one step.
- Two sweeps at work on one file at the same time: sweeps run one after another; a crash may fall between any two operations.
- `BlockedDrain.DrainDir`: an exception ends the drain in the original; here that is a crash of the event in a run.
- Drafting and review as such: in runs they are events that move or rewrite a record and keep its budgets.
- Record fields no mover reads (timestamps, notes, feedback texts, the gates' own marks), member titles, prerequisite hubs and owner gates.
- An empty record file, which the retry sweep skips without counting, is taken for a malformed one.
- Environment switches, dry runs, logging and summaries that only count.
- Directory fsync in `writeAtomicSync`: the original has none; directory updates reach the disk in order, at any later time.
- Path arithmetic and pattern matching of the import resolvers: an import statement is the list of candidates it tries, in one order for all builds of a run, or the Lua path it names.
- Symbolic links among source files, and two paths with one relative name.
- networkx community detection, community naming, pyvis rendering, the ring and seed formulas.
- `Spindle.NonCrossingIff`: over the reals; the length of the axis is any non-negative number, since only its sign matters.
