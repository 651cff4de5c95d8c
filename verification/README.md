# GoNZBD: durability and hand-over

GoNZBD downloads Usenet articles into files and hands finished jobs to
post-processing. What it promises about its record on disk, and about who may act on
a job at a time, is held up by small protocols over in-memory maps and by a few
interval and ring-buffer algorithms. This project models those and proves what their
comments argue: for every interleaving, every run, or every input.

Each component is modelled twice where the source works in place. A class with the
source's fields, or a method with the source's loop, is proved to compute a function
on values; the protocol over it is a machine whose steps are the spans of its lock
(or its transactions and waits), with an inductive invariant and theorems about every
state a run can reach. Beside what never happens, each machine has theorems about what
does: what a call answers or leaves, in terms of the calls before it, and that an
operation under way can always be brought to its end.

| component | files |
|---|---|
| Article recorder | `RecordStore`, `Recorder`, `ArticleRecorder`, `RecorderProtocol`, `RecorderInvariant`, `RecorderTheorems`, `RecorderOutcomes` |
| Job transitions, finalizer, retry, removal | `Transitions`, `TransitionProtocol`, `TransitionOutcomes` |
| Post-processing admission and the Assessing visits | `Admissions`, `AdmissionRuns`, `AdmissionAnswers`, `AdmissionProtocol` |
| Restart verification | `ResolveRows`, `VerifyFiles` |
| Owned ranges and the file writer's accounting | `OwnedRanges`, `FileWriter` |
| Pipeline drain and swap | `Pipeline` |
| Hydrate and Evict | `Residency` |
| Free-space probe cache | `DiskProbe`, `DiskProbeRuns` |
| Speed meter | `Meter`, `SpeedMeter` |
| Line streamer | `LineStreamer` |
| Shared option and job-instance types | `Wrappers` |

What the environment is taken to do: `ApplyRecord` is one transaction that commits or
changes nothing; rows of an instance are noted and its untrusts issued by one
goroutine (`internal/app/record.go:436-438`); an instance leaves the dispatcher only
after a cancel by its own finalizer or by a RemoveJob that marked it first
(`internal/app/transition.go:33-46`); only a stopped downloader's channel is closed
(`internal/downloader/downloader.go:600-613`); the clock does not go back. Device
answers, context ends and timeouts are arbitrary.

Four things the proofs turned up:

- An untrust whose own delete commits late clears the `complete` flag of a state
  marked and flushed since its purge (`internal/app/record.go:459`): the flush leaves
  `complete` to a newer state in its batch (lines 326-332), the untrust's own write
  does not. `RecorderTheorems.LateDeleteCanClear` is such a run, and
  `RecorderTheorems.LateDeleteKeepsState` says exactly when the state survives. The
  other theorems about file states are stated for the states that do.
- What a waiter of `DiskProbe.FreeBytes` reads after its probe ended can exceed the
  documented "reading less bytes noted since its launch" when a newer probe has been
  launched meanwhile (`internal/assembler/diskprobe.go:150-151`); cache hits never do.
  `DiskProbeRuns.WaiterReadsExactlyWhen` gives the exact condition,
  `DiskProbeRuns.WaiterCanReadTooMuch` an example.
- The meter's ring needs only as many slots as span the window
  (`Meter.FaithfulExactlyWhen`); `NewMeter` gives it one more than it needs, and the
  field comment's ceil(window)+1 differs from the code's floor(window)+2.
- `NewLineStreamerCapped` with a negative limit accumulates nothing, and a line loses
  every trailing carriage return, not one (`LineStreamer.FullIsAPrefix`,
  `LineStreamer.TrimRight`); its comment says line callbacks continue only while the
  partial-line buffer has room, but that buffer has no bound.

## Model

| member | source | states |
|---|---|---|
| `RecordStore.InsertRowsAt` | internal/durability/written.go:116-142 | after the upserts a key holds one of the inserted rows or what it held, and no key is lost |
| `RecordStore.InsertedOrReplaced` | internal/durability/written.go:116-142 | an inserted row is stored, or a later row of the same article is |
| `RecordStore.CompleteUntouched` | internal/durability/written.go:103-112 | verdicts that set or clear nothing of a file leave its state alone |
| `RecordStore.CompleteOnly` | internal/durability/written.go:103-112 | complete changes change nothing of a state but its flag |
| `RecordStore.CompleteCleared` | internal/durability/written.go:103-112 | verdicts that only clear a file's flag leave it cleared |
| `RecordStore.LastInserted` | internal/durability/written.go:136-140 | the last row given for an article is the one inserted |
| `RecordStore.ApplyBatchRow` | internal/durability/written.go:84-142 | an article holds the last row given for it, if the job has files, else what it held unless a verdict names it or all its file |
| `RecordStore.LastDecisionWins` | internal/durability/written.go:103-112 | the last verdict that sets or clears a flag decides it |
| `RecordStore.ApplyBatchFile` | internal/durability/written.go:96-112 | a file has the name and policy given, else its own, and the flag of the last verdict to decide it, else that of the state; none is created |
| `Recorder.KeepRowsMembers` | internal/app/record.go:474-480 | a filter keeps exactly the rows it names |
| `Recorder.KeepRowsAscending` | internal/app/record.go:366-376 | a filter keeps note order |
| `Recorder.OwedVerdictsExact` | internal/app/record.go:322-335 | a flush's verdicts are exactly one delete-all per debt, clearing complete only for files with no state in the batch |
| `Recorder.FlushDeletes` | internal/app/record.go:322-335 | a flush's transaction deletes the stored rows of exactly the files it owes |
| `Recorder.FlushFileEffect` | internal/app/record.go:326-335 | after a flush a file's state is the batch's, else the stored one, its flag cleared if the file was owed |
| `Recorder.FlushBatchApplicable` | internal/durability/written.go:85-88 | the store never refuses a flush's batch for setting and clearing complete at once |
| `ArticleRecorder.TakeChecked` | internal/app/record.go:173-204 | checked entries leave the map, current ones are handed out, unchecked ones stay |
| `ArticleRecorder.RestoreStates` | internal/app/record.go:377-391 | a failed snapshot's states come back unless overrun or replaced by a newer one |
| `ArticleRecorder.ArticleRecorder.NoteWritten` | internal/app/record.go:90-93 | the row is last in its instance's buffer; no other instance changes |
| `ArticleRecorder.ArticleRecorder.MarkDirty` | internal/app/record.go:107-117 | the state replaces the file's buffered one; no other instance changes |
| `ArticleRecorder.ArticleRecorder.Buffered` | internal/app/record.go:145-164 | the jobs to check are those with anything buffered or owed; any other has nothing |
| `ArticleRecorder.ArticleRecorder.TakeRows` | internal/app/record.go:175-188 | rows of checked jobs leave, those of current instances are returned |
| `ArticleRecorder.ArticleRecorder.TakeFiles` | internal/app/record.go:191-204 | the same for file states |
| `ArticleRecorder.ArticleRecorder.CopyDebts` | internal/app/record.go:213-227 | debts of current instances are copied and stay owed; those of gone ones are dropped |
| `ArticleRecorder.ArticleRecorder.TakeSnapshot` | internal/app/record.go:295-302 | one span takes rows, states and debts of every instance by the same answer |
| `ArticleRecorder.ArticleRecorder.SettleLocked` | internal/app/record.go:232-240 | a debt is cleared only by its own number |
| `ArticleRecorder.ArticleRecorder.SettleJob` | internal/app/record.go:246-250 | one job's carried debts are settled, each only if still the one carried |
| `ArticleRecorder.ArticleRecorder.Settle` | internal/app/record.go:243-251 | the same for every job of a write |
| `ArticleRecorder.ArticleRecorder.RemergeRows` | internal/app/record.go:366-376 | one job's snapshot rows not overrun go in front of what arrived since |
| `ArticleRecorder.ArticleRecorder.RemergeFiles` | internal/app/record.go:377-391 | one job's snapshot states not overrun come back where none is newer |
| `ArticleRecorder.ArticleRecorder.RemergeAllRows` | internal/app/record.go:366-376 | the same for the rows of every job of the snapshot |
| `ArticleRecorder.ArticleRecorder.RemergeAllFiles` | internal/app/record.go:377-391 | the same for the file states of every job of it |
| `ArticleRecorder.ArticleRecorder.RemergeAll` | internal/app/record.go:362-392 | one span puts a failed snapshot back for every job, and changes no other |
| `ArticleRecorder.ArticleRecorder.PurgeBeforeApply` | internal/app/record.go:410-422 | apply's span: its verdicts' purges in order, then the states it replaces |
| `ArticleRecorder.ArticleRecorder.PurgeLocked` | internal/app/record.go:468-498 | what one verdict removes or changes in an instance's buffers, and nothing else |
| `ArticleRecorder.ArticleRecorder.DisownFile` | internal/app/record.go:443-453 | the file is purged and its delete owed under a new number |
| `ArticleRecorder.BatchFor` | internal/app/record.go:304-335 | the loop builds the specified batch |
| `ArticleRecorder.VerdictList` | internal/app/record.go:322-335 | the sorted loop over debts builds the specified verdicts |
| `RecorderInvariant.PurgeAllRows` | internal/app/record.go:410-413 | an apply's purges remove exactly the pending rows its verdicts delete, keep the order, and touch no debt |
| `RecorderInvariant.PurgeAllFiles` | internal/app/record.go:487-497 | a purge changes only files its verdicts touch |
| `RecorderInvariant.FlushRowEffect` | internal/app/record.go:295-352 | what a key holds after a flush commits |
| `RecorderInvariant.FlushedRow` | internal/app/record.go:295-352 | each snapshot row is stored by the commit, or a later row of its article is |
| `RecorderInvariant.DeleteKeepsState` | internal/app/record.go:459-461 | an untrust's own delete changes no file state but its own file's flag |
| `RecorderInvariant.ApplyStores` | internal/app/record.go:423-423 | an apply's commit stores of a file the state given, or keeps the one stored, but for the flag |
| `RecorderInvariant.StepKeepsInv` | internal/app/record.go:90-498 | every step of every actor keeps the recorder's invariant |
| `RecorderTheorems.InitInv` | internal/app/record.go:69-80 | a registered instance starts in the invariant, whatever rows an earlier process stored |
| `RecorderTheorems.TraceKeepsInv` | internal/app/record.go:90-498 | so does every run |
| `RecorderTheorems.StaleRowIsOwed` | internal/app/record.go:426-466 | a stored row noted before its file's latest untrust is there only while that untrust's own number is owed |
| `RecorderTheorems.OwedRidesTheFlush` | internal/app/record.go:322-335 | a flush after an untrust deletes the file's rows before inserting, and commits only rows and complete states newer than it |
| `RecorderTheorems.RowInExactlyOnePlace` | internal/app/record.go:282-392 | a noted row not disowned is in exactly one of buffer, snapshot in flight and store, once |
| `RecorderTheorems.NewestRowWins` | internal/app/record.go:354-392 | after any failed flushes the newest standing row of an article is the one stored |
| `RecorderTheorems.NewestStateWins` | internal/app/record.go:354-424 | after any failed flushes the newest state of a file, marked or applied, with the flag any verdict since gave it, is the one stored |
| `RecorderTheorems.AppliedStateIsTheNewest` | internal/app/record.go:394-424 | a committed apply's state is stored and is the file's newest, unless a newer one is buffered or an untrust disowned it meanwhile |
| `RecorderTheorems.VerdictRewritesTheNewest` | internal/app/record.go:487-494 | a verdict that sets or clears a buffered state's flag changes that alone, and the result is the file's newest |
| `RecorderTheorems.LateDeleteKeepsState` | internal/app/record.go:455-466 | an untrust's late delete leaves a newer state exactly when it is still buffered or does not say complete |
| `RecorderTheorems.LateDeleteCanClear` | internal/app/record.go:443-466 | a run in which it clears the flag of a newer flushed state |
| `RecorderTheorems.UntrustDeletesOnlyEarlierRows` | internal/app/record.go:253-260 | no untrust's delete reaches a row noted after the untrust began |
| `RecorderTheorems.StateNeverOutrunsItsRows` | internal/app/record.go:275-281 | a commit that stores a file's state stores every standing row noted before it was marked |
| `RecorderOutcomes.ApplyCommits` | internal/app/record.go:404-424 | an apply can commit exactly when no verdict sets and clears at once; then the store is what it was less what the verdicts name, with the states and flags given, whatever happened meanwhile; if it fails, what it was |
| `RecorderOutcomes.StandsStep` | internal/app/record.go:443-498 | a call disowns a row exactly if it is an untrust of its file or an apply with a verdict naming it |
| `RecorderOutcomes.StandsUntilDisowned` | internal/app/record.go:443-498 | a row stands until such a call |
| `RecorderOutcomes.BufferedRowsStand` | internal/app/record.go:362-392 | no disowned row is ever buffered, so none reaches a later flush |
| `RecorderOutcomes.NotedArticleIsStored` | internal/app/record.go:90-93 | an article noted, and not noted again or disowned, is stored as noted once nothing of it waits, across any failed flushes |
| `RecorderOutcomes.MarkedStateIsStored` | internal/app/record.go:107-117 | a state marked, and not marked over, untrusted or applied to, is stored as marked once nothing of it waits, across any failed flushes |
| `RecorderOutcomes.AppliedStateStays` | internal/app/record.go:404-424 | the state an apply gives replaces a buffered one for good |
| `RecorderOutcomes.UntrustedRowIsOwed` | internal/app/record.go:443-466 | after an untrust and until the next, a row noted before it is stored only while that untrust's own number is owed |
| `RecorderOutcomes.RemergeUndoesTheTake` | internal/app/record.go:295-392 | a remerge undoes its snapshot exactly |
| `RecorderOutcomes.FailedFlushRestores` | internal/app/record.go:282-352 | a flush that fails with nothing else happening changes nothing |
| `RecorderOutcomes.FlushEmpties` | internal/app/record.go:295-352 | a flush that succeeds with nothing else happening leaves nothing buffered or owed, every standing row and newest state stored, and no stored row older than its file's latest untrust |
| `RecorderOutcomes.DeleteClears` | internal/app/record.go:459-461 | an untrust's own delete removes exactly its file's rows and clears its flag |
| `RecorderOutcomes.UntrustClearsTheFile` | internal/app/record.go:455-466 | an untrust whose delete commits leaves no row of the file, its flag clear and nothing owed |
| `RecorderOutcomes.UntrustMayLeaveItsDebt` | internal/app/record.go:455-461 | one that gives up or fails leaves its debt and the store |
| `Transitions.JobTransitions.BeginFinalize` | internal/app/transition.go:98-104 | counts one finalizer of the ID and no other |
| `Transitions.JobTransitions.EndFinalize` | internal/app/transition.go:105-112 | uncounts it; an ID is present only while counted |
| `Transitions.JobTransitions.MarkRemoved` | internal/app/transition.go:124-135 | the instance is marked; no mark is withdrawn |
| `Transitions.JobTransitions.TryAcquire` | internal/app/transition.go:166-179 | claims exactly the asked IDs nobody holds and no finalizer commits; live claims stay disjoint and own every held ID |
| `Transitions.JobTransitions.Claimable` | internal/app/transition.go:170-177 | the loop finds exactly those IDs |
| `Transitions.JobTransitions.ClaimForRetry` | internal/app/app.go:2795-2800 | a retry goes on exactly when nobody holds its ID and no finalizer commits it |
| `Transitions.JobTransitions.Claim` | internal/app/transition.go:199-203 | claims the ID exactly when nobody holds it |
| `Transitions.JobTransitions.Release` | internal/app/transition.go:208-218 | frees exactly the claim's IDs, or panics on a second release |
| `TransitionProtocol.OverKept` | internal/app/transition.go:33-54 | an instance that is marked or finalized, with no finalizer past its mark check, stays so |
| `TransitionProtocol.RetriesKept` | internal/app/app.go:2790-2822 | a retry that passed its two checks leaves every earlier instance over |
| `TransitionProtocol.StepKeepsInv` | internal/app/job_finalizer.go:311-464 | every step of finalizers, RemoveJob, retry and eviction keeps the invariant |
| `TransitionProtocol.NoByIdStepBesideARetry` | internal/app/transition.go:22-54 | while a retry is past its checks no by-ID step of a removal or an earlier instance's finalizer can happen, with or without the lock |
| `TransitionProtocol.FinalizerActsOnItsOwn` | internal/app/job_finalizer.go:341-464 | a finalizer acts by ID only for the ID's latest instance |
| `TransitionProtocol.RetryRegisters` | internal/app/app.go:2813-2822 | a retry that reaches its registration finds the ID free |
| `TransitionProtocol.BypassIsReachable` | internal/app/transition.go:22-24 | a finalizer really can run beside a lock holder |
| `TransitionOutcomes.RetryChecksAnswer` | internal/app/app.go:2795-2822 | a retry gets its claim, and passes its finalizing check, exactly when every finalizer begun is done (and nobody holds the lock), and its registration check exactly when no instance is registered |
| `TransitionOutcomes.FinalizerSteps` | internal/app/job_finalizer.go:335-464 | a finalizer goes on exactly when its instance is not marked, is then never stopped by a later one, files its run, unregisters its instance alone, and notes a failed removal exactly when the job is still there |
| `TransitionOutcomes.RemovalSteps` | internal/app/app.go:893-966 | a removal finds what is registered, marks and cancels it, and if the dispatcher lets go leaves none |
| `TransitionOutcomes.FailedRemoval` | internal/app/app.go:957-966 | a failed one frees the lock, keeps the mark and leaves the instance cancelled |
| `TransitionOutcomes.CancelledCanBeEvicted` | internal/app/transition.go:33-39 | the dispatcher evicts exactly a cancelled instance |
| `TransitionOutcomes.RemovalMarksFirst` | internal/app/app.go:911-949 | the mark is set before the cancel and the removal, and nothing is registered at the reclaim |
| `TransitionOutcomes.FiledExactlyOnce` | internal/app/job_finalizer.go:341-464 | no run is filed twice, and one whose finalizer is done was filed unless a removal marked it |
| `TransitionOutcomes.FinalizerCanFinish` | internal/app/transition.go:22-31 | a finalizer begun can always end by its own steps, whoever holds the lock |
| `TransitionOutcomes.RetryCanRegister` | internal/app/app.go:2790-2822 | with the lock free, nothing registered and every finalizer done, a retry registers a new instance |
| `TransitionOutcomes.ARetryRegisters` | internal/app/app.go:2790-2822 | a run in which an instance is finalized and filed and a retry registers the next |
| `TransitionOutcomes.RemovalCanFinish` | internal/app/app.go:893-966 | a removal under way can always end, with nothing registered and what it found marked |
| `Admissions.BeginAssessRec` | internal/app/postproc_admission.go:217-231 | the visit returned is current and owned |
| `Admissions.PostProcAdmissions.Admit` | internal/app/postproc_admission.go:282-307 | the in-place code acts on its instance as specified, and on no other |
| `Admissions.PostProcAdmissions.AdmitUnlessAssessing` | internal/app/postproc_admission.go:168-189 | the same, deferring to Assessing; a visit it makes has a new number |
| `Admissions.PostProcAdmissions.BeginAssess` | internal/app/postproc_admission.go:217-231 | the same; the number returned is the current visit's, and new unless it takes over a visit no worker owned |
| `Admissions.PostProcAdmissions.TakeDeferred` | internal/app/postproc_admission.go:235-245 | the same |
| `Admissions.PostProcAdmissions.EndAssess` | internal/app/postproc_admission.go:250-260 | the same |
| `Admissions.PostProcAdmissions.BeginWait` | internal/app/postproc_admission.go:312-321 | the same; the step's token is new |
| `Admissions.PostProcAdmissions.BeginHandOver` | internal/app/postproc_admission.go:334-344 | the same; the token is new and the FailMsg returned is the sealed one |
| `Admissions.PostProcAdmissions.EndStep` | internal/app/postproc_admission.go:350-357 | closes the token only while it is the current step's |
| `Admissions.PostProcAdmissions.Withdraw` | internal/app/postproc_admission.go:363-376 | closes the removed channel and gives the step to wait for |
| `Admissions.PostProcAdmissions.CloseAndTakeNotes` | internal/app/postproc_admission.go:385-394 | returns the notes and closes them; what they are is NotesAreHandedOut's |
| `Admissions.PostProcAdmissions.Release` | internal/app/postproc_admission.go:448-463 | ends the admission and the step in progress |
| `AdmissionRuns.AdmittedAtMostOnce` | internal/app/postproc_admission.go:282-307 | over any sequence of calls an instance is admitted at most once |
| `AdmissionRuns.FailMsgIsTheFirstReason` | internal/app/postproc_admission.go:282-307 | the FailMsg is the first non-empty reason before the seal; notes are distinct, non-empty and not the FailMsg |
| `AdmissionRuns.NoReasonIsLost` | internal/app/postproc_admission.go:147-189 | every non-empty reason is the FailMsg, a note, deferred, or answered as ended |
| `AdmissionRuns.FailMsgNeverChanges` | internal/app/postproc_admission.go:334-344 | once set or sealed the FailMsg never changes and no note is taken back |
| `AdmissionRuns.DeferredHandedOutOnce` | internal/app/postproc_admission.go:217-260 | what was handed out, then what waits, is what was deferred, in order |
| `AdmissionRuns.ReplacedVisitHandsOutNothing` | internal/app/postproc_admission.go:250-260 | a visit replaced or ended hands out nothing ever after |
| `AdmissionRuns.NewVisitInherits` | internal/app/runner.go:141-226 | a new visit inherits what waits, and its worker's take or end hands out all of it |
| `AdmissionRuns.CallEffect` | internal/app/postproc_admission.go:147-463 | what each call makes of the admission, by what it answered |
| `AdmissionAnswers.AnswerIsTheHistorys` | internal/app/postproc_admission.go:282-307 | the outcome of every reason offered is the one the history of calls alone determines |
| `AdmissionAnswers.DeferredExactlyWhen` | internal/app/postproc_admission.go:168-210 | a reason is deferred exactly if the instance was never admitted or ended and is open and at Assessing, due there, or complete at Fetching with nothing due |
| `AdmissionAnswers.NotesAreHandedOut` | internal/app/postproc_admission.go:385-394 | what closeAndTakeNotes gave is every reason ever answered as noted, in order |
| `AdmissionAnswers.SealedMessageIsTheFirst` | internal/app/postproc_admission.go:334-344 | what beginHandOver gave is the first non-empty reason before it, for good |
| `AdmissionAnswers.StepsBeginExactlyWhen` | internal/app/postproc_admission.go:312-344 | a wait begins exactly for an instance admitted and not ended, a hand-over if it is also not marked |
| `AdmissionProtocol.WithdrawReturnsAfterTheStep` | internal/app/postproc_admission.go:323-380 | once a withdraw returned, the step it found is over and no hand-over is in progress |
| `AdmissionProtocol.MarkedIsTurnedAway` | internal/app/app.go:2565-2576 | from the mark on no hand-over begins |
| `AdmissionProtocol.MarkedIsNeverHandedOver` | internal/app/app.go:911-928 | a job marked before its hand-over is never handed over in any continuation |
| `AdmissionProtocol.TokensClosedOnce` | internal/app/app.go:2550-2645 | no token is closed twice or replaced while open |
| `AdmissionProtocol.WithdrawWaitsForALiveStep` | internal/app/postproc_admission.go:359-380 | a withdraw waits only for a step the enqueue is still in |
| `AdmissionProtocol.HandOverBeginsUnlessMarked` | internal/app/app.go:2565-2597 | a due hand-over begins exactly when the job is not marked, and gives the post-processor the job |
| `AdmissionProtocol.WithdrawFindsTheOpenStep` | internal/app/postproc_admission.go:363-376 | a withdraw finds exactly the step the enqueue is in |
| `AdmissionProtocol.WithdrawCanReturn` | internal/app/postproc_admission.go:359-380 | a waiting withdraw can always come back, by the enqueue's own next steps |
| `AdmissionProtocol.AJobIsHandedOver` | internal/app/app.go:2550-2597 | a run in which a job is handed over and released |
| `AdmissionProtocol.ARemovedJobIsTurnedAway` | internal/app/app.go:2565-2576 | a run in which one removed during its wait is turned away |
| `ResolveRows.KeptIsGreedy` | internal/app/verify.go:310-333 | kept rows match and are pairwise disjoint; every matching row is kept or meets a kept one before it |
| `ResolveRows.KeptIsUnique` | internal/app/verify.go:310-333 | any choice by that rule is the same choice |
| `ResolveRows.IntersectsSharesAByte` | internal/app/verify.go:350-352 | rows of bytes intersect exactly when some byte is in both; rows that touch do not |
| `ResolveRows.ResolvedInBytes` | internal/app/verify.go:310-348 | no byte is in two kept rows; a matching row not kept shares a byte with a kept one before it; a row is failed exactly if not kept and sharing a byte with a kept one |
| `ResolveRows.LoneMatchIsKept` | internal/app/verify.go:324-333 | a matching row whose bytes no other matching row has is kept |
| `ResolveRows.SelectPartitions` | internal/app/verify.go:334-348 | kept and deleted rows partition the input |
| `ResolveRows.SelectMember` | internal/app/verify.go:324-348 | a selection holds exactly the flagged rows |
| `ResolveRows.BelowNearestIsApart` | internal/app/verify.go:315-317 | a row meets no kept row below it but the nearest |
| `ResolveRows.TwoNeighboursSuffice` | internal/app/verify.go:340-341 | a non-kept row meets some kept row exactly when it meets the nearest on one side |
| `ResolveRows.LastBelowDecides` | internal/app/verify.go:328-330 | of the kept rows below a row only the last can meet it |
| `ResolveRows.LastKeptSuffices` | internal/app/verify.go:328-330 | testing the last kept row decides whether a row is kept |
| `ResolveRows.KeepRows` | internal/app/verify.go:322-333 | the greedy loop computes the reference choice |
| `ResolveRows.Resolve` | internal/app/verify.go:321-348 | verified, failed and deleted are the kept, the hit and the dropped rows; verified rows matched and share no byte, and a lone match is verified |
| `VerifyFiles.RowsOfInOrder` | internal/app/verify.go:212-222 | a file's rows are exactly its recorded ones, each as often, by offset and then article |
| `VerifyFiles.ReadbackPartitions` | internal/app/verify.go:273-307 | each row of a read-back file is verified or deleted, once, and failed ones are deleted |
| `VerifyFiles.VerifiedIsSound` | internal/app/verify.go:286-306 | a verified row matched on the device, or is empty with CRC 0 |
| `VerifyFiles.DeviceDecides` | internal/app/verify.go:236-296 | which device answers give up the whole file, which fault, and which leave rows to be judged |
| `VerifyFiles.MatchingRowIsVerified` | internal/app/verify.go:273-307 | a row of bytes that matches and shares none with another match is verified, from offset 0 on |
| `VerifyFiles.EmptyAndInvalidRows` | internal/app/verify.go:276-306 | a row of no bytes is verified exactly with CRC 0; a negative offset or length, or a mismatch, never |
| `VerifyFiles.CompleteExactlyWhen` | internal/app/verify.go:173-190 | a read-back file is set complete exactly if fetched always, not complete, with articles, each verified or, except on a retry, failed |
| `VerifyFiles.ReadBackIsPartitioned` | internal/app/verify.go:236-308 | whatever the device answers, a read-back partitions the file's rows, and its verified rows are sound |
| `VerifyFiles.ReadRows` | internal/app/verify.go:286-296 | faults exactly when a row is unreadable before the context stops it; otherwise the matches |
| `VerifyFiles.Classify` | internal/app/verify.go:273-285 | readable, empty and invalid rows, in order |
| `VerifyFiles.JudgeEmpty` | internal/app/verify.go:299-306 | empty rows are judged by CRC 0 alone |
| `VerifyFiles.ReadBackFile` | internal/app/verify.go:236-308 | a fault, everything deleted, or the resolved read-back, as the device answers |
| `VerifyFiles.FileFinishable` | internal/app/verify.go:499-516 | true exactly for an incomplete FetchAlways file with articles, all resolved |
| `VerifyFiles.FinishIfResolved` | internal/app/verify.go:173-204 | finishes exactly such a file; cuts only one at its preallocated size, cuts no verified byte, and leaves none past the last |
| `VerifyFiles.MaxEnd` | internal/app/verify.go:194-199 | the largest end of a non-empty verified row, or 0 |
| `VerifyFiles.VerifyFile` | internal/app/verify.go:128-157 | one file's outcome and size are established, or it faults exactly when it should, and cuts no verified byte either way |
| `VerifyFiles.AddedReads` | internal/app/verify.go:140-157 | a file's outcome reads back from the result, and no other file's changes |
| `VerifyFiles.AddFile` | internal/app/verify.go:114-158 | one turn of the loop establishes its file and its size, and leaves the others |
| `VerifyFiles.VerifyJobFiles` | internal/app/verify.go:106-160 | every file's verdict and verified and failed rows are those the device's answers determine, a partition of its rows, and set complete exactly when finishable; or a fault is returned, exactly when some file faults; and no file of the pass, faulted or not, loses a verified byte |
| `OwnedRanges.SeedIsCanonical` | internal/assembler/ranges.go:105-129 | two seeds that own the same bytes are the same list, so input order does not matter |
| `OwnedRanges.CoveredStep` | internal/assembler/ranges.go:55-59 | one more range adds exactly its overlap |
| `OwnedRanges.FirstEndingAfter` | internal/assembler/ranges.go:41-41 | the binary search finds the first range ending after the offset |
| `OwnedRanges.OwnerOf` | internal/assembler/ranges.go:40-48 | finds an owner exactly when some byte of the range is owned, and an intersecting one |
| `OwnedRanges.Covered` | internal/assembler/ranges.go:52-61 | the exact number of owned bytes in the range |
| `OwnedRanges.MaxEnd` | internal/assembler/ranges.go:91-96 | the largest owned end, or 0 |
| `OwnedRanges.InsertedKeeps` | internal/assembler/ranges.go:80-85 | inserting where the search stopped keeps the set sorted and disjoint and adds exactly the range |
| `OwnedRanges.Ranges.Claim` | internal/assembler/ranges.go:76-86 | panics exactly when a byte is owned, changing nothing; else adds exactly the range |
| `OwnedRanges.Ranges.Seed` | internal/assembler/ranges.go:113-129 | refused on a non-empty set; else owns exactly the bytes of its inputs, with gaps between ranges |
| `OwnedRanges.SortRanges` | internal/assembler/ranges.go:117-118 | the non-empty ranges by offset, owning the same bytes |
| `OwnedRanges.MergeStep` | internal/assembler/ranges.go:119-127 | merging in the next range adds exactly its bytes and keeps the form |
| `FileWriter.PartsIsTheSizeOfTheUnion` | internal/assembler/filewriter.go:201-300 | over every sequence of admit and resolve the part count is the number of articles done or failed |
| `FileWriter.RollbackRestores` | internal/assembler/filewriter.go:228-300 | admit then RolledBack restores the accounting exactly |
| `FileWriter.ResolvedOnce` | internal/assembler/filewriter.go:264-266 | a second disposition of a rejected or rolled-back article panics |
| `FileWriter.Writer.AdmitArticle` | internal/assembler/filewriter.go:228-237 | updates the accounting as specified |
| `FileWriter.Writer.ResolveArticle` | internal/assembler/filewriter.go:261-300 | the same, panicking exactly on an article not admitted |
| `FileWriter.Writer.AcceptArticle` | internal/assembler/assembler.go:1723-1761 | a write lands only where nothing is owned, so claim never meets an intersection; an overlap reports its uncovered bytes |
| `FileWriter.Writer.HandleSuccess` | internal/assembler/assembler.go:1658-1679 | a duplicate, out of range, overlapping, faulted or written exactly when it should be, with exactly that accounting; every range not seeded keeps its owner in seenDone |
| `FileWriter.Writer.HandleFatal` | internal/assembler/assembler.go:1639-1646 | a failed fetch charges a part only to an article that holds none |
| `Pipeline.InFlightIsUnfinished` | internal/app/pipeline.go:198-300 | the WaitGroup's count is the results taken for the work queue and not finished |
| `Pipeline.HandledExactlyOnce` | internal/app/pipeline.go:198-300 | each result taken is, exactly once, under way, handled, or released at exit |
| `Pipeline.SwapIsQuiescence` | internal/app/pipeline.go:302-324 | a swap about to be acknowledged without cancellation has everything taken handled and nothing in flight |
| `Pipeline.AcknowledgedSwapIsQuiescence` | internal/app/pipeline.go:226-347 | from such an acknowledgement on, all a downloader stopped before the swap ever put into the channel last given has been handled, whether the swap drained it or the loop had read it to its close first |
| `Pipeline.SwapBeginsFromTheSource` | internal/app/pipeline.go:226-284 | a swap drains the channel last given, unless that one is stopped, empty and already read to its close |
| `Pipeline.SwapInstallsItsChannel` | internal/app/pipeline.go:276-298 | from a completed swap to the next, the pipeline reads exactly the channel asked for until its close, and an idle loop takes the result waiting there |
| `Pipeline.WorkersCanFinish` | internal/app/pipeline.go:207-214 | the workers alone can finish everything handed to them |
| `Pipeline.SwapCanComplete` | internal/app/pipeline.go:226-277 | with a worker and room on the queue, a swap under way can always be completed and acknowledged |
| `Pipeline.ResultCanBeHandled` | internal/app/pipeline.go:278-298 | the first result waiting can always be taken and handled |
| `Pipeline.ChannelSteps` | internal/app/pipeline.go:278-285 | a channel keeps what is put in order until stopped; the loop finds its end exactly when it is closed and empty, and leaves it |
| `Pipeline.LoopCanExit` | internal/app/pipeline.go:222-300 | once the context has ended the loop can always exit |
| `Residency.Claims.TryHydrate` | internal/app/residency.go:121-140 | takes the claim exactly when free and not resident, with its cancel in the same span |
| `Residency.Claims.EndHydrate` | internal/app/residency.go:145-150 | drops claim and cancel together |
| `Residency.Claims.EvictLook` | internal/app/residency.go:394-401 | finds a claim and a cancel together or neither |
| `Residency.OneHydrationAtATime` | internal/app/residency.go:53-65 | at most one hydration of an ID runs, the one whose claim and cancel are held |
| `Residency.EvictCancelsTheHolder` | internal/app/residency.go:53-65 | a cancel is registered exactly while a hydration holds the claim, and is that hydration's |
| `Residency.DropsOnlyWhenQuiet` | internal/app/residency.go:390-411 | Evict drops the manifest only with no hydration in flight |
| `Residency.EvictWaitsForTheOneItCancelled` | internal/app/residency.go:394-404 | an Evict still waiting waits for a hydration it has cancelled and that can end |
| `Residency.EveryEndWakesEveryEvict` | internal/keyedlatch/latch.go:43-50 | the end of any hydration wakes every waiting Evict |
| `Residency.HydrateAnswers` | internal/app/residency.go:121-143 | an attempt blocks exactly while a hydration is in flight, else returns if resident and starts one if not |
| `Residency.EvictAnswers` | internal/app/residency.go:390-411 | an Evict's turn drops the manifest exactly when none is in flight, else cancels it and waits for it |
| `Residency.HydrationAttaches` | internal/app/residency.go:145-150 | a hydration can attach, and its end frees the ID |
| `Residency.DroppedStaysDropped` | internal/app/residency.go:406-410 | a dropped manifest stays so until attached again |
| `Residency.EvictCanDrop` | internal/app/residency.go:390-411 | an Evict begun can always come back with the manifest dropped |
| `Residency.AHydrationIsEvicted` | internal/app/residency.go:390-411 | a run in which an Evict cancels a hydration, waits for it and drops the manifest |
| `DiskProbe.ProbeState.ProbeDone` | internal/assembler/diskprobe.go:238-245 | a probe's end writes its reading and clears pending |
| `DiskProbe.Cache.NoteWritten` | internal/assembler/diskprobe.go:112-119 | adds the bytes, none for a note of nothing or less |
| `DiskProbe.Cache.EvictStaleLocked` | internal/assembler/diskprobe.go:214-231 | removes exactly the entries idle past both thresholds |
| `DiskProbe.Cache.DropStale` | internal/assembler/diskprobe.go:222-230 | its loop leaves exactly the entries that are not stale, the same objects |
| `DiskProbe.Cache.Add` | internal/assembler/diskprobe.go:185-186 | a new directory gets an entry of its own |
| `DiskProbe.Cache.Look` | internal/assembler/diskprobe.go:182-187 | get-or-create, sweeping only for a new directory |
| `DiskProbe.Cache.Launch` | internal/assembler/diskprobe.go:194-199 | marks the entry pending under a new probe, from the current total |
| `DiskProbe.Cache.Claim` | internal/assembler/diskprobe.go:178-201 | answers from the cache exactly when fresh; otherwise the entry has a probe in flight, with a new number exactly if none was; entries kept are the same objects |
| `DiskProbeRuns.StepKeepsInv` | internal/assembler/diskprobe.go:178-245 | every step keeps the cache's invariant |
| `DiskProbeRuns.OneProbePerDirectory` | internal/assembler/diskprobe.go:26-36 | in every interleaving at most one statfs of a directory is outstanding, and it writes the entry the map holds |
| `DiskProbeRuns.EntryHoldsTheLastReading` | internal/assembler/diskprobe.go:61-64 | an entry with no probe in flight holds the directory's last reading |
| `DiskProbeRuns.HitExactlyWhen` | internal/assembler/diskprobe.go:191-193 | a caller is answered from the cache exactly when the directory's last probe returned less than the TTL ago and its entry is still there |
| `DiskProbeRuns.ClaimAnswersOrProbes` | internal/assembler/diskprobe.go:178-201 | any other claim leaves exactly one probe in flight, a new one exactly if there was none |
| `DiskProbeRuns.EvictsExactlyTheStale` | internal/assembler/diskprobe.go:203-231 | a claim for a new directory evicts exactly the entries whose last probe returned longer ago than both the TTL and the eviction window; every other stays the same object |
| `DiskProbeRuns.EstimateSubtracts` | internal/assembler/diskprobe.go:66-87 | an estimate subtracts exactly the bytes noted since the entry's last launch |
| `DiskProbeRuns.HitIsExact` | internal/assembler/diskprobe.go:81-87 | a hit returns the last reading less every byte noted since its probe's launch, floored at zero |
| `DiskProbeRuns.WaiterReadsExactlyWhen` | internal/assembler/diskprobe.go:148-153 | exactly when a waiter's read is that too, and that it is never lower |
| `DiskProbeRuns.WaiterCanReadTooMuch` | internal/assembler/diskprobe.go:148-153 | a run in which it is higher |
| `DiskProbeRuns.ClaimRefines` | internal/assembler/diskprobe.go:178-201 | the machine's claim changes the map's entries as the in-place claim does |
| `Meter.RecordAges` | internal/bpsmeter/meter.go:84-95 | each slot behind the head is at least that many seconds older |
| `Meter.OverwrittenIsOld` | internal/bpsmeter/meter.go:90-93 | a new second overwrites only what is a whole ring's span old |
| `Meter.WindowedTotalIsExact` | internal/bpsmeter/meter.go:133-143 | the windowed total is the bytes recorded since the last Flush in the window |
| `Meter.ShortRingLoses` | internal/bpsmeter/meter.go:55-55 | a ring that does not span the window loses a byte in a given run |
| `Meter.FaithfulExactlyWhen` | internal/bpsmeter/meter.go:55-55 | a ring is exact over all runs if and only if its slots span the window |
| `Meter.NewMeterIsFaithful` | internal/bpsmeter/meter.go:48-64 | the ring NewMeter makes does, one slot fewer would, and two fewer would only for whole seconds |
| `Meter.LifetimeIsEverything` | internal/bpsmeter/meter.go:94-123 | wrapping and Flush leave the lifetime total alone |
| `SpeedMeter.ServerState.Record` | internal/bpsmeter/meter.go:84-95 | the in-place update is the specified one |
| `SpeedMeter.ServerState.Flush` | internal/bpsmeter/meter.go:118-121 | every bucket is zeroed, the lifetime kept |
| `SpeedMeter.ServerState.WindowTotal` | internal/bpsmeter/meter.go:133-141 | the loop computes the windowed total |
| `SpeedMeter.EachServerRunsAlone` | internal/bpsmeter/meter.go:97-123 | each server's ring is what its own records and the flushes make of a new ring; the empty name's sees all |
| `SpeedMeter.MeterIsExact` | internal/bpsmeter/meter.go:97-168 | in every run each server's windowed and lifetime totals are the history's |
| `SpeedMeter.SpeedMeter.GetOrCreate` | internal/bpsmeter/meter.go:74-81 | a new server starts with a new ring |
| `SpeedMeter.SpeedMeter.Record` | internal/bpsmeter/meter.go:99-108 | records in the server's ring and the aggregate, and no other; objects it adds are new |
| `SpeedMeter.SpeedMeter.Flush` | internal/bpsmeter/meter.go:114-123 | flushes every server's ring, and adds or drops none |
| `SpeedMeter.SpeedMeter.WindowTotal` | internal/bpsmeter/meter.go:147-156 | the server's windowed total, none for one never met |
| `SpeedMeter.SpeedMeter.LifetimeTotal` | internal/bpsmeter/meter.go:159-168 | the server's lifetime total, none for one never met |
| `SpeedMeter.SpeedMeter.Step` | internal/bpsmeter/meter.go:97-123 | one recorded call in place is one step of the run over values |
| `SpeedMeter.SpeedMeter.ReplayInPlace` | internal/bpsmeter/meter.go:97-123 | any run of calls in place leaves what the run over values gives, so the theorems hold of the in-place meter |
| `LineStreamer.TrimRight` | internal/cmdutil/linestreamer.go:72-72 | the longest prefix not ending in a carriage return or newline |
| `LineStreamer.StreamIsItsLines` | internal/cmdutil/linestreamer.go:62-76 | however a stream is written as terminated lines and a rest, those lines are emitted stripped and the rest buffered |
| `LineStreamer.EveryStreamSplits` | internal/cmdutil/linestreamer.go:62-76 | every stream can be written so |
| `LineStreamer.OneWayToSplit` | internal/cmdutil/linestreamer.go:62-76 | in one way only |
| `LineStreamer.FullIsAPrefix` | internal/cmdutil/linestreamer.go:46-60 | the output kept is all of the stream, its first cap bytes, or nothing for a negative cap |
| `LineStreamer.ChunkingIsInvisible` | internal/cmdutil/linestreamer.go:40-94 | lines, partial line and output depend on the bytes and flushes alone, not on the writes they came in |
| `LineStreamer.LinesOfTheStream` | internal/cmdutil/linestreamer.go:40-94 | for any cutting into writes the emitted lines are the stream's; a flush adds its unterminated rest unless empty |
| `LineStreamer.Streamer.ReadString` | internal/cmdutil/linestreamer.go:65-65 | takes the bytes through the first newline, or all of them |
| `LineStreamer.Streamer.Accumulate` | internal/cmdutil/linestreamer.go:46-60 | the cap's branches |
| `LineStreamer.Streamer.Dispatch` | internal/cmdutil/linestreamer.go:64-76 | the loop emits what reading the buffer a byte at a time would |
| `LineStreamer.Streamer.Write` | internal/cmdutil/linestreamer.go:40-79 | a write acts as its bytes one at a time |
| `LineStreamer.Streamer.Flush` | internal/cmdutil/linestreamer.go:84-94 | emits the stripped partial line unless empty |
| `LineStreamer.ReplayInPlace` | internal/cmdutil/linestreamer.go:40-94 | any run of calls in place leaves what the run over values gives, with exactly its lines handed to the callback |

## Left out

- The HTTP API, authentication, WebSocket, CLI and UI: per-branch plumbing that would add easy members only.
- SQLite, files, fsync, CRC and truncate themselves: a transaction is atomic, a device answers arbitrarily, and a truncation leaves the smaller size.
- Integer widths: byte counts and offsets are unbounded, so int64 overflow of a range's end or a counter is not modelled.
- Wall-clock timeouts and context deadlines: a wait or a write may fail at any point.
- Weak pointers and collection of finished jobs (forgetEnded, forgetRemoved, forgetVisit): instances stay reachable during a run.
- Channels, pointers to visits and probes: they are numbers, each new one different from every earlier one (`Valid` of `PostProcAdmissions` and of `Cache`).
- `recorder.takeFetchPolicyChanges`: a state marked by a flush itself is a mark step just before its snapshot.
- The recorder's protocol follows one instance that stays registered; other instances appear through the shared untrust number, and per instance in the class.
- RecorderTheorems.NewestStateWins: a buffered state that an apply purges is no longer the file's newest even when the apply then fails, because the code keeps no copy of it.
- File states of a batch and verdicts of a verification are keyed by file, as each file occurs once; their order in the list is not modelled.
- `jobTransitions.acquire`: its wait loop is a step enabled when the ID is free, so fairness among waiters is not modelled.
- The pipeline's run loop, persistAndCommit, RemoveJob, the retry and the loops of Hydrate and Evict are steps of machines on values: each step's update in place, and the aliasing of the objects it holds, is not captured beyond the classes listed.
- Liveness: that a waiting RemoveJob, Evict or swap is eventually woken is shown as an enabled step, not as progress under a scheduler.
- The dispatcher, the retry's rebuild, retryLedger, notifications, DirectUnpack and the post-processing stages: only the calls the protocols make.
- `appRunner`: what it calls of the admission is covered by the runs over arbitrary call orders; its own dispatcher steps are not modelled.
- DiskProbe reads its clock once per span, where the sweep reads it once per entry.
- The meter's division of a total by the window (floating point) and Snapshot.
- Allocation and ownership of article buffers, and the unfinished bytes of a faulted write.
