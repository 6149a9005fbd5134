# Verification of grok-desktop's durable protocols

A Dafny model of the parts of grok-desktop that have to stay right when a process dies at
any await, when a store call takes effect although its caller sees an error, when several
threads or daemons interleave, or when bytes arrive in any chunking.

`dafny verify dfyconfig.toml` checks everything.

## How the model is laid out

* **Artifacts.** `Artifacts`, `ImportPlans`, `OpenPlans` and `RemovalPlans` hold the durable
  records, their transitions (over `Transitions`) and the check made on stored records.
  `ImportProtocol` and `OpenProtocol` are step systems in which every await is a step and every
  volatile part can vanish. `ImportProgress` says which steps of the former are open, and
  `OpenDaemon` is the latter as the daemon runs it. `OpenRecovery` is the bounded recovery of
  opens. `RemovalRows` and `RemovalHistory` are the removal store over time, and
  `RemovalService` the removal loops,
  which only ever extend such a history although every call may fail.
* **Automation scheduler.** `Schedule` holds decisions, windows and occurrences over an
  abstract ordered calendar, `Judgement` what they should be; `SchedulerTiling` the lease, the
  stale reads and the compared commits; `OverlapQueue` what may run and wait of one automation; `GuestDispatch` the
  dispatch of bound runs to the guest.
* **Windows VM service.** `PathRules` and `VmRecords` hold what may be stored, `Reconciliation`
  the decision taken for each record at start-up, `VmService` the service object with its
  fallible metadata file and hypervisor. `ChannelPool` is the channel pool at the granularity
  of its critical sections.
* **Credentials.** `CredentialVault` has the ordered vault writes, `CredentialProtocol` the
  concurrent tasks around them, proved by what each step guarantees to the others.
* **Updates.** `UpdateMachine` is the coordinator with its promises in flight,
  `UpdateCoordinator` the object whose methods are its steps, `VersionOrder` (over `Orders`)
  the precedence of versions.
* **Encodings and streams.** `Bytes`, `ScheduledPayload`, `Fingerprints`, `LineReader`,
  `StderrBuffer` and what may be read in it (`StderrPrivacy`), `LaunchLimiter`.
* `Runs` defines runs of a step system and the two induction principles used everywhere;
  `Text`, `Limits` and `Wrappers` are shared helpers.

A theorem about runs quantifies over every finite sequence of states that starts in an
initial state and moves by the module's `Next`. Nondeterministic choices in methods
(`x := *`) stand for the file system, the hypervisor, the vault, the network and the clock.
Ghost counters (`faults`, `troubles`) note which of these calls failed, so that contracts can
say that an operation fails only if one of them did.

Where the code and an expectation part, the model follows the code:

* The stderr buffer can place later text into the gap that a cut at a character boundary
  leaves (`StderrBuffer.KeepsLongestPrefixIff`, `StderrBuffer.SpliceHappens`).
* It looks for sensitive words before it drops control characters, so that a word broken by one is
  shown whole (`StderrPrivacy.ShownLineHoldsWordIff`, `StderrPrivacy.ControlCharactersHideAWord`).
* Version comparison returns early on numeric identifiers that spell one number, so that with
  leading zeros it is not a total preorder (`VersionOrder.UnorderedIffAlike`,
  `VersionOrder.LeadingZerosBreakTheOrder`), and it compares numbers as binary64 values, so that
  beyond 2^53 different versions can compare as equal (`VersionOrder.RoundingKeepsTheOrderIff`,
  `VersionOrder.LargeNumbersCompareAsEqual`).
* A failed persist in `AttachWorkspace` rolls the attachment back but keeps the new time stamp.
* Stores find an open journal by version and revision, not by command. That is safe as the daemon
  recovers, alone at start-up; a recovery that overlapped a live worker would let it dispatch
  another command's journal (`OpenProtocol.TransitionsGoHomeIff`,
  `OpenDaemon.OverlappingRecoveryCrossesJournals`).
* Recovery believes a run that another service has ended, so that an occurrence can be recorded as
  cancelled or succeeded although the guest was called or reported nothing
  (`GuestDispatch.EndedElsewhereIsBelieved`).
* The two stores recover a linked occurrence differently: the encrypted one always promotes what
  is queued behind it, the in-memory one only after a referral to review. In the latter a run
  that was cancelled, failed or completed on its own strands the queued occurrence for good
  (`OverlapQueue.MemoryRecoveryKeepsCardinalityIff`, `OverlapQueue.CancelledRunStrands`,
  `OverlapQueue.StrandedForGood`).

## Model

| member | source | states |
|---|---|---|
| `ImportPlans.RestorableIffReachable` | crates/grok-application/src/artifacts.rs:397-538 | `restore` accepts an import journal record exactly when some sequence of its own transitions, at non-decreasing times, reaches it from `prepared`. |
| `ImportPlans.TransitionsKeepRestorable` | crates/grok-application/src/artifacts.rs:471-538 | No sequence of transitions leads from an acceptable import record to one that `restore` would reject. |
| `ImportProtocol.ImportsOwnTheirBytes` | crates/grok-application/src/artifacts.rs:1186-1231 | Over every run of imports, crashes, timeouts, late workers and recoveries: staged bytes exist only under an incomplete journal, published bytes are the journalled digest under a content-ready journal or a committed unpurged version, a failed journal owns none, a committed one was published first, and the selected source is read at most once per command. |
| `ImportProtocol.TerminalImportsNeverChange` | crates/grok-application/src/artifacts.rs:2035-2044 | Once the journal of a command is terminal it stays the same for the rest of every run, so that every replay gives one answer. |
| `ImportProtocol.ImportsSayWhatHappened` | crates/grok-application/src/artifacts.rs:1631-1764 | Over every run a journal says what happened: its content is what staging reported, at most 64 MiB of it; a failure has the code of something that did happen to this import; what was staged beyond the limit is never content and fails, if it ends, as too large or as interrupted; what was staged within it fails as too large only if the publication reported that; and content that is ready is given up only for a failure that lasts. |
| `ImportProgress.ImportsCanGoOn` | crates/grok-application/src/artifacts.rs:1631-1849 | In every state of every run a worker can take the next step of its stage: what was staged can become content exactly if it has at most 64 MiB and a proper media type and is rejected exactly beyond that, publication can go on exactly if the bytes are there, an import is given up for missing bytes exactly if they are not, and a commit or a failure can be recorded at every time not before the journal's. |
| `ImportProtocol.StagingKeepsInv` | crates/grok-application/src/artifacts.rs:1631-1710 | Reading, staging, oversize and quota rejections keep byte ownership, including a staging worker that outlives its caller; what they record is stated by `ImportsSayWhatHappened`. |
| `ImportProtocol.PublicationKeepsInv` | crates/grok-application/src/artifacts.rs:1713-1764 | Publication keeps byte ownership whether it succeeds, fails with or without its effect, or ends after its caller gave up. |
| `ImportProtocol.CleanupKeepsInv` | crates/grok-application/src/artifacts.rs:1780-1849 | A failure is recorded only after the bytes it would orphan are gone. |
| `ImportProtocol.RecoveryTaskFits` | crates/grok-application/src/artifacts.rs:1540-1581 | A recovery pass may take up any incomplete journal that nobody works on without breaking what the journal promises. |
| `OpenPlans.RestorableIffReachable` | crates/grok-application/src/artifacts.rs:625-727 | `restore` accepts an open journal record exactly when its own transitions reach it from `prepared`. |
| `OpenDaemon.OpensAtMostOnce` | crates/grok-application/src/artifacts.rs:1917-1979 | Over every run of the daemon, with retries, crashes, lost answers and recovery in one pass at start-up before anybody works: the platform opener is called at most once per command and only after its own Dispatching was durable. All callers of a command are told one receipt, once its journal has ended, and it tells the truth: version and artifact are those of the command; Opened means that its one opener call returned success; Failed carries the code that call returned, or says that there was no call; everything else is left to review. |
| `OpenDaemon.WorkersTellWhatTheySaw` | crates/grok-application/src/artifacts.rs:1936-1978 | In every run of the daemon a worker whose last store call is answered tells its caller exactly what the opener told it: opened, the failure code, or unknown. |
| `OpenProtocol.AnswersGoToTheirCommand` | crates/grok-application/src/artifacts.rs:1284-1321 | No step gives a receipt of a command to anybody but a caller of that command who asks for its very version once the journal has ended, or the caller behind its worker. |
| `OpenDaemon.StepKeepsInv` | crates/grok-daemon/src/main.rs:860-874 | While recovery runs alone, a live worker always holds the present journal of its own command, and there is at most one. |
| `OpenDaemon.OverlappingRecoveryCrossesJournals` | crates/grok-memory/src/lib.rs:6664-6710 | A concrete run, for every version, in which recovery overlaps a live worker: the store lets the worker of a command that was failed as never dispatched mark the journal of a later command, and it calls the opener. |
| `OpenProtocol.TransitionsGoHomeIff` | crates/grok-sqlcipher/src/artifact_store.rs:1439-1485 | Over every run in which recoveries overlap as they like: what the store does for a worker it does to the journal of that worker's own command exactly if that journal is still incomplete. |
| `OpenProtocol.CallsStayBounded` | crates/grok-application/src/artifacts.rs:1917-1979 | Over every such run the worker of a command still calls the opener at most once, and Opened still implies that somebody's opener call on that very version returned success. |
| `OpenDaemon.ReceiptsNeverChange` | crates/grok-application/src/artifacts.rs:2101-2130 | Two answers to one open command, at any two moments of a run of the daemon and whatever was removed in between, are the same receipt; what it says is stated by `OpensAtMostOnce`. |
| `OpenProtocol.TerminalCommandsAreAnswered` | crates/grok-application/src/artifacts.rs:1279-1323 | Over every run in which artifacts gain versions and are removed: whenever a caller resolves a command whose journal had ended at any earlier moment, the answer names the version, the end and the failure of that journal, since resolving comes before the look at the artifact; and the version it names stays on record, so that the request is never turned away. |
| `OpenProtocol.IncompleteOpensHoldTheirArtifact` | crates/grok-memory/src/lib.rs:6272-6323 | Over every run at most one open is incomplete in the whole store; its exact version was published, and its artifact cannot be removed before the open ends. |
| `OpenProtocol.RemovedArtifactsAreNotOpened` | crates/grok-application/src/artifacts.rs:1288-1311 | Over every run a removed artifact is never available again, and no open of it that is not yet durable ever becomes so. |
| `OpenProtocol.OnlyTheTaskOpens` | crates/grok-application/src/artifacts.rs:1584-1629 | No step of recovery, of callers or of the store is ever a call of the opener; only the call step of a worker is, and it counts for that worker's command. |
| `OpenRecovery.OpenJournal.RecoverIncompleteOpens` | crates/grok-application/src/artifacts.rs:1584-1629 | The bounded pass succeeds exactly if its limit is in range and no store call reported an error. It fails journals that were only prepared, refers dispatching ones to review and touches no other, also when a store call takes effect although it reports an error; a pass that succeeds counts exactly what it changed and leaves none incomplete unless it says it was truncated. |
| `RemovalPlans.RetentionRestorableIffReachable` | crates/grok-application/src/artifacts.rs:161-225 | `restore` accepts a retention record exactly when some sequence of its own transitions, of any length and kind, reaches it from a newly retained version. |
| `RemovalPlans.RemovalRestorableIffReachable` | crates/grok-application/src/artifacts.rs:252-301 | `restore` accepts a removal journal record exactly when some sequence of its own transitions reaches it from a newly tombstoned artifact. |
| `RemovalHistory.RemovalsArePermanent` | crates/grok-application/src/artifacts.rs:1350-1391 | Over every run of the store and the private objects, from the moment a removal is reserved: the artifact stays the same Deleted tombstone without content under the same command, its versions stay those of the reservation, a purged version stays purged with its object absent, a committed removal stays committed, and committed means every version purged and no byte left. |
| `RemovalHistory.ReservationsHaveGrounds` | crates/grok-memory/src/lib.rs:6432-6516 | Whenever in any run a removal appears, no open was incomplete, no other removal pending and the artifact available; the content goes and exactly the versions it had are handed to the removal with their bytes still in place. |
| `RemovalHistory.NothingGoesBeforeItsRemoval` | crates/grok-application/src/artifacts.rs:1350-1391 | Until its removal is reserved, in every state of every run, each version of an artifact is retained with its bytes in place, the current content among them. |
| `RemovalHistory.StepKeepsInv` | crates/grok-application/src/artifacts.rs:2819-2970 | The effect of every store and content call (create, record, reserve, delete, mark, commit, opens coming and going) keeps rows, commands and objects consistent, and a row with a removal only advances. |
| `RemovalHistory.AtMostOnePending` | crates/grok-memory/src/lib.rs:6445-6450 | At most one removal is pending in the whole store. |
| `RemovalRows.ReservationIsValid` | crates/grok-application/src/artifacts.rs:2819-2880 | The reservation accepts only the expected revision and content version, turns the artifact into a tombstone and hands every retained version to the removal. |
| `RemovalRows.ReservesIff` | crates/grok-memory/src/lib.rs:6452-6500 | The store accepts a reservation exactly if there is none yet, the artifact is available at the expected revision and content version, and time has not gone back. |
| `RemovalService.ArtifactRemovals.OthersAct` | crates/grok-application/src/artifacts.rs:1478-1530 | Whatever imports, new versions and opens others bring about at an await, they extend the same history and leave rows and objects of removed artifacts alone. |
| `RemovalService.ArtifactRemovals.PurgeContent` | crates/grok-application/src/artifacts.rs:1491-1503 | The content store is asked to delete an object only while its version is not yet marked as purged. |
| `RemovalService.ArtifactRemovals.ListPendingVersions` | crates/grok-application/src/artifacts.rs:2882-2904 | A listing has the lowest pending versions in ascending order, as many as fit, and fails only by a fault of the store. |
| `RemovalService.ArtifactRemovals.MarkContentPurged` | crates/grok-application/src/artifacts.rs:2906-2938 | A version whose bytes are gone is marked as purged exactly if the expected revision is right, time has not gone back and the store has no fault; other rows and versions stay. |
| `RemovalService.ArtifactRemovals.CommitRemoval` | crates/grok-application/src/artifacts.rs:2940-2970 | A commit succeeds exactly if no version is pending, the revision is the expected one, time has not gone back and the store has no fault, and then nothing of the artifact is left. |
| `RemovalService.ArtifactRemovals.PurgeVersion` | crates/grok-application/src/artifacts.rs:1490-1519 | Deleting and confirming one version fails exactly if one of the two calls has a fault, and keeps all invariants whichever it is and whatever others do in between. |
| `RemovalService.ArtifactRemovals.PurgeBatch` | crates/grok-application/src/artifacts.rs:1490-1519 | A batch fails exactly if a call has a fault; if it succeeds none of its versions is pending, and if it fails the next attempt can start from what it leaves. |
| `RemovalService.ArtifactRemovals.ExecutePendingRemoval` | crates/grok-application/src/artifacts.rs:1466-1531 | With others acting at every await, the batched loop ends for any number of versions, since each successful batch leaves fewer pending. It succeeds exactly if no call had a fault, and then the journal is committed and every version retained at the reservation is purged with its bytes absent; no other removed artifact is touched. |
| `RemovalService.ArtifactRemovals.ReserveRemoval` | crates/grok-application/src/artifacts.rs:2819-2880 | A reservation succeeds exactly if no open is incomplete, no removal pending, the row as its caller saw it and the store without fault; it then changes one row as the transaction says and binds its command to that row, and without a fault a refusal changes nothing. |
| `RemovalService.ArtifactRemovals.ResumeOrReplay` | crates/grok-application/src/artifacts.rs:1455-1464 | A committed removal is only replayed and changes nothing; a pending one is carried on and fails only by a fault. |
| `RemovalService.ArtifactRemovals.RemoveArtifact` | crates/grok-application/src/artifacts.rs:1350-1391 | The whole operation: each refusal has its exact condition and changes nothing; success means that this very command is recorded, for the artifact named if it is new, and that its artifact is gone for good; a known finished command changes nothing and returns the same artifact; a purge fails only by a fault; and whatever fails, the states passed through extend a run of `RemovalHistory`. |
| `RemovalService.ArtifactRemovals.RecoverIncompleteRemovals` | crates/grok-application/src/artifacts.rs:1432-1453 | A pass within the limits succeeds exactly if no call had a fault; it then leaves no removal pending, has committed the one that was, and is never truncated. |
| `RemovalService.ArtifactRemovals.RecordVersion` | crates/grok-application/src/artifacts.rs:2534-2568 | Recording new content cannot reach an artifact whose removal was reserved. |
| `Schedule.WindowsPartition` | crates/grok-domain/src/automation.rs:387-471 | The decisions of two adjacent half-open windows are, in order, the decisions of their union. |
| `Schedule.Through` | crates/grok-application/src/automation_scheduler.rs:911-914 | An evaluation reaches strictly further than the cursor, never past the observation, and at most one window of 180 days unless the addition would overflow. |
| `Schedule.MaterializeDecisions` | crates/grok-application/src/automation_scheduler.rs:969-1031 | The loops produce every gap, one occurrence for all missed runs and every current run, and fail only when the missed count exceeds 32 bits. |
| `Schedule.OccurrencesCountEveryDecision` | crates/grok-application/src/automation_scheduler.rs:977-1030 | Gaps, the folded missed count and the current runs add up to the number of decisions in the window. |
| `Schedule.EveryDecisionIsRepresented` | crates/grok-application/src/automation_scheduler.rs:977-1030 | Each decision has its own occurrence or, if it was missed, is stood for by the folded one, which carries the latest missed decision. |
| `Judgement.OccurrencesAreJudged` | crates/grok-application/src/automation_scheduler.rs:969-1031 | Loops and sort together judge a window rightly by a definition that knows neither: every nonexistent local time has its skip, every due decision from the continuity on its own pending occurrence, all earlier ones one occurrence with their number and the latest of them, as the policy says; nothing else occurs, and the local times increase. |
| `Schedule.ByLocalKeeps` | crates/grok-application/src/automation_scheduler.rs:938 | Sorting by local slot changes neither the occurrences nor their counts. |
| `Schedule.FirstAfterIsNext` | crates/grok-memory/src/lib.rs:5273-5286 | The decision stored in a cursor is the earliest of all decisions after the instant the cursor has reached. |
| `SchedulerTiling.EvaluateCandidate` | crates/grok-application/src/automation_scheduler.rs:827-967 | What it proposes is the next window of exactly the cursor it read, of at most 180 days and not past the tick, with the first decision beyond it and the occurrences that the continuity of the tick and the policy demand, each of them by a definition that knows no loop; it is refused exactly for a disabled or changed definition, silent exactly when nothing has elapsed, unavailable only beyond the bounds, and proposes whenever a proposal exists. |
| `SchedulerTiling.AcquireRaisesFence` | crates/grok-memory/src/lib.rs:4100-4161 | No acquisition lowers the fence, a change of hands or an expiry raises it, a live renewal keeps its token and the first fence is one. |
| `SchedulerTiling.AcquireIsExclusive` | crates/grok-memory/src/lib.rs:4100-4161 | A live lease is refused to others, nothing is acquired before the durable clock floor, an acquired lease is live for its owner, and continuity reaches back only across an uninterrupted renewal. |
| `SchedulerTiling.CommitExtends` | crates/grok-memory/src/lib.rs:4198-4402 | A commit that passes the revision comparisons extends exactly the window its daemon had read, however stale the read was. |
| `SchedulerTiling.WindowsTile` | crates/grok-application/src/automation_scheduler.rs:850-967 | Over every run with any owners, stale reads and lost races: the committed windows of a definition tile the time from activation to the cursor, their decisions together are exactly the decisions of that time, and their occurrences count exactly those. Each window was judged by the continuity of its own tick, which took place; each decision is represented in its window and no occurrence stands for anything else. Windows are bounded and never reach past their tick, fences never decrease, and the cursor waits for the earliest decision not evaluated. |
| `SchedulerTiling.SoundWindowsRepresent` | crates/grok-application/src/automation_scheduler.rs:969-1031 | In a committed window every nonexistent local time has its skip, every due decision its own occurrence or the folded one that is not earlier, and every occurrence is one of a decision of the window. |
| `SchedulerTiling.InExactlyOneWindow` | crates/grok-application/src/automation_scheduler.rs:850-967 | A decision of the evaluated time is in one committed window and in no other. |
| `SchedulerTiling.CommittedWindowsStay` | crates/grok-application/src/automation_scheduler.rs:951-967 | A committed window stays in place, under the definition it was computed for, for the rest of every run. |
| `SchedulerTiling.TicksComeFromAcquisitions` | crates/grok-application/src/automation_scheduler.rs:720-780 | Every tick of every run is what the store answered to one acquisition at that time, token and continuity alike. |
| `SchedulerTiling.CommitsAreLeased` | crates/grok-memory/src/lib.rs:4198-4402 | Whenever in any run a window is committed, the lease of its tick is the stored one and lives, and the definition is enabled. |
| `OverlapQueue.OneRunsAndOneWaits` | crates/grok-sqlcipher/src/automation_scheduler_store.rs:1472-1667 | Over every run of commits, claims, dispatches, runs that end on their own and recoveries in the encrypted store: at most one occurrence of an automation is active, at most one is queued, and none is queued behind nothing, so that the check every commit and recovery makes of the journal never fails. |
| `OverlapQueue.OccurrencesLiveOrderly` | crates/grok-sqlcipher/src/automation_scheduler_store.rs:1560-1667 | Over every run of the encrypted store an occurrence is promoted only when the active one ends, is claimed at most sixteen times, and ends as its run ended, as its completion says, or in review because nothing can resume it; an ended one never changes. |
| `OverlapQueue.NothingIsStuck` | crates/grok-sqlcipher/src/automation_scheduler_store.rs:1560-1667 | In every state of every run a pending occurrence can be claimed, and recovery alone can move every claim and every linked run that nothing else would resume. |
| `OverlapQueue.Stage` | crates/grok-memory/src/lib.rs:4303-4366 | The loop of a commit, with its counters: each pending proposal runs, waits or is skipped exactly by how many are ahead of it, so that under Skip nothing ever waits and an overlap is skipped exactly if one is active and the policy is Skip or one is queued; what was recorded stays, one is active and one queued, and exactly the journals already out of order are refused. |
| `OverlapQueue.FinishingKeepsCardinalityIff` | crates/grok-sqlcipher/src/automation_scheduler_store.rs:1720-1742 | Ending the active occurrence keeps the queue in order exactly if the queued one is promoted or there is none. |
| `OverlapQueue.MemoryRecoveryKeepsCardinalityIff` | crates/grok-memory/src/lib.rs:4899-5061 | A recovery in the in-memory store, with or without a dispatch row for the linked run, keeps the queue in order exactly if nothing is queued, or it only releases a claim, or its run had not ended other than in review; otherwise the queued occurrence is stranded. |
| `OverlapQueue.CancelledRunStrands` | crates/grok-memory/src/lib.rs:4984-5037 | A concrete run of the in-memory store in which a cancelled run strands the occurrence queued behind it. |
| `OverlapQueue.StrandedForGood` | crates/grok-memory/src/lib.rs:4303-4320 | Once an occurrence waits behind nothing, no commit, claim, completion or recovery of its automation succeeds again. |
| `GuestDispatch.DispatchesAtMostOnce` | crates/grok-application/src/automation_scheduler.rs:502-586 | Under any number of daemons, crashes, lost answers and recoveries, and whatever other services do to the run, the guest is called at most once per bound occurrence and never while its run is queued; unless another service cancelled the run, Cancelled was never dispatched; unless another service completed or failed it, Succeeded was reported by the guest and Failed was reported or found no guest; unless others moved it at all, the two rows agree and a dispatch without an answer ends only in review. |
| `GuestDispatch.RecordsAreTrue` | crates/grok-application/src/automation_scheduler.rs:540-586 | In every run a completed attempt is recorded on both rows as exactly what its worker saw; recovery leaves queued work alone, records what an ended run says and otherwise refers to a person. |
| `GuestDispatch.EndedElsewhereIsBelieved` | crates/grok-memory/src/lib.rs:4984-4989 | A concrete run in which another service cancels or completes the run while the guest has it, and recovery records just that. |
| `GuestDispatch.AttemptsAreNeverRelisted` | crates/grok-memory/src/lib.rs:4701-4741 | A run that left the queue is never listed as resumable again, and a recorded outcome and a final run state stay. |
| `GuestDispatch.SlotStepKeepsInv` | crates/grok-memory/src/lib.rs:4743-5037 | Beginning, completing and recovering an attempt, and any move of the run that its life cycle permits, keep the occurrence and its run telling the same story up to what others did. |
| `PathRules.ResolveRelativePath` | native/windows-vm-service/validation.go:55-98 | The segment loop accepts exactly the acceptable paths and returns the path with forward slashes. |
| `PathRules.CleanIsIdentityOnAcceptable` | native/windows-vm-service/validation.go:55-98 | Lexical cleaning leaves an acceptable path as it is. |
| `PathRules.CleanIsNormal` | native/windows-vm-service/validation.go:88-98 | Whatever is cleaned has no empty or dot segments, and parents only at the start of a relative path. |
| `PathRules.NormalStaysClean` | native/windows-vm-service/validation.go:88-98 | Cleaning leaves every normal path as it is, so that cleaning twice is cleaning once. |
| `PathRules.StoredPathIsAcceptedAgain` | native/windows-vm-service/validation.go:55-98 | A path that was accepted and stored is accepted again and resolves to itself. |
| `PathRules.AcceptableNeverEscapes` | native/windows-vm-service/validation.go:115-121 | An acceptable path never leads out of its root. |
| `VmRecords.ValidateState` | native/windows-vm-service/hcs_service.go:703-760 | The check made on load, with its loops and early exits, decides exactly the declared validity of the metadata. |
| `VmRecords.ValidateWorkspaces` | native/windows-vm-service/hcs_service.go:742-757 | The attachment check accepts exactly bounded lists of read-only, acceptable attachments with distinct mount ids. |
| `Reconciliation.ReconcileSettles` | native/windows-vm-service/hcs_service.go:840-859 | Reconciling one record settles it against the hypervisor, keeps it valid and changes at most four of its fields. |
| `Reconciliation.ReconcileIsIdempotent` | native/windows-vm-service/hcs_service.go:828-860 | From settled records reconciliation computes the same records again. |
| `Reconciliation.ProgressEnds` | native/windows-vm-service/hcs_service.go:828-860 | A pass that dealt with every record has computed the reconciled records, settled each, and left no owned system alive without a running record. |
| `VmService.HcsService.Persist` | native/windows-vm-service/hcs_service.go:762-801 | Whatever error it reports, the metadata file holds its old value or the current one, and everything it ever held passes the check on load. |
| `VmService.HcsService.EnsureImage` | native/windows-vm-service/hcs_service.go:233-312 | Only the staged file that the signed catalog names is taken, with a digest and a size that agree if the caller gives them; any other request touches nothing. A signed request succeeds exactly if there is room and the host had no trouble: a new image is exactly the signed one, durable and on disk, an installed one is only found; a failure changes no metadata. |
| `VmService.HcsService.CheckImageRequest` | native/windows-vm-service/hcs_service.go:237-263 | The checks of an image request let through exactly what the signed catalog names. |
| `VmService.HcsService.CreateVm` | native/windows-vm-service/hcs_service.go:314-383 | Each refusal has its exact condition and changes nothing; an accepted request succeeds exactly if the host had no trouble, and then adds exactly the requested record, durably and with its disk; any failure leaves the metadata in memory as it was. |
| `VmService.HcsService.CreateSystem` | native/windows-vm-service/hcs_service.go:440-454 | A hypervisor system is created, by one call, only after its record durably announced the start. |
| `VmService.HcsService.StopSystem` | native/windows-vm-service/hcs_service.go:521-535 | A hypervisor system is stopped only after its record durably announced the stop, by exactly one call: a termination, after which it is down, or a shutdown. |
| `VmService.HcsService.RemoveVmDisk` | native/windows-vm-service/hcs_service.go:560-583 | Disk bytes are removed only after the deletion is durable. |
| `VmService.HcsService.RuntimeId` | native/windows-vm-service/hcs_service.go:889-909 | A reported runtime identity is that of a running system, a valid GUID in lower case. |
| `VmService.HcsService.Launch` | native/windows-vm-service/hcs_service.go:449-484 | A launch creates and starts its system by these two calls in this order and reports an identity only of a running system; every failure ends with a call to terminate it, and no other system is touched. |
| `VmService.HcsService.CommitStart` | native/windows-vm-service/hcs_service.go:485-495 | The running record is durable, or the record in memory is rolled back and the system is asked to terminate. |
| `VmService.HcsService.Announce` | native/windows-vm-service/hcs_service.go:439-443 | An operation is announced durably before it touches the system, or its marker is taken back in memory. |
| `VmService.HcsService.StartVm` | native/windows-vm-service/hcs_service.go:385-496 | Each refusal has its exact condition and changes nothing; an accepted request succeeds exactly if the host had no trouble. Success means one create and one start call, a running system and a durable running record with its identity; failure leaves the record as it was without its marker and, if the hypervisor was called, ends with a terminate call; no other system or record changes. |
| `VmService.HcsService.StopVm` | native/windows-vm-service/hcs_service.go:498-541 | Each refusal has its exact condition and changes nothing; an accepted request succeeds exactly if the host had no trouble. Success means that exactly one call stopped the system, which is down if it was forced, and a durable stopped record; failure leaves the record unmarked or already stopped in memory, and nothing else changes. |
| `VmService.HcsService.DeleteVm` | native/windows-vm-service/hcs_service.go:543-586 | Each refusal has its exact condition and changes nothing; an accepted request succeeds exactly if the host had no trouble, and then record and disk are gone durably; failure changes at most the deletion mark of this record, or forgets it after its disk is gone. |
| `VmService.HcsService.AttachWorkspace` | native/windows-vm-service/hcs_service.go:588-639 | Without trouble of the host, a request is turned away exactly by its declared refusal and else succeeds: it finds the identical attachment or appends it durably with its mount id still unique. A failed persist, whatever it reports, leaves exactly the new time stamp behind, any other failure nothing; other records and fields stay. |
| `VmService.HcsService.Restart` | native/windows-vm-service/hcs_service.go:671-701 | Whatever state the file was left in by any operation, a new process loads it; if there is none yet and the first cannot be written, a later start can still begin from valid metadata. |
| `VmService.HcsService.TerminateOrphans` | native/windows-vm-service/hcs_service.go:803-827 | No owned system without a record stays alive; systems of records and of other owners are untouched. |
| `VmService.HcsService.FinishDeletion` | native/windows-vm-service/hcs_service.go:829-838 | An interrupted deletion is finished: the system is quiet and the record gone. |
| `VmService.HcsService.TakeDown` | native/windows-vm-service/hcs_service.go:848-859 | A record whose system does not run as it should ends stopped or created without identity, and what was left of the system is down. |
| `VmService.HcsService.ReconcileRecord` | native/windows-vm-service/hcs_service.go:829-859 | One record is decided as its system was seen, and reports a change exactly when there is one. |
| `VmService.HcsService.ReconcileRecords` | native/windows-vm-service/hcs_service.go:828-860 | The pass computes the reconciled records and reports a change exactly when the metadata changed. |
| `VmService.HcsService.RemoveOrphanVmDisks` | native/windows-vm-service/hcs_service.go:861-871 | Directories without a record are removed, those with a record are kept. |
| `VmService.HcsService.Reconcile` | native/windows-vm-service/hcs_service.go:803-887 | From any valid metadata, hypervisor and disks a pass succeeds exactly if the host had no trouble, and then leaves no pending or deleting record, Running exactly where the system runs with that identity, every owned live system behind a running record and no orphaned directory; other owners' systems are untouched; from a consistent state no metadata changes. |
| `VmService.HcsService.RecoverGuestChannel` | native/windows-vm-service/hcs_service.go:193-204 | A running VM whose channel cannot be reopened is stopped in both places; it fails exactly if the hypervisor does, and then changes no record. |
| `VmService.HcsService.RecoverGuestChannels` | native/windows-vm-service/hcs_service.go:177-209 | It succeeds exactly if the host had no trouble, and leaves metadata, hypervisor and disks consistent; every record is as it was or was running and is stopped. |
| `VmService.HcsService.Start` | native/windows-vm-service/hcs_service.go:108-175 | Start-up from whatever the last process left behind succeeds exactly if the host had no trouble, and then ends consistent; it never touches foreign systems, asks the hypervisor only to terminate and, failed or not, only adds to the states ever persisted, all of which pass the check on load. |
| `ChannelPool.EntriesAreAccountedFor` | native/windows-vm-service/guest_proxy.go:95-207 | Under every interleaving of critical sections mapped entries are live and distinct, retired entries hold no channel, a closed pool has no entries, and every entry is mapped, on a closer's list or retired. |
| `ChannelPool.SectionsDoTheirPart` | native/windows-vm-service/guest_proxy.go:95-207 | Under every interleaving a key leads to its own entry; an entry hands out its live channel or a new one that no thread and no other entry has; a closer takes out exactly the keys it names and has exactly their entries to retire; closing the pool closes it. |
| `ChannelPool.ClosedPoolStaysEmpty` | native/windows-vm-service/guest_proxy.go:173-207 | After the pool was closed and the closers at work have returned, no entry holds a channel and none is handed out for the rest of every run. |
| `ChannelPool.RetirementIsFinal` | native/windows-vm-service/guest_proxy.go:200-207 | A retired entry never holds or regains a channel. |
| `ChannelPool.NobodyLosesAnEntry` | native/windows-vm-service/guest_proxy.go:146-189 | No step lets an entry fall out of the map without putting it on a list or retiring it. |
| `ChannelPool.GuestChannelPool.TakeEntry` | native/windows-vm-service/guest_proxy.go:95-107 | A closed pool answers nothing; an open one the mapped entry or a new one. |
| `ChannelPool.GuestChannelPool.TakeChannel` | native/windows-vm-service/guest_proxy.go:109-144 | A retired entry is refused, a live channel reused, anything else dialled and installed. |
| `ChannelPool.GuestChannelPool.CollectVm` | native/windows-vm-service/guest_proxy.go:146-155 | Exactly the entries of one VM leave the map and are collected. |
| `ChannelPool.GuestChannelPool.CollectAll` | native/windows-vm-service/guest_proxy.go:173-185 | Closing empties the map once and collects every entry. |
| `ChannelPool.GuestChannelPool.RetireAll` | native/windows-vm-service/guest_proxy.go:156-159 | Exactly the collected entries are retired without a channel. |
| `ChannelPool.GuestChannelPool.DiscardChannel` | native/windows-vm-service/guest_proxy.go:191-198 | A failed channel is forgotten only while it is still the entry's. |
| `CredentialVault.StoreProgramIsCoherent` | crates/grok-application/src/credentials.rs:382-411 | Every prefix of the store writes leaves key, binding and marker coherent, and the whole installs the generation. |
| `CredentialVault.DeleteProgramIsCoherent` | crates/grok-application/src/credentials.rs:430-440 | Every prefix of the delete writes leaves the vault coherent, and the whole empties it. |
| `CredentialVault.CredentialStore.RunProgram` | crates/grok-application/src/credentials.rs:389-405 | Whatever call fails, with or without effect, the vault is some prefix of the program. |
| `CredentialVault.CredentialStore.StoreValidatedKey` | crates/grok-application/src/credentials.rs:382-411 | No failure leaves a mixture of generations readable; success installs key, binding and marker. |
| `CredentialVault.CredentialStore.DeleteKey` | crates/grok-application/src/credentials.rs:419-446 | No failure leaves a mixture; success leaves nothing. |
| `CredentialProtocol.GenerationsStayCoherent` | crates/grok-application/src/credentials.rs:266-446 | In every state of every run of configure, enroll, delete, refresh, use and reconcile, between any two vault writes: a readable key and binding belong together, a set marker beside them means this very key was validated, and a recorded configuration or enrolment was installed and is called resolved only if its key was validated. |
| `CredentialProtocol.BindingsAndOutcomesAreFinal` | crates/grok-application/src/credentials.rs:477-488 | Over every run one binding never names two keys, and a recorded outcome never changes. |
| `CredentialProtocol.OutcomesHaveGrounds` | crates/grok-application/src/credentials.rs:349-380 | Whenever in any run the outcome of a pending command appears, it was recorded by the worker that had just finished that command's own vault writes, or by a reconciliation at a moment when the binding of that very command stood in the vault beside the key it was given. |
| `CredentialProtocol.LeasesHoldTheirGeneration` | crates/grok-application/src/credentials.rs:237-257 | In every state of every run in which a use lease is held, the vault holds the very binding and key the lease was taken for, and nobody writes; that it is the generation its caller expected is stated by `LeasesAreAsExpected`. |
| `CredentialProtocol.LeasesAreAsExpected` | crates/grok-application/src/credentials.rs:237-257 | Whenever in any run a use request becomes a lease, the vault holds that binding and key, and the binding is the one the caller expects, if any. |
| `CredentialProtocol.RefusalsHaveGrounds` | crates/grok-application/src/credentials.rs:237-248 | In every run a request that gets its turn is turned away exactly if its command is completed, its command was recorded for another key, or, for a use, no key and binding are readable or the binding is not the expected one; turning away changes nothing. |
| `CredentialProtocol.OnlyPendingCommandsWrite` | crates/grok-application/src/credentials.rs:382-440 | Whenever in any run key or binding change, it is by a worker whose command is still pending; a worker that is through has installed key, binding and the marker validation gave, or has left nothing, and goes on to record just that. |
| `CredentialProtocol.StepsFollowTheirAnswers` | crates/grok-application/src/credentials.rs:266-290 | In every run what validation says of a key is what its worker stores or marks, on the key that is installed meanwhile; a refresh without a binding only clears; a command is recorded with the outcome of its worker, a reconciled one with what its own installed generation shows, or not at all. |
| `CredentialProtocol.EnrollBeginIsGood` | crates/grok-application/src/credential_enrollment.rs:87-103 | Beginning an enrolment hands out a newly reserved command once, and sends every later attempt to reconciliation. |
| `CredentialProtocol.StoreWriteIsGood` | crates/grok-application/src/credentials.rs:390-405 | Each vault write of a store keeps coherence and what other tasks rely on. |
| `CredentialProtocol.OthersKeepTheirInv` | crates/grok-application/src/credentials.rs:237-290 | What a reader or writer holds true under the gate is not disturbed by a step of any other task. |
| `UpdateMachine.InstallsOnlyWhatIsAuthorized` | apps/desktop/electron/updateCoordinator.ts:142-153 | In every run install answers true at most once, only with nothing running or queued, and only when the updater's last finished download is an artifact authorized for the channel and generation now selected. |
| `UpdateMachine.NothingAfterInstall` | apps/desktop/electron/updateCoordinator.ts:111-183 | Once an install has started no check or download starts and no second install succeeds in the rest of the run. |
| `UpdateMachine.AnswersAreShown` | apps/desktop/electron/updateCoordinator.ts:76-183 | In every run: switching ends on the channel asked for unless it is locked, and makes everything in flight stale; a check starts exactly if none is going on, nothing is being installed and updates are supported; a stale answer shows nothing; an answer that counts finds its check or download still going on and leads to exactly its phase and version: nothing new, available, downloaded or failed. |
| `UpdateMachine.StepKeepsInv` | apps/desktop/electron/updateCoordinator.ts:76-183 | Every callback and call keeps at most one current check, at most one current task at the end of the queue, and generation tags that never run ahead. |
| `UpdateCoordinator.UpdateCoordinator.constructor` | apps/desktop/electron/updateCoordinator.ts:41-70 | A fresh coordinator is an initial state; preview versions are locked to beta. |
| `UpdateCoordinator.UpdateCoordinator.SetChannel` | apps/desktop/electron/updateCoordinator.ts:76-90 | Links the handler to the machine: it takes the channel step and nothing else. |
| `UpdateCoordinator.UpdateCoordinator.Check` | apps/desktop/electron/updateCoordinator.ts:111-140 | Links the handler to the machine: it takes the check step and nothing else. |
| `UpdateCoordinator.UpdateCoordinator.OnAuthorized` | apps/desktop/electron/updateCoordinator.ts:122-136 | Links the fulfilled authorization to the step of that event. |
| `UpdateCoordinator.UpdateCoordinator.OnAuthorizeRejected` | apps/desktop/electron/updateCoordinator.ts:136-138 | Links the rejected authorization to the step of that event. |
| `UpdateCoordinator.UpdateCoordinator.OnQueueAdvanced` | apps/desktop/electron/updateCoordinator.ts:160-163 | Links the advance of the download queue to the step of that event. |
| `UpdateCoordinator.UpdateCoordinator.OnDownloaded` | apps/desktop/electron/updateCoordinator.ts:163-172 | Links the settled download to the step of that event. |
| `UpdateCoordinator.UpdateCoordinator.OnDownloadRejected` | apps/desktop/electron/updateCoordinator.ts:173-175 | Links the rejected download to the step of that event. |
| `UpdateCoordinator.UpdateCoordinator.Install` | apps/desktop/electron/updateCoordinator.ts:142-153 | Links the call to the machine: it answers true exactly when the install step of the machine installs. |
| `UpdateCoordinator.UpdateCoordinator.OnInstallRejected` | apps/desktop/electron/updateCoordinator.ts:146-151 | Links the rejected installer to the step of that event. |
| `VersionOrder.CompareVersions` | apps/desktop/electron/updateManifestVerifier.ts:232-261 | However numbers round, the sign is section 11 precedence of Semantic Versioning 2.0.0 with numbers replaced by what they round to; it is precedence itself unless two differing numbers of the versions round to one. |
| `VersionOrder.ComparePrereleases` | apps/desktop/electron/updateManifestVerifier.ts:246-260 | The identifier loop decides the lexicographic order of prerelease identifiers. |
| `VersionOrder.CompareIdentifiers` | apps/desktop/electron/updateManifestVerifier.ts:253-258 | Numeric identifiers compare by the values they round to and before alphanumeric ones, which compare by code unit. |
| `VersionOrder.RoundingKeepsTheOrderIff` | apps/desktop/electron/updateManifestVerifier.ts:236-255 | For all versions: the comparison agrees with precedence exactly if the first core numbers that still differ once rounded, or else the prereleases, order the versions as their first difference does, or, for equal cores, the first differing identifiers are not numbers that round together. |
| `VersionOrder.RoundingKeepsTheOrder` | apps/desktop/electron/updateManifestVerifier.ts:236-255 | On versions whose numbers are at most 2^53, and wherever no two differing numbers round to one, the comparison is precedence. |
| `VersionOrder.LargeNumbersCompareAsEqual` | apps/desktop/electron/updateManifestVerifier.ts:253-255 | Without leading zeros 1.0.0-9007199254740992 precedes 1.0.0-9007199254740993, and the two compare as equal once 2^53 + 1 rounds to 2^53. |
| `VersionOrder.PrecedesIsStrict` | apps/desktop/electron/updateManifestVerifier.ts:232-261 | However numbers round, the comparison is irreflexive and transitive on all versions. |
| `VersionOrder.TotalOnSemVer` | apps/desktop/electron/updateManifestVerifier.ts:232-261 | Precedence is total on versions without leading zeros in numeric identifiers, and so is the comparison if their numbers are at most 2^53. |
| `VersionOrder.UnorderedIffAlike` | apps/desktop/electron/updateManifestVerifier.ts:232-261 | Two versions compare as equal exactly when their rounded cores agree and their prereleases are equal or first differ in numbers that round to one. |
| `VersionOrder.AlikeIsEqual` | apps/desktop/electron/updateManifestVerifier.ts:232-261 | Without leading zeros and without numbers that round together, only equal versions compare as equal. |
| `VersionOrder.LeadingZerosBreakTheOrder` | apps/desktop/electron/updateManifestVerifier.ts:252-255 | With leading zeros, comparing as equal is not transitive: 1.0.0-1.1, 1.0.0-01.2 and 1.0.0-1.2. |
| `VersionOrder.SelectNewest` | apps/desktop/electron/updateManifestVerifier.ts:77-86 | The selected candidate is available whenever any is, none of its kind compares as newer, and none precedes it the other way unless numbers round together. |
| `LaunchLimiter.WindowHoldsAtMost` | apps/desktop/electron/externalUrlLaunchLimiter.ts:24-39 | Every half-open interval of one window holds at most the maximum number of launches. |
| `LaunchLimiter.PruningKeepsInv` | apps/desktop/electron/externalUrlLaunchLimiter.ts:26-28 | The pruned list is the end of the full history and selects the same recent launches. |
| `LaunchLimiter.ExternalUrlLaunchLimiter.TryAcquire` | apps/desktop/electron/externalUrlLaunchLimiter.ts:24-34 | As long as time does not go backwards the answer is the one the full history would give; invalid times change nothing. |
| `LaunchLimiter.ExternalUrlLaunchLimiter.Release` | apps/desktop/electron/externalUrlLaunchLimiter.ts:34-38 | Only the first call of a release closure counts, however late or often it is called. |
| `LaunchLimiter.ExternalUrlLaunchLimiter.EveryWindowIsBounded` | apps/desktop/electron/externalUrlLaunchLimiter.ts:24-39 | The object keeps the window bound over its whole history. |
| `LaunchLimiter.ExternalUrlLaunchLimiter.OneActiveAtATime` | apps/desktop/electron/externalUrlLaunchLimiter.ts:29-38 | Two unreleased launches are the same launch. |
| `ScheduledPayload.Encode` | crates/grok-daemon/src/linux_guest_transport/scheduled.rs:254-290 | Exactly the valid requests are encoded, each as its one payload. |
| `ScheduledPayload.Decode` | native/linux-vm-service/contract.go:694-724 | Decoding returns every valid request from its payload and accepts nothing but the payload of its result. |
| `ScheduledPayload.PayloadIsInjective` | crates/grok-daemon/src/linux_guest_transport/scheduled.rs:254-290 | Two valid requests never share a payload. |
| `ScheduledPayload.TextIsUtf8` | native/linux-vm-service/contract.go:716-723 | The bytes of every sequence of Unicode scalar values pass the prompt check for UTF-8. |
| `ScheduledPayload.Utf8IsText` | native/linux-vm-service/contract.go:716-723 | Whatever passes that check is the encoding of a sequence of Unicode scalar values, so no surrogate, overlong or too large form does. |
| `Fingerprints.PreimageDecodes` | crates/grok-application/src/mutations.rs:14-39 | The length-prefixed preimage decodes to exactly its list of parts, for lists of any length. |
| `Fingerprints.PreimageIsInjective` | crates/grok-application/src/mutations.rs:14-39 | Different lists of parts have different preimages. |
| `Fingerprints.MutationCommandBytes` | crates/grok-application/src/mutations.rs:14-34 | The hashing loop digests the preimage of scope and parts, exactly for keys of at most 128 bytes without control characters. |
| `Fingerprints.EvaluationPartsAreUnique` | crates/grok-application/src/automation_scheduler.rs:1040-1140 | The parts of an evaluation determine the lease, the cursor and the projection of every occurrence, whatever its optional fields. |
| `Fingerprints.OccurrenceCancels` | crates/grok-application/src/automation_scheduler.rs:1069-1104 | The parts of an occurrence can be read off the front of any longer list. |
| `Fingerprints.DecisionCancels` | crates/grok-application/src/automation_scheduler.rs:1109-1125 | The tagged encoding of the next decision can be read off the front of any longer list. |
| `Fingerprints.EvaluationCommand` | crates/grok-application/src/automation_scheduler.rs:1040-1107 | The loop over occurrences digests exactly the parts of the evaluation. |
| `Fingerprints.FingerprintDeterminesEvaluation` | crates/grok-application/src/automation_scheduler.rs:1040-1107 | Equal fingerprints mean the same scope and the same evaluation, or the two preimages are a collision of the digest. |
| `LineReader.BoundedLineReader.PollRead` | crates/grok-acp/src/runtime.rs:74-122 | For any chunking and any buffer sizes, up to the first error delivered and pending bytes are the inner bytes in order, and the first error is reported exactly when some line is longer than the limit. |
| `LineReader.BoundedLineReader.CountLines` | crates/grok-acp/src/runtime.rs:99-111 | The byte loop rejects a chunk exactly when it makes some line too long. |
| `LineReader.LongLineGrows` | crates/grok-acp/src/runtime.rs:99-111 | One more byte makes a line too long exactly when the counter passes the limit. |
| `StderrBuffer.PushIsChunkIndependent` | crates/grok-acp/src/runtime.rs:296-310 | Pushing two chunks is pushing their concatenation. |
| `StderrBuffer.PushComputesPrediction` | crates/grok-acp/src/runtime.rs:296-345 | After any stream the buffer is what splitting into lines, turning each into its diagnostic and appending in order predicts. |
| `StderrBuffer.FinishedTextIsCollected` | crates/grok-acp/src/runtime.rs:296-345 | The finished text depends on each line only through its diagnostic form and never exceeds its byte limit. |
| `StderrBuffer.KeepsLongestPrefixIff` | crates/grok-acp/src/runtime.rs:296-345 | For every stream and limit: the finished text is the longest fitting prefix of all that was to be written exactly when no later diagnostic starts with a character that fits into a gap left by a cut. |
| `StderrBuffer.SpliceHappens` | crates/grok-acp/src/runtime.rs:331-344 | A concrete stream of five bytes whose finished text at limit 2 is not the longest fitting prefix of what was written. |
| `StderrPrivacy.LinesAreShownSafely` | crates/grok-acp/src/runtime.rs:1349-1363 | For every stream and every line of it: a line over the limit and a line with a sensitive word, in whatever case, are only mentioned; any other is shown without control characters, hence unchanged if it has none. |
| `StderrPrivacy.KeptTextIsPrintable` | crates/grok-acp/src/runtime.rs:1359-1363 | For every stream no control character but newline, return and tab is in the finished text. |
| `StderrPrivacy.ShownLineHoldsWordIff` | crates/grok-acp/src/runtime.rs:1349-1363 | What is shown of a line holds a sensitive word exactly if the line itself holds none and control characters break that word in it. |
| `StderrPrivacy.ControlCharactersHideAWord` | crates/grok-acp/src/runtime.rs:1349-1363 | A concrete line in which a control character breaks a word, so that the shown line holds it. |
| `StderrPrivacy.KeptTextHoldsNoSecretWord` | crates/grok-acp/src/runtime.rs:296-345 | For every stream, limit and sensitive word: unless control characters break the word in a line or diagnostics are spliced, the finished text holds it nowhere. |
| `StderrPrivacy.TruncatedIff` | crates/grok-acp/src/runtime.rs:296-345 | The finished buffer says truncated exactly if some line was over the limit or not all diagnostics fit; otherwise it holds them all. |
| `StderrBuffer.BoundedStderr.Push` | crates/grok-acp/src/runtime.rs:296-310 | The byte loop is the push of the machine. |
| `StderrBuffer.BoundedStderr.Close` | crates/grok-acp/src/runtime.rs:312-316 | Finishing completes an unfinished or discarded line. |
| `StderrBuffer.BoundedStderr.Complete` | crates/grok-acp/src/runtime.rs:318-329 | A finished line is appended in its sanitized form, a discarded one as its marker. |
| `StderrBuffer.BoundedStderr.AppendText` | crates/grok-acp/src/runtime.rs:331-344 | Text is appended up to the last character boundary within the limit. |

## Left out

- Artifact listing, quota arithmetic, thread and project checks: long case tables that would only add easy members.
- ImportProtocol: import, cleanup and recovery are steps of a step system rather than methods with loops; the retry of a caller with an already known command is not a step, since it changes nothing.
- ImportPlans, OpenPlans, RemovalPlans: records are values whose transitions return a new record; update in place through a mutable reference is not modelled.
- OpenProtocol: a command is identified by its key and its version instead of a digest of them.
- RemovalHistory: imports that are incomplete are not part of the store, as their artifacts are not available and so not removable.
- Artifacts: names and media types are bounded by characters where the source counts bytes or characters, and only the common white space characters count as blank.
- Schedule.WindowsPartition: the calendar is an abstract ordered sequence of decisions; time zones, daylight saving and month lengths are not computed.
- SchedulerTiling: creation and update times of cursors, occurrence identifiers and the idempotency of a repeated commit command are left out; the tick loop over candidates is the union of its evaluations; the durable clock floor is any time not before the cursors and the lease.
- SchedulerTiling.CommitExtends: what the overlap policy makes of a committed occurrence is in `OverlapQueue`, not in the log; the replay of a repeated commit command, which changes nothing, is left out.
- OverlapQueue: leases, fences and times are left out, so claims expire at any moment; a run that others move without ending it counts as queued or running as before; it follows one automation, as the stores count per automation.
- GuestDispatch: claims and their expiry only decide when recovery may run, so recovery may run at any time; it follows runs with a dispatch row, as only those are dispatched.
- VmService: grants and revocations of disk access, the size limit of the metadata file and its encoding, changes of the signed image policy, and several service processes at once are left out; the hypervisor does not move on its own during a start-up pass, and a terminate call that succeeds or finds nothing leaves no live system behind.
- VmRecords: the hypervisor identifier is a pair instead of a digest of owner and VM, which takes the digest to be injective.
- ChannelPool: contents of channels, handshakes and timeouts; a poisoned channel is a choice of the environment.
- CredentialProtocol: acquiring the gate and reserving a command is one step, since nobody else can act in between on what it protects; the digest in a binding is taken to be injective; a binding that is present but malformed is not modelled.
- UpdateMachine: time stamps, reason codes and timers; the authorizer and the platform updater answer in any way.
- VersionOrder.CompareVersions: versions are what the pattern captures, so that matching the pattern itself is not modelled; rounding to binary64 is any monotone function that is exact up to 2^53, and two infinite numbers differ by zero instead of by no number, which callers cannot tell apart.
- LaunchLimiter.ExternalUrlLaunchLimiter.EveryWindowIsBounded: claims nothing once a time went backwards.
- LineReader.BoundedLineReader.PollRead: states only the delivery of bytes after the first error; the line counter does not saturate, which matters only for a limit equal to the largest machine word.
- StderrBuffer: decoding with replacement characters is a parameter.
- Fingerprints.FingerprintDeterminesEvaluation: SHA-256 is a parameter; the import command, which encodes a missing thread like a thread of that name, is not modelled.
- File, process, IPC and Electron plumbing, signatures, regular expression engines and error message mappings.
