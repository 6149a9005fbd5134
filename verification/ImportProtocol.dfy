/**
 Artifact import as a step system. Every await of the import, of its cleanup paths
 and of start-up recovery is one step; a crash drops every volatile part at any
 point. The private content store answers as its contract allows: an error or a
 timeout may leave its effect done, undone, or still to happen through a worker
 that outlives its caller.
 */
module ImportProtocol {
  import opened Wrappers
  import opened Runs
  import opened Artifacts
  import opened ImportPlans
  import opened RemovalPlans

  const MAX_ARTIFACT_FILE_BYTES: nat := 64 * 1024 * 1024

  /** What staging reports about the bytes it wrote. */
  datatype PreparedContent = PreparedContent(sha256: string, mediaType: string, byteSize: nat)

  /** Why an import may fail, as it happened. */
  datatype Cause =
    | StagingReported(code: ImportFailure)
    | StagedTooMuch
    | QuotaReported(code: ImportFailure)
    | PublicationReported(code: ImportFailure)
    | BytesWereGone
    | WasInterrupted

  /** The code that a cause is recorded under. */
  function CodeOf(cause: Cause): ImportFailure {
    match cause
    case StagingReported(code) => code
    case StagedTooMuch => FileTooLarge
    case QuotaReported(code) => code
    case PublicationReported(code) => code
    case BytesWereGone => IntegrityFailure
    case WasInterrupted => InterruptedBeforeContentReady
  }

  /** Program position of the one task working on an artifact, with its copy of the journal. */
  datatype Task =
    | Reserved(plan: ImportPlan)
    | Staging(plan: ImportPlan)
    | Staged(plan: ImportPlan, prepared: PreparedContent)
    | DiscardingReserved(plan: ImportPlan, failure: ImportFailure)
    | FailingReserved(plan: ImportPlan, failure: ImportFailure)
    | Publishing(plan: ImportPlan)
    | Committing(plan: ImportPlan)
    | DiscardingReady(plan: ImportPlan, failure: ImportFailure)
    | CheckingAbsence(plan: ImportPlan, failure: ImportFailure)
    | FailingReady(plan: ImportPlan, failure: ImportFailure)
    | CheckingStatus(plan: ImportPlan)

  /**
   Everything that belongs to one artifact: the journal, artifact and retention rows
   are durable; the staged and published bytes are the world; `task`, `stagingWorker`
   and `publisher` are volatile; `sourceReads`, `everPublished`, what staging `reported`
   and the `causes` of failure met so far are history.
   */
  datatype Slot = Slot(
    key: string,
    plan: ImportPlan,
    artifact: Artifact,
    retention: Option<RetentionRecord>,
    staged: Option<string>,
    published: set<string>,
    task: Option<Task>,
    stagingWorker: bool,
    publisher: bool,
    sourceReads: nat,
    everPublished: set<ArtifactVersion>,
    reported: Option<PreparedContent>,
    causes: set<Cause>)

  datatype Known = Known(fingerprint: string, id: string)

  datatype World = World(
    commands: map<string, Known>,
    slots: map<string, Slot>,
    recovery: Option<seq<ImportPlan>>)

  predicate Incomplete(plan: ImportPlan) {
    plan.state.Prepared? || plan.state.ContentReady?
  }

  /** A slot as the reservation transaction leaves it, with its task about to read the source. */
  function NewSlot(key: string, plan: ImportPlan): Slot {
    Slot(key, plan, plan.artifact, None, None, {}, Some(Reserved(plan)), false, false, 0, {}, None, {})
  }

  function CrashSlot(s: Slot): Slot {
    s.(task := None, stagingWorker := false, publisher := false)
  }

  predicate Quiet(s: Slot) {
    s.task.None? && !s.stagingWorker && !s.publisher
  }

  datatype SlotStep =
    // Staging of the selected source
    | ReadsSource
    | WorkerWrites(sha256: string)
    | WorkerStops
    | StagingSucceeds(prepared: PreparedContent)
    | StagingFails(failure: ImportFailure, leftover: Option<string>)
    | StagingTimesOut
    | RejectsOversize
    | HitsQuota(failure: ImportFailure)
    | MarksReady(at: UnixMillis)
    // Publication
    | PublishSucceeds
    | PublishFails(failure: ImportFailure, published: bool, unstaged: bool)
    | PublishTimesOut
    | PublisherEnds(published: bool, unstaged: bool)
    | Commits(at: UnixMillis)
    // Cleanup before a terminal failure
    | DiscardsReserved
    | DiscardsReady
    | DiscardFails(removed: bool)
    | FindsNothingLeft
    | PersistsFailure(at: UnixMillis)
    // Recovery of a content-ready journal
    | StatusIsPresent
    | StatusIsMissing
    | StatusIsCorrupt
    // Any store error, status error or cancellation that ends the worker
    | Abandons
    // Removal of a committed artifact
    | RemovalReserves(at: UnixMillis)
    | RemovalPurgesBytes
    | RemovalConfirmsPurge(at: UnixMillis)

  predicate CanPublish(s: Slot, content: ArtifactVersion) {
    s.staged == Some(content.sha256) || content.sha256 in s.published
  }

  function PublishBytes(s: Slot, content: ArtifactVersion): Slot {
    s.(published := s.published + {content.sha256}, everPublished := s.everPublished + {content})
  }

  /** The effects a failed or abandoned publication may leave behind. */
  predicate PublishLeftovers(s: Slot, s': Slot, content: ArtifactVersion, published: bool, unstaged: bool) {
    && (published ==> CanPublish(s, content))
    && var bytes := if published then PublishBytes(s, content) else s;
       s' == if unstaged then bytes.(staged := None) else bytes
  }

  predicate Transient(failure: ImportFailure) {
    failure.ContentStoreUnavailable? || failure.DeadlineExceeded?
  }

  /** One step of the worker, its leftover workers or the later removal of one artifact. */
  predicate SlotNext(s: Slot, s': Slot, step: SlotStep) {
    match step
    case ReadsSource =>
      && s.task.Some? && s.task.value.Reserved?
      && s' == s.(task := Some(Staging(s.task.value.plan)), stagingWorker := true,
                  sourceReads := s.sourceReads + 1)
    case WorkerWrites(sha256) =>
      s.stagingWorker && s' == s.(staged := Some(sha256))
    case WorkerStops =>
      s.stagingWorker && s.task.None? && s' == s.(stagingWorker := false)
    case StagingSucceeds(prepared) =>
      && s.task.Some? && s.task.value.Staging?
      && s.staged == Some(prepared.sha256)
      && s' == s.(task := Some(Staged(s.task.value.plan, prepared)), stagingWorker := false,
                  reported := Some(prepared))
    case StagingFails(failure, leftover) =>
      && s.task.Some? && s.task.value.Staging?
      && s' == s.(task := Some(DiscardingReserved(s.task.value.plan, failure)),
                  stagingWorker := false, staged := leftover, causes := s.causes + {StagingReported(failure)})
    case StagingTimesOut =>
      s.task.Some? && s.task.value.Staging? && s' == s.(task := None)
    case RejectsOversize =>
      && s.task.Some? && s.task.value.Staged?
      && s.task.value.prepared.byteSize > MAX_ARTIFACT_FILE_BYTES
      && s' == s.(task := Some(DiscardingReserved(s.task.value.plan, FileTooLarge)), causes := s.causes + {StagedTooMuch})
    case HitsQuota(failure) =>
      && s.task.Some? && s.task.value.Staged?
      && s.task.value.prepared.byteSize <= MAX_ARTIFACT_FILE_BYTES
      && (failure.ProjectByteQuotaExceeded? || failure.GlobalByteQuotaExceeded?)
      && s' == s.(task := Some(DiscardingReserved(s.task.value.plan, failure)), causes := s.causes + {QuotaReported(failure)})
    case MarksReady(at) =>
      && s.task.Some? && s.task.value.Staged?
      && var t := s.task.value;
         var p := t.prepared;
         var content := ArtifactVersion(t.plan.artifact.id, 1, p.sha256, p.mediaType, p.byteSize, at);
         var ready := s.plan.RecordContentReady(content, at);
         && p.byteSize <= MAX_ARTIFACT_FILE_BYTES
         && at >= t.plan.updatedAt
         && s.plan.revision == t.plan.revision
         && ready.Some?
         && s' == s.(plan := ready.value, task := Some(Publishing(ready.value)))
    case PublishSucceeds =>
      && s.task.Some? && s.task.value.Publishing? && s.task.value.plan.content.Some?
      && var content := s.task.value.plan.content.value;
         && CanPublish(s, content)
         && s' == PublishBytes(s, content).(staged := None, task := Some(Committing(s.task.value.plan)))
    case PublishFails(failure, published, unstaged) =>
      && s.task.Some? && s.task.value.Publishing? && s.task.value.plan.content.Some?
      && var plan := s.task.value.plan;
         var next := if Transient(failure) then None else Some(DiscardingReady(plan, failure));
         PublishLeftovers(s.(task := next, causes := s.causes + {PublicationReported(failure)}), s', plan.content.value,
                          published, unstaged)
    case PublishTimesOut =>
      && s.task.Some? && s.task.value.Publishing?
      && s' == s.(task := None, publisher := true)
    case PublisherEnds(published, unstaged) =>
      && s.publisher && s.plan.content.Some?
      && PublishLeftovers(s.(publisher := false), s', s.plan.content.value, published, unstaged)
    case Commits(at) =>
      && s.task.Some? && s.task.value.Committing? && s.task.value.plan.content.Some?
      && var t := s.task.value;
         var content := t.plan.content.value;
         var next := t.plan.artifact.RecordContent(content.Summary(), at);
         && at >= t.plan.updatedAt
         && next.Some?
         && s.artifact.revision == 0
         && s.plan.revision == t.plan.revision && s.plan.content == Some(content)
         && var committed := s.plan.Commit(next.value, at);
            && committed.Some?
            && Retain(content).Some?
            && s' == s.(plan := committed.value, artifact := next.value,
                        retention := Retain(content), task := None)
    case DiscardsReserved =>
      && s.task.Some? && s.task.value.DiscardingReserved?
      && s' == s.(staged := None, task := Some(FailingReserved(s.task.value.plan, s.task.value.failure)))
    case DiscardsReady =>
      && s.task.Some? && s.task.value.DiscardingReady?
      && s' == s.(staged := None, task := Some(CheckingAbsence(s.task.value.plan, s.task.value.failure)))
    case DiscardFails(removed) =>
      && s.task.Some? && (s.task.value.DiscardingReserved? || s.task.value.DiscardingReady?)
      && s' == s.(task := None, staged := if removed then None else s.staged)
    case FindsNothingLeft =>
      && s.task.Some? && s.task.value.CheckingAbsence? && s.task.value.plan.content.Some?
      && !CanPublish(s, s.task.value.plan.content.value)
      && s' == s.(task := Some(FailingReady(s.task.value.plan, s.task.value.failure)))
    case PersistsFailure(at) =>
      && s.task.Some? && (s.task.value.FailingReserved? || s.task.value.FailingReady?)
      && at >= s.task.value.plan.updatedAt
      && s.plan.revision == s.task.value.plan.revision
      && var failed := s.plan.Fail(s.task.value.failure, at);
         failed.Some? && s' == s.(plan := failed.value, task := None)
    case StatusIsPresent =>
      && s.task.Some? && s.task.value.CheckingStatus? && s.task.value.plan.content.Some?
      && CanPublish(s, s.task.value.plan.content.value)
      && s' == s.(task := Some(Publishing(s.task.value.plan)))
    case StatusIsMissing =>
      && s.task.Some? && s.task.value.CheckingStatus? && s.task.value.plan.content.Some?
      && !CanPublish(s, s.task.value.plan.content.value)
      && s' == s.(task := Some(DiscardingReady(s.task.value.plan, IntegrityFailure)), causes := s.causes + {BytesWereGone})
    case StatusIsCorrupt =>
      && s.task.Some? && s.task.value.CheckingStatus?
      && s' == s.(task := Some(DiscardingReady(s.task.value.plan, IntegrityFailure)), causes := s.causes + {BytesWereGone})
    case Abandons =>
      s.task.Some? && !s.stagingWorker && s' == s.(task := None)
    case RemovalReserves(at) =>
      && s.retention.Some?
      && var tombstone := s.artifact.Remove(at);
         var pending := s.retention.value.BeginPurge(at);
         && tombstone.Some? && pending.Some?
         && s' == s.(artifact := tombstone.value, retention := pending)
    case RemovalPurgesBytes =>
      && s.retention.Some? && s.retention.value.state.PurgePending?
      && s' == s.(published := s.published - {s.retention.value.content.sha256})
    case RemovalConfirmsPurge(at) =>
      && s.retention.Some?
      && s.retention.value.content.sha256 !in s.published
      && var purged := s.retention.value.RecordPurged(at);
         purged.Some? && s' == s.(retention := purged)
  }

  datatype Step =
    | Reserve(key: string, fingerprint: string, artifact: Artifact)
    | Move(id: string, slotStep: SlotStep)
    | Crash
    | StartRecovery(plans: seq<ImportPlan>)
    | RecoverNext
    | EndRecovery

  /** The first task of recovery on a listed journal. */
  function RecoveryTask(plan: ImportPlan): Task {
    if plan.state.Prepared? then DiscardingReserved(plan, InterruptedBeforeContentReady)
    else CheckingStatus(plan)
  }

  function TakenUp(s: Slot, plan: ImportPlan): Slot {
    s.(task := Some(RecoveryTask(plan)), causes := if plan.state.Prepared? then s.causes + {WasInterrupted} else s.causes)
  }

  /** One step of the whole store, where slots move by `slotNext`. */
  ghost predicate NextBy(w: World, w': World, step: Step, slotNext: (Slot, Slot, SlotStep) -> bool) {
    match step
    case Reserve(key, fingerprint, artifact) =>
      && w.recovery.None?
      && key !in w.commands && artifact.id !in w.slots
      && Prepare(artifact).Some?
      && w' == w.(commands := w.commands[key := Known(fingerprint, artifact.id)],
                  slots := w.slots[artifact.id := NewSlot(key, Prepare(artifact).value)])
    case Move(id, slotStep) =>
      && id in w.slots && id in w'.slots
      && slotNext(w.slots[id], w'.slots[id], slotStep)
      && w' == w.(slots := w.slots[id := w'.slots[id]])
    case Crash =>
      w' == w.(slots := map id | id in w.slots :: CrashSlot(w.slots[id]), recovery := None)
    case StartRecovery(plans) =>
      && w.recovery.None?
      && (forall id :: id in w.slots ==> Quiet(w.slots[id]))
      && Listing(w, plans)
      && w' == w.(recovery := Some(plans))
    case RecoverNext =>
      && w.recovery.Some? && w.recovery.value != []
      && (forall id :: id in w.slots ==> w.slots[id].task.None?)
      && var plan := w.recovery.value[0];
         && plan.artifact.id in w.slots
         && plan.Restorable() && Incomplete(plan)
         && w' == w.(slots := w.slots[plan.artifact.id := TakenUp(w.slots[plan.artifact.id], plan)],
                     recovery := Some(w.recovery.value[1..]))
    case EndRecovery =>
      w.recovery.Some? && w' == w.(recovery := None)
  }

  ghost predicate Next(w: World, w': World) {
    exists step :: NextBy(w, w', step, SlotNext)
  }

  ghost predicate Init(w: World) {
    w == World(map[], map[], None)
  }

  /** Distinct incomplete journals as the store holds them, none of them being worked on. */
  ghost predicate Listing(w: World, plans: seq<ImportPlan>) {
    && (forall i :: 0 <= i < |plans| ==>
          && plans[i].artifact.id in w.slots
          && var s := w.slots[plans[i].artifact.id];
             s.plan == plans[i] && Incomplete(s.plan) && Quiet(s))
    && (forall i, j :: 0 <= i < j < |plans| ==> plans[i].artifact.id != plans[j].artifact.id)
  }

  /** The durable row agrees with the worker's copy, and the worker fits the journal state. */
  ghost predicate TaskInv(s: Slot) {
    s.task.Some? ==>
      var t := s.task.value;
      && t.plan == s.plan
      && !s.publisher
      && (s.stagingWorker ==> t.Staging?)
      && (if t.Reserved? || t.Staging? || t.Staged? || t.DiscardingReserved? || t.FailingReserved?
          then s.plan.state.Prepared? else s.plan.state.ContentReady?)
      && (t.Reserved? ==> s.sourceReads == 0)
      && (t.FailingReserved? || t.Committing? || t.CheckingAbsence? || t.FailingReady? ==> s.staged.None?)
      && (t.Committing? && s.plan.content.Some? ==>
            s.plan.content.value.sha256 in s.published && s.plan.content.value in s.everPublished)
      && (t.FailingReady? ==> s.published == {})
  }

  /** Who may own bytes, in terms of the durable rows alone. */
  ghost predicate BytesOwned(s: Slot) {
    && (s.staged.Some? ==> Incomplete(s.plan))
    && (forall d :: d in s.published ==>
          && s.plan.content.Some? && d == s.plan.content.value.sha256
          && (|| s.plan.state.ContentReady?
              || (s.plan.state.Committed? && s.retention.Some? && !s.retention.value.state.Purged?)))
    && (s.plan.state.Failed? ==> s.staged.None? && s.published == {})
    && (s.plan.state.Committed? ==>
          && s.plan.content.Some?
          && s.retention.Some? && s.retention.value.content == s.plan.content.value
          && s.plan.content.value in s.everPublished
          && (s.retention.value.state.Retained? ==> s.plan.content.value.sha256 in s.published))
  }

  ghost predicate SlotInv(s: Slot) {
    && s.plan.Restorable()
    && (Incomplete(s.plan) ==> s.artifact == s.plan.artifact)
    && (s.retention.Some? ==> s.plan.state.Committed?)
    && (s.stagingWorker ==> s.plan.state.Prepared?)
    && (s.publisher ==> s.plan.state.ContentReady?)
    && s.sourceReads <= 1
    && TaskInv(s)
    && BytesOwned(s)
  }

  // What a journal says about its import

  ghost predicate Grounded(s: Slot, failure: ImportFailure) {
    exists cause :: cause in s.causes && CodeOf(cause) == failure
  }

  predicate HasFailure(t: Task) {
    t.DiscardingReserved? || t.FailingReserved? || t.DiscardingReady? || t.CheckingAbsence? || t.FailingReady?
  }

  /** The journal's content is what staging reported, and within the limit. */
  predicate ContentTrue(s: Slot) {
    s.plan.content.Some? ==>
      && s.reported.Some? && s.plan.content.value.byteSize <= 64 * 1024 * 1024
      && s.plan.content.value.sha256 == s.reported.value.sha256
      && s.plan.content.value.mediaType == s.reported.value.mediaType
      && s.plan.content.value.byteSize == s.reported.value.byteSize
  }

  /** Which causes fit what staging reported. */
  ghost predicate CausesFit(s: Slot) {
    && (s.reported.None? ==> forall cause :: cause in s.causes ==> cause.StagingReported? || cause.WasInterrupted?)
    && (s.reported.Some? ==>
          forall cause :: cause in s.causes ==>
            if s.reported.value.byteSize > 64 * 1024 * 1024 then cause.StagedTooMuch? || cause.WasInterrupted?
            else
              && !cause.StagedTooMuch? && !cause.StagingReported?
              && (cause.QuotaReported? ==> cause.code.ProjectByteQuotaExceeded? || cause.code.GlobalByteQuotaExceeded?))
  }

  /** A failure that trying again would not cure. */
  predicate Lasting(failure: ImportFailure) {
    failure != ContentStoreUnavailable && failure != DeadlineExceeded
  }

  ghost predicate OutcomeInv(s: Slot) {
    && (s.plan.failure.Some? ==> Grounded(s, s.plan.failure.value))
    && (s.task.Some? && HasFailure(s.task.value) ==> Grounded(s, s.task.value.failure))
    && (s.plan.content.Some? && s.plan.failure.Some? ==> Lasting(s.plan.failure.value))
    && (s.task.Some? && HasFailure(s.task.value) && s.plan.content.Some? ==> Lasting(s.task.value.failure))
    && (s.task.Some? && (s.task.value.Reserved? || s.task.value.Staging?) ==> s.reported.None? && s.causes == {})
    && (s.task.Some? && s.task.value.Staged? ==> s.reported == Some(s.task.value.prepared) && s.causes == {})
    && ContentTrue(s) && CausesFit(s)
  }

  /** Causes only accumulate, so what was grounded stays so. */
  lemma StaysGrounded(s: Slot, s': Slot, failure: ImportFailure)
    requires Grounded(s, failure) && s.causes <= s'.causes
    ensures Grounded(s', failure)
  {
  }

  lemma NewlyGrounded(s: Slot, cause: Cause)
    requires cause in s.causes
    ensures Grounded(s, CodeOf(cause))
  {
  }

  /** If causes only accumulate, the failures recorded or under way stay grounded. */
  lemma GroundsStay(s: Slot, s': Slot)
    requires OutcomeInv(s)
    ensures s.causes <= s'.causes && s.plan.failure.Some? ==> Grounded(s', s.plan.failure.value)
    ensures s.causes <= s'.causes && s.task.Some? && HasFailure(s.task.value) ==> Grounded(s', s.task.value.failure)
  {
    if s.causes <= s'.causes && s.plan.failure.Some? {
      StaysGrounded(s, s', s.plan.failure.value);
    }
    if s.causes <= s'.causes && s.task.Some? && HasFailure(s.task.value) {
      StaysGrounded(s, s', s.task.value.failure);
    }
  }

  lemma StagingKeepsOutcomes(s: Slot, s': Slot, step: SlotStep)
    requires StagingStep(step) && SlotInv(s) && OutcomeInv(s) && SlotNext(s, s', step)
    ensures OutcomeInv(s')
  {
    hide BytesOwned;
    hide Grounded;
    GroundsStay(s, s');
    match step {
      case StagingFails(failure, _) => NewlyGrounded(s', StagingReported(failure));
      case RejectsOversize => NewlyGrounded(s', StagedTooMuch);
      case HitsQuota(failure) => NewlyGrounded(s', QuotaReported(failure));
      case _ =>
    }
  }

  lemma JournalStepKeepsOutcomes(s: Slot, s': Slot, step: SlotStep)
    requires (step.MarksReady? || step.Commits?) && SlotInv(s) && OutcomeInv(s) && SlotNext(s, s', step)
    ensures OutcomeInv(s')
  {
    hide BytesOwned;
    hide Grounded;
    GroundsStay(s, s');
  }

  lemma PublicationKeepsOutcomes(s: Slot, s': Slot, step: SlotStep)
    requires PublicationStep(step) && SlotInv(s) && OutcomeInv(s) && SlotNext(s, s', step)
    ensures OutcomeInv(s')
  {
    hide BytesOwned;
    hide Grounded;
    GroundsStay(s, s');
    if step.PublishFails? {
      NewlyGrounded(s', PublicationReported(step.failure));
    }
  }

  lemma RecoveryKeepsOutcomes(s: Slot, s': Slot, step: SlotStep)
    requires RecoveryStep(step) && SlotInv(s) && OutcomeInv(s) && SlotNext(s, s', step)
    ensures OutcomeInv(s')
  {
    hide BytesOwned;
    hide Grounded;
    GroundsStay(s, s');
    if step.StatusIsMissing? || step.StatusIsCorrupt? {
      NewlyGrounded(s', BytesWereGone);
    }
  }

  lemma CleanupKeepsOutcomes(s: Slot, s': Slot, step: SlotStep)
    requires CleanupStep(step) && SlotInv(s) && OutcomeInv(s) && SlotNext(s, s', step)
    ensures OutcomeInv(s')
  {
    hide BytesOwned;
    hide Grounded;
    GroundsStay(s, s');
  }

  lemma RemovalKeepsOutcomes(s: Slot, s': Slot, step: SlotStep)
    requires (step.RemovalReserves? || step.RemovalPurgesBytes? || step.RemovalConfirmsPurge?) && SlotInv(s) && OutcomeInv(s) && SlotNext(s, s', step)
    ensures OutcomeInv(s')
  {
    hide BytesOwned;
    hide Grounded;
    GroundsStay(s, s');
  }

  lemma StepKeepsOutcomes(s: Slot, s': Slot, step: SlotStep)
    requires SlotInv(s) && OutcomeInv(s) && SlotNext(s, s', step)
    ensures OutcomeInv(s')
  {
    hide SlotInv;
    hide OutcomeInv;
    hide SlotNext;
    if StagingStep(step) {
      StagingKeepsOutcomes(s, s', step);
    } else if PublicationStep(step) {
      PublicationKeepsOutcomes(s, s', step);
    } else if RecoveryStep(step) {
      RecoveryKeepsOutcomes(s, s', step);
    } else if CleanupStep(step) {
      CleanupKeepsOutcomes(s, s', step);
    } else if step.MarksReady? || step.Commits? {
      JournalStepKeepsOutcomes(s, s', step);
    } else {
      RemovalKeepsOutcomes(s, s', step);
    }
  }

  lemma TakingUpKeepsOutcomes(s: Slot)
    requires OutcomeInv(s) && Incomplete(s.plan)
    ensures OutcomeInv(TakenUp(s, s.plan))
  {
    hide Grounded;
    var s' := TakenUp(s, s.plan);
    if s.plan.failure.Some? {
      StaysGrounded(s, s', s.plan.failure.value);
    }
    if s.plan.state.Prepared? {
      NewlyGrounded(s', WasInterrupted);
    }
  }

  /** A recorded failure has a cause that happened, and the limit decides who is too large. */
  ghost predicate OutcomeTrue(s: Slot) {
    && (s.plan.failure.Some? ==> exists cause :: cause in s.causes && CodeOf(cause) == s.plan.failure.value)
    && (s.reported.Some? && s.reported.value.byteSize > 64 * 1024 * 1024 ==>
          && s.plan.content.None?
          && (s.plan.failure.Some? ==>
                s.plan.failure.value.FileTooLarge? || s.plan.failure.value.InterruptedBeforeContentReady?))
    && (s.reported.Some? && s.reported.value.byteSize <= 64 * 1024 * 1024 ==>
          s.plan.failure == Some(FileTooLarge) ==> PublicationReported(FileTooLarge) in s.causes)
    && (s.plan.content.Some? && s.plan.failure.Some? ==> Lasting(s.plan.failure.value))
  }

  lemma RecordedOutcomeIsTrue(s: Slot)
    requires OutcomeInv(s)
    ensures OutcomeTrue(s)
  {
    if s.plan.failure.Some? {
      var cause :| cause in s.causes && CodeOf(cause) == s.plan.failure.value;
    }
  }

  /** Everything that holds of one slot. */
  ghost predicate SlotGood(s: Slot) {
    SlotInv(s) && OutcomeInv(s)
  }

  /** Commands and slots correspond one to one, every slot meets `slotInv`, and recovery's list is live. */
  ghost predicate WorldInv(w: World, slotInv: Slot -> bool) {
    && (forall key :: key in w.commands ==>
          w.commands[key].id in w.slots && w.slots[w.commands[key].id].key == key)
    && (forall id :: id in w.slots ==>
          && w.slots[id].plan.artifact.id == id
          && w.slots[id].key in w.commands && w.commands[w.slots[id].key].id == id
          && slotInv(w.slots[id]))
    && (w.recovery.Some? ==> Listing(w, w.recovery.value))
  }

  ghost predicate Inv(w: World) {
    WorldInv(w, SlotGood)
  }

  predicate StagingStep(step: SlotStep) {
    || step.ReadsSource? || step.WorkerWrites? || step.WorkerStops? || step.StagingSucceeds?
    || step.StagingFails? || step.StagingTimesOut? || step.RejectsOversize? || step.HitsQuota?
  }

  predicate PublicationStep(step: SlotStep) {
    step.PublishSucceeds? || step.PublishFails? || step.PublishTimesOut? || step.PublisherEnds?
  }

  predicate RecoveryStep(step: SlotStep) {
    step.StatusIsPresent? || step.StatusIsMissing? || step.StatusIsCorrupt? || step.Abandons?
  }

  predicate CleanupStep(step: SlotStep) {
    || step.DiscardsReserved? || step.DiscardsReady? || step.DiscardFails? || step.FindsNothingLeft?
    || step.PersistsFailure?
  }

  lemma StagingKeepsInv(s: Slot, s': Slot, step: SlotStep)
    requires StagingStep(step) && SlotInv(s) && SlotNext(s, s', step)
    ensures SlotInv(s')
  {
  }

  lemma PublicationKeepsInv(s: Slot, s': Slot, step: SlotStep)
    requires PublicationStep(step) && SlotInv(s) && SlotNext(s, s', step)
    ensures SlotInv(s')
  {
  }

  lemma CleanupKeepsInv(s: Slot, s': Slot, step: SlotStep)
    requires CleanupStep(step) && SlotInv(s) && SlotNext(s, s', step)
    ensures SlotInv(s')
  {
  }

  lemma JournalStepKeepsInv(s: Slot, s': Slot, step: SlotStep)
    requires step.MarksReady? || step.Commits?
    requires SlotInv(s) && SlotNext(s, s', step)
    ensures SlotInv(s')
  {
  }

  lemma RecoveryKeepsInv(s: Slot, s': Slot, step: SlotStep)
    requires RecoveryStep(step) && SlotInv(s) && SlotNext(s, s', step)
    ensures SlotInv(s')
  {
  }

  lemma RemovalReservationKeepsInv(s: Slot, s': Slot, step: SlotStep)
    requires step.RemovalReserves?
    requires SlotInv(s) && SlotNext(s, s', step)
    ensures SlotInv(s')
  {
  }

  lemma PurgeKeepsInv(s: Slot, s': Slot, step: SlotStep)
    requires step.RemovalPurgesBytes? || step.RemovalConfirmsPurge?
    requires SlotInv(s) && SlotNext(s, s', step)
    ensures SlotInv(s')
  {
  }

  lemma SlotStepKeepsInv(s: Slot, s': Slot, step: SlotStep)
    requires SlotInv(s) && SlotNext(s, s', step)
    ensures SlotInv(s')
  {
    if StagingStep(step) {
      StagingKeepsInv(s, s', step);
    } else if PublicationStep(step) {
      PublicationKeepsInv(s, s', step);
    } else if RecoveryStep(step) {
      RecoveryKeepsInv(s, s', step);
    } else if CleanupStep(step) {
      CleanupKeepsInv(s, s', step);
    } else if step.MarksReady? || step.Commits? {
      JournalStepKeepsInv(s, s', step);
    } else if step.RemovalReserves? {
      RemovalReservationKeepsInv(s, s', step);
    } else {
      PurgeKeepsInv(s, s', step);
    }
  }

  /** No step changes the command or the artifact of a slot, or a terminal journal. */
  lemma SlotStepFrame(s: Slot, s': Slot, step: SlotStep)
    requires SlotInv(s) && SlotNext(s, s', step)
    ensures s'.key == s.key && s'.plan.artifact.id == s.plan.artifact.id
    ensures !Incomplete(s.plan) ==> s'.plan == s.plan
  {
  }

  /** An incomplete journal which nobody works on does not move. */
  lemma QuietIncompleteSlotIsStuck(s: Slot, s': Slot, step: SlotStep)
    requires SlotInv(s) && SlotNext(s, s', step)
    ensures Quiet(s) ==> !Incomplete(s.plan)
  {
  }

  lemma SlotChangeKeepsInv(w: World, w': World, id: string, slotInv: Slot -> bool)
    requires WorldInv(w, slotInv) && id in w.slots && id in w'.slots
    requires w' == w.(slots := w.slots[id := w'.slots[id]])
    requires slotInv(w'.slots[id]) && w'.slots[id].key == w.slots[id].key
    requires w'.slots[id].plan.artifact.id == w.slots[id].plan.artifact.id
    requires Quiet(w.slots[id]) ==> !Incomplete(w.slots[id].plan)
    ensures WorldInv(w', slotInv)
  {
  }

  lemma RecoveryTaskFits(s: Slot)
    requires SlotInv(s) && Quiet(s) && Incomplete(s.plan)
    ensures SlotInv(TakenUp(s, s.plan))
  {
  }

  /** Everything the whole store needs to know about one slot. */
  ghost predicate SlotContract(slotInv: Slot -> bool, slotNext: (Slot, Slot, SlotStep) -> bool) {
    && (forall s, s', step :: slotInv(s) && slotNext(s, s', step) ==>
          && slotInv(s')
          && s'.key == s.key && s'.plan.artifact.id == s.plan.artifact.id
          && (!Incomplete(s.plan) ==> s'.plan == s.plan)
          && (Quiet(s) ==> !Incomplete(s.plan)))
    && (forall s :: slotInv(s) ==> slotInv(CrashSlot(s)))
    && (forall s :: slotInv(s) && Quiet(s) && Incomplete(s.plan) ==>
          slotInv(TakenUp(s, s.plan)))
    && (forall key, artifact :: Prepare(artifact).Some? ==> slotInv(NewSlot(key, Prepare(artifact).value)))
  }

  lemma SlotStepIsGood(s: Slot, s': Slot, step: SlotStep)
    requires SlotGood(s) && SlotNext(s, s', step)
    ensures SlotGood(s')
    ensures s'.key == s.key && s'.plan.artifact.id == s.plan.artifact.id
    ensures !Incomplete(s.plan) ==> s'.plan == s.plan
    ensures Quiet(s) ==> !Incomplete(s.plan)
  {
    hide SlotInv;
    hide SlotNext;
    hide OutcomeInv;
    SlotStepKeepsInv(s, s', step);
    SlotStepFrame(s, s', step);
    QuietIncompleteSlotIsStuck(s, s', step);
    StepKeepsOutcomes(s, s', step);
  }

  lemma CrashedSlotIsGood(s: Slot)
    requires SlotGood(s)
    ensures SlotGood(CrashSlot(s))
  {
    if s.plan.failure.Some? {
      StaysGrounded(s, CrashSlot(s), s.plan.failure.value);
    }
  }

  lemma NewSlotIsGood(key: string, artifact: Artifact)
    requires Prepare(artifact).Some?
    ensures SlotGood(NewSlot(key, Prepare(artifact).value))
  {
  }

  lemma SlotsMeetTheirContract()
    ensures SlotContract(SlotGood, SlotNext)
  {
    hide SlotGood;
    hide SlotNext;
    forall s, s', step | SlotGood(s) && SlotNext(s, s', step)
      ensures SlotGood(s')
      ensures s'.key == s.key && s'.plan.artifact.id == s.plan.artifact.id
      ensures !Incomplete(s.plan) ==> s'.plan == s.plan
      ensures Quiet(s) ==> !Incomplete(s.plan)
    {
      SlotStepIsGood(s, s', step);
    }
    forall s | SlotGood(s) && Quiet(s) && Incomplete(s.plan)
      ensures SlotGood(TakenUp(s, s.plan))
    {
      TakenUpIsGood(s);
    }
    forall s | SlotGood(s)
      ensures SlotGood(CrashSlot(s))
    {
      CrashedSlotIsGood(s);
    }
    forall key, artifact | Prepare(artifact).Some?
      ensures SlotGood(NewSlot(key, Prepare(artifact).value))
    {
      NewSlotIsGood(key, artifact);
    }
  }

  lemma TakenUpIsGood(s: Slot)
    requires SlotGood(s) && Quiet(s) && Incomplete(s.plan)
    ensures SlotGood(TakenUp(s, s.plan))
  {
    hide SlotInv;
    hide OutcomeInv;
    RecoveryTaskFits(s);
    TakingUpKeepsOutcomes(s);
  }

  lemma RecoverNextKeepsInv(w: World, w': World,
                            slotInv: Slot -> bool, slotNext: (Slot, Slot, SlotStep) -> bool)
    requires SlotContract(slotInv, slotNext)
    requires WorldInv(w, slotInv) && NextBy(w, w', RecoverNext, slotNext)
    ensures WorldInv(w', slotInv)
  {
    var plans := w.recovery.value;
    var slot := w.slots[plans[0].artifact.id];
    assert slotInv(TakenUp(slot, slot.plan));
    assert forall i :: 0 <= i < |plans[1..]| ==> plans[1..][i] == plans[i + 1];
  }

  lemma StepKeepsInv(w: World, w': World, step: Step,
                     slotInv: Slot -> bool, slotNext: (Slot, Slot, SlotStep) -> bool)
    requires SlotContract(slotInv, slotNext)
    requires WorldInv(w, slotInv) && NextBy(w, w', step, slotNext)
    ensures WorldInv(w', slotInv)
  {
    match step
    case Move(id, slotStep) => SlotChangeKeepsInv(w, w', id, slotInv);
    case RecoverNext => RecoverNextKeepsInv(w, w', slotInv, slotNext);
    case Reserve(key, fingerprint, artifact) =>
      assert slotInv(NewSlot(key, Prepare(artifact).value));
    case _ =>
  }

  lemma InvIsInductive()
    ensures forall w :: Init(w) ==> Inv(w)
    ensures forall w, w' :: Inv(w) && Next(w, w') ==> Inv(w')
  {
    SlotsMeetTheirContract();
    forall w, w' | Inv(w) && Next(w, w')
      ensures Inv(w')
    {
      var step :| NextBy(w, w', step, SlotNext);
      StepKeepsInv(w, w', step, SlotGood, SlotNext);
    }
  }

  /**
   Over every run: staged bytes exist only under an incomplete journal; published bytes
   are exactly the journal's digest, and only under a content-ready journal or a
   committed version that is not purged; a failed journal owns no bytes; a committed one
   was published first and keeps its bytes until a removal claims them; and the selected
   source is read at most once per command.
   */
  lemma ImportsOwnTheirBytes(trace: seq<World>, i: nat, key: string)
    requires IsRun(Init, Next, trace) && i < |trace|
    requires key in trace[i].commands
    ensures
      var id := trace[i].commands[key].id;
      id in trace[i].slots && BytesOwned(trace[i].slots[id]) && trace[i].slots[id].sourceReads <= 1
  {
    InvIsInductive();
    InvariantHolds(Init, Next, Inv, trace, i);
    assert SlotGood(trace[i].slots[trace[i].commands[key].id]);
  }

  /**
   Over every run a journal says what happened: its content is what staging reported, at most
   64 MiB of it; a failure is recorded under the code of something that did happen to this
   import; what was staged beyond the limit is never content and fails, if it ends, as too
   large or as interrupted; what was staged within it fails as too large only if the
   publication itself reported that; and content that is ready is given up only for a failure
   that lasts.
   */
  lemma ImportsSayWhatHappened(trace: seq<World>, i: nat, key: string)
    requires IsRun(Init, Next, trace) && i < |trace|
    requires key in trace[i].commands
    ensures
      var id := trace[i].commands[key].id;
      && id in trace[i].slots
      && var s := trace[i].slots[id];
         && ContentTrue(s) && OutcomeTrue(s)
  {
    hide SlotInv;
    hide OutcomeTrue;
    InvIsInductive();
    InvariantHolds(Init, Next, Inv, trace, i);
    var s := trace[i].slots[trace[i].commands[key].id];
    assert SlotGood(s);
    RecordedOutcomeIsTrue(s);
  }

  ghost predicate KeepsPlan(w: World, key: string, id: string, plan: ImportPlan) {
    && key in w.commands && w.commands[key].id == id
    && id in w.slots && w.slots[id].plan == plan
  }

  lemma TerminalPlanIsStable(w: World, w': World, step: Step, key: string, id: string, plan: ImportPlan,
                             slotInv: Slot -> bool, slotNext: (Slot, Slot, SlotStep) -> bool)
    requires SlotContract(slotInv, slotNext)
    requires WorldInv(w, slotInv) && NextBy(w, w', step, slotNext)
    requires KeepsPlan(w, key, id, plan) && !Incomplete(plan)
    ensures KeepsPlan(w', key, id, plan)
  {
  }

  /** Once a command's journal is terminal it never changes, so every replay gives one answer. */
  lemma TerminalImportsNeverChange(trace: seq<World>, i: nat, j: nat, key: string)
    requires IsRun(Init, Next, trace) && i <= j < |trace|
    requires key in trace[i].commands && trace[i].commands[key].id in trace[i].slots
    requires !Incomplete(trace[i].slots[trace[i].commands[key].id].plan)
    ensures
      var id := trace[i].commands[key].id;
      KeepsPlan(trace[j], key, id, trace[i].slots[id].plan)
  {
    var id := trace[i].commands[key].id;
    var plan := trace[i].slots[id].plan;
    var keeps := (w: World) => KeepsPlan(w, key, id, plan);
    InvIsInductive();
    SlotsMeetTheirContract();
    forall w, w' | Inv(w) && keeps(w) && Next(w, w')
      ensures keeps(w')
    {
      var step :| NextBy(w, w', step, SlotNext);
      TerminalPlanIsStable(w, w', step, key, id, plan, SlotGood, SlotNext);
    }
    StablePropertyHolds(Init, Next, Inv, keeps, trace, i, j);
  }
}
