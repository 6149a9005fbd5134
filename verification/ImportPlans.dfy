/**
 The durable import journal record: its transitions, the check applied to every
 record read back from storage, and the proof that the check accepts exactly the
 records the transitions can produce.
 */
module ImportPlans {
  import opened Wrappers
  import opened Artifacts
  import opened Limits
  import Transitions

  datatype ImportState = Prepared | ContentReady | Committed | Failed

  datatype ImportFailure =
    | SourceUnavailable
    | SourceChanged
    | FileTooLarge
    | ProjectByteQuotaExceeded
    | GlobalByteQuotaExceeded
    | ProjectCountQuotaExceeded
    | DeadlineExceeded
    | IntegrityFailure
    | ContentStoreUnavailable
    | InterruptedBeforeContentReady

  datatype ImportPlan = ImportPlan(
    artifact: Artifact, state: ImportState, content: Option<ArtifactVersion>,
    failure: Option<ImportFailure>, revision: nat, createdAt: UnixMillis, updatedAt: UnixMillis)
  {
    /** The staged bytes are complete and are from now on those of the first version. */
    function RecordContentReady(version: ArtifactVersion, now: UnixMillis): Option<ImportPlan> {
      if
        || !state.Prepared?
        || version.artifactId != artifact.id
        || version.version != 1
        || now < updatedAt
        || !version.Restorable()
      then None
      else Some(this.(state := ContentReady, content := Some(version), revision := 1, updatedAt := now))
    }

    /** The artifact as it stands once its published content is current; nothing else of it may differ. */
    function Commit(next: Artifact, now: UnixMillis): Option<ImportPlan> {
      if
        || content.None?
        || !state.ContentReady?
        || next.id != artifact.id
        || next.projectId != artifact.projectId
        || next.threadId != artifact.threadId
        || next.name != artifact.name
        || next.createdAt != artifact.createdAt
        || next.content != Some(content.value.Summary())
        || !next.state.Available?
        || now < updatedAt
        || !next.Restorable()
      then None
      else Some(this.(artifact := next, state := Committed, revision := 2, updatedAt := now))
    }

    /** Records a stable failure and keeps the staging metadata. */
    function Fail(code: ImportFailure, now: UnixMillis): Option<ImportPlan> {
      if !(state.Prepared? || state.ContentReady?) || now < updatedAt || revision == U64_MAX then None
      else Some(this.(state := Failed, failure := Some(code), revision := revision + 1, updatedAt := now))
    }

    /** The check made on every record read back from durable storage. */
    predicate Restorable() {
      && artifact.Restorable()
      && createdAt <= updatedAt
      && artifact.createdAt == createdAt
      && (content.Some? ==>
            && content.value.Restorable()
            && content.value.artifactId == artifact.id
            && content.value.version == 1)
      && match state
         case Prepared =>
           && artifact.state.Unavailable?
           && content.None? && failure.None? && revision == 0 && updatedAt == createdAt
         case ContentReady =>
           artifact.state.Unavailable? && content.Some? && failure.None? && revision == 1
         case Committed =>
           && artifact.state.Available?
           && failure.None? && revision == 2
           && content.Some? && artifact.content == Some(content.value.Summary())
         case Failed =>
           && artifact.state.Unavailable?
           && failure.Some?
           && (revision == 1 || revision == 2)
           && (content.Some? <==> revision == 2)
    }
  }

  /** The first record of a newly reserved artifact. */
  function Prepare(artifact: Artifact): Option<ImportPlan> {
    if !artifact.Restorable() || !artifact.state.Unavailable? then None
    else Some(ImportPlan(artifact, Prepared, None, None, 0, artifact.createdAt, artifact.createdAt))
  }

  datatype Transition =
    | ContentBecameReady(version: ArtifactVersion, at: UnixMillis)
    | WasCommitted(next: Artifact, at: UnixMillis)
    | HasFailed(code: ImportFailure, at: UnixMillis)

  function Apply(plan: ImportPlan, transition: Transition): Option<ImportPlan> {
    match transition
    case ContentBecameReady(version, at) => plan.RecordContentReady(version, at)
    case WasCommitted(next, at) => plan.Commit(next, at)
    case HasFailed(code, at) => plan.Fail(code, at)
  }

  ghost predicate ReachableBy(plan: ImportPlan, artifact: Artifact, transitions: seq<Transition>) {
    Prepare(artifact).Some? && Transitions.ApplyAll(Apply, Prepare(artifact).value, transitions) == Some(plan)
  }

  /** Some history of the record's own transitions, in time order, ends in `plan`. */
  ghost predicate Reachable(plan: ImportPlan) {
    exists artifact, transitions :: ReachableBy(plan, artifact, transitions)
  }

  lemma TransitionKeepsRestorable(plan: ImportPlan, transition: Transition)
    requires plan.Restorable() && Apply(plan, transition).Some?
    ensures Apply(plan, transition).value.Restorable()
  {
  }

  /** No history leads from an acceptable record to one that would be rejected. */
  lemma TransitionsKeepRestorable(plan: ImportPlan, transitions: seq<Transition>)
    requires plan.Restorable()
    ensures
      var last := Transitions.ApplyAll(Apply, plan, transitions);
      last.Some? ==> last.value.Restorable()
  {
    forall p: ImportPlan, t: Transition | p.Restorable() && Apply(p, t).Some?
      ensures Apply(p, t).value.Restorable()
    {
      TransitionKeepsRestorable(p, t);
    }
    Transitions.HistoriesKeep(Apply, (p: ImportPlan) => p.Restorable(), plan, transitions);
  }

  /** The reservation every restorable record must have started from. */
  function Reservation(plan: ImportPlan): Artifact {
    plan.artifact.(content := None, state := Unavailable, revision := 0,
                   updatedAt := plan.artifact.createdAt)
  }

  /** A history which ends in the given restorable record. */
  function History(plan: ImportPlan): seq<Transition>
    requires plan.Restorable()
  {
    var ready := if plan.content.Some? then [ContentBecameReady(plan.content.value,
      if plan.state.ContentReady? then plan.updatedAt else plan.createdAt)] else [];
    match plan.state
    case Prepared => []
    case ContentReady => ready
    case Committed => ready + [WasCommitted(plan.artifact, plan.updatedAt)]
    case Failed => ready + [HasFailed(plan.failure.value, plan.updatedAt)]
  }

  lemma HistoryReaches(plan: ImportPlan)
    requires plan.Restorable()
    ensures ReachableBy(plan, Reservation(plan), History(plan))
  {
    var start := Prepare(Reservation(plan)).value;
    var history := History(plan);
    if |history| == 1 {
      Transitions.OneTransition(Apply, start, history[0]);
      assert history == [history[0]];
    } else if |history| == 2 {
      Transitions.TwoTransitions(Apply, start, history[0], history[1]);
      assert history == [history[0], history[1]];
    }
  }

  lemma RestorableIffReachable(plan: ImportPlan)
    ensures plan.Restorable() <==> Reachable(plan)
  {
    if plan.Restorable() {
      HistoryReaches(plan);
    }
    forall artifact, transitions | ReachableBy(plan, artifact, transitions)
      ensures plan.Restorable()
    {
      TransitionsKeepRestorable(Prepare(artifact).value, transitions);
    }
  }
}
