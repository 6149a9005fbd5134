/**
 The two records of a removal: the retention record of each immutable version and
 the removal journal. Both come with the check on stored records and the proof
 that it accepts exactly the reachable ones.
 */
module RemovalPlans {
  import opened Wrappers
  import opened Artifacts
  import Transitions

  datatype RetentionState = Retained | PurgePending | Purged

  datatype RetentionRecord = RetentionRecord(
    content: ArtifactVersion, state: RetentionState, revision: nat, createdAt: UnixMillis,
    updatedAt: UnixMillis, purgedAt: Option<UnixMillis>)
  {
    /** The version now belongs to a removal, and its object may go. */
    function BeginPurge(now: UnixMillis): Option<RetentionRecord> {
      if !state.Retained? || now < updatedAt then None
      else Some(this.(state := PurgePending, revision := 1, updatedAt := now))
    }

    /** The object is known to be gone. */
    function RecordPurged(now: UnixMillis): Option<RetentionRecord> {
      if !state.PurgePending? || now < updatedAt then None
      else Some(this.(state := Purged, revision := 2, updatedAt := now, purgedAt := Some(now)))
    }

    predicate Restorable() {
      && content.Restorable()
      && createdAt == content.createdAt
      && createdAt <= updatedAt
      && match state
         case Retained => revision == 0 && updatedAt == createdAt && purgedAt.None?
         case PurgePending => revision == 1 && purgedAt.None?
         case Purged => revision == 2 && purgedAt == Some(updatedAt)
    }
  }

  function Retain(content: ArtifactVersion): Option<RetentionRecord> {
    if !content.Restorable() then None
    else Some(RetentionRecord(content, Retained, 0, content.createdAt, content.createdAt, None))
  }

  datatype RetentionTransition = PurgeBegan(at: UnixMillis) | PurgeConfirmed(at: UnixMillis)

  function ApplyRetention(record: RetentionRecord, transition: RetentionTransition): Option<RetentionRecord> {
    match transition
    case PurgeBegan(at) => record.BeginPurge(at)
    case PurgeConfirmed(at) => record.RecordPurged(at)
  }

  ghost predicate RetentionReachableBy(
    record: RetentionRecord, content: ArtifactVersion, transitions: seq<RetentionTransition>)
  {
    Retain(content).Some? && Transitions.ApplyAll(ApplyRetention, Retain(content).value, transitions) == Some(record)
  }

  /** Some history of the record's own transitions, of any content and any length, ends in the record. */
  ghost predicate RetentionReachable(record: RetentionRecord) {
    exists content, transitions :: RetentionReachableBy(record, content, transitions)
  }

  lemma RetentionTransitionKeepsRestorable(record: RetentionRecord, transition: RetentionTransition)
    requires record.Restorable() && ApplyRetention(record, transition).Some?
    ensures ApplyRetention(record, transition).value.Restorable()
  {
  }

  function RetentionHistory(record: RetentionRecord): seq<RetentionTransition> {
    match record.state
    case Retained => []
    case PurgePending => [PurgeBegan(record.updatedAt)]
    case Purged => [PurgeBegan(record.createdAt), PurgeConfirmed(record.updatedAt)]
  }

  lemma RetentionHistoryReaches(record: RetentionRecord)
    requires record.Restorable()
    ensures RetentionReachableBy(record, record.content, RetentionHistory(record))
  {
    var start := Retain(record.content).value;
    Transitions.OneTransition(ApplyRetention, start, PurgeBegan(record.updatedAt));
    Transitions.TwoTransitions(ApplyRetention, start, PurgeBegan(record.createdAt), PurgeConfirmed(record.updatedAt));
  }

  lemma RetentionRestorableIffReachable(record: RetentionRecord)
    ensures record.Restorable() <==> RetentionReachable(record)
  {
    if record.Restorable() {
      RetentionHistoryReaches(record);
    }
    forall content, transitions | RetentionReachableBy(record, content, transitions)
      ensures record.Restorable()
    {
      forall r: RetentionRecord, t: RetentionTransition | r.Restorable() && ApplyRetention(r, t).Some?
        ensures ApplyRetention(r, t).value.Restorable()
      {
        RetentionTransitionKeepsRestorable(r, t);
      }
      Transitions.HistoriesKeep(
        ApplyRetention, (r: RetentionRecord) => r.Restorable(), Retain(content).value, transitions);
    }
  }

  datatype RemovalState = Pending | Committed

  datatype RemovalPlan = RemovalPlan(
    artifact: Artifact, state: RemovalState, revision: nat, createdAt: UnixMillis,
    updatedAt: UnixMillis)
  {
    /** The removal is over; its caller has made sure that no version is left to purge. */
    function Commit(now: UnixMillis): Option<RemovalPlan> {
      if !state.Pending? || now < updatedAt then None
      else Some(this.(state := Committed, revision := 1, updatedAt := now))
    }

    predicate Restorable() {
      && artifact.Restorable()
      && artifact.state.Deleted?
      && artifact.content.None?
      && artifact.updatedAt == createdAt
      && createdAt <= updatedAt
      && match state
         case Pending => revision == 0 && updatedAt == createdAt
         case Committed => revision == 1
    }
  }

  function Tombstoned(artifact: Artifact): Option<RemovalPlan> {
    if !artifact.Restorable() || !artifact.state.Deleted? || artifact.content.Some? then None
    else Some(RemovalPlan(artifact, Pending, 0, artifact.updatedAt, artifact.updatedAt))
  }

  datatype RemovalTransition = WasCommitted(at: UnixMillis)

  function ApplyRemoval(plan: RemovalPlan, transition: RemovalTransition): Option<RemovalPlan> {
    plan.Commit(transition.at)
  }

  ghost predicate RemovalReachableBy(plan: RemovalPlan, artifact: Artifact, transitions: seq<RemovalTransition>) {
    && Tombstoned(artifact).Some?
    && Transitions.ApplyAll(ApplyRemoval, Tombstoned(artifact).value, transitions) == Some(plan)
  }

  /** Some history of commits, of any tombstone and any length, ends in the journal record. */
  ghost predicate RemovalReachable(plan: RemovalPlan) {
    exists artifact, transitions :: RemovalReachableBy(plan, artifact, transitions)
  }

  lemma RemovalTransitionKeepsRestorable(plan: RemovalPlan, transition: RemovalTransition)
    requires plan.Restorable() && ApplyRemoval(plan, transition).Some?
    ensures ApplyRemoval(plan, transition).value.Restorable()
  {
  }

  lemma RemovalHistoryReaches(plan: RemovalPlan)
    requires plan.Restorable()
    ensures RemovalReachableBy(
              plan, plan.artifact, if plan.state.Pending? then [] else [WasCommitted(plan.updatedAt)])
  {
    Transitions.OneTransition(ApplyRemoval, Tombstoned(plan.artifact).value, WasCommitted(plan.updatedAt));
  }

  lemma RemovalRestorableIffReachable(plan: RemovalPlan)
    ensures plan.Restorable() <==> RemovalReachable(plan)
  {
    if plan.Restorable() {
      RemovalHistoryReaches(plan);
    }
    forall artifact, transitions | RemovalReachableBy(plan, artifact, transitions)
      ensures plan.Restorable()
    {
      forall p: RemovalPlan, t: RemovalTransition | p.Restorable() && ApplyRemoval(p, t).Some?
        ensures ApplyRemoval(p, t).value.Restorable()
      {
        RemovalTransitionKeepsRestorable(p, t);
      }
      Transitions.HistoriesKeep(
        ApplyRemoval, (p: RemovalPlan) => p.Restorable(), Tombstoned(artifact).value, transitions);
    }
  }
}
