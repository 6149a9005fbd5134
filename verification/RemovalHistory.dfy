/**
 The store and the private objects over time. A step is the effect of one store or content
 call; a call without effect is no step. The bytes of a version are confirmed as purged only
 when they are gone, which `RemovalService` proves of every call it makes.
 */
module RemovalHistory {
  import opened Wrappers
  import opened Runs
  import opened Artifacts
  import opened RemovalPlans
  import opened RemovalRows

  datatype Store = Store(
    rows: map<string, Row>,
    commands: map<string, string>, // idempotency key to artifact
    bytes: set<Object>,
    opening: bool) // some open journal is incomplete

  datatype Step =
    | Creates(artifact: Artifact)
    | OpensChange(opening: bool)
    | RecordsVersion(content: ArtifactVersion, now: UnixMillis)
    | Reserves(id: string, expectedRevision: nat, expectedContentVersion: nat, command: Command, now: UnixMillis)
    | DeletesObject(id: string, version: nat)
    | MarksPurged(id: string, version: nat, at: UnixMillis)
    | Commits(id: string, at: UnixMillis)

  predicate PendingRow(row: Row) {
    row.removal.Some? && row.removal.value.plan.state.Pending?
  }

  predicate IsPending(s: Store, id: string) {
    id in s.rows && PendingRow(s.rows[id])
  }

  /** The store has one place for a pending removal. */
  predicate NothingPending(s: Store) {
    forall id :: id in s.rows ==> !PendingRow(s.rows[id])
  }

  predicate Takes(s: Store, s': Store, step: Step) {
    match step
    case Creates(artifact) =>
      && artifact.id !in s.rows && artifact.state.Unavailable? && artifact.Restorable()
      && s' == s.(rows := s.rows[artifact.id := Row(artifact, map[], None)])
    case OpensChange(opening) =>
      s' == s.(opening := opening)
    case RecordsVersion(content, now) =>
      var id := content.artifactId;
      && id in s.rows && content.version !in s.rows[id].retention && Retain(content).Some?
      && var next := s.rows[id].artifact.RecordContent(content.Summary(), now);
         && next.Some?
         && s' == s.(rows := s.rows[id := WithVersion(s.rows[id], next.value, content)],
                     bytes := s.bytes + {Object(id, content.version)})
    case Reserves(id, expectedRevision, expectedContentVersion, command, now) =>
      && command.key !in s.commands && id in s.rows && !s.opening && NothingPending(s)
      && var after := Reserved(s.rows[id], expectedRevision, expectedContentVersion, command, now);
         && after.Some?
         && s' == s.(rows := s.rows[id := after.value], commands := s.commands[command.key := id])
    case DeletesObject(id, version) =>
      && IsPending(s, id) && version in PendingVersions(s.rows[id])
      && s' == s.(bytes := s.bytes - {Object(id, version)})
    case MarksPurged(id, version, at) =>
      && IsPending(s, id) && version in PendingVersions(s.rows[id]) && Object(id, version) !in s.bytes
      && var purged := s.rows[id].retention[version].RecordPurged(at);
         && purged.Some?
         && s' == s.(rows := s.rows[id := MarkPurged(s.rows[id], version, purged.value)])
    case Commits(id, at) =>
      && IsPending(s, id) && PendingVersions(s.rows[id]) == {}
      && var committed := s.rows[id].removal.value.plan.Commit(at);
         && committed.Some?
         && s' == s.(rows := s.rows[id := CommittedRow(s.rows[id], committed.value)])
  }

  ghost predicate Next(s: Store, s': Store) {
    exists step :: Takes(s, s', step)
  }

  ghost predicate Init(s: Store) {
    s.rows == map[] && s.commands == map[] && s.bytes == {}
  }

  ghost predicate CommandsMatch(s: Store) {
    && (forall key :: key in s.commands ==>
          && s.commands[key] in s.rows && s.rows[s.commands[key]].removal.Some?
          && s.rows[s.commands[key]].removal.value.command.key == key)
    && (forall id :: id in s.rows && s.rows[id].removal.Some? ==>
          && s.rows[id].removal.value.command.key in s.commands
          && s.commands[s.rows[id].removal.value.command.key] == id)
  }

  ghost predicate OnePending(s: Store) {
    forall a, b :: a in s.rows && b in s.rows && PendingRow(s.rows[a]) && PendingRow(s.rows[b]) ==> a == b
  }

  ghost predicate Inv(s: Store) {
    (forall id :: id in s.rows ==> RowValid(id, s.rows[id], s.bytes)) && CommandsMatch(s) && OnePending(s)
  }

  /** What a step means for one row: other rows stay, and a row with a removal only advances. */
  ghost predicate RowsFollow(s: Store, s': Store) {
    forall id :: id in s.rows ==>
      && id in s'.rows
      && (s.rows[id].removal.Some? ==> Advanced(s.rows[id], s'.rows[id]))
  }

  lemma RowChangeKeepsInv(s: Store, s': Store, id: string)
    requires Inv(s) && id in s.rows && id in s'.rows
    requires s' == s.(rows := s.rows[id := s'.rows[id]])
    requires RowValid(id, s'.rows[id], s.bytes) && Advanced(s.rows[id], s'.rows[id])
    ensures Inv(s') && RowsFollow(s, s')
  {
    hide RowValid;
  }

  lemma RecordingKeepsInv(s: Store, s': Store, content: ArtifactVersion, now: UnixMillis)
    requires Inv(s) && Takes(s, s', RecordsVersion(content, now))
    ensures Inv(s') && RowsFollow(s, s')
  {
    hide RowValid;
    hide ValidLine;
    var id := content.artifactId;
    NewVersionIsValid(id, s.rows[id], s.bytes, content, now);
    forall other | other in s.rows && other != id
      ensures RowValid(other, s'.rows[other], s'.bytes)
    {
      OtherObjectsStayValid(other, s.rows[other], s.bytes, Object(id, content.version));
    }
    SameRemovalsMatch(s, s', id);
  }

  /** Rows without a removal may come and change freely. */
  lemma SameRemovalsMatch(s: Store, s': Store, id: string)
    requires CommandsMatch(s) && s'.commands == s.commands && (id in s.rows ==> s.rows[id].removal.None?)
    requires id in s'.rows && s'.rows[id].removal.None? && s'.rows == s.rows[id := s'.rows[id]]
    ensures CommandsMatch(s') && RowsFollow(s, s')
    ensures OnePending(s) ==> OnePending(s')
  {
  }

  lemma ReservingKeepsInv(s: Store, s': Store, step: Step)
    requires Inv(s) && step.Reserves? && Takes(s, s', step)
    ensures Inv(s') && RowsFollow(s, s')
  {
    hide RowValid;
    hide Reserved;
    ReservationIsValid(step.id, s.rows[step.id], s.bytes, step.expectedRevision, step.expectedContentVersion,
                       step.command, step.now);
  }

  lemma NothingRetainedGoes(s: Store, id: string, version: nat, other: string)
    requires Inv(s) && IsPending(s, id) && version in PendingVersions(s.rows[id]) && other in s.rows
    ensures forall v :: v in s.rows[other].retention && s.rows[other].retention[v].state.Retained? ==>
      Object(other, v) in s.bytes - {Object(id, version)}
  {
    assert RowValid(other, s.rows[other], s.bytes);
  }

  lemma DeletingKeepsInv(s: Store, s': Store, id: string, version: nat)
    requires Inv(s) && Takes(s, s', DeletesObject(id, version))
    ensures Inv(s') && RowsFollow(s, s')
  {
    hide RowValid;
    forall other | other in s.rows
      ensures RowValid(other, s.rows[other], s'.bytes)
    {
      NothingRetainedGoes(s, id, version, other);
      FewerBytesStayValid(other, s.rows[other], s.bytes, s'.bytes);
    }
  }

  lemma CreatingKeepsInv(s: Store, s': Store, artifact: Artifact)
    requires Inv(s) && Takes(s, s', Creates(artifact))
    ensures Inv(s') && RowsFollow(s, s')
  {
    hide RowValid;
    NewRowIsValid(artifact, s.bytes);
    SameRemovalsMatch(s, s', artifact.id);
  }

  lemma StepKeepsInv(s: Store, s': Store, step: Step)
    requires Inv(s) && Takes(s, s', step)
    ensures Inv(s') && RowsFollow(s, s')
  {
    hide RowValid;
    match step
    case Creates(artifact) => CreatingKeepsInv(s, s', artifact);
    case OpensChange(_) =>
    case RecordsVersion(content, now) => RecordingKeepsInv(s, s', content, now);
    case Reserves(_, _, _, _, _) => ReservingKeepsInv(s, s', step);
    case DeletesObject(id, version) => DeletingKeepsInv(s, s', id, version);
    case MarksPurged(id, version, at) =>
      MarkPurgedIsValid(id, s.rows[id], s.bytes, version, at);
      RowChangeKeepsInv(s, s', id);
    case Commits(id, at) =>
      CommitIsValid(id, s.rows[id], s.bytes, at);
      RowChangeKeepsInv(s, s', id);
  }

  function PendingRemovals(s: Store): set<string> {
    set id | id in s.rows && PendingRow(s.rows[id])
  }

  lemma AtMostOnePending(s: Store)
    requires Inv(s)
    ensures NothingPending(s) <==> PendingRemovals(s) == {}
    ensures forall id :: id in PendingRemovals(s) ==> PendingRemovals(s) == {id}
  {
    hide RowValid;
    hide CommandsMatch;
    assert forall id :: id in s.rows ==> (PendingRow(s.rows[id]) <==> id in PendingRemovals(s));
  }

  lemma NextKeepsInv(s: Store, s': Store)
    requires Inv(s) && Next(s, s')
    ensures Inv(s') && RowsFollow(s, s')
  {
    hide Takes;
    hide Inv;
    hide RowsFollow;
    var step :| Takes(s, s', step);
    StepKeepsInv(s, s', step);
  }

  lemma InvIsInductive()
    ensures forall s :: Init(s) ==> Inv(s)
    ensures forall s, s' :: Inv(s) && Next(s, s') ==> Inv(s')
  {
    forall s, s' | Inv(s) && Next(s, s')
      ensures Inv(s')
    {
      NextKeepsInv(s, s');
    }
  }

  /** Nothing of the artifact is left. */
  ghost predicate AllGone(s: Store, id: string)
    requires id in s.rows
  {
    forall version :: version in s.rows[id].retention ==>
      s.rows[id].retention[version].state.Purged? && Object(id, version) !in s.bytes
  }

  /** A tombstone without content whose committed removal has left no bytes. */
  ghost predicate Tombstone(s: Store, id: string)
    requires id in s.rows && s.rows[id].removal.Some?
  {
    var row := s.rows[id];
    && row.artifact.state.Deleted? && row.artifact.content.None?
    && (forall version :: version in row.retention && row.retention[version].state.Purged? ==>
          Object(id, version) !in s.bytes)
    && (row.removal.value.plan.state.Committed? ==> AllGone(s, id))
  }

  lemma ValidRowIsTombstone(s: Store, id: string)
    requires Inv(s) && id in s.rows && s.rows[id].removal.Some?
    ensures Tombstone(s, id)
  {
    var row := s.rows[id];
    assert RowValid(id, row, s.bytes);
    if row.removal.value.plan.state.Committed? {
      assert forall version :: version in row.retention ==> version !in PendingVersions(row);
    }
  }

  lemma {:induction false} RunsAdvance(trace: seq<Store>, i: nat, j: nat, id: string)
    requires IsRun(Init, Next, trace) && i <= j < |trace| && id in trace[i].rows && trace[i].rows[id].removal.Some?
    ensures id in trace[j].rows && Advanced(trace[i].rows[id], trace[j].rows[id])
    decreases j
  {
    hide Inv;
    hide Next;
    if i < j {
      RunsAdvance(trace, i, j - 1, id);
      InvIsInductive();
      InvariantHolds(Init, Next, Inv, trace, j - 1);
      NextKeepsInv(trace[j - 1], trace[j]);
    }
  }

  /**
   From the moment a removal is reserved, in every state of every run: the artifact stays
   the same tombstone without content under the same command; its versions stay the ones
   retained at the reservation; a purged version stays purged and its object stays absent;
   a committed removal stays committed; and committed means that every version is purged
   and no byte of it is left.
   */
  lemma RemovalsArePermanent(trace: seq<Store>, i: nat, j: nat, id: string)
    requires IsRun(Init, Next, trace) && i <= j < |trace| && id in trace[i].rows && trace[i].rows[id].removal.Some?
    ensures id in trace[j].rows && trace[j].rows[id].removal.Some?
    ensures
      var before, after := trace[i].rows[id], trace[j].rows[id];
      && after.artifact == before.artifact && after.artifact.state.Deleted? && after.artifact.content.None?
      && after.removal.value.command == before.removal.value.command
      && after.retention.Keys == before.retention.Keys
      && (forall version :: version in before.retention && before.retention[version].state.Purged? ==>
            after.retention[version] == before.retention[version] && Object(id, version) !in trace[j].bytes)
      && (before.removal.value.plan.state.Committed? ==> after.removal == before.removal)
      && (after.removal.value.plan.state.Committed? ==> AllGone(trace[j], id))
  {
    RunsAdvance(trace, i, j, id);
    InvIsInductive();
    InvariantHolds(Init, Next, Inv, trace, j);
    ValidRowIsTombstone(trace[j], id);
    hide Inv;
    hide Next;
  }

  /**
   Until its removal is reserved an artifact keeps everything: in every state of every run each
   of its versions is retained with its bytes in place, the current content among them.
   */
  lemma NothingGoesBeforeItsRemoval(trace: seq<Store>, i: nat, id: string)
    requires IsRun(Init, Next, trace) && i < |trace| && id in trace[i].rows && trace[i].rows[id].removal.None?
    ensures
      var row := trace[i].rows[id];
      && (row.artifact.content.Some? ==> row.artifact.content.value.contentVersion in row.retention)
      && (forall version :: version in row.retention ==>
            row.retention[version].state.Retained? && Object(id, version) in trace[i].bytes)
  {
    InvIsInductive();
    InvariantHolds(Init, Next, Inv, trace, i);
    assert RowValid(id, trace[i].rows[id], trace[i].bytes);
  }

  /** The state in which a removal may be reserved, and what the reservation makes of the row. */
  ghost predicate ReservesFrom(s: Store, s': Store, id: string)
    requires id in s.rows && id in s'.rows && s'.rows[id].removal.Some?
  {
    var row, row' := s.rows[id], s'.rows[id];
    && !s.opening && NothingPending(s) && row.artifact.state.Available?
    && row'.removal.value.command.key !in s.commands && row'.removal.value.plan.state.Pending?
    && row'.artifact == row.artifact.(
         content := None, state := Deleted, revision := row.artifact.revision + 1, updatedAt := row'.artifact.updatedAt)
    && PendingVersions(row') == row.retention.Keys && s'.bytes == s.bytes
  }

  lemma StepReserves(s: Store, s': Store, step: Step, id: string)
    requires Inv(s) && Takes(s, s', step) && id in s.rows && s.rows[id].removal.None?
    requires id in s'.rows && s'.rows[id].removal.Some?
    ensures ReservesFrom(s, s', id)
  {
    hide RowValid;
    hide Reserved;
    hide ValidLine;
    if step.Reserves? {
      ReservationIsValid(step.id, s.rows[step.id], s.bytes, step.expectedRevision, step.expectedContentVersion,
                         step.command, step.now);
      ReservesIff(step.id, s.rows[step.id], s.bytes, step.expectedRevision, step.expectedContentVersion,
                  step.command, step.now);
    }
  }

  /**
   Whenever in any run a removal appears, no open was incomplete, no other removal pending and
   the artifact available; its content goes, and exactly its versions are handed to the
   removal with their bytes still in place.
   */
  lemma ReservationsHaveGrounds(trace: seq<Store>, i: nat, id: string)
    requires IsRun(Init, Next, trace) && i + 1 < |trace| && id in trace[i].rows && trace[i].rows[id].removal.None?
    requires id in trace[i + 1].rows && trace[i + 1].rows[id].removal.Some?
    ensures ReservesFrom(trace[i], trace[i + 1], id)
  {
    hide Inv;
    hide Takes;
    InvIsInductive();
    InvariantHolds(Init, Next, Inv, trace, i);
    assert Next(trace[i], trace[i + 1]);
    var step :| Takes(trace[i], trace[i + 1], step);
    StepReserves(trace[i], trace[i + 1], step, id);
  }
}
