/**
 What the store keeps about one artifact and its removal, and how it may evolve: these
 are the facts about values behind `RemovalService`.
 */
module RemovalRows {
  import opened Wrappers
  import opened Artifacts
  import opened RemovalPlans

  datatype Command = Command(key: string, fingerprint: string)

  datatype Removal = Removal(command: Command, plan: RemovalPlan)

  /** An artifact, the retention record of each of its versions, and its removal journal. */
  datatype Row = Row(artifact: Artifact, retention: map<nat, RetentionRecord>, removal: Option<Removal>)

  /** An immutable object in the private content store. */
  datatype Object = Object(artifactId: string, version: nat)

  function PendingVersions(row: Row): set<nat> {
    set version | version in row.retention && row.retention[version].state.PurgePending?
  }

  predicate RecordOf(id: string, version: nat, record: RetentionRecord) {
    record.Restorable() && record.content.artifactId == id && record.content.version == version
  }

  /**
   What is retained can be read, and the current content is. From the reservation on the
   artifact is a tombstone whose versions only wait to be purged.
   */
  ghost predicate RowValid(id: string, row: Row, bytes: set<Object>) {
    && row.artifact.id == id && row.artifact.Restorable()
    && (row.artifact.content.Some? ==> row.artifact.content.value.contentVersion in row.retention)
    && (forall version :: version in row.retention && row.retention[version].state.Retained? ==>
          Object(id, version) in bytes)
    && (forall version :: version in row.retention ==> RecordOf(id, version, row.retention[version]))
    && (forall version :: version in row.retention && row.retention[version].state.Purged? ==>
          Object(id, version) !in bytes)
    && (if row.removal.None? then forall version :: version in row.retention ==> row.retention[version].state.Retained?
        else
          && row.removal.value.plan.Restorable() && row.removal.value.plan.artifact == row.artifact
          && row.retention != map[]
          && (forall version :: version in row.retention ==> !row.retention[version].state.Retained?)
          && (row.removal.value.plan.state.Committed? ==> PendingVersions(row) == {}))
  }

  /** How a row with a removal may change: never its artifact, its versions, or anything already final. */
  ghost predicate Advanced(before: Row, after: Row) {
    && after.artifact == before.artifact && before.removal.Some? && after.removal.Some?
    && after.removal.value.command == before.removal.value.command
    && (before.removal.value.plan.state.Committed? ==> after.removal == before.removal)
    && after.retention.Keys == before.retention.Keys
    && (forall version :: version in before.retention ==>
          && after.retention[version].content == before.retention[version].content
          && (before.retention[version].state.Purged? ==> after.retention[version] == before.retention[version]))
  }

  // One version is purged

  function MarkPurged(row: Row, version: nat, record: RetentionRecord): Row {
    row.(retention := row.retention[version := record])
  }

  lemma MarkPurgedIsValid(id: string, row: Row, bytes: set<Object>, version: nat, at: UnixMillis)
    requires RowValid(id, row, bytes) && row.removal.Some? && version in row.retention
    requires row.retention[version].RecordPurged(at).Some? && Object(id, version) !in bytes
    ensures
      var after := MarkPurged(row, version, row.retention[version].RecordPurged(at).value);
      RowValid(id, after, bytes) && Advanced(row, after) && PendingVersions(after) == PendingVersions(row) - {version}
  {
    hide ValidLine;
    var after := MarkPurged(row, version, row.retention[version].RecordPurged(at).value);
    assert PendingVersions(after) == PendingVersions(row) - {version};
  }

  lemma FewerBytesStayValid(id: string, row: Row, bytes: set<Object>, fewer: set<Object>)
    requires RowValid(id, row, bytes) && fewer <= bytes
    requires forall version :: version in row.retention && row.retention[version].state.Retained? ==>
      Object(id, version) in fewer
    ensures RowValid(id, row, fewer)
  {
  }

  // All versions are handed to the removal

  function BeginAll(retention: map<nat, RetentionRecord>, now: UnixMillis): map<nat, RetentionRecord>
    requires forall v :: v in retention ==> retention[v].BeginPurge(now).Some?
  {
    map v | v in retention :: retention[v].BeginPurge(now).value
  }

  /** The reservation transaction on one row, if the store accepts it. */
  function Reserved(
    row: Row, expectedRevision: nat, expectedContentVersion: nat, command: Command, now: UnixMillis): Option<Row>
  {
    var tombstone := row.artifact.Remove(now);
    if row.removal.Some? || row.artifact.revision != expectedRevision || row.artifact.content.None?
       || row.artifact.content.value.contentVersion != expectedContentVersion then None
    else if expectedContentVersion !in row.retention
            || (exists v :: v in row.retention && row.retention[v].BeginPurge(now).None?) then None
    else if tombstone.None? || Tombstoned(tombstone.value).None? then None
    else Some(Row(tombstone.value, BeginAll(row.retention, now), Some(Removal(command, Tombstoned(tombstone.value).value))))
  }

  /** A reservation keeps every version, takes the content away, and starts from the expected state only. */
  lemma ReservationIsValid(
    id: string, row: Row, bytes: set<Object>, expectedRevision: nat, expectedContentVersion: nat, command: Command,
    now: UnixMillis)
    requires RowValid(id, row, bytes)
    requires Reserved(row, expectedRevision, expectedContentVersion, command, now).Some?
    ensures
      var after := Reserved(row, expectedRevision, expectedContentVersion, command, now).value;
      && RowValid(id, after, bytes)
      && after.removal.Some? && after.removal.value.command == command && after.removal.value.plan.state.Pending?
      && after.retention.Keys == row.retention.Keys && PendingVersions(after) == row.retention.Keys
      && (forall version :: version in row.retention ==> after.retention[version].content == row.retention[version].content)
      && after.artifact == row.artifact.(
           content := None, state := Deleted, revision := expectedRevision + 1, updatedAt := now)
      && row.removal.None? && row.artifact.state.Available? && row.artifact.revision == expectedRevision
      && row.artifact.content.Some? && row.artifact.content.value.contentVersion == expectedContentVersion
  {
    hide ValidLine;
    var after := Reserved(row, expectedRevision, expectedContentVersion, command, now).value;
    assert after.retention.Keys == row.retention.Keys;
    assert PendingVersions(after) == row.retention.Keys;
  }

  /** When the store accepts a reservation. */
  lemma ReservesIff(
    id: string, row: Row, bytes: set<Object>, expectedRevision: nat, expectedContentVersion: nat, command: Command,
    now: UnixMillis)
    requires RowValid(id, row, bytes)
    ensures Reserved(row, expectedRevision, expectedContentVersion, command, now).Some? <==>
      && row.removal.None? && row.artifact.state.Available? && row.artifact.revision == expectedRevision
      && row.artifact.content.value.contentVersion == expectedContentVersion && row.artifact.updatedAt <= now
      && (forall version :: version in row.retention ==> row.retention[version].updatedAt <= now)
  {
    hide ValidLine;
  }

  function CommittedRow(row: Row, plan: RemovalPlan): Row
    requires row.removal.Some?
  {
    row.(removal := Some(row.removal.value.(plan := plan)))
  }

  lemma CommitIsValid(id: string, row: Row, bytes: set<Object>, at: UnixMillis)
    requires RowValid(id, row, bytes) && row.removal.Some? && PendingVersions(row) == {}
    requires row.removal.value.plan.Commit(at).Some?
    ensures
      var after := CommittedRow(row, row.removal.value.plan.Commit(at).value);
      RowValid(id, after, bytes) && Advanced(row, after)
  {
  }

  /** What other callers of the store may do meanwhile: rows and objects appear, but never of a removed artifact. */
  ghost predicate OthersProceed(
    rows: map<string, Row>, bytes: set<Object>, rows': map<string, Row>, bytes': set<Object>)
  {
    && rows.Keys <= rows'.Keys && bytes <= bytes'
    && (forall id :: id in rows ==>
          rows'[id].removal == rows[id].removal && (rows[id].removal.Some? ==> rows'[id] == rows[id]))
    && (forall id :: id in rows' && id !in rows ==> rows'[id].removal.None?)
    && (forall o :: o in bytes' && o !in bytes ==> o.artifactId in rows' && rows'[o.artifactId].removal.None?)
  }

  /** This artifact's row advances and its objects go; of the others nothing changes but what others may do. */
  ghost predicate Proceeds(
    id: string, rows: map<string, Row>, bytes: set<Object>, rows': map<string, Row>, bytes': set<Object>)
  {
    && id in rows && rows.Keys <= rows'.Keys && Advanced(rows[id], rows'[id])
    && (forall o :: o in bytes' && o.artifactId == id ==> o in bytes)
    && (forall o :: o in bytes && o.artifactId != id ==> o in bytes')
    && (forall other :: other in rows && other != id ==>
          rows'[other].removal == rows[other].removal && (rows[other].removal.Some? ==> rows'[other] == rows[other]))
    && (forall other :: other in rows' && other !in rows ==> rows'[other].removal.None?)
  }

  lemma ProceedsIsTransitive(
    id: string, rows: map<string, Row>, bytes: set<Object>, rows1: map<string, Row>, bytes1: set<Object>,
    rows2: map<string, Row>, bytes2: set<Object>)
    requires Proceeds(id, rows, bytes, rows1, bytes1) && Proceeds(id, rows1, bytes1, rows2, bytes2)
    ensures Proceeds(id, rows, bytes, rows2, bytes2)
  {
  }

  lemma ProceedsIsReflexive(id: string, rows: map<string, Row>, bytes: set<Object>)
    requires id in rows && rows[id].removal.Some?
    ensures Proceeds(id, rows, bytes, rows, bytes)
  {
  }

  lemma OthersLeaveItAlone(
    id: string, rows: map<string, Row>, bytes: set<Object>, rows': map<string, Row>, bytes': set<Object>)
    requires OthersProceed(rows, bytes, rows', bytes') && id in rows && rows[id].removal.Some?
    ensures Proceeds(id, rows, bytes, rows', bytes') && rows'[id] == rows[id]
    ensures forall version :: Object(id, version) in bytes' <==> Object(id, version) in bytes
  {
  }

  lemma OthersProceedIsTransitive(
    rows: map<string, Row>, bytes: set<Object>, rows1: map<string, Row>, bytes1: set<Object>,
    rows2: map<string, Row>, bytes2: set<Object>)
    requires OthersProceed(rows, bytes, rows1, bytes1) && OthersProceed(rows1, bytes1, rows2, bytes2)
    ensures OthersProceed(rows, bytes, rows2, bytes2)
  {
  }

  lemma PurgingOneObject(id: string, version: nat, rows: map<string, Row>, bytes: set<Object>, fewer: set<Object>)
    requires id in rows && rows[id].removal.Some?
    requires fewer == bytes || fewer == bytes - {Object(id, version)}
    ensures Proceeds(id, rows, bytes, rows, fewer)
  {
  }

  lemma NewRowIsValid(artifact: Artifact, bytes: set<Object>)
    requires artifact.Restorable() && artifact.state.Unavailable?
    ensures RowValid(artifact.id, Row(artifact, map[], None), bytes)
  {
  }

  function WithVersion(row: Row, next: Artifact, content: ArtifactVersion): Row
    requires Retain(content).Some?
  {
    row.(artifact := next, retention := row.retention[content.version := Retain(content).value])
  }

  lemma NewVersionIsValid(id: string, row: Row, bytes: set<Object>, content: ArtifactVersion, now: UnixMillis)
    requires RowValid(id, row, bytes) && content.artifactId == id && content.version !in row.retention
    requires Retain(content).Some? && row.artifact.RecordContent(content.Summary(), now).Some?
    ensures row.removal.None?
    ensures
      var next := row.artifact.RecordContent(content.Summary(), now).value;
      RowValid(id, WithVersion(row, next, content), bytes + {Object(id, content.version)})
  {
  }

  lemma OtherObjectsStayValid(id: string, row: Row, bytes: set<Object>, added: Object)
    requires RowValid(id, row, bytes) && added.artifactId != id
    ensures RowValid(id, row, bytes + {added})
  {
  }
}
