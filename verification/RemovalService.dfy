/**
 Removing artifacts. Removals run one at a time behind a lock; any store or content call
 may fail, with or without its effect, and a crash is a failure that nobody answers. What
 a failed attempt leaves behind is what the next one, or recovery, starts from.

 `history` records the store after every effect. It is always a run of `RemovalHistory`,
 so what holds in every state of every run holds of everything these methods ever do.
 */
module RemovalService {
  import opened Wrappers
  import opened Runs
  import opened Artifacts
  import opened RemovalPlans
  import opened RemovalRows
  import opened RemovalHistory

  datatype RemovalError = InvalidInput | NotFound | NotAvailable | Conflict | StoreFailed | PurgeFailed

  class ArtifactRemovals {
    var rows: map<string, Row>
    var commands: map<string, string>
    var bytes: set<Object>
    var opening: bool
    ghost var history: seq<Store>
    ghost var faults: nat // calls of the store and the content store that reported a failure of their own

    function State(): Store
      reads this
    {
      Store(rows, commands, bytes, opening)
    }

    ghost predicate Valid()
      reads this
    {
      IsRun(Init, Next, history) && history[|history| - 1] == State() && Inv(State())
    }

    ghost predicate Pending(id: string)
      reads this
    {
      IsPending(State(), id)
    }

    /** The removal is final and nothing of the artifact is left. */
    ghost predicate Gone(id: string)
      reads this
    {
      && id in rows && rows[id].removal.Some? && rows[id].removal.value.plan.state.Committed?
      && rows[id].artifact.state.Deleted? && rows[id].artifact.content.None? && AllGone(State(), id)
    }

    constructor ()
      ensures Valid() && State() == Store(map[], map[], {}, false) && history == [State()] && faults == 0
    {
      rows, commands, bytes, opening := map[], map[], {}, false;
      history := [Store(map[], map[], {}, false)];
      faults := 0;
    }

    /** The call that just took effect was one step. */
    ghost method Remember(before: Store, step: Step)
      requires IsRun(Init, Next, history) && history[|history| - 1] == before && Inv(before)
      requires Takes(before, State(), step)
      modifies this`history
      ensures Valid() && history == old(history) + [State()]
    {
      hide Takes;
      hide Inv;
      assert Next(before, State());
      RunExtends(Init, Next, history, State());
      StepKeepsInv(before, State(), step);
      history := history + [State()];
    }

    lemma CommittedIsGone(id: string)
      requires Valid() && id in rows && rows[id].removal.Some? && rows[id].removal.value.plan.state.Committed?
      ensures Gone(id)
    {
      ValidRowIsTombstone(State(), id);
    }

    /** Whether a call does what it was asked for; if it fails, it may have taken effect all the same. */
    method Call() returns (ok: bool, effective: bool)
      modifies this`faults
      ensures ok <==> faults == old(faults)
      ensures old(faults) <= faults && (ok ==> effective)
    {
      ok, effective := *, *;
      if ok {
        effective := true;
      } else {
        faults := faults + 1;
      }
    }

    // Ports

    /** Deletes one immutable object; called only for versions that are not yet marked as purged. */
    method PurgeContent(id: string, version: nat) returns (ok: bool)
      requires Valid() && Pending(id) && version in PendingVersions(rows[id])
      modifies this`bytes, this`history, this`faults
      ensures Valid() && old(history) <= history && old(faults) <= faults
      ensures bytes == old(bytes) || bytes == old(bytes) - {Object(id, version)}
      ensures ok ==> Object(id, version) !in bytes
      ensures ok <==> faults == old(faults)
    {
      hide Inv;
      hide IsRun;
      var deleted;
      ok, deleted := Call();
      if deleted {
        bytes := bytes - {Object(id, version)};
        Remember(old(State()), DeletesObject(id, version));
      }
    }

    /** The lowest pending versions in ascending order, as many as fit. */
    method ListPendingVersions(id: string, limit: nat) returns (listed: Option<seq<nat>>)
      requires id in rows && limit > 0
      modifies this`faults
      ensures listed.Some? <==> faults == old(faults)
      ensures old(faults) <= faults
      ensures listed.Some? ==>
        && |listed.value| <= limit
        && (forall i :: 0 <= i < |listed.value| ==> listed.value[i] in PendingVersions(rows[id]))
        && (forall i, j :: 0 <= i < j < |listed.value| ==> listed.value[i] < listed.value[j])
        && (forall v :: v in PendingVersions(rows[id]) && v !in listed.value ==>
              |listed.value| == limit && forall i :: 0 <= i < limit ==> listed.value[i] < v)
    {
      var ok, _ := Call();
      if !ok {
        return None;
      }
      var todo := PendingVersions(rows[id]);
      var versions := [];
      while todo != {} && |versions| < limit
        invariant todo <= PendingVersions(rows[id]) && |versions| <= limit && faults == old(faults)
        invariant forall i :: 0 <= i < |versions| ==> versions[i] in PendingVersions(rows[id])
        invariant forall v :: v in PendingVersions(rows[id]) ==> v in todo || v in versions
        invariant forall i, j :: 0 <= i < j < |versions| ==> versions[i] < versions[j]
        invariant forall i, v :: 0 <= i < |versions| && v in todo ==> versions[i] < v
        decreases todo
      {
        var version := Lowest(todo);
        versions := versions + [version];
        todo := todo - {version};
      }
      return Some(versions);
    }

    static method Lowest(numbers: set<nat>) returns (lowest: nat)
      requires numbers != {}
      ensures lowest in numbers && forall n :: n in numbers ==> lowest <= n
    {
      lowest :| lowest in numbers;
      var todo := numbers - {lowest};
      while todo != {}
        invariant lowest in numbers && todo <= numbers
        invariant forall n :: n in numbers && n !in todo ==> lowest <= n
        decreases todo
      {
        var n :| n in todo;
        lowest := if n < lowest then n else lowest;
        todo := todo - {n};
      }
    }

    /** The store confirms a purge at the expected revision of the record. */
    method MarkContentPurged(id: string, version: nat, expectedRevision: nat, at: UnixMillis) returns (ok: bool)
      requires Valid() && Pending(id) && version in PendingVersions(rows[id]) && Object(id, version) !in bytes
      modifies this`rows, this`history, this`faults
      ensures Valid() && Pending(id) && old(history) <= history && old(faults) <= faults
      ensures Proceeds(id, old(rows), old(bytes), rows, bytes) && rows == old(rows)[id := rows[id]]
      ensures
        var record := old(rows)[id].retention[version];
        ok <==> record.revision == expectedRevision && record.updatedAt <= at && faults == old(faults)
      ensures ok ==> PendingVersions(rows[id]) == PendingVersions(old(rows)[id]) - {version}
      ensures PendingVersions(rows[id]) <= PendingVersions(old(rows)[id])
    {
      hide RowValid;
      hide IsRun;
      ProceedsIsReflexive(id, rows, bytes);
      var record := rows[id].retention[version];
      if record.revision != expectedRevision || record.RecordPurged(at).None? {
        return false;
      }
      var written;
      ok, written := Call();
      if written {
        MarkPurgedIsValid(id, rows[id], bytes, version, at);
        rows := rows[id := MarkPurged(rows[id], version, record.RecordPurged(at).value)];
        Remember(old(State()), MarksPurged(id, version, at));
      }
    }

    /** The store commits a removal only when every version is purged. */
    method CommitRemoval(id: string, expectedRevision: nat, at: UnixMillis) returns (ok: bool)
      requires Valid() && Pending(id)
      modifies this`rows, this`history, this`faults
      ensures Valid() && old(history) <= history && old(faults) <= faults
      ensures Proceeds(id, old(rows), old(bytes), rows, bytes) && rows == old(rows)[id := rows[id]]
      ensures ok ==> Gone(id)
      ensures
        var plan := old(rows)[id].removal.value.plan;
        ok <==>
          && PendingVersions(old(rows)[id]) == {} && plan.revision == expectedRevision && plan.updatedAt <= at
          && faults == old(faults)
    {
      hide RowValid;
      hide IsRun;
      hide Gone;
      ProceedsIsReflexive(id, rows, bytes);
      var plan := rows[id].removal.value.plan;
      if PendingVersions(rows[id]) != {} || plan.revision != expectedRevision || plan.Commit(at).None? {
        return false;
      }
      var written;
      ok, written := Call();
      if written {
        CommitIsValid(id, rows[id], bytes, at);
        rows := rows[id := CommittedRow(rows[id], plan.Commit(at).value)];
        Remember(old(State()), Commits(id, at));
        CommittedIsGone(id);
      }
    }

    /** The artifact is still the one its caller saw, and time has not gone back. */
    static predicate Reservable(row: Row, expectedRevision: nat, expectedContentVersion: nat, now: UnixMillis) {
      && row.removal.None? && row.artifact.state.Available? && row.artifact.revision == expectedRevision
      && row.artifact.content.Some? && row.artifact.content.value.contentVersion == expectedContentVersion
      && row.artifact.updatedAt <= now
      && forall version :: version in row.retention ==> row.retention[version].updatedAt <= now
    }

    /** Tombstones the artifact and claims all its versions in one transaction. */
    method ReserveRemoval(
      id: string, expectedRevision: nat, expectedContentVersion: nat, command: Command, now: UnixMillis)
      returns (ok: bool)
      requires Valid() && command.key !in commands
      modifies this`rows, this`commands, this`history, this`faults
      ensures Valid() && old(history) <= history && old(faults) <= faults
      ensures opening || !NothingPending(old(State())) ==> !ok && rows == old(rows) && commands == old(commands)
      ensures ok ==>
        && Pending(id) && id in old(rows) && commands == old(commands)[command.key := id]
        && Some(rows[id]) == Reserved(old(rows)[id], expectedRevision, expectedContentVersion, command, now)
        && rows[id].removal.value.command == command && rows == old(rows)[id := rows[id]]
      ensures ok <==>
        && id in old(rows) && !opening && NothingPending(old(State())) && faults == old(faults)
        && old(Reservable(rows[id], expectedRevision, expectedContentVersion, now))
      ensures faults == old(faults) && !ok ==> unchanged(this)
    {
      hide RowValid;
      hide IsRun;
      hide Reserved;
      if id !in rows || opening || !NothingPending(State()) {
        return false;
      }
      ReservesIff(id, rows[id], bytes, expectedRevision, expectedContentVersion, command, now);
      var after := Reserved(rows[id], expectedRevision, expectedContentVersion, command, now);
      if after.None? {
        return false;
      }
      var written;
      ok, written := Call();
      if written {
        ReservationIsValid(id, rows[id], bytes, expectedRevision, expectedContentVersion, command, now);
        rows := rows[id := after.value];
        commands := commands[command.key := id];
        Remember(old(State()), Reserves(id, expectedRevision, expectedContentVersion, command, now));
      }
    }

    /** A new artifact, whose content is still to come. */
    method CreateArtifact(artifact: Artifact) returns (ok: bool)
      requires Valid()
      modifies this`rows, this`history
      ensures Valid() && old(history) <= history
      ensures ok <==> artifact.id !in old(rows) && artifact.state.Unavailable? && artifact.Restorable()
      ensures rows == if ok then old(rows)[artifact.id := Row(artifact, map[], None)] else old(rows)
    {
      hide Inv;
      hide IsRun;
      ok := artifact.id !in rows && artifact.state.Unavailable? && artifact.Restorable();
      if ok {
        rows := rows[artifact.id := Row(artifact, map[], None)];
        Remember(old(State()), Creates(artifact));
      }
    }

    /** Open journals begin and end beside the removals. */
    method ChangeOpening(now: bool)
      requires Valid()
      modifies this`opening, this`history
      ensures Valid() && old(history) <= history && opening == now
    {
      hide Inv;
      hide IsRun;
      opening := now;
      Remember(old(State()), OpensChange(now));
    }

    /** A new version of a living artifact; a removed one is out of its reach. */
    method RecordVersion(content: ArtifactVersion, now: UnixMillis) returns (ok: bool)
      requires Valid()
      modifies this`rows, this`bytes, this`history
      ensures Valid() && old(history) <= history
      ensures ok ==>
        && content.artifactId in old(rows) && old(rows)[content.artifactId].removal.None?
        && content.artifactId in rows && rows[content.artifactId].removal.None?
        && rows == old(rows)[content.artifactId := rows[content.artifactId]]
        && bytes == old(bytes) + {Object(content.artifactId, content.version)}
      ensures !ok ==> rows == old(rows) && bytes == old(bytes)
    {
      hide RowValid;
      hide ValidLine;
      hide IsRun;
      var id := content.artifactId;
      if id !in rows || content.version in rows[id].retention || Retain(content).None? {
        return false;
      }
      var next := rows[id].artifact.RecordContent(content.Summary(), now);
      if next.None? {
        return false;
      }
      NewVersionIsValid(id, rows[id], bytes, content, now);
      rows := rows[id := WithVersion(rows[id], next.value, content)];
      bytes := bytes + {Object(id, content.version)};
      Remember(old(State()), RecordsVersion(content, now));
      return true;
    }

    /** Whatever others do at an await: any number of imports, new versions and opens that come and go. */
    method OthersAct()
      requires Valid()
      modifies this`rows, this`bytes, this`opening, this`history
      ensures Valid() && old(history) <= history
      ensures OthersProceed(old(rows), old(bytes), rows, bytes)
    {
      hide Inv;
      hide IsRun;
      var steps: nat := *;
      while steps > 0
        invariant Valid() && old(history) <= history
        invariant OthersProceed(old(rows), old(bytes), rows, bytes)
      {
        ghost var rowsBefore, bytesBefore := rows, bytes;
        OneActs();
        OthersProceedIsTransitive(old(rows), old(bytes), rowsBefore, bytesBefore, rows, bytes);
        steps := steps - 1;
      }
    }

    method OneActs()
      requires Valid()
      modifies this`rows, this`bytes, this`opening, this`history
      ensures Valid() && old(history) <= history
      ensures OthersProceed(old(rows), old(bytes), rows, bytes)
    {
      hide Inv;
      hide IsRun;
      var kind: nat := *;
      if kind == 0 {
        var artifact: Artifact := *;
        var _ := CreateArtifact(artifact);
      } else if kind == 1 {
        var content: ArtifactVersion := *;
        var now: nat := *;
        var _ := RecordVersion(content, now);
      } else {
        var incomplete: bool := *;
        ChangeOpening(incomplete);
      }
    }

    // Operations. Others act at every await.

    /** Others acted, and this removal is where it was. */
    method Await(id: string)
      requires Valid() && Pending(id)
      modifies this`rows, this`bytes, this`opening, this`history
      ensures Valid() && Pending(id) && old(history) <= history
      ensures Proceeds(id, old(rows), old(bytes), rows, bytes) && rows[id] == old(rows)[id]
      ensures forall version :: Object(id, version) in bytes <==> Object(id, version) in old(bytes)
    {
      hide Inv;
      hide IsRun;
      hide Proceeds;
      hide OthersProceed;
      OthersAct();
      OthersLeaveItAlone(id, old(rows), old(bytes), rows, bytes);
    }

    /** One version: delete the object, then confirm its absence. */
    method PurgeVersion(id: string, version: nat) returns (ok: bool)
      requires Valid() && Pending(id) && version in PendingVersions(rows[id])
      modifies this`rows, this`bytes, this`opening, this`history, this`faults
      ensures Valid() && Pending(id) && old(history) <= history && old(faults) <= faults
      ensures Proceeds(id, old(rows), old(bytes), rows, bytes)
      ensures ok <==> faults == old(faults)
      ensures ok ==> PendingVersions(rows[id]) == PendingVersions(old(rows)[id]) - {version}
      ensures PendingVersions(rows[id]) <= PendingVersions(old(rows)[id])
    {
      hide Inv;
      hide IsRun;
      hide Proceeds;
      hide PendingVersions;
      var record := PendingRecord(rows[id], version);
      ok := PurgeContent(id, version);
      PurgingOneObject(id, version, rows, old(bytes), bytes);
      if !ok {
        return;
      }
      ghost var rows1, bytes1 := rows, bytes;
      Await(id);
      ProceedsIsTransitive(id, old(rows), old(bytes), rows1, bytes1, rows, bytes);
      ghost var rows2, bytes2 := rows, bytes;
      var now: nat := *;
      ok := MarkContentPurged(id, version, record.revision, if now < record.updatedAt then record.updatedAt else now);
      ProceedsIsTransitive(id, old(rows), old(bytes), rows2, bytes2, rows, bytes);
    }

    static function PendingRecord(row: Row, version: nat): RetentionRecord
      requires version in PendingVersions(row)
    {
      row.retention[version]
    }

    /** One listed batch, in order, up to the first failure. */
    method PurgeBatch(id: string, batch: seq<nat>) returns (ok: bool)
      requires Valid() && Pending(id)
      requires forall i :: 0 <= i < |batch| ==> batch[i] in PendingVersions(rows[id])
      requires forall i, j :: 0 <= i < j < |batch| ==> batch[i] != batch[j]
      modifies this`rows, this`bytes, this`opening, this`history, this`faults
      ensures Valid() && Pending(id) && old(history) <= history && old(faults) <= faults
      ensures Proceeds(id, old(rows), old(bytes), rows, bytes)
      ensures ok <==> faults == old(faults)
      ensures PendingVersions(rows[id]) <= PendingVersions(old(rows)[id])
      ensures ok ==> forall i :: 0 <= i < |batch| ==> batch[i] !in PendingVersions(rows[id])
    {
      hide Inv;
      hide IsRun;
      hide Proceeds;
      hide PendingVersions;
      ProceedsIsReflexive(id, rows, bytes);
      var k := 0;
      while k < |batch|
        invariant 0 <= k <= |batch|
        invariant Valid() && Pending(id) && old(history) <= history && faults == old(faults)
        invariant Proceeds(id, old(rows), old(bytes), rows, bytes)
        invariant PendingVersions(rows[id]) <= PendingVersions(old(rows)[id])
        invariant forall i :: k <= i < |batch| ==> batch[i] in PendingVersions(rows[id])
        invariant forall i :: 0 <= i < k ==> batch[i] !in PendingVersions(rows[id])
      {
        ghost var rows1, bytes1 := rows, bytes;
        Await(id);
        ProceedsIsTransitive(id, old(rows), old(bytes), rows1, bytes1, rows, bytes);
        ghost var rows2, bytes2 := rows, bytes;
        ok := PurgeVersion(id, batch[k]);
        ProceedsIsTransitive(id, old(rows), old(bytes), rows2, bytes2, rows, bytes);
        if !ok {
          return;
        }
        k := k + 1;
      }
      ok := true;
    }

    /**
     Purges every remaining version in bounded batches and then commits. Each batch that
     succeeds leaves fewer versions pending, so the loop ends for any number of versions,
     whatever others do to other artifacts at every await of it.
     */
    method ExecutePendingRemoval(id: string) returns (ok: bool)
      requires Valid() && Pending(id)
      modifies this`rows, this`bytes, this`opening, this`history, this`faults
      ensures Valid() && old(history) <= history && old(faults) <= faults
      ensures Proceeds(id, old(rows), old(bytes), rows, bytes)
      ensures ok ==> Gone(id)
      ensures ok <==> faults == old(faults)
    {
      hide Inv;
      hide IsRun;
      hide Proceeds;
      hide PendingVersions;
      hide Gone;
      var plan := rows[id].removal.value.plan;
      ProceedsIsReflexive(id, rows, bytes);
      while true
        invariant Valid() && Pending(id) && old(history) <= history && faults == old(faults)
        invariant Proceeds(id, old(rows), old(bytes), rows, bytes)
        decreases PendingVersions(rows[id])
      {
        ghost var rows1, bytes1 := rows, bytes;
        Await(id);
        ProceedsIsTransitive(id, old(rows), old(bytes), rows1, bytes1, rows, bytes);
        var pending := ListPendingVersions(id, MAX_ARTIFACT_RECOVERY_BATCH);
        if pending.None? {
          return false;
        }
        if pending.value == [] {
          NonePending(id, pending.value);
          break;
        }
        ghost var rows2, bytes2 := rows, bytes;
        ok := PurgeBatch(id, pending.value);
        ProceedsIsTransitive(id, old(rows), old(bytes), rows2, bytes2, rows, bytes);
        if !ok {
          return;
        }
        assert pending.value[0] in PendingVersions(rows2[id]) && pending.value[0] !in PendingVersions(rows[id]);
      }
      ghost var rows3, bytes3 := rows, bytes;
      Await(id);
      ProceedsIsTransitive(id, old(rows), old(bytes), rows3, bytes3, rows, bytes);
      ghost var rows4, bytes4 := rows, bytes;
      SamePlan(id, old(State()));
      var now: nat := *;
      ok := CommitRemoval(id, plan.revision, if now < plan.updatedAt then plan.updatedAt else now);
      ProceedsIsTransitive(id, old(rows), old(bytes), rows4, bytes4, rows, bytes);
    }

    lemma NonePending(id: string, listed: seq<nat>)
      requires id in rows && listed == []
      requires forall v :: v in PendingVersions(rows[id]) ==> v in listed
      ensures PendingVersions(rows[id]) == {}
    {
    }

    /** A pending removal is as it was reserved. */
    lemma SamePlan(id: string, before: Store)
      requires Inv(before) && Valid() && IsPending(before, id) && Pending(id)
      requires Proceeds(id, before.rows, before.bytes, rows, bytes)
      ensures rows[id].removal.value.plan == before.rows[id].removal.value.plan
    {
      hide ValidLine;
      assert RowValid(id, before.rows[id], before.bytes) && RowValid(id, rows[id], bytes);
    }

    ghost predicate Known(command: Command)
      reads this
    {
      && command.key in commands && commands[command.key] in rows
      && rows[commands[command.key]].removal.Some? && rows[commands[command.key]].removal.value.command == command
    }

    method ResumeOrReplay(id: string) returns (result: Result<Artifact, RemovalError>)
      requires Valid() && id in rows && rows[id].removal.Some?
      modifies this`rows, this`bytes, this`opening, this`history, this`faults
      ensures Valid() && old(history) <= history && old(rows).Keys <= rows.Keys && old(faults) <= faults
      ensures id in rows && Advanced(old(rows)[id], rows[id])
      ensures result.Ok? ==> Gone(id) && result.value == rows[id].artifact
      ensures old(Gone(id)) ==> unchanged(this) && result == Ok(rows[id].artifact)
      ensures result.Ok? <==> faults == old(faults)
      ensures result.Err? ==> result.error.PurgeFailed?
    {
      hide Inv;
      hide IsRun;
      if rows[id].removal.value.plan.state.Committed? {
        CommittedIsGone(id);
        return Ok(rows[id].artifact);
      }
      var ok := ExecutePendingRemoval(id);
      return if ok then Ok(rows[id].artifact) else Err(PurgeFailed);
    }

    /** What a request is turned away with before anything is tried. */
    ghost function Refusal(id: string, expectedRevision: nat, expectedContentVersion: nat, command: Command):
      Option<RemovalError>
      reads this
    {
      if expectedRevision == 0 || expectedContentVersion == 0 || expectedContentVersion > 1_000_000 then Some(InvalidInput)
      else if command.key in commands then if Known(command) then None else Some(Conflict)
      else if id !in rows then Some(NotFound)
      else if !rows[id].artifact.state.Available? then Some(NotAvailable)
      else if rows[id].artifact.revision == expectedRevision && rows[id].artifact.content.Some?
              && rows[id].artifact.content.value.contentVersion == expectedContentVersion then None
      else Some(Conflict)
    }

    /** The whole operation: a known command is resumed or replayed, a new one reserved and carried out. */
    method RemoveArtifact(
      id: string, expectedRevision: nat, expectedContentVersion: nat, command: Command)
      returns (result: Result<Artifact, RemovalError>)
      requires Valid()
      modifies this`rows, this`commands, this`bytes, this`opening, this`history, this`faults
      ensures Valid() && old(history) <= history && old(faults) <= faults
      ensures result.Ok? ==>
        && Known(command) && Gone(commands[command.key]) && result.value == rows[commands[command.key]].artifact
        && (old(command.key !in commands) ==> commands == old(commands)[command.key := id])
      ensures old(command.key in commands) ==> commands == old(commands)
      ensures expectedRevision > 0 && ValidContentVersion(expectedContentVersion) ==>
        old(Known(command) && Gone(commands[command.key])) ==>
        unchanged(this) && result == Ok(rows[commands[command.key]].artifact)
      // Which requests are turned away, and when a request that is not may fail
      ensures
        var refusal := old(Refusal(id, expectedRevision, expectedContentVersion, command));
        && (refusal.Some? ==> result == Err(refusal.value) && unchanged(this))
        && (refusal.None? && result.Err? ==> result.error.PurgeFailed? || result.error.StoreFailed?)
        && (refusal.None? && (result == Err(PurgeFailed) || (result.Err? && old(Known(command)))) ==> faults > old(faults))
    {
      hide RowValid;
      hide IsRun;
      hide Gone;
      if expectedRevision == 0 || !ValidContentVersion(expectedContentVersion) {
        return Err(InvalidInput);
      }
      if command.key in commands {
        var known := commands[command.key];
        if rows[known].removal.value.command != command {
          return Err(Conflict);
        }
        result := ResumeOrReplay(known);
        return;
      }
      if id !in rows {
        return Err(NotFound);
      }
      if !rows[id].artifact.state.Available? {
        return Err(NotAvailable);
      }
      if rows[id].artifact.revision != expectedRevision || rows[id].artifact.content.None?
         || rows[id].artifact.content.value.contentVersion != expectedContentVersion {
        return Err(Conflict);
      }
      OthersAct();
      var now: nat := *;
      var ok := ReserveRemoval(id, expectedRevision, expectedContentVersion, command, now);
      if !ok {
        return Err(StoreFailed);
      }
      result := ResumeOrReplay(id);
    }

    /** Start-up recovery; the store has room for one pending removal, so a pass that succeeds is never truncated. */
    method RecoverIncompleteRemovals(limit: nat) returns (result: Result<(nat, bool), RemovalError>)
      requires Valid()
      modifies this`rows, this`bytes, this`opening, this`history, this`faults
      ensures Valid() && old(history) <= history && old(rows).Keys <= rows.Keys && old(faults) <= faults
      ensures result == Err(InvalidInput) <==> limit == 0 || limit > 100
      ensures result.Ok? <==> 1 <= limit <= 100 && faults == old(faults)
      ensures result.Ok? ==> !result.value.1 && NothingPending(State())
      ensures result.Ok? ==> result.value.0 == if old(NothingPending(State())) then 0 else 1
    {
      hide Inv;
      hide IsRun;
      hide Gone;
      hide NothingPending;
      hide PendingRemovals;
      AtMostOnePending(State());
      if !(1 <= limit <= MAX_ARTIFACT_RECOVERY_BATCH) {
        return Err(InvalidInput);
      }
      var todo := PendingRemovals(State());
      var committed := 0;
      while todo != {} && committed < limit
        invariant Valid() && old(history) <= history && old(rows).Keys <= rows.Keys && faults == old(faults)
        invariant todo == PendingRemovals(State())
        invariant committed == if old(NothingPending(State())) || todo != {} then 0 else 1
        decreases todo
      {
        AtMostOnePending(State());
        var id :| id in todo;
        ghost var before := State();
        PendingOne(id);
        var ok := ExecutePendingRemoval(id);
        if !ok {
          return Err(PurgeFailed);
        }
        NoneLeft(before, id);
        todo := todo - {id};
        committed := committed + 1;
      }
      AtMostOnePending(State());
      return Ok((committed, todo != {}));
    }

    lemma PendingOne(id: string)
      requires id in PendingRemovals(State())
      ensures Pending(id)
    {
    }

    lemma NoneLeft(before: Store, id: string)
      requires Gone(id) && PendingRemovals(before) == {id}
      requires Proceeds(id, before.rows, before.bytes, rows, bytes)
      ensures PendingRemovals(State()) == {}
    {
      forall other | other in rows && other != id
        ensures !PendingRow(rows[other])
      {
        assert other in before.rows ==> other !in PendingRemovals(before);
      }
    }
  }
}
