/**
 Artifact metadata and immutable content versions, with the domain's own checks
 on persisted shapes (the `restore` constructors of the domain types).
 */
module Artifacts {
  import opened Wrappers
  import opened Limits
  import Text

  /** Milliseconds since the epoch, an unsigned 64-bit value in the source. */
  type UnixMillis = nat

  const MAX_NAME_BYTES: nat := 200
  const MAX_MEDIA_TYPE_BYTES: nat := 255
  const MAX_ARTIFACT_CONTENT_VERSION: nat := 1_000_000

  /** How many journals or versions one pass of a recovery or removal takes up. */
  const MAX_ARTIFACT_RECOVERY_BATCH: nat := 100

  datatype ArtifactState = Unavailable | Available | Deleted

  datatype ContentSummary = ContentSummary(contentVersion: nat, mediaType: string, byteSize: nat)

  datatype ArtifactVersion = ArtifactVersion(
    artifactId: string, version: nat, sha256: string, mediaType: string, byteSize: nat,
    createdAt: UnixMillis)
  {
    function Summary(): ContentSummary {
      ContentSummary(version, mediaType, byteSize)
    }

    predicate Restorable() {
      ValidContentVersion(version) && ValidLine(mediaType, MAX_MEDIA_TYPE_BYTES)
    }
  }

  datatype Artifact = Artifact(
    id: string, projectId: string, threadId: Option<string>, name: string,
    content: Option<ContentSummary>, state: ArtifactState, revision: nat,
    createdAt: UnixMillis, updatedAt: UnixMillis)
  {
    /** The exact persisted shapes the domain accepts. */
    predicate Restorable() {
      && ValidLine(name, MAX_NAME_BYTES)
      && createdAt <= updatedAt
      && (content.Some? ==>
            && ValidContentVersion(content.value.contentVersion)
            && ValidLine(content.value.mediaType, MAX_MEDIA_TYPE_BYTES))
      && match state
         case Unavailable => content.None? && revision == 0 && updatedAt == createdAt
         case Available => content.Some? && revision == content.value.contentVersion
         case Deleted => content.None? && revision > 0
    }

    /** Makes the next immutable version current, after its bytes were published. */
    function RecordContent(summary: ContentSummary, now: UnixMillis): Option<Artifact> {
      var expected := if content.None? then 1 else content.value.contentVersion + 1;
      if
        || state.Deleted?
        || !ValidContentVersion(summary.contentVersion)
        || !ValidLine(summary.mediaType, MAX_MEDIA_TYPE_BYTES)
        || expected > MAX_ARTIFACT_CONTENT_VERSION
        || summary.contentVersion != expected
        || now < updatedAt
        || revision == U64_MAX
      then None
      else Some(this.(content := Some(summary), state := Available,
                      revision := revision + 1, updatedAt := now))
    }

    /** Replaces an available artifact by a metadata tombstone. */
    function Remove(now: UnixMillis): Option<Artifact> {
      if !state.Available? || content.None? || now < updatedAt || revision == U64_MAX then None
      else Some(this.(content := None, state := Deleted, revision := revision + 1, updatedAt := now))
    }
  }

  predicate ValidContentVersion(version: nat) {
    1 <= version <= MAX_ARTIFACT_CONTENT_VERSION
  }

  predicate IsSpace(c: char) {
    c == ' ' || '\t' <= c <= '\r' || c == '\U{0085}' || c == '\U{00a0}'
  }

  /** One non-blank line without control characters, of at most `maximum` characters. */
  predicate ValidLine(text: string, maximum: nat) {
    && (exists i :: 0 <= i < |text| && !IsSpace(text[i]))
    && |text| <= maximum
    && forall i :: 0 <= i < |text| ==> !Text.Control(text[i])
  }
}
