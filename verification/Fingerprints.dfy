/**
 The preimages of idempotency fingerprints: a scope and a list of parts, each behind its
 length, and the parts of a scheduler evaluation.
 */
module Fingerprints {
  import opened Wrappers
  import opened Bytes
  import opened Limits
  import opened Text

  type Part = seq<Byte>

  type U8 = Byte
  type U32 = n: nat | n <= U32_MAX
  type U64 = n: nat | n <= U64_MAX
  type I32 = n: int | -0x8000_0000 <= n <= 0x7fff_ffff

  datatype MutationCommand<Digest> = MutationCommand(scope: Part, key: string, fingerprint: Digest)

  function HashedPart(part: Part): seq<Byte> {
    BigEndian(8, if |part| <= U64_MAX then |part| else U64_MAX) + part
  }

  function Preimage(parts: seq<Part>): seq<Byte> {
    if parts == [] then [] else HashedPart(parts[0]) + Preimage(parts[1..])
  }

  /** Lengths that fit the host's 64-bit sizes. */
  predicate Addressable(parts: seq<Part>) {
    forall i :: 0 <= i < |parts| ==> |parts[i]| <= U64_MAX
  }

  /** Reads a preimage back. */
  function Parts(bytes: seq<Byte>): Option<seq<Part>>
    decreases |bytes|
  {
    if bytes == [] then Some([])
    else if |bytes| < 8 then None
    else
      var length := FromBigEndian(bytes[..8]);
      if 8 + length > |bytes| then None
      else
        var rest := Parts(bytes[8 + length..]);
        if rest.None? then None else Some([bytes[8..8 + length]] + rest.value)
  }

  lemma {:induction false} PreimageDecodes(parts: seq<Part>)
    requires Addressable(parts)
    ensures Parts(Preimage(parts)) == Some(parts)
  {
    if parts != [] {
      var head := parts[0];
      var bytes := Preimage(parts);
      Widths();
      NumberSurvives(8, |head|);
      assert bytes[..8] == BigEndian(8, |head|);
      assert bytes[8..8 + |head|] == head;
      assert bytes[8 + |head|..] == Preimage(parts[1..]);
      PreimageDecodes(parts[1..]);
      assert parts == [head] + parts[1..];
    }
  }

  lemma PreimageIsInjective(a: seq<Part>, b: seq<Part>)
    requires Addressable(a) && Addressable(b) && Preimage(a) == Preimage(b)
    ensures a == b
  {
    PreimageDecodes(a);
    PreimageDecodes(b);
  }

  lemma {:induction false} PreimageSnoc(parts: seq<Part>, part: Part)
    ensures Preimage(parts + [part]) == Preimage(parts) + HashedPart(part)
  {
    if parts == [] {
      assert parts + [part] == [part];
    } else {
      PreimageSnoc(parts[1..], part);
      assert (parts + [part])[1..] == parts[1..] + [part];
      var a, b, c := HashedPart(parts[0]), Preimage(parts[1..]), HashedPart(part);
      assert a + (b + c) == (a + b) + c;
    }
  }

  predicate ValidKey(key: string) {
    key != "" && ByteLength(key) <= 128 && forall i :: 0 <= i < |key| ==> !Control(key[i])
  }

  method MutationCommandBytes<Digest>(
    digest: seq<Byte> -> Digest, scope: Part, key: string, parts: seq<Part>)
    returns (result: Result<MutationCommand<Digest>, ()>)
    ensures result.Ok? <==> ValidKey(key)
    ensures result.Ok? ==> result.value == MutationCommand(scope, key, digest(Preimage([scope] + parts)))
  {
    if !ValidKey(key) {
      return Err(());
    }
    var hashed := HashedPart(scope);
    assert [scope] == [scope] + parts[..0];
    var i := 0;
    while i < |parts|
      invariant 0 <= i <= |parts|
      invariant hashed == Preimage([scope] + parts[..i])
    {
      PreimageSnoc([scope] + parts[..i], parts[i]);
      assert [scope] + parts[..i + 1] == [scope] + parts[..i] + [parts[i]];
      hashed := hashed + HashedPart(parts[i]);
      i := i + 1;
    }
    assert parts[..i] == parts;
    return Ok(MutationCommand(scope, key, digest(hashed)));
  }

  // The parts of a scheduler evaluation

  datatype Lease = Lease(ownerId: Part, fence: U64)

  datatype LocalDateTime = LocalDateTime(year: I32, month: U8, day: U8, hour: U8, minute: U8)

  datatype Decision = Due(nominalLocal: LocalDateTime, scheduledFor: U64) | SkippedNonexistent(nominalLocal: LocalDateTime)

  datatype Cursor = Cursor(
    automationId: Part, definitionRevision: U64, scheduleFingerprint: Part, calculatorVersion: U32,
    evaluatedThrough: U64, nextDecision: Option<Decision>, revision: U64, createdAt: U64, updatedAt: U64)

  datatype MissedRunPolicy = RunOnce | SkipMissed

  datatype OverlapPolicy = QueueOne | SkipOverlap

  datatype OccurrenceState =
    | Pending | QueuedOverlap | Claimed | RunLinked | Succeeded | Failed | SkippedMissed | SkippedOverlap
    | SkippedInvalidLocalTime | InterruptedNeedsReview | Cancelled

  datatype Snapshot = Snapshot(
    projectId: Part, definitionRevision: U64, title: Part, prompt: Part, canonicalSchedule: Part, timezone: Part,
    missedRunPolicy: MissedRunPolicy, overlapPolicy: OverlapPolicy, scheduleFingerprint: Part, calculatorVersion: U32)

  /** The fields of an occurrence that enter the fingerprint: all but its claim and its run. */
  datatype Occurrence = Occurrence(
    id: Part, automationId: Part, snapshot: Snapshot, nominalLocal: LocalDateTime, scheduledFor: Option<U64>,
    occurrenceCount: U32, state: OccurrenceState, claimAttemptCount: U32, revision: U64, createdAt: U64, updatedAt: U64)

  datatype Evaluation = Evaluation(
    lease: Lease, automationRevision: U64, expectedCursorRevision: Option<U64>, cursor: Cursor,
    occurrences: seq<Occurrence>)

  function U64Part(n: U64): Part {
    BigEndian(8, n)
  }

  function U32Part(n: U32): Part {
    BigEndian(4, n)
  }

  function I32Part(n: I32): Part {
    BigEndian(4, if n < 0 then n + 0x1_0000_0000 else n)
  }

  function LocalParts(local: LocalDateTime): seq<Part> {
    [I32Part(local.year), [local.month, local.day, local.hour, local.minute]]
  }

  function OptionalParts(value: Option<U64>): seq<Part> {
    if value.Some? then [[1], U64Part(value.value)] else [[0]]
  }

  function DecisionParts(decision: Option<Decision>): seq<Part> {
    if decision.None? then [[0]]
    else match decision.value
      case Due(local, scheduledFor) => [[1]] + LocalParts(local) + [U64Part(scheduledFor)]
      case SkippedNonexistent(local) => [[2]] + LocalParts(local)
  }

  function MissedKey(policy: MissedRunPolicy): U8 {
    match policy
    case RunOnce => 1
    case SkipMissed => 2
  }

  function OverlapKey(policy: OverlapPolicy): U8 {
    match policy
    case QueueOne => 1
    case SkipOverlap => 2
  }

  function StateKey(state: OccurrenceState): U8 {
    match state
    case Pending => 0
    case QueuedOverlap => 1
    case Claimed => 2
    case RunLinked => 3
    case Succeeded => 4
    case Failed => 5
    case SkippedMissed => 6
    case SkippedOverlap => 7
    case SkippedInvalidLocalTime => 8
    case InterruptedNeedsReview => 9
    case Cancelled => 10
  }

  function SnapshotParts(s: Snapshot): seq<Part> {
    [s.projectId, U64Part(s.definitionRevision), s.title, s.prompt, s.canonicalSchedule, s.timezone,
     [MissedKey(s.missedRunPolicy)], [OverlapKey(s.overlapPolicy)], s.scheduleFingerprint, U32Part(s.calculatorVersion)]
  }

  function OccurrenceHead(o: Occurrence): seq<Part> {
    [o.id, o.automationId] + SnapshotParts(o.snapshot) + LocalParts(o.nominalLocal)
  }

  function OccurrenceTail(o: Occurrence): seq<Part> {
    [U32Part(o.occurrenceCount), [StateKey(o.state)], U32Part(o.claimAttemptCount),
     U64Part(o.revision), U64Part(o.createdAt), U64Part(o.updatedAt)]
  }

  function OccurrenceParts(o: Occurrence): seq<Part> {
    OccurrenceHead(o) + OptionalParts(o.scheduledFor) + OccurrenceTail(o)
  }

  function OccurrencesParts(occurrences: seq<Occurrence>): seq<Part> {
    if occurrences == [] then [] else OccurrenceParts(occurrences[0]) + OccurrencesParts(occurrences[1..])
  }

  function LeaseParts(e: Evaluation): seq<Part> {
    [e.lease.ownerId, U64Part(e.lease.fence), e.cursor.automationId, U64Part(e.automationRevision)]
  }

  function CursorHead(c: Cursor): seq<Part> {
    [U64Part(c.definitionRevision), c.scheduleFingerprint, U32Part(c.calculatorVersion), U64Part(c.evaluatedThrough)]
  }

  function CursorTail(c: Cursor): seq<Part> {
    [U64Part(c.revision), U64Part(c.createdAt), U64Part(c.updatedAt)]
  }

  function CursorParts(c: Cursor): seq<Part> {
    CursorHead(c) + DecisionParts(c.nextDecision) + CursorTail(c)
  }

  function CountParts(occurrences: seq<Occurrence>): seq<Part> {
    [U64Part(if |occurrences| <= U64_MAX then |occurrences| else U64_MAX)]
  }

  function EvaluationParts(e: Evaluation): seq<Part> {
    LeaseParts(e) + OptionalParts(e.expectedCursorRevision) + CursorParts(e.cursor)
    + (CountParts(e.occurrences) + OccurrencesParts(e.occurrences))
  }

  // Reading the parts back: each segment cancels from the front of two equal lists.

  lemma SplitAt<T>(a: seq<T>, b: seq<T>, r: seq<T>, s: seq<T>)
    requires |a| == |b| && a + r == b + s
    ensures a == b && r == s
  {
    assert a == (a + r)[..|a|] && b == (b + s)[..|b|];
    assert r == (a + r)[|a|..] && s == (b + s)[|b|..];
  }

  lemma NumbersCancel(width: nat, m: nat, n: nat)
    requires m < Base(width) && n < Base(width) && BigEndian(width, m) == BigEndian(width, n)
    ensures m == n
  {
    NumberSurvives(width, m);
    NumberSurvives(width, n);
  }

  lemma U64Cancel(m: U64, n: U64)
    ensures U64Part(m) == U64Part(n) ==> m == n
  {
    Widths();
    if U64Part(m) == U64Part(n) {
      NumbersCancel(8, m, n);
    }
  }

  lemma U32Cancel(m: U32, n: U32)
    ensures U32Part(m) == U32Part(n) ==> m == n
  {
    Widths();
    if U32Part(m) == U32Part(n) {
      NumbersCancel(4, m, n);
    }
  }

  lemma LocalCancels(x: LocalDateTime, y: LocalDateTime)
    requires LocalParts(x) == LocalParts(y)
    ensures x == y
  {
    Widths();
    assert LocalParts(x)[0] == LocalParts(y)[0] && LocalParts(x)[1] == LocalParts(y)[1];
    NumbersCancel(4, if x.year < 0 then x.year + 0x1_0000_0000 else x.year,
                  if y.year < 0 then y.year + 0x1_0000_0000 else y.year);
    var p, q := LocalParts(x)[1], LocalParts(y)[1];
    assert p[0] == q[0] && p[1] == q[1] && p[2] == q[2] && p[3] == q[3];
  }

  lemma OptionalCancels(x: Option<U64>, y: Option<U64>, r: seq<Part>, s: seq<Part>)
    requires OptionalParts(x) + r == OptionalParts(y) + s
    ensures x == y && r == s
  {
    assert OptionalParts(x)[0] == (OptionalParts(x) + r)[0] == OptionalParts(y)[0];
    assert [1] != [0] by { assert [1][0] != [0][0]; }
    SplitAt(OptionalParts(x), OptionalParts(y), r, s);
    if x.Some? {
      assert OptionalParts(x)[1] == OptionalParts(y)[1];
      U64Cancel(x.value, y.value);
    }
  }

  lemma DecisionCancels(x: Option<Decision>, y: Option<Decision>, r: seq<Part>, s: seq<Part>)
    requires DecisionParts(x) + r == DecisionParts(y) + s
    ensures x == y && r == s
  {
    var p, q := DecisionParts(x), DecisionParts(y);
    assert p[0] == (p + r)[0] == q[0];
    assert p[0][0] == q[0][0];
    SplitAt(p, q, r, s);
    if x.Some? {
      assert LocalParts(x.value.nominalLocal) == p[1..3] == q[1..3] == LocalParts(y.value.nominalLocal);
      LocalCancels(x.value.nominalLocal, y.value.nominalLocal);
      if x.value.Due? {
        assert p[3] == q[3];
        U64Cancel(x.value.scheduledFor, y.value.scheduledFor);
      }
    }
  }

  lemma SnapshotCancels(x: Snapshot, y: Snapshot)
    requires SnapshotParts(x) == SnapshotParts(y)
    ensures x == y
  {
    var p, q := SnapshotParts(x), SnapshotParts(y);
    assert p[0] == q[0] && p[1] == q[1] && p[2] == q[2] && p[3] == q[3] && p[4] == q[4] && p[5] == q[5];
    assert p[6][0] == q[6][0] && p[7][0] == q[7][0] && p[8] == q[8] && p[9] == q[9];
    U64Cancel(x.definitionRevision, y.definitionRevision);
    U32Cancel(x.calculatorVersion, y.calculatorVersion);
  }

  lemma HeadCancels(x: Occurrence, y: Occurrence)
    requires OccurrenceHead(x) == OccurrenceHead(y)
    ensures x.id == y.id && x.automationId == y.automationId && x.snapshot == y.snapshot && x.nominalLocal == y.nominalLocal
  {
    var a, b := [x.id, x.automationId], [y.id, y.automationId];
    var s, t := SnapshotParts(x.snapshot), SnapshotParts(y.snapshot);
    assert |s| == |t|;
    hide SnapshotParts;
    hide LocalParts;
    SplitAt(a + s, b + t, LocalParts(x.nominalLocal), LocalParts(y.nominalLocal));
    SplitAt(a, b, s, t);
    assert a[0] == b[0] && a[1] == b[1];
    SnapshotCancels(x.snapshot, y.snapshot);
    LocalCancels(x.nominalLocal, y.nominalLocal);
  }

  lemma TailCancels(x: Occurrence, y: Occurrence)
    requires OccurrenceTail(x) == OccurrenceTail(y)
    ensures x.occurrenceCount == y.occurrenceCount && x.state == y.state && x.claimAttemptCount == y.claimAttemptCount
    ensures x.revision == y.revision && x.createdAt == y.createdAt && x.updatedAt == y.updatedAt
  {
    var p, q := OccurrenceTail(x), OccurrenceTail(y);
    assert p[0] == q[0] && p[1][0] == q[1][0] && p[2] == q[2] && p[3] == q[3] && p[4] == q[4] && p[5] == q[5];
    U32Cancel(x.occurrenceCount, y.occurrenceCount);
    U32Cancel(x.claimAttemptCount, y.claimAttemptCount);
    U64Cancel(x.revision, y.revision);
    U64Cancel(x.createdAt, y.createdAt);
    U64Cancel(x.updatedAt, y.updatedAt);
  }

  lemma OccurrenceCancels(x: Occurrence, y: Occurrence, r: seq<Part>, s: seq<Part>)
    requires OccurrenceParts(x) + r == OccurrenceParts(y) + s
    ensures x == y && r == s
  {
    assert |OccurrenceHead(x)| == |OccurrenceHead(y)| && |OccurrenceTail(x)| == |OccurrenceTail(y)|;
    var tx, ty := OccurrenceTail(x) + r, OccurrenceTail(y) + s;
    assert OccurrenceParts(x) + r == OccurrenceHead(x) + (OptionalParts(x.scheduledFor) + tx);
    assert OccurrenceParts(y) + s == OccurrenceHead(y) + (OptionalParts(y.scheduledFor) + ty);
    hide OccurrenceHead;
    hide OccurrenceTail;
    hide OptionalParts;
    hide OccurrenceParts;
    SplitAt(OccurrenceHead(x), OccurrenceHead(y), OptionalParts(x.scheduledFor) + tx, OptionalParts(y.scheduledFor) + ty);
    OptionalCancels(x.scheduledFor, y.scheduledFor, tx, ty);
    SplitAt(OccurrenceTail(x), OccurrenceTail(y), r, s);
    HeadCancels(x, y);
    TailCancels(x, y);
  }

  lemma {:induction false} OccurrencesCancel(x: seq<Occurrence>, y: seq<Occurrence>)
    requires OccurrencesParts(x) == OccurrencesParts(y)
    ensures x == y
  {
    if x != [] && y != [] {
      OccurrenceCancels(x[0], y[0], OccurrencesParts(x[1..]), OccurrencesParts(y[1..]));
      OccurrencesCancel(x[1..], y[1..]);
      assert x == [x[0]] + x[1..] && y == [y[0]] + y[1..];
    }
  }

  lemma CursorFieldsCancel(x: Cursor, y: Cursor)
    requires CursorHead(x) == CursorHead(y) && CursorTail(x) == CursorTail(y)
    requires x.automationId == y.automationId && x.nextDecision == y.nextDecision
    ensures x == y
  {
    var p, q := CursorHead(x), CursorHead(y);
    assert p[0] == q[0] && p[1] == q[1] && p[2] == q[2] && p[3] == q[3];
    var r, s := CursorTail(x), CursorTail(y);
    assert r[0] == s[0] && r[1] == s[1] && r[2] == s[2];
    U64Cancel(x.definitionRevision, y.definitionRevision);
    U32Cancel(x.calculatorVersion, y.calculatorVersion);
    U64Cancel(x.evaluatedThrough, y.evaluatedThrough);
    U64Cancel(x.revision, y.revision);
    U64Cancel(x.createdAt, y.createdAt);
    U64Cancel(x.updatedAt, y.updatedAt);
  }

  lemma CursorCancels(x: Cursor, y: Cursor, r: seq<Part>, s: seq<Part>)
    requires x.automationId == y.automationId && CursorParts(x) + r == CursorParts(y) + s
    ensures x == y && r == s
  {
    assert |CursorHead(x)| == |CursorHead(y)| && |CursorTail(x)| == |CursorTail(y)|;
    hide CursorHead;
    hide CursorTail;
    hide DecisionParts;
    var tailX, tailY := CursorTail(x) + r, CursorTail(y) + s;
    var restX, restY := DecisionParts(x.nextDecision) + tailX, DecisionParts(y.nextDecision) + tailY;
    assert CursorParts(x) + r == CursorHead(x) + restX && CursorParts(y) + s == CursorHead(y) + restY;
    SplitAt(CursorHead(x), CursorHead(y), restX, restY);
    DecisionCancels(x.nextDecision, y.nextDecision, tailX, tailY);
    SplitAt(CursorTail(x), CursorTail(y), r, s);
    CursorFieldsCancel(x, y);
  }

  lemma LeaseCancels(x: Evaluation, y: Evaluation)
    requires LeaseParts(x) == LeaseParts(y)
    ensures x.lease == y.lease && x.cursor.automationId == y.cursor.automationId
    ensures x.automationRevision == y.automationRevision
  {
    var p, q := LeaseParts(x), LeaseParts(y);
    assert p[0] == q[0] && p[1] == q[1] && p[2] == q[2] && p[3] == q[3];
    U64Cancel(x.lease.fence, y.lease.fence);
    U64Cancel(x.automationRevision, y.automationRevision);
  }

  lemma Reassociate<T>(a: seq<T>, b: seq<T>, c: seq<T>, d: seq<T>)
    ensures a + b + c + d == a + (b + (c + d))
  {
  }

  /** The parts of an evaluation determine it, whatever its optional fields and however many its occurrences. */
  lemma EvaluationPartsAreUnique(x: Evaluation, y: Evaluation)
    requires EvaluationParts(x) == EvaluationParts(y)
    ensures x == y
  {
    assert |LeaseParts(x)| == |LeaseParts(y)| && |CountParts(x.occurrences)| == |CountParts(y.occurrences)|;
    hide LeaseParts;
    hide CursorParts;
    hide CountParts;
    hide OptionalParts;
    hide OccurrencesParts;
    var listX := CountParts(x.occurrences) + OccurrencesParts(x.occurrences);
    var listY := CountParts(y.occurrences) + OccurrencesParts(y.occurrences);
    var cursorX, cursorY := CursorParts(x.cursor) + listX, CursorParts(y.cursor) + listY;
    var restX := OptionalParts(x.expectedCursorRevision) + cursorX;
    var restY := OptionalParts(y.expectedCursorRevision) + cursorY;
    Reassociate(LeaseParts(x), OptionalParts(x.expectedCursorRevision), CursorParts(x.cursor), listX);
    Reassociate(LeaseParts(y), OptionalParts(y.expectedCursorRevision), CursorParts(y.cursor), listY);
    SplitAt(LeaseParts(x), LeaseParts(y), restX, restY);
    LeaseCancels(x, y);
    OptionalCancels(x.expectedCursorRevision, y.expectedCursorRevision, cursorX, cursorY);
    CursorCancels(x.cursor, y.cursor, listX, listY);
    SplitAt(CountParts(x.occurrences), CountParts(y.occurrences),
            OccurrencesParts(x.occurrences), OccurrencesParts(y.occurrences));
    OccurrencesCancel(x.occurrences, y.occurrences);
  }

  lemma {:induction false} OccurrencesPartsSnoc(occurrences: seq<Occurrence>, o: Occurrence)
    ensures OccurrencesParts(occurrences + [o]) == OccurrencesParts(occurrences) + OccurrenceParts(o)
  {
    if occurrences == [] {
      assert occurrences + [o] == [o];
    } else {
      OccurrencesPartsSnoc(occurrences[1..], o);
      assert (occurrences + [o])[1..] == occurrences[1..] + [o];
      var a, b, c := OccurrenceParts(occurrences[0]), OccurrencesParts(occurrences[1..]), OccurrenceParts(o);
      assert a + (b + c) == (a + b) + c;
    }
  }

  method EvaluationCommand<Digest>(
    digest: seq<Byte> -> Digest, scope: Part, key: string, evaluation: Evaluation)
    returns (result: Result<MutationCommand<Digest>, ()>)
    ensures result.Ok? <==> ValidKey(key)
    ensures result.Ok? ==> result.value.fingerprint == digest(Preimage([scope] + EvaluationParts(evaluation)))
  {
    var cursor := evaluation.cursor;
    var parts := LeaseParts(evaluation);
    parts := parts + OptionalParts(evaluation.expectedCursorRevision);
    parts := parts + CursorParts(cursor);
    parts := parts + CountParts(evaluation.occurrences);
    hide LeaseParts;
    hide CursorParts;
    hide CountParts;
    hide OptionalParts;
    hide OccurrenceParts;
    ghost var front := parts;
    var i := 0;
    while i < |evaluation.occurrences|
      invariant 0 <= i <= |evaluation.occurrences|
      invariant parts == front + OccurrencesParts(evaluation.occurrences[..i])
    {
      OccurrencesPartsSnoc(evaluation.occurrences[..i], evaluation.occurrences[i]);
      assert evaluation.occurrences[..i + 1] == evaluation.occurrences[..i] + [evaluation.occurrences[i]];
      parts := parts + OccurrenceParts(evaluation.occurrences[i]);
      i := i + 1;
    }
    assert evaluation.occurrences[..i] == evaluation.occurrences;
    assert parts == EvaluationParts(evaluation);
    result := MutationCommandBytes(digest, scope, key, parts);
  }

  /** Two inputs of the digest that it does not tell apart. */
  predicate Collide<Digest(==)>(digest: seq<Byte> -> Digest, a: seq<Byte>, b: seq<Byte>) {
    a != b && digest(a) == digest(b)
  }

  /** Equal fingerprints mean the same evaluation in the same scope, or exhibit a collision of the digest. */
  lemma FingerprintDeterminesEvaluation<Digest>(
    digest: seq<Byte> -> Digest, scope: Part, scope': Part, x: Evaluation, y: Evaluation)
    requires Addressable([scope] + EvaluationParts(x)) && Addressable([scope'] + EvaluationParts(y))
    requires digest(Preimage([scope] + EvaluationParts(x))) == digest(Preimage([scope'] + EvaluationParts(y)))
    ensures
      || (scope == scope' && x == y)
      || Collide(digest, Preimage([scope] + EvaluationParts(x)), Preimage([scope'] + EvaluationParts(y)))
  {
    hide EvaluationParts;
    if Preimage([scope] + EvaluationParts(x)) == Preimage([scope'] + EvaluationParts(y)) {
      PreimageIsInjective([scope] + EvaluationParts(x), [scope'] + EvaluationParts(y));
      SplitAt([scope], [scope'], EvaluationParts(x), EvaluationParts(y));
      assert [scope][0] == [scope'][0];
      EvaluationPartsAreUnique(x, y);
    }
  }
}
