/**
 The occurrences of one automation between their commit and their end: at most one is
 active, at most one more is queued behind it, and whatever ends the active one promotes
 the queued one. Run rows are written by other services too, so a linked run may end on
 its own and be noticed only by recovery. `promotes` says after which outcomes a recovery
 promotes; the two stores differ there.
 */
module OverlapQueue {
  import opened Wrappers
  import opened Runs

  const MAX_CLAIM_ATTEMPTS: nat := 16

  datatype OverlapPolicy = QueueOne | Skip

  datatype Outcome =
    | Succeeded | Failed | SkippedMissed | SkippedOverlap | SkippedInvalidLocalTime | NeedsReview | Cancelled

  datatype State = Pending | Queued | Claimed | RunLinked | Ended(outcome: Outcome)

  datatype Run = NoRun | RunQueued | Running | RunEnded(outcome: Outcome)

  /** `bound` tells whether the run has a dispatch row, without which it is never resumed. */
  datatype Occurrence = Occurrence(state: State, attempts: nat, run: Run, bound: bool)

  type Journal = map<string, Occurrence>

  datatype Proposed = Proposed(id: string, state: State)

  predicate IsActive(state: State) {
    state.Pending? || state.Claimed? || state.RunLinked?
  }

  predicate SomeActive(j: Journal) {
    exists id :: id in j && IsActive(j[id].state)
  }

  predicate SomeQueued(j: Journal) {
    exists id :: id in j && j[id].state.Queued?
  }

  /** What the stores demand of the journal before they touch it. */
  predicate Cardinality(j: Journal) {
    && (forall a, b :: a in j && b in j && IsActive(j[a].state) && IsActive(j[b].state) ==> a == b)
    && (forall a, b :: a in j && b in j && j[a].state.Queued? && j[b].state.Queued? ==> a == b)
    && (SomeQueued(j) ==> SomeActive(j))
  }

  /** An occurrence waits behind nothing. */
  predicate Stranded(j: Journal) {
    SomeQueued(j) && !SomeActive(j)
  }

  // Commit

  /** A pending occurrence runs, waits or is skipped; the others are recorded as they come. */
  function Adjudicated(j: Journal, state: State, policy: OverlapPolicy): State {
    if !state.Pending? || !SomeActive(j) then state
    else if policy.QueueOne? && !SomeQueued(j) then Queued
    else Ended(SkippedOverlap)
  }

  function Staged(j: Journal, batch: seq<Proposed>, policy: OverlapPolicy): Journal {
    if batch == [] then j
    else
      var front, last := Staged(j, batch[..|batch| - 1], policy), batch[|batch| - 1];
      front[last.id := Occurrence(Adjudicated(front, last.state, policy), 0, NoRun, false)]
  }

  predicate Proposable(j: Journal, batch: seq<Proposed>) {
    && (forall k :: 0 <= k < |batch| ==>
          && batch[k].id !in j
          && (batch[k].state.Pending? || batch[k].state == Ended(SkippedMissed)
              || batch[k].state == Ended(SkippedInvalidLocalTime)))
    && (forall k, l :: 0 <= k < l < |batch| ==> batch[k].id != batch[l].id)
  }

  function PendingAmong(batch: seq<Proposed>): nat {
    if batch == [] then 0
    else PendingAmong(batch[..|batch| - 1]) + if batch[|batch| - 1].state.Pending? then 1 else 0
  }

  /** How many are ahead of the `k`-th proposal: the active one, the queued one and the pending ones of the batch. */
  function Ahead(j: Journal, batch: seq<Proposed>, k: nat): nat
    requires k <= |batch|
  {
    (if SomeActive(j) then 1 else 0) + (if SomeQueued(j) then 1 else 0) + PendingAmong(batch[..k])
  }

  /**
   What becomes of a pending proposal, by how many are ahead of it: with none it may run, with
   one it waits if the policy lets it, and else it is skipped. So nothing ever waits under
   `Skip`, and an overlap is skipped exactly if one is active and the policy is `Skip` or one
   is queued.
   */
  predicate TakesItsPlace(o: Occurrence, proposed: State, ahead: nat, policy: OverlapPolicy) {
    && o == Occurrence(o.state, 0, NoRun, false)
    && (!proposed.Pending? ==> o.state == proposed)
    && (proposed.Pending? ==>
          && (o.state.Pending? <==> ahead == 0)
          && (o.state.Queued? <==> ahead == 1 && policy.QueueOne?)
          && (o.state == Ended(SkippedOverlap) <==> ahead >= 2 || (ahead == 1 && policy.Skip?)))
  }

  function Ids(batch: seq<Proposed>): set<string> {
    set k | 0 <= k < |batch| :: batch[k].id
  }

  predicate PlacedAt(j: Journal, batch: seq<Proposed>, policy: OverlapPolicy, j': Journal, k: nat)
    requires k < |batch|
  {
    batch[k].id in j' && TakesItsPlace(j'[batch[k].id], batch[k].state, Ahead(j, batch, k), policy)
  }

  /** What was recorded stays, and every proposal of the batch takes its place. */
  ghost predicate Ranked(j: Journal, batch: seq<Proposed>, policy: OverlapPolicy, j': Journal) {
    && j'.Keys == j.Keys + Ids(batch)
    && (forall id :: id in j ==> j'[id] == j[id])
    && (forall k :: 0 <= k < |batch| ==> PlacedAt(j, batch, policy, j', k))
  }

  /** The loop of a commit, which counts as it goes instead of looking again. */
  method Stage(j: Journal, batch: seq<Proposed>, policy: OverlapPolicy) returns (result: Option<Journal>)
    requires Proposable(j, batch)
    ensures result.None? <==> !Cardinality(j)
    ensures result.Some? ==>
      result.value == Staged(j, batch, policy) && Cardinality(result.value) && Ranked(j, batch, policy, result.value)
  {
    hide Cardinality;
    hide SomeActive;
    hide SomeQueued;
    hide Ranked;
    if !Cardinality(j) {
      return None;
    }
    var staged, active, queued := j, SomeActive(j), SomeQueued(j);
    var i := 0;
    while i < |batch|
      invariant 0 <= i <= |batch|
      invariant staged == Staged(j, batch[..i], policy) && Cardinality(staged)
      invariant active == SomeActive(staged) && queued == SomeQueued(staged)
      invariant forall k :: i <= k < |batch| ==> batch[k].id !in staged
    {
      assert batch[..i + 1][..i] == batch[..i];
      var next := batch[i].state;
      if next.Pending? {
        if !active {
          active := true;
        } else if policy.QueueOne? && !queued {
          next := Queued;
          queued := true;
        } else {
          next := Ended(SkippedOverlap);
        }
      }
      NewcomerKeepsCardinality(staged, batch[i].id, Occurrence(next, 0, NoRun, false));
      staged := staged[batch[i].id := Occurrence(next, 0, NoRun, false)];
      i := i + 1;
    }
    assert batch[..i] == batch;
    StagedIsRanked(j, batch, policy);
    return Some(staged);
  }

  lemma AheadOfPrefix(j: Journal, batch: seq<Proposed>, front: seq<Proposed>, k: nat)
    requires batch != [] && front == batch[..|batch| - 1] && k <= |front|
    ensures Ahead(j, batch, k) == Ahead(j, front, k)
    ensures Ahead(j, batch, |batch|) == Ahead(j, front, |front|) + if batch[|batch| - 1].state.Pending? then 1 else 0
  {
    hide SomeActive;
    hide SomeQueued;
    assert front[..k] == batch[..k];
    assert batch[..|batch|] == batch && front[..|front|] == front;
  }

  lemma IdsOfOneMore(batch: seq<Proposed>, front: seq<Proposed>)
    requires batch != [] && front == batch[..|batch| - 1]
    ensures Ids(batch) == Ids(front) + {batch[|batch| - 1].id}
  {
    forall id | id in Ids(batch)
      ensures id in Ids(front) + {batch[|batch| - 1].id}
    {
      var k :| 0 <= k < |batch| && batch[k].id == id;
      assert k < |front| ==> front[k].id == id;
    }
    forall id | id in Ids(front)
      ensures id in Ids(batch)
    {
      var k :| 0 <= k < |front| && front[k].id == id;
      assert batch[k].id == id;
    }
  }

  lemma EarlierPlacesStay(
    j: Journal, batch: seq<Proposed>, policy: OverlapPolicy, front: seq<Proposed>, staged: Journal, o: Occurrence, k: nat)
    requires batch != [] && front == batch[..|batch| - 1] && Proposable(j, batch)
    requires k < |front| && PlacedAt(j, front, policy, staged, k)
    ensures PlacedAt(j, batch, policy, staged[batch[|batch| - 1].id := o], k)
  {
    hide TakesItsPlace;
    AheadOfPrefix(j, batch, front, k);
    hide Ahead;
    assert batch[k] == front[k] && batch[k].id != batch[|batch| - 1].id;
  }

  lemma ExtendedRank(
    j: Journal, batch: seq<Proposed>, policy: OverlapPolicy, front: seq<Proposed>, staged: Journal, o: Occurrence)
    requires batch != [] && front == batch[..|batch| - 1] && Proposable(j, batch) && Ranked(j, front, policy, staged)
    requires TakesItsPlace(o, batch[|batch| - 1].state, Ahead(j, batch, |batch| - 1), policy)
    ensures Ranked(j, batch, policy, staged[batch[|batch| - 1].id := o])
  {
    hide TakesItsPlace;
    hide Ahead;
    hide Ids;
    hide Proposable;
    var last, j' := |batch| - 1, staged[batch[|batch| - 1].id := o];
    assert PlacedAt(j, batch, policy, j', last);
    hide PlacedAt;
    forall k | 0 <= k < |front|
      ensures PlacedAt(j, batch, policy, j', k)
    {
      EarlierPlacesStay(j, batch, policy, front, staged, o, k);
    }
    IdsOfOneMore(batch, front);
    ProposalsAreNew(j, batch, last);
  }

  lemma ProposalsAreNew(j: Journal, batch: seq<Proposed>, k: nat)
    requires Proposable(j, batch) && k < |batch|
    ensures batch[k].id !in j
  {
  }

  /** Staging sees as much as the number of those ahead tells. */
  ghost predicate Counted(j: Journal, j': Journal, ahead: nat, policy: OverlapPolicy) {
    && (SomeActive(j') <==> ahead >= 1)
    && (SomeQueued(j') <==> SomeQueued(j) || (policy.QueueOne? && ahead >= 2))
  }

  lemma CountedPlace(j: Journal, staged: Journal, ahead: nat, policy: OverlapPolicy, last: Proposed)
    requires Cardinality(staged) && Counted(j, staged, ahead, policy) && (SomeQueued(j) ==> ahead >= 2) && last.id !in staged
    requires last.state.Pending? || last.state == Ended(SkippedMissed) || last.state == Ended(SkippedInvalidLocalTime)
    ensures
      var o := Occurrence(Adjudicated(staged, last.state, policy), 0, NoRun, false);
      && TakesItsPlace(o, last.state, ahead, policy) && Cardinality(staged[last.id := o])
      && Counted(j, staged[last.id := o], ahead + if last.state.Pending? then 1 else 0, policy)
  {
    hide SomeActive;
    hide SomeQueued;
    hide Cardinality;
    NewcomerKeepsCardinality(staged, last.id, Occurrence(Adjudicated(staged, last.state, policy), 0, NoRun, false));
  }

  lemma {:induction false} StagedIsRanked(j: Journal, batch: seq<Proposed>, policy: OverlapPolicy)
    requires Cardinality(j) && Proposable(j, batch)
    ensures
      var j' := Staged(j, batch, policy);
      && Cardinality(j') && Ranked(j, batch, policy, j') && Counted(j, j', Ahead(j, batch, |batch|), policy)
  {
    QueuedBehindActive(j);
    hide Cardinality;
    if batch == [] {
      assert batch[..0] == [];
    } else {
      var front, last := batch[..|batch| - 1], batch[|batch| - 1];
      StagedIsRanked(j, front, policy);
      var staged := Staged(j, front, policy);
      AheadOfPrefix(j, batch, front, |front|);
      assert last.id !in staged by { IdsOfOneMore(batch, front); assert last.id !in Ids(front); }
      hide Ranked;
      CountedPlace(j, staged, Ahead(j, front, |front|), policy, last);
      hide TakesItsPlace;
      hide Counted;
      ExtendedRank(j, batch, policy, front, staged, Occurrence(Adjudicated(staged, last.state, policy), 0, NoRun, false));
    }
  }

  lemma QueuedBehindActive(j: Journal)
    requires Cardinality(j)
    ensures SomeQueued(j) ==> SomeActive(j)
  {
  }

  lemma NewcomerKeepsCardinality(j: Journal, id: string, o: Occurrence)
    requires Cardinality(j) && id !in j && (IsActive(o.state) ==> !SomeActive(j))
    requires o.state.Queued? ==> SomeActive(j) && !SomeQueued(j)
    ensures
      var j' := j[id := o];
      && Cardinality(j')
      && (SomeActive(j') <==> SomeActive(j) || IsActive(o.state))
      && (SomeQueued(j') <==> SomeQueued(j) || o.state.Queued?)
  {
    var j' := j[id := o];
    assert forall other :: other in j ==> other in j' && j'[other] == j[other];
    assert id in j' && j'[id] == o;
  }

  // Execution

  function Promoted(j: Journal): Journal {
    map id | id in j :: if j[id].state.Queued? then j[id].(state := Pending) else j[id]
  }

  /** The active occurrence ends, and the queued one takes its place if it is promoted. */
  function Finished(j: Journal, id: string, outcome: Outcome, promotes: bool): Journal
    requires id in j
  {
    var ended := j[id := Occurrence(Ended(outcome), j[id].attempts, RunEnded(outcome), j[id].bound)];
    if promotes then Promoted(ended) else ended
  }

  datatype Step =
    | Commits(batch: seq<Proposed>, policy: OverlapPolicy)
    | Claims(id: string)
    | Links(id: string, bound: bool)
    | Begins(id: string)
    | RunEnds(id: string, outcome: Outcome)
    | Completes(id: string, outcome: Outcome)
    | Recovers(id: string)

  /** What recovery makes of an expired claim, if it makes anything of it. */
  function Recovered(j: Journal, id: string, promotes: Outcome -> bool): Option<Journal>
    requires id in j
  {
    var o := j[id];
    if o.state.Claimed? then
      if o.attempts < MAX_CLAIM_ATTEMPTS then Some(j[id := o.(state := Pending)])
      else Some(Finished(j, id, NeedsReview, promotes(NeedsReview)))
    else if o.state.RunLinked? && !(o.run.RunQueued? && o.bound) then
      var outcome := if o.run.RunEnded? then o.run.outcome else NeedsReview;
      Some(Finished(j, id, outcome, promotes(outcome)))
    else None
  }

  predicate Takes(j: Journal, j': Journal, step: Step, promotes: Outcome -> bool) {
    match step
    case Commits(batch, policy) =>
      Cardinality(j) && Proposable(j, batch) && j' == Staged(j, batch, policy)
    case Claims(id) =>
      && id in j && j[id].state.Pending? && j[id].attempts < MAX_CLAIM_ATTEMPTS
      && j' == j[id := j[id].(state := Claimed, attempts := j[id].attempts + 1)]
    case Links(id, bound) =>
      id in j && j[id].state.Claimed? && j' == j[id := j[id].(state := RunLinked, run := RunQueued, bound := bound)]
    case Begins(id) =>
      && id in j && j[id].state.RunLinked? && j[id].bound && j[id].run.RunQueued?
      && j' == j[id := j[id].(run := Running)]
    case RunEnds(id, outcome) =>
      && id in j && j[id].state.RunLinked? && (j[id].run.RunQueued? || j[id].run.Running?)
      && j' == j[id := j[id].(run := RunEnded(outcome))]
    case Completes(id, outcome) =>
      && id in j && j[id].state.RunLinked? && j[id].bound && j[id].run.Running?
      && j' == Finished(j, id, outcome, true)
    case Recovers(id) =>
      id in j && Recovered(j, id, promotes) == Some(j')
  }

  /** The encrypted store promotes after every outcome, the in-memory one only after a referral to review. */
  predicate Always(outcome: Outcome) {
    true
  }

  predicate OnlyAfterReview(outcome: Outcome) {
    outcome.NeedsReview?
  }

  ghost predicate Next(j: Journal, j': Journal, promotes: Outcome -> bool) {
    exists step :: Takes(j, j', step, promotes)
  }

  ghost predicate DurableNext(j: Journal, j': Journal) {
    Next(j, j', Always)
  }

  ghost predicate MemoryNext(j: Journal, j': Journal) {
    Next(j, j', OnlyAfterReview)
  }

  ghost predicate Init(j: Journal) {
    j == map[]
  }

  // What keeps the queue

  lemma ActiveStaysActive(j: Journal, id: string, o: Occurrence)
    requires Cardinality(j) && id in j && IsActive(j[id].state) && IsActive(o.state)
    ensures Cardinality(j[id := o])
  {
    var j' := j[id := o];
    assert id in j' && IsActive(j'[id].state);
  }

  lemma FinishingEndsTheOne(j: Journal, id: string, outcome: Outcome)
    requires Cardinality(j) && id in j && IsActive(j[id].state)
    ensures !SomeActive(Finished(j, id, outcome, false))
    ensures SomeQueued(Finished(j, id, outcome, false)) <==> SomeQueued(j)
  {
    if q :| q in j && j[q].state.Queued? {
      assert q in Finished(j, id, outcome, false);
    }
  }

  lemma PromotingKeepsCardinality(j: Journal)
    requires !SomeActive(j) && (forall a, b :: a in j && b in j && j[a].state.Queued? && j[b].state.Queued? ==> a == b)
    ensures Cardinality(Promoted(j))
  {
    assert forall id :: id in j ==> !IsActive(j[id].state);
  }

  /** Ending the active occurrence keeps the queue in order exactly if it promotes or nothing is queued. */
  lemma FinishingKeepsCardinalityIff(j: Journal, id: string, outcome: Outcome, promotes: bool)
    requires Cardinality(j) && id in j && IsActive(j[id].state)
    ensures Cardinality(Finished(j, id, outcome, promotes)) <==> promotes || !SomeQueued(j)
    ensures !promotes && SomeQueued(j) ==> Stranded(Finished(j, id, outcome, promotes))
  {
    hide SomeActive;
    hide SomeQueued;
    FinishingEndsTheOne(j, id, outcome);
    if promotes {
      PromotingKeepsCardinality(Finished(j, id, outcome, false));
    } else {
      NobodyActive(Finished(j, id, outcome, false));
    }
  }

  lemma NobodyActive(j: Journal)
    requires !SomeActive(j)
    ensures forall id :: id in j ==> !IsActive(j[id].state)
  {
  }

  /** In the durable store every step keeps the queue in order. */
  lemma StepKeepsCardinality(j: Journal, j': Journal, step: Step)
    requires Cardinality(j) && Takes(j, j', step, Always)
    ensures Cardinality(j')
  {
    hide Cardinality;
    match step
    case Commits(batch, policy) => StagedIsRanked(j, batch, policy);
    case Completes(id, outcome) => FinishingKeepsCardinalityIff(j, id, outcome, true);
    case Recovers(id) =>
      if j'[id].state.Pending? && j[id].state.Claimed? && j[id].attempts < MAX_CLAIM_ATTEMPTS {
        ActiveStaysActive(j, id, j'[id]);
      } else {
        FinishingKeepsCardinalityIff(j, id, j'[id].state.outcome, true);
      }
    case _ => ActiveStaysActive(j, step.id, j'[step.id]);
  }

  /**
   Over every run of commits, claims, dispatches, runs that end on their own and recoveries
   in the durable store: at most one occurrence of an automation is active, at most one is
   queued, and none is queued behind nothing. The check that every commit and every
   recovery makes of the journal therefore never fails.
   */
  lemma OneRunsAndOneWaits(trace: seq<Journal>, i: nat)
    requires IsRun(Init, DurableNext, trace) && i < |trace|
    ensures Cardinality(trace[i])
  {
    forall j, j' | Cardinality(j) && DurableNext(j, j')
      ensures Cardinality(j')
    {
      var step :| Takes(j, j', step, Always);
      StepKeepsCardinality(j, j', step);
    }
    InvariantHolds(Init, DurableNext, Cardinality, trace, i);
  }

  // The life of one occurrence

  /** What ends an occurrence, and as what. */
  predicate EndsOnGrounds(o: Occurrence, o': Occurrence) {
    && o'.state.Ended? && o' == Occurrence(o'.state, o.attempts, RunEnded(o'.state.outcome), o.bound)
    && (|| (o.state.RunLinked? && o.run.Running? && o.bound)
        || (o.state.RunLinked? && o.run == RunEnded(o'.state.outcome))
        || (&& o'.state.outcome.NeedsReview?
            && (|| (o.state.Claimed? && o.attempts >= 16)
                || (o.state.RunLinked? && (o.run.NoRun? || o.run.Running? || (o.run.RunQueued? && !o.bound))))))
  }

  /** How a run row moves while it is linked. */
  predicate RunMoves(o: Occurrence, run: Run) {
    && o.state.RunLinked?
    && (|| (o.run.RunQueued? && o.bound && run.Running?)
        || ((o.run.RunQueued? || o.run.Running?) && run.RunEnded?))
  }

  ghost predicate Lives(j: Journal, j': Journal, id: string)
    requires id in j && id in j'
  {
    var o, o' := j[id], j'[id];
    || o' == o
    || (o.state.Queued? && o' == o.(state := Pending)
        && exists other :: other in j && other in j' && IsActive(j[other].state) && j'[other].state.Ended?)
    || (o.state.Pending? && o.attempts < 16 && o' == o.(state := Claimed, attempts := o.attempts + 1))
    || (o.state.Claimed? && o.attempts < 16 && o' == o.(state := Pending))
    || (o.state.Claimed? && o' == o.(state := RunLinked, run := RunQueued, bound := o'.bound))
    || (o' == o.(run := o'.run) && RunMoves(o, o'.run))
    || EndsOnGrounds(o, o')
  }

  lemma StepLives(j: Journal, j': Journal, step: Step, promotes: Outcome -> bool, id: string)
    requires Takes(j, j', step, promotes) && id in j
    ensures id in j' && Lives(j, j', id)
  {
    if step.Commits? {
      StagedIsRanked(j, step.batch, step.policy);
    } else if id != step.id {
      hide EndsOnGrounds;
      if j'[id] != j[id] {
        assert IsActive(j[step.id].state) && j'[step.id].state.Ended?;
      }
    }
  }

  /** A claim is never handed out more than sixteen times, and never waits with none left. */
  ghost predicate AttemptsLeft(j: Journal) {
    && Cardinality(j)
    && (forall id :: id in j ==> j[id].attempts <= 16)
    && (forall id :: id in j && j[id].state.Pending? ==> j[id].attempts < 16)
    && (forall id :: id in j && j[id].state.Queued? ==> j[id].attempts == 0)
  }

  lemma CommitKeepsAttempts(j: Journal, batch: seq<Proposed>, policy: OverlapPolicy, id: string)
    requires Cardinality(j) && Proposable(j, batch)
    ensures var j' := Staged(j, batch, policy); id in j' ==> if id in j then j'[id] == j[id] else j'[id].attempts == 0
  {
    StagedIsRanked(j, batch, policy);
    hide Cardinality;
    if id in Ids(batch) {
      var k :| 0 <= k < |batch| && batch[k].id == id;
      assert PlacedAt(j, batch, policy, Staged(j, batch, policy), k);
    }
  }

  lemma StepKeepsAttempts(j: Journal, j': Journal, step: Step)
    requires AttemptsLeft(j) && Takes(j, j', step, Always)
    ensures AttemptsLeft(j')
  {
    StepKeepsCardinality(j, j', step);
    if step.Commits? {
      forall id | id in j'
        ensures if id in j then j'[id] == j[id] else j'[id].attempts == 0
      {
        CommitKeepsAttempts(j, step.batch, step.policy, id);
      }
    }
    hide Cardinality;
    hide Staged;
  }

  lemma AttemptsAreLeft(trace: seq<Journal>, i: nat)
    requires IsRun(Init, DurableNext, trace) && i < |trace|
    ensures AttemptsLeft(trace[i])
  {
    forall j, j' | AttemptsLeft(j) && DurableNext(j, j')
      ensures AttemptsLeft(j')
    {
      var step :| Takes(j, j', step, Always);
      StepKeepsAttempts(j, j', step);
    }
    InvariantHolds(Init, DurableNext, AttemptsLeft, trace, i);
  }

  /**
   Over every run of the durable store an occurrence only moves forward: it is promoted only
   when the active one ends, is claimed at most sixteen times, and ends as its run ended, as
   its completion says, or in review because nothing can resume it. An ended one stays as it is.
   */
  lemma OccurrencesLiveOrderly(trace: seq<Journal>, i: nat, id: string)
    requires IsRun(Init, DurableNext, trace) && i + 1 < |trace| && id in trace[i]
    ensures id in trace[i + 1] && Lives(trace[i], trace[i + 1], id) && trace[i][id].attempts <= 16
    ensures trace[i][id].state.Ended? ==> trace[i + 1][id] == trace[i][id]
  {
    AttemptsAreLeft(trace, i);
    assert DurableNext(trace[i], trace[i + 1]);
    var step :| Takes(trace[i], trace[i + 1], step, Always);
    StepLives(trace[i], trace[i + 1], step, Always, id);
  }

  /**
   Nothing is ever stuck: in every state of every run a pending occurrence can be claimed, and
   recovery alone can move every claim and every linked run that nothing else would resume.
   */
  lemma NothingIsStuck(trace: seq<Journal>, i: nat, id: string)
    requires IsRun(Init, DurableNext, trace) && i < |trace| && id in trace[i]
    ensures
      var o := trace[i][id];
      && (o.state.Pending? ==> exists j' :: Takes(trace[i], j', Claims(id), Always))
      && (o.state.Claimed? || (o.state.RunLinked? && !(o.run.RunQueued? && o.bound)) ==>
            exists j' :: Takes(trace[i], j', Recovers(id), Always))
      && (o.state.RunLinked? && o.run.RunQueued? && o.bound ==> exists j' :: Takes(trace[i], j', Begins(id), Always))
  {
    AttemptsAreLeft(trace, i);
    var j, o := trace[i], trace[i][id];
    if o.state.Pending? {
      assert Takes(j, j[id := o.(state := Claimed, attempts := o.attempts + 1)], Claims(id), Always);
    } else if o.state.RunLinked? && o.run.RunQueued? && o.bound {
      assert Takes(j, j[id := o.(run := Running)], Begins(id), Always);
    } else if o.state.Claimed? || o.state.RunLinked? {
      assert Takes(j, Recovered(j, id, Always).value, Recovers(id), Always);
    }
  }

  // The in-memory store

  /**
   A recovery in the in-memory store keeps the queue in order exactly if nothing is queued,
   or it only releases a claim, or it refers the occurrence to review; otherwise the run had
   ended with another outcome and what was queued is stranded.
   */
  lemma MemoryRecoveryKeepsCardinalityIff(j: Journal, id: string)
    requires Cardinality(j) && id in j && Recovered(j, id, OnlyAfterReview).Some?
    ensures
      var keeps := !SomeQueued(j) || j[id].state.Claimed? || !j[id].run.RunEnded? || j[id].run.outcome.NeedsReview?;
      && (Cardinality(Recovered(j, id, OnlyAfterReview).value) <==> keeps)
      && (!keeps ==> Stranded(Recovered(j, id, OnlyAfterReview).value))
  {
    hide Cardinality;
    hide Stranded;
    var o, j' := j[id], Recovered(j, id, OnlyAfterReview).value;
    if o.state.Claimed? && o.attempts < MAX_CLAIM_ATTEMPTS {
      ActiveStaysActive(j, id, j'[id]);
    } else {
      var outcome := if o.state.RunLinked? && o.run.RunEnded? then o.run.outcome else NeedsReview;
      FinishingKeepsCardinalityIff(j, id, outcome, OnlyAfterReview(outcome));
    }
  }

  /** Nothing ever happens to a stranded automation again. */
  lemma StrandedForGood(j: Journal, j': Journal, promotes: Outcome -> bool)
    requires Stranded(j)
    ensures !Next(j, j', promotes)
  {
    forall step
      ensures !Takes(j, j', step, promotes)
    {
      if step.Commits? {
      } else if step.id in j {
        assert !IsActive(j[step.id].state);
      }
    }
  }

  /** One occurrence as given, and another queued behind it. */
  function WithQueued(o: Occurrence): Journal {
    map["first" := o, "second" := Occurrence(Queued, 0, NoRun, false)]
  }

  lemma FirstCommit()
    ensures Takes(map[], map["first" := Occurrence(Pending, 0, NoRun, false)], Commits([Proposed("first", Pending)], QueueOne),
                  OnlyAfterReview)
  {
    assert [Proposed("first", Pending)][..0] == [];
  }

  lemma SecondCommit()
    ensures Takes(map["first" := Occurrence(Pending, 0, NoRun, false)], WithQueued(Occurrence(Pending, 0, NoRun, false)),
                  Commits([Proposed("second", Pending)], QueueOne), OnlyAfterReview)
  {
    var j: Journal := map["first" := Occurrence(Pending, 0, NoRun, false)];
    assert [Proposed("second", Pending)][..0] == [];
    assert "first" in j && IsActive(j["first"].state);
    assert WithQueued(Occurrence(Pending, 0, NoRun, false)) == j["second" := Occurrence(Queued, 0, NoRun, false)];
  }

  lemma RunIsCancelled()
    ensures MemoryNext(WithQueued(Occurrence(Pending, 0, NoRun, false)), WithQueued(Occurrence(Claimed, 1, NoRun, false)))
    ensures MemoryNext(WithQueued(Occurrence(Claimed, 1, NoRun, false)), WithQueued(Occurrence(RunLinked, 1, RunQueued, true)))
    ensures MemoryNext(WithQueued(Occurrence(RunLinked, 1, RunQueued, true)), WithQueued(Occurrence(RunLinked, 1, RunEnded(Cancelled), true)))
  {
    assert Takes(WithQueued(Occurrence(Pending, 0, NoRun, false)), WithQueued(Occurrence(Claimed, 1, NoRun, false)), Claims("first"),
                 OnlyAfterReview);
    assert Takes(WithQueued(Occurrence(Claimed, 1, NoRun, false)), WithQueued(Occurrence(RunLinked, 1, RunQueued, true)),
                 Links("first", true), OnlyAfterReview);
    assert Takes(WithQueued(Occurrence(RunLinked, 1, RunQueued, true)), WithQueued(Occurrence(RunLinked, 1, RunEnded(Cancelled), true)),
                 RunEnds("first", Cancelled), OnlyAfterReview);
  }

  lemma CancelledRunIsRecovered()
    ensures MemoryNext(WithQueued(Occurrence(RunLinked, 1, RunEnded(Cancelled), true)),
                       WithQueued(Occurrence(Ended(Cancelled), 1, RunEnded(Cancelled), true)))
    ensures Stranded(WithQueued(Occurrence(Ended(Cancelled), 1, RunEnded(Cancelled), true)))
  {
    var j := WithQueued(Occurrence(RunLinked, 1, RunEnded(Cancelled), true));
    var j' := WithQueued(Occurrence(Ended(Cancelled), 1, RunEnded(Cancelled), true));
    assert j["first" := Occurrence(Ended(Cancelled), 1, RunEnded(Cancelled), true)] == j';
    assert Takes(j, j', Recovers("first"), OnlyAfterReview);
    assert "second" in j' && j'["second"].state.Queued?;
  }

  /** A run of the in-memory store in which a cancelled run strands the occurrence behind it. */
  lemma CancelledRunStrands() returns (trace: seq<Journal>)
    ensures IsRun(Init, MemoryNext, trace) && Stranded(trace[|trace| - 1])
  {
    hide MemoryNext;
    hide Stranded;
    hide WithQueued;
    var j1: Journal := map["first" := Occurrence(Pending, 0, NoRun, false)];
    trace := [
      map[], j1, WithQueued(Occurrence(Pending, 0, NoRun, false)), WithQueued(Occurrence(Claimed, 1, NoRun, false)),
      WithQueued(Occurrence(RunLinked, 1, RunQueued, true)), WithQueued(Occurrence(RunLinked, 1, RunEnded(Cancelled), true)),
      WithQueued(Occurrence(Ended(Cancelled), 1, RunEnded(Cancelled), true))];
    BothAreCommitted();
    RunIsCancelled();
    CancelledRunIsRecovered();
  }

  lemma BothAreCommitted()
    ensures MemoryNext(map[], map["first" := Occurrence(Pending, 0, NoRun, false)])
    ensures MemoryNext(map["first" := Occurrence(Pending, 0, NoRun, false)], WithQueued(Occurrence(Pending, 0, NoRun, false)))
  {
    FirstCommit();
    SecondCommit();
  }
}
