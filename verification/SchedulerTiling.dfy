/**
 The automation scheduler as a step system. Any number of daemons acquire or renew the
 one lease, read candidates, compute an evaluation and try to commit it; the store
 accepts a commit only under the live fence and at the expected definition and cursor
 revisions. What a daemon has read may be arbitrarily stale, and a daemon that crashed
 is one whose reads are never used.
 */
module SchedulerTiling {
  import opened Wrappers
  import opened Limits
  import opened Runs
  import opened Schedule
  import opened Judgement

  const LEASE_TTL_MS: nat := 30_000

  datatype Token = Token(owner: string, fence: nat)

  datatype Lease = Lease(token: Token, acquiredAt: nat, renewedAt: nat, expiresAt: nat)

  datatype Definition = Definition(
    revision: nat, activatedAt: nat, enabled: bool, calendar: seq<Decision>, policy: MissedRunPolicy)

  datatype Cursor = Cursor(definitionRevision: nat, evaluatedThrough: nat, next: Decision, revision: nat)

  /** One committed window with what it stands for. */
  datatype Evaluation = Evaluation(
    tick: Tick, after: nat, through: nat, decisions: seq<Decision>, occurrences: seq<Occurrence>)

  /** One tick of a daemon: the lease it holds, since when without a break, and the time. */
  datatype Tick = Tick(token: Token, continuity: nat, observedAt: nat)

  /** What one daemon knows about one definition while it evaluates it. */
  datatype Task = Task(tick: Tick, definition: Definition, cursor: Option<Cursor>)

  datatype Proposal = Initialize(cursor: Cursor) | Advance(cursor: Cursor, evaluation: Evaluation)

  datatype Slot = Slot(definition: Definition, cursor: Option<Cursor>, log: seq<Evaluation>, tasks: set<Task>)

  datatype World = World(lease: Option<Lease>, ticks: set<Tick>, slots: map<string, Slot>)

  // The lease

  datatype Acquisition = Acquired(lease: Lease, continuity: nat) | Busy | ClockRegressed

  /** `floor` is the latest time that anything durable carries. */
  function Acquire(lease: Option<Lease>, floor: nat, owner: string, now: nat): Acquisition {
    if now < floor then ClockRegressed
    else if lease.None? then Acquired(Lease(Token(owner, 1), now, now, now + LEASE_TTL_MS), now)
    else
      var held := lease.value;
      if now < held.renewedAt then ClockRegressed
      else if now < held.expiresAt then
        if held.token.owner != owner then Busy
        else Acquired(held.(renewedAt := now, expiresAt := now + LEASE_TTL_MS), held.renewedAt)
      else Acquired(Lease(Token(owner, held.token.fence + 1), now, now, now + LEASE_TTL_MS), now)
  }

  predicate LiveAt(lease: Option<Lease>, token: Token, now: nat) {
    && lease.Some? && lease.value.token == token
    && lease.value.renewedAt <= now && lease.value.acquiredAt <= now < lease.value.expiresAt
  }

  function Fence(lease: Option<Lease>): nat {
    if lease.None? then 0 else lease.value.token.fence
  }

  // One evaluation

  /** What a daemon may propose for what it has read. */
  predicate Proposes(task: Task, proposal: Proposal) {
    var definition := task.definition;
    if task.cursor.None? then
      && task.tick.observedAt >= definition.activatedAt
      && var next := FirstAfter(definition.calendar, definition.activatedAt);
      && next.Some? && proposal == Initialize(Cursor(definition.revision, definition.activatedAt, next.value, 0))
    else
      var cursor := task.cursor.value;
      && cursor.evaluatedThrough < task.tick.observedAt <= U64_MAX
      && var through := Through(cursor.evaluatedThrough, task.tick.observedAt);
      var decisions := Between(definition.calendar, cursor.evaluatedThrough, through);
      var occurrences := ByLocal(Occurrences(decisions, task.tick.continuity, definition.policy));
      var next := FirstAfter(definition.calendar, through);
      && |decisions| <= MAX_DECISIONS && |occurrences| <= MAX_EVALUATION_OCCURRENCES && next.Some?
      && proposal == Advance(
           cursor.(evaluatedThrough := through, next := next.value, revision := cursor.revision + 1),
           Evaluation(task.tick, cursor.evaluatedThrough, through, decisions, occurrences))
  }

  /** The window of this tick after the cursor that was read, with all its decisions, rightly judged. */
  ghost predicate EvaluatesRightly(task: Task, proposal: Proposal)
    requires task.cursor.Some? && proposal.Advance?
  {
    var cursor, e := proposal.cursor, proposal.evaluation;
    && e.tick == task.tick && e.after == task.cursor.value.evaluatedThrough < e.through && Bounded(e)
    && (forall d :: d in e.decisions <==> d in task.definition.calendar && e.after < d.at <= e.through)
    && Judged(e.decisions, task.tick.continuity, task.definition.policy, e.occurrences)
    && cursor.evaluatedThrough == e.through && cursor.revision == task.cursor.value.revision + 1
    && FirstAfter(task.definition.calendar, e.through) == Some(cursor.next)
  }

  lemma ProposalsAreRight(task: Task, proposal: Proposal)
    requires Proposes(task, proposal) && task.cursor.Some? && Ordered(task.definition.calendar)
    ensures EvaluatesRightly(task, proposal)
  {
    hide Judged;
    hide Ordered;
    var e := proposal.evaluation;
    BetweenIsOrdered(task.definition.calendar, e.after, e.through);
    BetweenMembers(task.definition.calendar, e.after, e.through);
    OccurrencesAreJudged(e.decisions, task.tick.continuity, task.definition.policy);
  }

  datatype EvaluationError = Integrity | InvalidState | Unavailable

  method EvaluateCandidate(task: Task) returns (result: Result<Option<Proposal>, EvaluationError>)
    requires task.tick.observedAt <= U64_MAX
    ensures result.Ok? && result.value.Some? ==> Proposes(task, result.value.value)
    ensures result.Ok? && result.value.Some? ==> (result.value.value.Advance? <==> task.cursor.Some?)
    ensures result.Ok? && result.value.Some? && task.cursor.Some? && Ordered(task.definition.calendar) ==>
      EvaluatesRightly(task, result.value.value)
    ensures result == Err(Integrity) <==>
      !task.definition.enabled
      || (task.cursor.Some? && task.cursor.value.definitionRevision != task.definition.revision)
    ensures result == Ok(None) <==>
      && task.definition.enabled && task.cursor.Some?
      && task.cursor.value.definitionRevision == task.definition.revision
      && task.tick.observedAt == task.cursor.value.evaluatedThrough
    ensures
      var through := if task.cursor.None? then task.definition.activatedAt else task.cursor.value.evaluatedThrough;
      result != Err(Integrity) && task.tick.observedAt < through ==> result == Err(InvalidState)
    ensures result == Err(Unavailable) ==>
      && task.cursor.Some?
      && var after := task.cursor.value.evaluatedThrough;
         var decisions := Between(task.definition.calendar, after, Through(after, task.tick.observedAt));
         |decisions| > 370 || |ByLocal(Occurrences(decisions, task.tick.continuity, task.definition.policy))| > 3
    ensures
      && task.definition.enabled
      && (task.cursor.Some? ==> task.cursor.value.definitionRevision == task.definition.revision)
      && (exists proposal :: Proposes(task, proposal))
      ==> result.Ok? && result.value.Some?
  {
    hide EvaluatesRightly;
    var definition := task.definition;
    if !definition.enabled {
      return Err(Integrity);
    }
    if task.cursor.None? {
      if task.tick.observedAt < definition.activatedAt {
        return Err(InvalidState);
      }
      var first := FirstAfter(definition.calendar, definition.activatedAt);
      if first.None? {
        return Err(InvalidState);
      }
      return Ok(Some(Initialize(Cursor(definition.revision, definition.activatedAt, first.value, 0))));
    }
    var cursor := task.cursor.value;
    if cursor.definitionRevision != definition.revision {
      return Err(Integrity);
    }
    if task.tick.observedAt < cursor.evaluatedThrough {
      return Err(InvalidState);
    }
    if task.tick.observedAt == cursor.evaluatedThrough {
      return Ok(None);
    }
    var through := Through(cursor.evaluatedThrough, task.tick.observedAt);
    var decisions := Between(definition.calendar, cursor.evaluatedThrough, through);
    if |decisions| > MAX_DECISIONS {
      return Err(Unavailable);
    }
    KindsPartition(decisions, task.tick.continuity);
    var materialized := MaterializeDecisions(decisions, task.tick.continuity, definition.policy);
    var occurrences := ByLocal(materialized.value);
    if |occurrences| > MAX_EVALUATION_OCCURRENCES {
      return Err(Unavailable);
    }
    var next := FirstAfter(definition.calendar, through);
    if next.None? {
      return Err(InvalidState);
    }
    var advanced := cursor.(evaluatedThrough := through, next := next.value, revision := cursor.revision + 1);
    var proposal := Advance(advanced, Evaluation(task.tick, cursor.evaluatedThrough, through, decisions, occurrences));
    if Ordered(definition.calendar) {
      ProposalsAreRight(task, proposal);
    }
    return Ok(Some(proposal));
  }

  // Steps

  datatype SlotStep =
    | Loads(tick: Tick)
    | Commits(task: Task, proposal: Proposal)
    | Edits(definition: Definition)

  function CursorRevision(cursor: Option<Cursor>): Option<nat> {
    if cursor.None? then None else Some(cursor.value.revision)
  }

  predicate SlotNext(lease: Option<Lease>, s: Slot, s': Slot, step: SlotStep) {
    match step
    case Loads(tick) =>
      s' == s.(tasks := s.tasks + {Task(tick, s.definition, s.cursor)})
    case Commits(task, proposal) =>
      && task in s.tasks && Proposes(task, proposal)
      && LiveAt(lease, task.tick.token, task.tick.observedAt)
      && s.definition.enabled && s.definition.revision == task.definition.revision
      && CursorRevision(s.cursor) == CursorRevision(task.cursor)
      && s' == s.(cursor := Some(proposal.cursor),
                  log := if proposal.Advance? then s.log + [proposal.evaluation] else s.log)
    case Edits(definition) =>
      // The store refuses to change a definition that has a cursor.
      && s.cursor.None? && definition.revision == s.definition.revision + 1 && Ordered(definition.calendar)
      && s' == s.(definition := definition)
  }

  datatype Step =
    | Create(id: string, definition: Definition)
    | BeginTick(owner: string, now: nat, floor: nat)
    | Move(id: string, slotStep: SlotStep)

  predicate IsFloor(w: World, floor: nat) {
    && (w.lease.Some? ==> w.lease.value.renewedAt <= floor)
    && (forall id :: id in w.slots && w.slots[id].cursor.Some? ==> w.slots[id].cursor.value.evaluatedThrough <= floor)
  }

  ghost predicate NextBy(
    w: World, w': World, step: Step, slotNext: (Option<Lease>, Slot, Slot, SlotStep) -> bool)
  {
    match step
    case Create(id, definition) =>
      && id !in w.slots && Ordered(definition.calendar)
      && w' == w.(slots := w.slots[id := Slot(definition, None, [], {})])
    case BeginTick(owner, now, floor) =>
      var acquisition := Acquire(w.lease, floor, owner, now);
      && IsFloor(w, floor)
      && acquisition.Acquired?
      && w' == w.(lease := Some(acquisition.lease),
                  ticks := w.ticks + {Tick(acquisition.lease.token, acquisition.continuity, now)})
    case Move(id, slotStep) =>
      && id in w.slots && id in w'.slots
      && (slotStep.Loads? ==> slotStep.tick in w.ticks)
      && slotNext(w.lease, w.slots[id], w'.slots[id], slotStep)
      && w' == w.(slots := w.slots[id := w'.slots[id]])
  }

  ghost predicate Next(w: World, w': World) {
    exists step :: NextBy(w, w', step, SlotNext)
  }

  ghost predicate Init(w: World) {
    w == World(None, {}, map[])
  }

  // The invariant

  /** How far the first `k` evaluations reach. */
  function Reach(definition: Definition, log: seq<Evaluation>, k: nat): nat
    requires k <= |log|
  {
    if k == 0 then definition.activatedAt else log[k - 1].through
  }

  /** The cursor after as many evaluations as its revision tells; it waits for the first decision beyond them. */
  predicate IsCursor(s: Slot, cursor: Cursor) {
    && cursor.definitionRevision == s.definition.revision
    && cursor.revision <= |s.log| && cursor.evaluatedThrough == Reach(s.definition, s.log, cursor.revision)
    && FirstAfter(s.definition.calendar, cursor.evaluatedThrough) == Some(cursor.next)
  }

  /** The decisions are those of the window, judged by the continuity of the tick that evaluated it. */
  ghost predicate Sound(definition: Definition, e: Evaluation) {
    && e.decisions == Between(definition.calendar, e.after, e.through)
    && e.occurrences == ByLocal(Occurrences(e.decisions, e.tick.continuity, definition.policy))
    && Bounded(e)
  }

  /** Never past the observation, 180 days at a time, a bounded number of decisions and occurrences. */
  predicate Bounded(e: Evaluation) {
    && e.through <= e.tick.observedAt && |e.decisions| <= 370 && |e.occurrences| <= 3
    && (e.through < e.tick.observedAt ==> e.through == e.after + 180 * 86_400_000)
    && (e.after + 180 * 86_400_000 <= U64_MAX ==> e.through <= e.after + 180 * 86_400_000)
  }

  /** Windows follow each other without gap or overlap, and each accounts for all its decisions. */
  ghost predicate Tiles(definition: Definition, log: seq<Evaluation>) {
    forall k: nat :: k < |log| ==> TileAt(definition, log, k)
  }

  ghost predicate TileAt(definition: Definition, log: seq<Evaluation>, k: nat)
    requires k < |log|
  {
    log[k].after == Reach(definition, log, k) && log[k].after < log[k].through && Sound(definition, log[k])
  }

  ghost predicate Fenced(s: Slot, fence: nat) {
    && (forall k :: 0 <= k < |s.log| ==> s.log[k].tick.token.fence <= fence)
    && (forall j, k :: 0 <= j <= k < |s.log| ==> s.log[j].tick.token.fence <= s.log[k].tick.token.fence)
  }

  /** A stale read is still a true reading of some earlier moment of the same definition. */
  ghost predicate TaskInv(s: Slot, task: Task) {
    && task.definition.revision <= s.definition.revision
    && (task.definition.revision == s.definition.revision ==> task.definition == s.definition)
    && (task.cursor.Some? ==>
          s.cursor.Some? && task.definition == s.definition && IsCursor(s, task.cursor.value))
  }

  ghost predicate SlotInv(fence: nat, s: Slot) {
    && Ordered(s.definition.calendar)
    && (s.cursor.None? ==> s.log == [])
    && (s.cursor.Some? ==> IsCursor(s, s.cursor.value) && s.cursor.value.revision == |s.log|)
    && Tiles(s.definition, s.log) && Fenced(s, fence)
    && (forall task :: task in s.tasks ==> TaskInv(s, task))
  }

  lemma ProposalIsSound(task: Task, proposal: Proposal)
    requires Proposes(task, proposal) && proposal.Advance?
    ensures Sound(task.definition, proposal.evaluation)
    ensures proposal.evaluation.after < proposal.evaluation.through <= task.tick.observedAt
  {
  }

  function Extended(s: Slot, e: Evaluation, next: Decision): Slot {
    s.(cursor := Some(Cursor(s.definition.revision, e.through, next, |s.log| + 1)), log := s.log + [e])
  }

  /** A commit that passes the store's comparisons extends exactly the window the daemon had read. */
  lemma CommitExtends(lease: Option<Lease>, s: Slot, s': Slot, task: Task, proposal: Proposal)
    requires SlotInv(Fence(lease), s) && SlotNext(lease, s, s', Commits(task, proposal)) && proposal.Advance?
    ensures s' == Extended(s, proposal.evaluation, proposal.cursor.next) && s.cursor.Some?
    ensures FirstAfter(s.definition.calendar, proposal.evaluation.through) == Some(proposal.cursor.next)
    ensures proposal.evaluation.after == Reach(s.definition, s.log, |s.log|) < proposal.evaluation.through
    ensures Sound(s.definition, proposal.evaluation) && proposal.evaluation.tick.token.fence == Fence(lease)
  {
    assert TaskInv(s, task);
    ProposalIsSound(task, proposal);
    hide Sound;
    hide Tiles;
    hide Fenced;
  }

  lemma ExtensionKeepsInv(fence: nat, s: Slot, e: Evaluation, next: Decision)
    requires SlotInv(fence, s) && s.cursor.Some?
    requires e.after == Reach(s.definition, s.log, |s.log|) < e.through && Sound(s.definition, e) && e.tick.token.fence == fence
    requires FirstAfter(s.definition.calendar, e.through) == Some(next)
    ensures SlotInv(fence, Extended(s, e, next))
  {
    hide Sound;
    hide Ordered;
    var s' := Extended(s, e, next);
    assert forall k :: 0 <= k <= |s.log| ==> Reach(s'.definition, s'.log, k) == Reach(s.definition, s.log, k);
    assert forall k :: 0 <= k < |s.log| ==> s'.log[k] == s.log[k];
    forall k: nat | k < |s'.log|
      ensures TileAt(s'.definition, s'.log, k)
    {
      assert k < |s.log| ==> TileAt(s.definition, s.log, k);
    }
    forall task | task in s'.tasks
      ensures TaskInv(s', task)
    {
      assert TaskInv(s, task);
    }
  }

  lemma CommitKeepsInv(lease: Option<Lease>, s: Slot, s': Slot, task: Task, proposal: Proposal)
    requires SlotInv(Fence(lease), s) && SlotNext(lease, s, s', Commits(task, proposal))
    ensures SlotInv(Fence(lease), s')
    ensures s'.definition == s.definition && s.log <= s'.log && s'.cursor.Some?
  {
    if proposal.Advance? {
      CommitExtends(lease, s, s', task, proposal);
      ExtensionKeepsInv(Fence(lease), s, proposal.evaluation, proposal.cursor.next);
      hide SlotInv;
      hide Proposes;
    } else {
      assert TaskInv(s, task);
      hide Ordered;
    }
  }

  lemma CommitFollowsItsTick(lease: Option<Lease>, s: Slot, s': Slot, task: Task, proposal: Proposal)
    requires SlotNext(lease, s, s', Commits(task, proposal))
    ensures TicksFollow(s, s', Commits(task, proposal))
  {
    hide Occurrences;
    hide ByLocal;
    hide Between;
  }

  lemma SlotStepKeepsInv(lease: Option<Lease>, s: Slot, s': Slot, step: SlotStep)
    requires SlotInv(Fence(lease), s) && SlotNext(lease, s, s', step)
    ensures SlotInv(Fence(lease), s')
    ensures s.log <= s'.log && TicksFollow(s, s', step)
    ensures s.cursor.Some? ==> s'.cursor.Some? && s'.definition == s.definition
  {
    if step.Commits? {
      CommitKeepsInv(lease, s, s', step.task, step.proposal);
      CommitFollowsItsTick(lease, s, s', step.task, step.proposal);
    }
  }

  ghost predicate WorldInv(w: World, slotInv: (nat, Slot) -> bool) {
    forall id :: id in w.slots ==> slotInv(Fence(w.lease), w.slots[id]) && TicksKnown(w, w.slots[id])
  }

  /** Whatever a daemon evaluates, it evaluates in a tick that took place. */
  ghost predicate TicksKnown(w: World, s: Slot) {
    && (forall task :: task in s.tasks ==> task.tick in w.ticks)
    && (forall k :: 0 <= k < |s.log| ==> s.log[k].tick in w.ticks)
  }

  /** New workers are of the tick that loads them, and new windows of the worker that commits them. */
  ghost predicate TicksFollow(s: Slot, s': Slot, step: SlotStep) {
    && (forall task :: task in s'.tasks && task !in s.tasks ==> step.Loads? && task.tick == step.tick)
    && (forall k :: |s.log| <= k < |s'.log| ==> exists task :: task in s.tasks && task.tick == s'.log[k].tick)
  }

  ghost predicate Inv(w: World) {
    WorldInv(w, SlotInv)
  }

  ghost predicate SlotContract(
    slotInv: (nat, Slot) -> bool, slotNext: (Option<Lease>, Slot, Slot, SlotStep) -> bool)
  {
    && (forall lease, s, s', step :: slotInv(Fence(lease), s) && slotNext(lease, s, s', step) ==>
          && slotInv(Fence(lease), s') && s.log <= s'.log && TicksFollow(s, s', step)
          && (s.cursor.Some? ==> s'.cursor.Some? && s'.definition == s.definition))
    && (forall f, g, s :: f <= g && slotInv(f, s) ==> slotInv(g, s))
    && (forall f, definition: Definition :: Ordered(definition.calendar) ==> slotInv(f, Slot(definition, None, [], {})))
  }

  lemma SlotsMeetTheirContract()
    ensures SlotContract(SlotInv, SlotNext)
  {
    forall lease, s, s', step | SlotInv(Fence(lease), s) && SlotNext(lease, s, s', step)
      ensures SlotInv(Fence(lease), s') && s.log <= s'.log && TicksFollow(s, s', step)
      ensures s.cursor.Some? ==> s'.cursor.Some? && s'.definition == s.definition
    {
      SlotStepKeepsInv(lease, s, s', step);
    }
    forall f: nat, g: nat, s | f <= g && SlotInv(f, s)
      ensures SlotInv(g, s)
    {
    }
  }

  /** Fences only grow, strictly when the lease changes hands. */
  lemma AcquireRaisesFence(lease: Option<Lease>, floor: nat, owner: string, now: nat)
    ensures
      var acquisition := Acquire(lease, floor, owner, now);
      acquisition.Acquired? ==>
        && Fence(Some(acquisition.lease)) >= Fence(lease) && (lease.None? ==> Fence(Some(acquisition.lease)) == 1)
        && (lease.Some? && lease.value.token != acquisition.lease.token ==> Fence(Some(acquisition.lease)) > Fence(lease))
        && (lease.Some? && lease.value.expiresAt <= now ==> Fence(Some(acquisition.lease)) > Fence(lease))
        && (lease.Some? && now < lease.value.expiresAt ==> acquisition.lease.token == lease.value.token)
  {
  }

  /**
   A stored lease that passes its own check is refused to others while it lives; an acquired
   one is live for its owner, and its continuity reaches back before now only across an
   uninterrupted renewal.
   */
  lemma AcquireIsExclusive(lease: Option<Lease>, floor: nat, owner: string, now: nat)
    requires lease.Some? ==> lease.value.acquiredAt <= lease.value.renewedAt
    ensures
      var acquisition := Acquire(lease, floor, owner, now);
      && (lease.Some? && lease.value.token.owner != owner && LiveAt(lease, lease.value.token, now) ==>
            if now < floor then acquisition.ClockRegressed? else acquisition.Busy?)
      && (acquisition.Acquired? ==>
            && acquisition.lease.token.owner == owner && LiveAt(Some(acquisition.lease), acquisition.lease.token, now)
            && acquisition.lease.acquiredAt <= acquisition.lease.renewedAt == now
            && acquisition.lease.expiresAt == now + 30_000
            && floor <= now && acquisition.continuity <= now
            && (acquisition.continuity < now ==>
                  LiveAt(lease, acquisition.lease.token, now) && acquisition.continuity == lease.value.renewedAt))
  {
  }

  lemma StepKeepsInv(w: World, w': World, step: Step, slotInv: (nat, Slot) -> bool,
                     slotNext: (Option<Lease>, Slot, Slot, SlotStep) -> bool)
    requires SlotContract(slotInv, slotNext)
    requires WorldInv(w, slotInv) && NextBy(w, w', step, slotNext)
    ensures WorldInv(w', slotInv)
    ensures forall id :: id in w.slots ==>
      id in w'.slots && w.slots[id].log <= w'.slots[id].log
      && (w.slots[id].cursor.Some? ==> w'.slots[id].cursor.Some? && w'.slots[id].definition == w.slots[id].definition)
  {
  }

  lemma InvIsInductive()
    ensures forall w :: Init(w) ==> Inv(w)
    ensures forall w, w' :: Inv(w) && Next(w, w') ==> Inv(w')
  {
    SlotsMeetTheirContract();
    forall w, w' | Inv(w) && Next(w, w')
      ensures Inv(w')
    {
      var step :| NextBy(w, w', step, SlotNext);
      StepKeepsInv(w, w', step, SlotInv, SlotNext);
    }
  }

  // What the log stands for

  function AllDecisions(log: seq<Evaluation>): seq<Decision> {
    if log == [] then [] else AllDecisions(log[..|log| - 1]) + log[|log| - 1].decisions
  }

  function AllCounts(log: seq<Evaluation>): nat {
    if log == [] then 0 else AllCounts(log[..|log| - 1]) + Total(log[|log| - 1].occurrences)
  }

  /** What one committed window says of a decision: its own occurrence, or the one in which missed runs are folded. */
  ghost predicate Represented(definition: Definition, e: Evaluation, d: Decision) {
    if d.Nonexistent? then Occurrence(d, 1, SkippedInvalidLocalTime) in e.occurrences
    else
      || Occurrence(d, 1, Pending) in e.occurrences
      || exists o :: o in e.occurrences && StandsFor(definition, o, d)
  }

  predicate StandsFor(definition: Definition, o: Occurrence, d: Decision) {
    && o.decision.Due? && d.at <= o.decision.at && o.count > 0
    && o.state == if definition.policy.SkipMissed? then SkippedMissed else Pending
  }

  lemma SoundWindowsRepresent(definition: Definition, e: Evaluation)
    requires Ordered(definition.calendar) && Sound(definition, e)
    ensures Total(e.occurrences) == |e.decisions|
    ensures Judged(e.decisions, e.tick.continuity, definition.policy, e.occurrences)
    ensures forall o :: o in e.occurrences ==> o.decision in e.decisions
    ensures forall d :: d in e.decisions ==> Represented(definition, e, d)
  {
    hide Occurrences;
    hide Between;
    hide Ordered;
    hide Total;
    hide Judged;
    var continuity := e.tick.continuity;
    OccurrencesCountEveryDecision(e.decisions, continuity, definition.policy);
    OccurrencesAreDecisions(e.decisions, continuity, definition.policy);
    ByLocalKeeps(Occurrences(e.decisions, continuity, definition.policy));
    BetweenIsOrdered(definition.calendar, e.after, e.through);
    OccurrencesAreJudged(e.decisions, continuity, definition.policy);
    forall d | d in e.decisions
      ensures Represented(definition, e, d)
    {
      EveryDecisionIsRepresented(e.decisions, continuity, definition.policy, d);
      if IsMissed(d, continuity) {
        var folded := Folded(Missed(e.decisions, continuity), definition.policy)[0];
        SelectKeeps(e.decisions, (d: Decision) => IsMissed(d, continuity));
        assert folded in e.occurrences && StandsFor(definition, folded, d);
      }
    }
  }

  lemma LastTile(definition: Definition, log: seq<Evaluation>)
    requires Tiles(definition, log) && log != []
    ensures Tiles(definition, log[..|log| - 1]) && TileAt(definition, log, |log| - 1)
  {
    hide Sound;
    var front := log[..|log| - 1];
    forall k: nat | k < |front|
      ensures TileAt(definition, front, k)
    {
      assert TileAt(definition, log, k);
    }
  }

  lemma {:induction false} TilesCoverTheWindow(definition: Definition, log: seq<Evaluation>)
    requires Ordered(definition.calendar) && Tiles(definition, log)
    ensures definition.activatedAt <= Reach(definition, log, |log|)
    ensures AllDecisions(log) == Between(definition.calendar, definition.activatedAt, Reach(definition, log, |log|))
    ensures AllCounts(log) == |AllDecisions(log)|
  {
    hide Ordered;
    hide Tiles;
    hide Between;
    hide Sound;
    if log == [] {
      WindowsPartition(definition.calendar, definition.activatedAt, definition.activatedAt, definition.activatedAt);
    } else {
      var last := |log| - 1;
      LastTile(definition, log);
      TilesCoverTheWindow(definition, log[..last]);
      SoundWindowsRepresent(definition, log[last]);
      SoundCoversItsWindow(definition, log[last]);
      WindowsPartition(definition.calendar, definition.activatedAt, log[last].after, log[last].through);
    }
  }

  lemma SoundCoversItsWindow(definition: Definition, e: Evaluation)
    requires Sound(definition, e)
    ensures e.decisions == Between(definition.calendar, e.after, e.through)
  {
  }

  lemma {:induction false} ReachGrows(definition: Definition, log: seq<Evaluation>, j: nat, k: nat)
    requires Tiles(definition, log) && j <= k <= |log|
    ensures Reach(definition, log, j) <= Reach(definition, log, k)
    decreases k
  {
    hide Sound;
    if j < k {
      ReachGrows(definition, log, j, k - 1);
      assert TileAt(definition, log, k - 1);
    }
  }

  /** The window that evaluated an instant. */
  lemma {:induction false} WindowAt(definition: Definition, log: seq<Evaluation>, at: nat, k: nat) returns (j: nat)
    requires Tiles(definition, log) && k <= |log| && definition.activatedAt < at <= Reach(definition, log, k)
    ensures j < k && Reach(definition, log, j) < at <= Reach(definition, log, j + 1)
    decreases k
  {
    if at > Reach(definition, log, k - 1) {
      j := k - 1;
    } else {
      j := WindowAt(definition, log, at, k - 1);
    }
  }

  lemma WindowMembers(definition: Definition, log: seq<Evaluation>, d: Decision, k: nat)
    requires Tiles(definition, log) && k < |log|
    ensures d in log[k].decisions <==>
      d in definition.calendar && Reach(definition, log, k) < d.at <= Reach(definition, log, k + 1)
  {
    hide Between;
    assert TileAt(definition, log, k);
    BetweenMembers(definition.calendar, log[k].after, log[k].through);
  }

  /** A decision of the evaluated time is in one window and in no other. */
  lemma InExactlyOneWindow(definition: Definition, log: seq<Evaluation>, d: Decision) returns (k: nat)
    requires Tiles(definition, log) && d in definition.calendar
    requires definition.activatedAt < d.at <= Reach(definition, log, |log|)
    ensures k < |log| && d in log[k].decisions
    ensures forall j :: 0 <= j < |log| && d in log[j].decisions ==> j == k
  {
    k := WindowAt(definition, log, d.at, |log|);
    WindowMembers(definition, log, d, k);
    forall j | 0 <= j < |log| && d in log[j].decisions
      ensures j == k
    {
      WindowMembers(definition, log, d, j);
      if j < k {
        ReachGrows(definition, log, j + 1, k);
      } else if k < j {
        ReachGrows(definition, log, k + 1, j);
      }
    }
  }

  /**
   Over every run: the committed windows of a definition tile the time from its activation
   to its cursor, so that every decision in that time belongs to exactly one of them, and
   the occurrences of all of them together count exactly those decisions. Each window is
   judged by the continuity of the tick that evaluated it: each decision is represented and
   each occurrence stands for what it should. Windows are bounded and never reach past the
   tick, which is one of the ticks that took place.
   Windows advance strictly, their fences never decrease, and the cursor waits for the
   first decision that no window has evaluated.
   */
  lemma WindowsTile(trace: seq<World>, i: nat, id: string)
    requires IsRun(Init, Next, trace) && i < |trace| && id in trace[i].slots
    ensures
      var s := trace[i].slots[id];
      && Tiles(s.definition, s.log) && Fenced(s, Fence(trace[i].lease))
      && (forall k :: 0 <= k < |s.log| ==>
            && Judged(s.log[k].decisions, s.log[k].tick.continuity, s.definition.policy, s.log[k].occurrences)
            && Bounded(s.log[k]) && s.log[k].tick in trace[i].ticks)
      && (forall k, d :: 0 <= k < |s.log| && d in s.log[k].decisions ==> Represented(s.definition, s.log[k], d))
      && (forall k, o :: 0 <= k < |s.log| && o in s.log[k].occurrences ==> o.decision in s.log[k].decisions)
      && (s.cursor.None? ==> s.log == [])
      && (s.cursor.Some? ==>
            var through := s.cursor.value.evaluatedThrough;
            && AllDecisions(s.log) == Between(s.definition.calendar, s.definition.activatedAt, through)
            && AllCounts(s.log) == |Between(s.definition.calendar, s.definition.activatedAt, through)|
            && s.cursor.value.next in s.definition.calendar && s.cursor.value.next.at > through
            && (forall d :: d in s.definition.calendar && d.at > through ==> s.cursor.value.next.at <= d.at))
  {
    InvIsInductive();
    InvariantHolds(Init, Next, Inv, trace, i);
    var s := trace[i].slots[id];
    assert SlotInv(Fence(trace[i].lease), s) && TicksKnown(trace[i], s);
    TilesCoverTheWindow(s.definition, s.log);
    if s.cursor.Some? {
      FirstAfterIsNext(s.definition.calendar, s.cursor.value.evaluatedThrough);
    }
    forall k: nat | k < |s.log|
      ensures forall d :: d in s.log[k].decisions ==> Represented(s.definition, s.log[k], d)
      ensures forall o :: o in s.log[k].occurrences ==> o.decision in s.log[k].decisions
      ensures Judged(s.log[k].decisions, s.log[k].tick.continuity, s.definition.policy, s.log[k].occurrences)
      ensures Bounded(s.log[k])
    {
      assert TileAt(s.definition, s.log, k);
      SoundWindowsRepresent(s.definition, s.log[k]);
    }
  }

  /** What was committed stays committed, in place, under the definition it was computed for. */
  lemma CommittedWindowsStay(trace: seq<World>, i: nat, j: nat, id: string)
    requires IsRun(Init, Next, trace) && i <= j < |trace| && id in trace[i].slots && trace[i].slots[id].cursor.Some?
    ensures id in trace[j].slots && trace[i].slots[id].log <= trace[j].slots[id].log
    ensures trace[j].slots[id].definition == trace[i].slots[id].definition
  {
    hide SlotContract;
    hide WorldInv;
    var s := trace[i].slots[id];
    var keeps := (w: World) =>
      id in w.slots && s.log <= w.slots[id].log && w.slots[id].cursor.Some? && w.slots[id].definition == s.definition;
    InvIsInductive();
    SlotsMeetTheirContract();
    forall w, w' | Inv(w) && keeps(w) && Next(w, w')
      ensures keeps(w')
    {
      var step :| NextBy(w, w', step, SlotNext);
      StepKeepsInv(w, w', step, SlotInv, SlotNext);
    }
    StablePropertyHolds(Init, Next, Inv, keeps, trace, i, j);
  }

  /** A tick is what the store answered to one acquisition at its time, continuity and all. */
  ghost predicate WasAcquired(trace: seq<World>, j: nat, floor: nat, tick: Tick)
    requires j < |trace|
  {
    var acquisition := Acquire(trace[j].lease, floor, tick.token.owner, tick.observedAt);
    && IsFloor(trace[j], floor)
    && acquisition.Acquired? && acquisition.lease.token == tick.token && acquisition.continuity == tick.continuity
  }

  lemma {:induction false} TicksComeFromAcquisitions(trace: seq<World>, i: nat, tick: Tick) returns (j: nat, floor: nat)
    requires IsRun(Init, Next, trace) && i < |trace| && tick in trace[i].ticks
    ensures j < i && WasAcquired(trace, j, floor, tick)
  {
    assert i > 0 && Next(trace[i - 1], trace[i]);
    var step :| NextBy(trace[i - 1], trace[i], step, SlotNext);
    if tick in trace[i - 1].ticks {
      j, floor := TicksComeFromAcquisitions(trace, i - 1, tick);
    } else {
      j, floor := i - 1, step.floor;
      AcquiredIsOwned(trace[i - 1].lease, step.floor, step.owner, step.now);
    }
  }

  lemma AcquiredIsOwned(lease: Option<Lease>, floor: nat, owner: string, now: nat)
    ensures Acquire(lease, floor, owner, now).Acquired? ==> Acquire(lease, floor, owner, now).lease.token.owner == owner
  {
  }

  /** Whenever in a run a window is committed, its tick's lease is the stored one and lives, and the definition is enabled. */
  lemma CommitsAreLeased(trace: seq<World>, i: nat, id: string)
    requires IsRun(Init, Next, trace) && i + 1 < |trace| && id in trace[i].slots && id in trace[i + 1].slots
    requires |trace[i + 1].slots[id].log| > |trace[i].slots[id].log|
    ensures
      var log, lease := trace[i + 1].slots[id].log, trace[i].lease;
      var tick := log[|log| - 1].tick;
      && |log| == |trace[i].slots[id].log| + 1 && trace[i].slots[id].definition.enabled
      && lease.Some? && lease.value.token == tick.token
      && lease.value.renewedAt <= tick.observedAt < lease.value.expiresAt
  {
    hide Occurrences;
    hide ByLocal;
    hide Between;
    assert Next(trace[i], trace[i + 1]);
    var step :| NextBy(trace[i], trace[i + 1], step, SlotNext);
  }
}
