/**
 Opening an artifact as a step system. A slot is what is durable about one command and
 what an observer notes about it. Beside the slots stand the callers, who resolve their
 command first and look at the artifact only if it is unknown; the workers they become
 once a new journal is theirs; recovery passes, each with the journal it listed; and the
 artifacts, which gain versions and are removed. A store call may take effect although its
 caller sees an error, and a crash drops every volatile part at any point.

 The store does not look a journal up by its command. A transition goes to the one
 incomplete journal that has the version and the revision its caller names. `Next` is the
 daemon, which recovers alone at start-up; `AnyNext` lets recovery begin at any time.
 */
module OpenProtocol {
  import opened Wrappers
  import opened Runs
  import opened Artifacts
  import opened OpenPlans

  datatype ReceiptStatus = WasOpenedOnce | WasRefused | NeedsReview

  datatype Receipt = Receipt(artifactId: string, contentVersion: nat, status: ReceiptStatus, failure: Option<OpenFailure>)

  function ReceiptFor(plan: OpenPlan): Receipt
    requires plan.Terminal()
  {
    var status :=
      match plan.state
      case Opened => WasOpenedOnce
      case Failed => WasRefused
      case _ => NeedsReview;
    Receipt(plan.content.artifactId, plan.content.version, status, plan.failure)
  }

  datatype Slot = Slot(
    plan: OpenPlan,
    calls: nat, // opener calls by the worker of this command
    succeeded: bool, // the opener returned success to it
    refusal: Option<OpenFailure>, // the failure that the opener returned to it
    receipts: set<Receipt>) // everything its callers were told

  /** Where a worker stands, for which command it was started, and its copy of a journal. */
  datatype Worker =
    | Marking(home: string, plan: OpenPlan)
    | Calling(home: string, plan: OpenPlan)
    | Waiting(home: string, plan: OpenPlan)
    | Completing(home: string, plan: OpenPlan)
    | Failing(home: string, plan: OpenPlan, failure: OpenFailure)
    | Interrupting(home: string, plan: OpenPlan)

  /** Where a call to open stands. */
  datatype Caller =
    | Resolving(key: string, content: ArtifactVersion)
    | Checking(key: string, content: ArtifactVersion)
    | Preparing(key: string, content: ArtifactVersion)

  datatype World = World(
    slots: map<string, Slot>,
    callers: map<nat, Caller>,
    workers: map<nat, Worker>,
    passes: map<nat, OpenPlan>, // what each recovery pass has listed
    published: set<ArtifactVersion>, // every immutable version ever recorded
    current: map<string, ArtifactVersion>, // what is available, by artifact
    removed: set<string>) // tombstones

  datatype CallerStep =
    | Requests(key: string, content: ArtifactVersion)
    | Resolves
    | Checks
    | Prepares(at: UnixMillis, answered: bool)
    | Leaves

  datatype WorkerStep =
    | Marks(target: string, at: UnixMillis, answered: bool)
    | Calls
    | OpenerSucceeds
    | OpenerFails(failure: OpenFailure)
    | OutcomeUnknown
    | Ends(target: string, at: UnixMillis, answered: bool)
    | Abandons

  datatype PassStep =
    | Lists(key: string)
    | Recovers(target: string, at: UnixMillis)
    | GivesUp

  datatype Step =
    | CallerActs(id: nat, callerStep: CallerStep)
    | WorkerActs(id: nat, workerStep: WorkerStep)
    | PassActs(id: nat, passStep: PassStep)
    | Publishes(content: ArtifactVersion)
    | Removes(artifactId: string)
    | Crash

  // Callers

  /** What a caller is told about a command that is already durable: a receipt, or that it is pending or taken. */
  function Replayed(s: Slot, content: ArtifactVersion): Slot {
    if s.plan.content == content && s.plan.Restorable() && s.plan.Terminal()
    then s.(receipts := s.receipts + {ReceiptFor(s.plan)})
    else s
  }

  function AfterReplay(w: World, id: nat, key: string, content: ArtifactVersion): World
    requires key in w.slots
  {
    w.(slots := w.slots[key := Replayed(w.slots[key], content)], callers := w.callers - {id})
  }

  predicate IsAvailable(w: World, content: ArtifactVersion) {
    content.artifactId in w.current && w.current[content.artifactId] == content
  }

  /** The store has one place for an incomplete open. */
  ghost predicate NothingIncomplete(w: World) {
    forall key :: key in w.slots ==> w.slots[key].plan.Terminal()
  }

  ghost predicate CallerNext(w: World, w': World, id: nat, step: CallerStep) {
    if step.Requests? then
      && id !in w.callers && id !in w.workers && step.content in w.published
      && w' == w.(callers := w.callers[id := Resolving(step.key, step.content)])
    else id in w.callers && KnownCallerNext(w, w', id, w.callers[id], step)
  }

  ghost predicate KnownCallerNext(w: World, w': World, id: nat, caller: Caller, step: CallerStep) {
    var key, content := caller.key, caller.content;
    var dropped := w.(callers := w.callers - {id});
    match step
    case Requests(_, _) => false
    case Resolves =>
      && caller.Resolving?
      && w' == if key in w.slots then AfterReplay(w, id, key, content)
               else w.(callers := w.callers[id := Checking(key, content)])
    case Checks =>
      && caller.Checking?
      && w' == if IsAvailable(w, content) then w.(callers := w.callers[id := Preparing(key, content)]) else dropped
    case Prepares(at, answered) =>
      && caller.Preparing?
      && w' == if key in w.slots then AfterReplay(w, id, key, content)
               else if IsAvailable(w, content) && NothingIncomplete(w) && Prepare(content, at).Some? then
                 AfterPreparing(dropped, id, key, Prepare(content, at).value, answered)
               else dropped
    case Leaves => w' == dropped
  }

  /** A new journal; nobody works on it if the answer was lost. */
  function AfterPreparing(w: World, id: nat, key: string, plan: OpenPlan, answered: bool): World {
    w.(slots := w.slots[key := Slot(plan, 0, false, None, {})],
       workers := if answered then w.workers[id := Marking(key, plan)] else w.workers)
  }

  // Store transitions of workers and passes

  /** The journal a transition for this copy finds. */
  predicate IsTarget(w: World, target: string, plan: OpenPlan) {
    && target in w.slots && !w.slots[target].plan.Terminal()
    && w.slots[target].plan.content == plan.content && w.slots[target].plan.revision == plan.revision
  }

  function WithPlan(w: World, key: string, plan: OpenPlan): map<string, Slot>
    requires key in w.slots
  {
    w.slots[key := w.slots[key].(plan := plan)]
  }

  /** How a worker ends the journal it found. */
  function Ended(plan: OpenPlan, worker: Worker, at: UnixMillis): Option<OpenPlan> {
    match worker
    case Completing(_, _) => plan.Complete(at)
    case Failing(_, _, failure) => plan.Fail(failure, at)
    case Interrupting(_, _) => plan.Interrupt(at)
    case _ => None
  }

  /** Recovery fails what was never dispatched and refers everything else to a person. */
  function Recovered(plan: OpenPlan, snapshot: OpenPlan, at: UnixMillis): Option<OpenPlan> {
    if snapshot.state.Prepared? then plan.Fail(InterruptedBeforeDispatch, at) else plan.Interrupt(at)
  }

  ghost predicate WorkerNext(w: World, w': World, id: nat, t: Worker, step: WorkerStep) {
    var gone := w.workers - {id};
    match step
    case Marks(target, at, answered) =>
      && t.Marking? && IsTarget(w, target, t.plan) && at >= t.plan.updatedAt
      && var marked := w.slots[target].plan.BeginDispatch(at);
         && marked.Some?
         && w' == w.(slots := WithPlan(w, target, marked.value),
                     workers := if answered then w.workers[id := Calling(t.home, marked.value)] else gone)
    case Calls =>
      && t.Calling? && t.home in w.slots
      && w' == w.(slots := w.slots[t.home := w.slots[t.home].(calls := w.slots[t.home].calls + 1)],
                  workers := w.workers[id := Waiting(t.home, t.plan)])
    case OpenerSucceeds =>
      && t.Waiting? && t.home in w.slots
      && w' == w.(slots := w.slots[t.home := w.slots[t.home].(succeeded := true)],
                  workers := w.workers[id := Completing(t.home, t.plan)])
    case OpenerFails(failure) =>
      && t.Waiting? && t.home in w.slots
      && w' == w.(slots := w.slots[t.home := w.slots[t.home].(refusal := Some(failure))],
                  workers := w.workers[id := Failing(t.home, t.plan, failure)])
    case OutcomeUnknown =>
      t.Waiting? && w' == w.(workers := w.workers[id := Interrupting(t.home, t.plan)])
    case Ends(target, at, answered) =>
      && IsTarget(w, target, t.plan) && at >= t.plan.updatedAt && t.home in w.slots
      && var done := Ended(w.slots[target].plan, t, at);
         && done.Some? && done.value.Terminal()
         && var slots := WithPlan(w, target, done.value);
            w' == w.(slots := if answered then Told(slots, t.home, done.value) else slots, workers := gone)
    case Abandons => w' == w.(workers := gone)
  }

  /** The caller behind the worker learns how the journal ended that the store found for it. */
  function Told(slots: map<string, Slot>, home: string, done: OpenPlan): map<string, Slot>
    requires home in slots && done.Terminal()
  {
    slots[home := slots[home].(receipts := slots[home].receipts + {ReceiptFor(done)})]
  }

  ghost predicate PassNext(w: World, w': World, id: nat, step: PassStep) {
    match step
    case Lists(key) =>
      && id !in w.passes && key in w.slots && !w.slots[key].plan.Terminal()
      && w' == w.(passes := w.passes[id := w.slots[key].plan])
    case Recovers(target, at) =>
      && id in w.passes && IsTarget(w, target, w.passes[id])
      && w.passes[id].Restorable() && !w.passes[id].Terminal() && at >= w.passes[id].updatedAt
      && var done := Recovered(w.slots[target].plan, w.passes[id], at);
         && done.Some?
         && w' == w.(slots := WithPlan(w, target, done.value), passes := w.passes - {id})
    case GivesUp =>
      w' == w.(passes := w.passes - {id})
  }

  ghost predicate Takes(w: World, w': World, step: Step) {
    match step
    case CallerActs(id, callerStep) => CallerNext(w, w', id, callerStep)
    case WorkerActs(id, workerStep) => id in w.workers && WorkerNext(w, w', id, w.workers[id], workerStep)
    case PassActs(id, passStep) => PassNext(w, w', id, passStep)
    case Publishes(content) =>
      && content.artifactId !in w.removed
      && (forall other :: other in w.published ==>
            (other.artifactId, other.version) != (content.artifactId, content.version))
      && w' == w.(published := w.published + {content}, current := w.current[content.artifactId := content])
    case Removes(artifactId) =>
      && artifactId in w.current && NothingIncomplete(w)
      && w' == w.(current := w.current - {artifactId}, removed := w.removed + {artifactId})
    case Crash =>
      w' == w.(callers := map[], workers := map[], passes := map[])
  }

  /** The daemon recovers at start-up, in one pass, before anybody works. */
  ghost predicate Alone(w: World, step: Step) {
    step.PassActs? && step.passStep.Lists? ==> w.workers == map[] && w.passes == map[]
  }

  ghost predicate AnyNext(w: World, w': World) {
    exists step :: Takes(w, w', step)
  }

  ghost predicate Next(w: World, w': World) {
    exists step :: Alone(w, step) && Takes(w, w', step)
  }

  ghost predicate Init(w: World) {
    w == World(map[], map[], map[], map[], {}, map[], {})
  }

  lemma DaemonRunsAreRuns(trace: seq<World>)
    requires IsRun(Init, Next, trace)
    ensures IsRun(Init, AnyNext, trace)
  {
    forall i | 0 < i < |trace|
      ensures AnyNext(trace[i - 1], trace[i])
    {
      var step :| Alone(trace[i - 1], step) && Takes(trace[i - 1], trace[i], step);
    }
  }

  // What holds however recoveries overlap

  /** What the world knows of one journal: its version was published, and its artifact stays while it is incomplete. */
  predicate SlotFits(w: World, s: Slot) {
    && s.plan.Restorable() && s.plan.content in w.published && s.calls <= 1
    && (s.plan.Terminal() || s.plan.content.artifactId in w.current)
  }

  ghost predicate OneIncomplete(w: World) {
    forall a, b :: a in w.slots && b in w.slots && !w.slots[a].plan.Terminal() && !w.slots[b].plan.Terminal() ==> a == b
  }

  /**
   A worker has called the opener if it is past that point, on the version of its own command,
   and goes on as the opener answered.
   */
  predicate WorkerFits(w: World, t: Worker) {
    && t.home in w.slots && t.plan.content == w.slots[t.home].plan.content
    && w.slots[t.home].calls == (if t.Marking? || t.Calling? then 0 else 1)
    && w.slots[t.home].succeeded == t.Completing?
    && w.slots[t.home].refusal == if t.Failing? then Some(t.failure) else None
  }

  ghost predicate SlotsFit(w: World) {
    && (forall key :: key in w.slots ==> SlotFits(w, w.slots[key]))
    && (forall id :: id in w.current ==> w.current[id] in w.published && w.current[id].artifactId == id)
    && OneIncomplete(w)
  }

  ghost predicate WorkersFit(w: World) {
    && (forall id :: id in w.workers ==> WorkerFits(w, w.workers[id]))
    && (forall a, b :: a in w.workers && b in w.workers && w.workers[a].home == w.workers[b].home ==> a == b)
    && (forall id :: id in w.callers ==> id !in w.workers)
  }

  /** Somebody's opener call on this very version returned success. */
  ghost predicate OpenedBySomebody(w: World, content: ArtifactVersion) {
    exists key :: key in w.slots && w.slots[key].plan.content == content && w.slots[key].succeeded
  }

  ghost predicate OpenedIsTrue(w: World) {
    forall key :: key in w.slots && w.slots[key].plan.state.Opened? ==> OpenedBySomebody(w, w.slots[key].plan.content)
  }

  ghost predicate AnyInv(w: World) {
    SlotsFit(w) && WorkersFit(w) && OpenedIsTrue(w)
  }

  /** Durable commands stay, and a terminal journal is never written again. */
  ghost predicate JournalsKept(w: World, w': World) {
    forall key :: key in w.slots ==>
      && key in w'.slots && w'.slots[key].plan.content == w.slots[key].plan.content
      && (w.slots[key].plan.Terminal() ==> w'.slots[key].plan == w.slots[key].plan)
      && (w.slots[key].succeeded ==> w'.slots[key].succeeded)
  }

  predicate SameCalls(s: Slot, s': Slot) {
    s'.calls == s.calls && s'.succeeded == s.succeeded && s'.refusal == s.refusal
  }

  /** Nobody is seen to call the opener or to get its answer, except perhaps for one command. */
  ghost predicate CallsKept(w: World, w': World, but: set<string>) {
    forall key :: key in w.slots && key !in but ==> key in w'.slots && SameCalls(w.slots[key], w'.slots[key])
  }

  lemma CallsKeptBut(w: World, w': World, but: set<string>)
    requires CallsKept(w, w', {})
    ensures CallsKept(w, w', but)
  {
  }

  lemma SlotFact(w: World, key: string)
    requires SlotsFit(w) && key in w.slots
    ensures SlotFits(w, w.slots[key])
  {
  }

  lemma WorkerFact(w: World, id: nat)
    requires WorkersFit(w) && id in w.workers
    ensures WorkerFits(w, w.workers[id])
  {
  }

  /** A change of one journal by a transition of its own. */
  predicate Moved(plan: OpenPlan, plan': OpenPlan) {
    !plan.Terminal() && plan'.Restorable() && plan'.content == plan.content
  }

  lemma TransitionsMove(w: World, target: string, copy: OpenPlan, plan': OpenPlan, worker: Worker, at: UnixMillis)
    requires IsTarget(w, target, copy) && w.slots[target].plan.Restorable()
    requires
      var plan := w.slots[target].plan;
      || plan.BeginDispatch(at) == Some(plan')
      || Ended(plan, worker, at) == Some(plan')
      || (copy.Restorable() && Recovered(plan, copy, at) == Some(plan'))
    ensures Moved(w.slots[target].plan, plan')
  {
    hide ValidLine;
  }

  lemma UpdatedSlotsFit(w: World, w': World, key: string, s': Slot)
    requires SlotsFit(w) && SlotFits(w, s')
    requires w'.slots == w.slots[key := s'] && w'.published == w.published && w'.current == w.current
    requires s'.plan.Terminal() || NothingIncomplete(w) || (key in w.slots && !w.slots[key].plan.Terminal())
    ensures SlotsFit(w')
  {
    forall other | other in w'.slots
      ensures SlotFits(w', w'.slots[other])
    {
      assert other != key ==> SlotFits(w, w.slots[other]);
    }
  }

  lemma UpdatedSlotsKeep(w: World, w': World, key: string, s': Slot)
    requires w'.slots == w.slots[key := s']
    requires key in w.slots ==>
      && s'.plan.content == w.slots[key].plan.content
      && (w.slots[key].plan.Terminal() ==> s'.plan == w.slots[key].plan)
      && (w.slots[key].succeeded ==> s'.succeeded)
    ensures JournalsKept(w, w') && CallsKept(w, w', {key})
    ensures key !in w.slots || SameCalls(w.slots[key], s') ==> CallsKept(w, w', {})
  {
  }

  /** The pieces of a step: one journal moves, one command is observed, a command appears, or nothing changes. */
  lemma MovedKeepsSlots(w: World, w': World, key: string, plan': OpenPlan)
    requires SlotsFit(w) && key in w.slots && Moved(w.slots[key].plan, plan')
    requires w'.slots == WithPlan(w, key, plan') && w'.published == w.published && w'.current == w.current
    ensures SlotsFit(w') && JournalsKept(w, w') && CallsKept(w, w', {})
  {
    hide JournalsKept;
    hide CallsKept;
    hide SlotsFit;
    SlotFact(w, key);
    UpdatedSlotsFit(w, w', key, w.slots[key].(plan := plan'));
    UpdatedSlotsKeep(w, w', key, w.slots[key].(plan := plan'));
  }

  /** Everything but the journal of one slot may change as long as the calls stay bounded. */
  predicate Observed(s: Slot, s': Slot) {
    s'.plan == s.plan && s'.calls <= 1 && (s.succeeded ==> s'.succeeded)
  }

  lemma ObservedKeepsSlots(w: World, w': World, key: string, s': Slot)
    requires SlotsFit(w) && key in w.slots && Observed(w.slots[key], s')
    requires w'.slots == w.slots[key := s'] && w'.published == w.published && w'.current == w.current
    ensures SlotsFit(w') && JournalsKept(w, w') && CallsKept(w, w', {key})
    ensures SameCalls(w.slots[key], s') ==> CallsKept(w, w', {})
  {
    hide JournalsKept;
    hide CallsKept;
    hide SlotsFit;
    SlotFact(w, key);
    UpdatedSlotsFit(w, w', key, s');
    UpdatedSlotsKeep(w, w', key, s');
  }

  lemma PreparedKeepsSlots(w: World, w': World, key: string, plan: OpenPlan)
    requires SlotsFit(w) && key !in w.slots && NothingIncomplete(w) && IsAvailable(w, plan.content) && plan.Restorable()
    requires w'.slots == w.slots[key := Slot(plan, 0, false, None, {})]
    requires w'.published == w.published && w'.current == w.current
    ensures SlotsFit(w') && JournalsKept(w, w') && CallsKept(w, w', {})
  {
    hide JournalsKept;
    hide CallsKept;
    hide OneIncomplete;
    UpdatedSlotsFit(w, w', key, Slot(plan, 0, false, None, {}));
    UpdatedSlotsKeep(w, w', key, Slot(plan, 0, false, None, {}));
  }

  lemma SameSlotsFit(w: World, w': World)
    requires SlotsFit(w) && w'.slots == w.slots && w'.published == w.published && w'.current == w.current
    ensures SlotsFit(w') && JournalsKept(w, w') && CallsKept(w, w', {})
  {
  }

  lemma ArtifactStepKeepsSlots(w: World, w': World, step: Step)
    requires SlotsFit(w) && Takes(w, w', step) && (step.Publishes? || step.Removes?)
    ensures SlotsFit(w') && JournalsKept(w, w') && CallsKept(w, w', {})
  {
  }

  /** Journals may move under the workers as they like. */
  lemma WorkersStillFit(w: World, w': World)
    requires WorkersFit(w) && w'.workers.Keys <= w.workers.Keys
    requires forall id :: id in w'.workers ==> w'.workers[id] == w.workers[id]
    requires forall id :: id in w'.callers && id !in w.callers ==> id !in w'.workers
    requires JournalsKept(w, w') && CallsKept(w, w', {})
    ensures WorkersFit(w')
  {
    forall id | id in w'.workers
      ensures WorkerFits(w', w'.workers[id])
    {
      assert WorkerFits(w, w.workers[id]);
    }
  }

  /** One worker goes on, and only it may be seen to call. */
  lemma WorkerGoesOn(w: World, w': World, id: nat, t': Worker)
    requires WorkersFit(w) && id in w.workers && t'.home == w.workers[id].home
    requires w'.workers == w.workers[id := t'] && w'.callers == w.callers && WorkerFits(w', t')
    requires JournalsKept(w, w') && CallsKept(w, w', {t'.home})
    ensures WorkersFit(w')
  {
    forall other | other in w'.workers && other != id
      ensures WorkerFits(w', w'.workers[other])
    {
      assert WorkerFits(w, w.workers[other]);
    }
  }

  lemma OpenedStaysTrue(w: World, w': World)
    requires OpenedIsTrue(w) && JournalsKept(w, w')
    requires forall key :: key in w'.slots && w'.slots[key].plan.state.Opened? ==>
      || (key in w.slots && w.slots[key].plan.state.Opened?)
      || OpenedBySomebody(w, w'.slots[key].plan.content)
    ensures OpenedIsTrue(w')
  {
    forall key | key in w'.slots && w'.slots[key].plan.state.Opened?
      ensures OpenedBySomebody(w', w'.slots[key].plan.content)
    {
      assert OpenedBySomebody(w, w'.slots[key].plan.content);
      var k :| k in w.slots && w.slots[k].plan.content == w'.slots[key].plan.content && w.slots[k].succeeded;
      assert k in w'.slots;
    }
  }

  lemma CallerStepKeepsAnyInv(w: World, w': World, id: nat, step: CallerStep)
    requires AnyInv(w) && CallerNext(w, w', id, step)
    ensures AnyInv(w') && JournalsKept(w, w')
  {
    hide SlotsFit;
    hide WorkersFit;
    hide CallsKept;
    hide OpenedIsTrue;
    hide JournalsKept;
    if step.Requests? {
      SameSlotsFit(w, w');
      WorkersStillFit(w, w');
    } else {
      KnownCallerKeepsAnyInv(w, w', id, w.callers[id], step);
    }
    OpenedStaysTrue(w, w');
  }

  lemma ReplayKeepsAnyInv(w: World, w': World, id: nat, key: string, content: ArtifactVersion)
    requires SlotsFit(w) && WorkersFit(w) && key in w.slots && w' == AfterReplay(w, id, key, content)
    ensures SlotsFit(w') && WorkersFit(w') && JournalsKept(w, w') && NoneNewlyOpened(w, w')
  {
    hide SlotsFit;
    hide WorkersFit;
    hide JournalsKept;
    hide CallsKept;
    SlotFact(w, key);
    ObservedKeepsSlots(w, w', key, w'.slots[key]);
    WorkersStillFit(w, w');
  }

  ghost predicate NoneNewlyOpened(w: World, w': World) {
    forall key :: key in w'.slots && w'.slots[key].plan.state.Opened? ==>
      key in w.slots && w.slots[key].plan.state.Opened?
  }

  lemma PreparingKeepsAnyInv(w: World, w': World, id: nat, key: string, plan: OpenPlan, answered: bool)
    requires SlotsFit(w) && WorkersFit(w) && id in w.callers && key !in w.slots
    requires NothingIncomplete(w) && IsAvailable(w, plan.content) && Prepare(plan.content, plan.createdAt) == Some(plan)
    requires w' == AfterPreparing(w.(callers := w.callers - {id}), id, key, plan, answered)
    ensures SlotsFit(w') && WorkersFit(w') && JournalsKept(w, w') && NoneNewlyOpened(w, w')
  {
    hide SlotsFit;
    hide WorkersFit;
    hide JournalsKept;
    hide CallsKept;
    PreparedKeepsSlots(w, w', key, plan);
    NewWorkerFits(w, w', id, key);
  }

  lemma KnownCallerKeepsAnyInv(w: World, w': World, id: nat, caller: Caller, step: CallerStep)
    requires SlotsFit(w) && WorkersFit(w) && id in w.callers && w.callers[id] == caller
    requires KnownCallerNext(w, w', id, caller, step)
    ensures SlotsFit(w') && WorkersFit(w') && JournalsKept(w, w') && NoneNewlyOpened(w, w')
  {
    hide SlotsFit;
    hide WorkersFit;
    hide JournalsKept;
    hide CallsKept;
    hide AfterReplay;
    var key, content := caller.key, caller.content;
    if (step.Resolves? || step.Prepares?) && key in w.slots {
      ReplayKeepsAnyInv(w, w', id, key, content);
    } else if step.Prepares? && IsAvailable(w, content) && NothingIncomplete(w) && Prepare(content, step.at).Some? {
      PreparingKeepsAnyInv(w, w', id, key, Prepare(content, step.at).value, step.answered);
    } else {
      SameSlotsFit(w, w');
      WorkersStillFit(w, w');
    }
  }

  lemma NewWorkerFits(w: World, w': World, id: nat, key: string)
    requires WorkersFit(w) && id in w.callers && key !in w.slots && key in w'.slots && w'.slots[key] == Slot(w'.slots[key].plan, 0, false, None, {})
    requires w'.slots == w.slots[key := w'.slots[key]] && w'.callers == w.callers - {id}
    requires w'.workers == w.workers || w'.workers == w.workers[id := Marking(key, w'.slots[key].plan)]
    ensures WorkersFit(w')
  {
    forall other | other in w'.workers
      ensures WorkerFits(w', w'.workers[other])
    {
      assert other in w.workers ==> WorkerFits(w, w.workers[other]);
    }
    forall a, b | a in w'.workers && b in w'.workers && w'.workers[a].home == w'.workers[b].home
      ensures a == b
    {
      assert a in w.workers ==> WorkerFits(w, w.workers[a]);
      assert b in w.workers ==> WorkerFits(w, w.workers[b]);
    }
  }

  lemma MarkKeepsAnyInv(w: World, w': World, id: nat, t: Worker, step: WorkerStep)
    requires AnyInv(w) && id in w.workers && w.workers[id] == t && WorkerNext(w, w', id, t, step) && step.Marks?
    ensures AnyInv(w') && JournalsKept(w, w')
  {
    hide SlotsFit;
    hide WorkersFit;
    hide CallsKept;
    hide OpenedIsTrue;
    hide JournalsKept;
    var plan' := w'.slots[step.target].plan;
    SlotFact(w, step.target);
    WorkerFact(w, id);
    TransitionsMove(w, step.target, t.plan, plan', t, step.at);
    MovedKeepsSlots(w, w', step.target, plan');
    if step.answered {
      CallsKeptBut(w, w', {t.home});
      WorkerGoesOn(w, w', id, Calling(t.home, plan'));
    } else {
      WorkersStillFit(w, w');
    }
    OpenedStaysTrue(w, w');
  }

  lemma CallKeepsAnyInv(w: World, w': World, id: nat, t: Worker, step: WorkerStep)
    requires AnyInv(w) && id in w.workers && w.workers[id] == t && WorkerNext(w, w', id, t, step)
    requires step.Calls? || step.OpenerSucceeds? || step.OpenerFails?
    ensures AnyInv(w') && JournalsKept(w, w')
  {
    hide SlotsFit;
    hide WorkersFit;
    hide CallsKept;
    hide OpenedIsTrue;
    hide JournalsKept;
    WorkerFact(w, id);
    SlotFact(w, t.home);
    ObservedKeepsSlots(w, w', t.home, w'.slots[t.home]);
    WorkerGoesOn(w, w', id, w'.workers[id]);
    OpenedStaysTrue(w, w');
  }

  lemma QuietWorkerStepKeepsAnyInv(w: World, w': World, id: nat, t: Worker, step: WorkerStep)
    requires AnyInv(w) && id in w.workers && w.workers[id] == t && WorkerNext(w, w', id, t, step)
    requires step.OutcomeUnknown? || step.Abandons?
    ensures AnyInv(w') && JournalsKept(w, w')
  {
    hide SlotsFit;
    hide WorkersFit;
    hide CallsKept;
    hide OpenedIsTrue;
    hide JournalsKept;
    WorkerFact(w, id);
    SameSlotsFit(w, w');
    if step.Abandons? {
      WorkersStillFit(w, w');
    } else {
      WorkerGoesOn(w, w', id, w'.workers[id]);
    }
    OpenedStaysTrue(w, w');
  }

  lemma EndKeepsAnyInv(w: World, w': World, id: nat, t: Worker, step: WorkerStep)
    requires AnyInv(w) && id in w.workers && w.workers[id] == t && WorkerNext(w, w', id, t, step) && step.Ends?
    ensures AnyInv(w') && JournalsKept(w, w')
  {
    hide SlotsFit;
    hide WorkersFit;
    hide CallsKept;
    hide OpenedIsTrue;
    hide JournalsKept;
    var target, done := step.target, Ended(w.slots[step.target].plan, t, step.at).value;
    SlotFact(w, target);
    WorkerFact(w, id);
    TransitionsMove(w, target, t.plan, done, t, step.at);
    var between := w.(slots := WithPlan(w, target, done), workers := w'.workers);
    MovedKeepsSlots(w, between, target, done);
    WorkersStillFit(w, between);
    if done.state.Opened? {
      assert OpenedBySomebody(w, done.content) by { assert w.slots[t.home].succeeded; }
    }
    OpenedStaysTrue(w, between);
    if step.answered {
      SlotFact(between, t.home);
      ObservedKeepsSlots(between, w', t.home, w'.slots[t.home]);
      WorkersStillFit(between, w');
      OpenedStaysTrue(between, w');
      KeptCompose(w, between, w');
    }
  }

  lemma KeptCompose(w: World, w': World, w'': World)
    requires JournalsKept(w, w') && JournalsKept(w', w'')
    ensures JournalsKept(w, w'')
  {
  }

  lemma PassStepKeepsAnyInv(w: World, w': World, id: nat, step: PassStep)
    requires AnyInv(w) && PassNext(w, w', id, step)
    ensures AnyInv(w') && JournalsKept(w, w')
  {
    hide SlotsFit;
    hide WorkersFit;
    hide CallsKept;
    hide OpenedIsTrue;
    hide JournalsKept;
    if step.Recovers? {
      var target := step.target;
      SlotFact(w, target);
      TransitionsMove(w, target, w.passes[id], w'.slots[target].plan, Marking("", w.passes[id]), step.at);
      MovedKeepsSlots(w, w', target, w'.slots[target].plan);
    } else {
      SameSlotsFit(w, w');
    }
    WorkersStillFit(w, w');
    OpenedStaysTrue(w, w');
  }

  lemma StepKeepsAnyInv(w: World, w': World, step: Step)
    requires AnyInv(w) && Takes(w, w', step)
    ensures AnyInv(w') && JournalsKept(w, w')
  {
    hide SlotsFit;
    hide OpenedIsTrue;
    hide JournalsKept;
    hide CallerNext;
    hide PassNext;
    match step
    case CallerActs(id, callerStep) => CallerStepKeepsAnyInv(w, w', id, callerStep);
    case WorkerActs(id, workerStep) => WorkerStepKeepsAnyInv(w, w', id, w.workers[id], workerStep);
    case PassActs(id, passStep) => PassStepKeepsAnyInv(w, w', id, passStep);
    case Crash =>
      SameSlotsFit(w, w');
      OpenedStaysTrue(w, w');
    case _ =>
      ArtifactStepKeepsSlots(w, w', step);
      WorkersStillFit(w, w');
      OpenedStaysTrue(w, w');
  }

  lemma WorkerStepKeepsAnyInv(w: World, w': World, id: nat, t: Worker, step: WorkerStep)
    requires AnyInv(w) && id in w.workers && w.workers[id] == t && WorkerNext(w, w', id, t, step)
    ensures AnyInv(w') && JournalsKept(w, w')
  {
    hide AnyInv;
    hide JournalsKept;
    hide WorkerNext;
    match step
    case Marks(_, _, _) => MarkKeepsAnyInv(w, w', id, t, step);
    case Ends(_, _, _) => EndKeepsAnyInv(w, w', id, t, step);
    case Calls => CallKeepsAnyInv(w, w', id, t, step);
    case OpenerSucceeds => CallKeepsAnyInv(w, w', id, t, step);
    case OpenerFails(_) => CallKeepsAnyInv(w, w', id, t, step);
    case _ => QuietWorkerStepKeepsAnyInv(w, w', id, t, step);
  }

  lemma AnyInvIsInductive()
    ensures forall w :: Init(w) ==> AnyInv(w)
    ensures forall w, w' :: AnyInv(w) && AnyNext(w, w') ==> AnyInv(w') && JournalsKept(w, w')
  {
    forall w, w' | AnyInv(w) && AnyNext(w, w')
      ensures AnyInv(w') && JournalsKept(w, w')
    {
      var step :| Takes(w, w', step);
      StepKeepsAnyInv(w, w', step);
    }
  }

  lemma AnyInvHolds(trace: seq<World>, i: nat)
    requires IsRun(Init, AnyNext, trace) && i < |trace|
    ensures AnyInv(trace[i])
  {
    hide AnyInv;
    hide AnyNext;
    AnyInvIsInductive();
    InvariantHolds(Init, AnyNext, AnyInv, trace, i);
  }

  /**
   However recoveries overlap, with each other and with live workers: the worker of a command
   calls the opener at most once, and a journal says Opened only if somebody's opener call on
   that very version returned success.
   */
  lemma CallsStayBounded(trace: seq<World>, i: nat, key: string)
    requires IsRun(Init, AnyNext, trace) && i < |trace| && key in trace[i].slots
    ensures trace[i].slots[key].calls <= 1
    ensures trace[i].slots[key].plan.state.Opened? ==> OpenedBySomebody(trace[i], trace[i].slots[key].plan.content)
  {
    AnyInvHolds(trace, i);
    SlotFact(trace[i], key);
  }

  /** Whatever the store does for a worker it does to the journal of its own command, exactly if that is incomplete. */
  lemma TransitionsGoHomeIff(trace: seq<World>, i: nat, id: nat, target: string)
    requires IsRun(Init, AnyNext, trace) && i < |trace| && id in trace[i].workers
    requires IsTarget(trace[i], target, trace[i].workers[id].plan)
    ensures
      var home := trace[i].workers[id].home;
      home in trace[i].slots && (target == home <==> !trace[i].slots[home].plan.Terminal())
  {
    AnyInvHolds(trace, i);
    WorkerFact(trace[i], id);
  }

  /** Only a worker's own call step is ever seen as a call, and it is counted for its command. */
  lemma OnlyTheTaskOpens(w: World, w': World, step: Step, key: string)
    requires Takes(w, w', step) && key in w.slots && key in w'.slots && w'.slots[key].calls != w.slots[key].calls
    ensures step.WorkerActs? && step.workerStep.Calls? && w.workers[step.id].home == key
  {
    hide AfterReplay;
    hide NothingIncomplete;
    if step.CallerActs? {
      if !step.callerStep.Requests? {
        ReplayCallsNobody(w, step.id, w.callers[step.id].key, w.callers[step.id].content, key);
      }
    }
  }

  /**
   A receipt for a command is only ever given to a caller of that command who asks for its very
   version, once its journal has ended, or to the caller behind its worker.
   */
  lemma AnswersGoToTheirCommand(w: World, w': World, step: Step, key: string)
    requires Takes(w, w', step) && key in w.slots && key in w'.slots && w'.slots[key].receipts != w.slots[key].receipts
    ensures
      || (&& step.CallerActs? && step.id in w.callers && w.callers[step.id].key == key
          && w.callers[step.id].content == w.slots[key].plan.content && w.slots[key].plan.Terminal())
      || (step.WorkerActs? && step.workerStep.Ends? && step.workerStep.answered && w.workers[step.id].home == key)
  {
    hide NothingIncomplete;
    hide ValidLine;
    if step.CallerActs? {
      assert !step.callerStep.Requests?;
    }
  }

  lemma ReplayCallsNobody(w: World, id: nat, key: string, content: ArtifactVersion, other: string)
    requires other in w.slots
    ensures key in w.slots ==> AfterReplay(w, id, key, content).slots[other].calls == w.slots[other].calls
  {
  }

  /**
   At most one open is incomplete in the whole store. Its exact version was published, and
   its artifact cannot be removed before the open ends.
   */
  lemma IncompleteOpensHoldTheirArtifact(trace: seq<World>, i: nat, key: string, other: string)
    requires IsRun(Init, AnyNext, trace) && i < |trace| && key in trace[i].slots
    ensures
      var w := trace[i];
      && w.slots[key].plan.content in w.published
      && (!w.slots[key].plan.Terminal() ==>
            && w.slots[key].plan.content.artifactId in w.current
            && (other in w.slots && !w.slots[other].plan.Terminal() ==> other == key))
  {
    AnyInvHolds(trace, i);
    SlotFact(trace[i], key);
  }

  lemma TerminalJournalsStay(trace: seq<World>, i: nat, j: nat, key: string)
    requires IsRun(Init, AnyNext, trace) && i <= j < |trace| && key in trace[i].slots
    requires trace[i].slots[key].plan.Terminal()
    ensures key in trace[j].slots && trace[j].slots[key].plan == trace[i].slots[key].plan
  {
    hide AnyNext;
    hide AnyInv;
    AnyInvIsInductive();
    var plan := trace[i].slots[key].plan;
    var keeps := (w: World) => key in w.slots && w.slots[key].plan == plan;
    StablePropertyHolds(Init, AnyNext, AnyInv, keeps, trace, i, j);
  }

  /** The receipt names the version, the end and the failure of this journal. */
  predicate Reports(receipt: Receipt, plan: OpenPlan) {
    && receipt.artifactId == plan.content.artifactId && receipt.contentVersion == plan.content.version
    && receipt.failure == plan.failure
    && (receipt.status.WasOpenedOnce? <==> plan.state.Opened?)
    && (receipt.status.WasRefused? <==> plan.state.Failed?)
    && (receipt.status.NeedsReview? <==> plan.state.InterruptedNeedsReview?)
  }

  /**
   A terminal command is answered for good: whenever later a caller resolves it, whatever
   became of the artifact since, the answer is the receipt of the journal that ended then;
   and the request itself is never turned away, since the version stays on record.
   */
  lemma TerminalCommandsAreAnswered(trace: seq<World>, i: nat, j: nat, key: string, id: nat)
    requires IsRun(Init, AnyNext, trace) && i <= j && j + 1 < |trace| && key in trace[i].slots
    requires trace[i].slots[key].plan.Terminal()
    ensures trace[i].slots[key].plan.content in trace[j].published
    ensures
      var plan := trace[i].slots[key].plan;
      && id in trace[j].callers && trace[j].callers[id] == Resolving(key, plan.content)
      && Takes(trace[j], trace[j + 1], CallerActs(id, Resolves)) ==>
      && key in trace[j + 1].slots && trace[j + 1].slots[key].plan == plan
      && (exists receipt :: receipt in trace[j + 1].slots[key].receipts && Reports(receipt, plan))
      && trace[j + 1].current == trace[j].current
  {
    TerminalJournalsStay(trace, i, j, key);
    AnyInvHolds(trace, j);
    SlotFact(trace[j], key);
    assert Reports(ReceiptFor(trace[i].slots[key].plan), trace[i].slots[key].plan);
  }

  ghost predicate RemovedAreGone(w: World) {
    forall id :: id in w.removed ==> id !in w.current
  }

  lemma StepKeepsRemoved(w: World, w': World, step: Step)
    requires RemovedAreGone(w) && Takes(w, w', step)
    ensures RemovedAreGone(w') && w.removed <= w'.removed
  {
    hide NothingIncomplete;
    hide IsTarget;
    hide ValidLine;
  }

  /** A removed artifact stays removed: it is never available again, and nothing of it is newly opened. */
  lemma RemovedArtifactsAreNotOpened(trace: seq<World>, i: nat, j: nat, key: string)
    requires IsRun(Init, AnyNext, trace) && i <= j && j + 1 < |trace| && key in trace[j + 1].slots
    requires trace[j + 1].slots[key].plan.content.artifactId in trace[i].removed
    ensures trace[j + 1].slots[key].plan.content.artifactId !in trace[j].current
    ensures key in trace[j].slots
  {
    var id := trace[j + 1].slots[key].plan.content.artifactId;
    forall w, w' | RemovedAreGone(w) && AnyNext(w, w')
      ensures RemovedAreGone(w') && w.removed <= w'.removed
    {
      var step :| Takes(w, w', step);
      StepKeepsRemoved(w, w', step);
    }
    hide AnyNext;
    StablePropertyHolds(Init, AnyNext, RemovedAreGone, (w: World) => id in w.removed, trace, i, j);
    InvariantHolds(Init, AnyNext, RemovedAreGone, trace, j);
    if key !in trace[j].slots {
      assert AnyNext(trace[j], trace[j + 1]);
      NewSlotsAreAvailable(trace[j], trace[j + 1], key);
    }
  }

  lemma OnlyCallersAddSlots(w: World, w': World, step: Step, key: string)
    requires Takes(w, w', step) && key in w'.slots && key !in w.slots
    ensures step.CallerActs?
  {
    hide CallerNext;
    hide ValidLine;
  }

  lemma CallersAddAvailable(w: World, w': World, id: nat, step: CallerStep, key: string)
    requires CallerNext(w, w', id, step) && key in w'.slots && key !in w.slots
    ensures w'.slots[key].plan.content.artifactId in w.current
  {
    hide NothingIncomplete;
    hide ValidLine;
    hide Replayed;
  }

  lemma NewSlotsAreAvailable(w: World, w': World, key: string)
    requires AnyNext(w, w') && key in w'.slots && key !in w.slots
    ensures w'.slots[key].plan.content.artifactId in w.current
  {
    hide CallerNext;
    var step :| Takes(w, w', step);
    OnlyCallersAddSlots(w, w', step, key);
    hide Takes;
    CallersAddAvailable(w, w', step.id, step.callerStep, key);
  }
}
