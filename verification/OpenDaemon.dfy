/**
 The daemon's runs of `OpenProtocol`, in which recovery is one pass at start-up, and what
 they lose once recovery overlaps a live worker.
 */
module OpenDaemon {
  import opened Wrappers
  import opened Runs
  import opened Artifacts
  import opened OpenPlans
  import opened OpenProtocol

  /** The journal has durably been in the dispatching state. */
  predicate WentDispatching(plan: OpenPlan) {
    plan.state.Dispatching? || plan.revision == 2
  }

  predicate NeverDispatched(s: Slot) {
    s.calls == 0 && s.plan.failure == Some(InterruptedBeforeDispatch)
  }

  /** What is durable about a command is true of what its worker did. */
  ghost predicate SlotTrue(s: Slot) {
    && (s.calls > 0 ==> WentDispatching(s.plan))
    && (s.succeeded || s.refusal.Some? ==> s.calls == 1)
    && (s.plan.state.Opened? ==> s.succeeded)
    && (s.plan.state.Failed? ==> if s.plan.revision == 1 then NeverDispatched(s) else s.plan.failure == s.refusal)
    && (forall receipt :: receipt in s.receipts ==> s.plan.Terminal() && receipt == ReceiptFor(s.plan))
  }

  /** A live worker holds the present journal of its own command. */
  predicate OwnJournal(w: World, t: Worker) {
    && t.home in w.slots && t.plan == w.slots[t.home].plan
    && (if t.Marking? then t.plan.state.Prepared? else t.plan.state.Dispatching?)
  }

  ghost predicate PassAlone(w: World) {
    && (forall a, b :: a in w.passes && b in w.passes ==> a == b)
    && (w.passes != map[] ==> w.workers == map[] && !NothingIncomplete(w))
  }

  ghost predicate SlotsTrue(w: World) {
    forall key :: key in w.slots ==> SlotTrue(w.slots[key])
  }

  ghost predicate OwnJournals(w: World) {
    forall id :: id in w.workers ==> OwnJournal(w, w.workers[id])
  }

  ghost predicate Inv(w: World) {
    AnyInv(w) && SlotsTrue(w) && OwnJournals(w) && PassAlone(w)
  }

  /** There is at most one worker, and what it finds is its own journal. */
  lemma OneWorker(w: World, id: nat, target: string)
    requires Inv(w) && id in w.workers
    ensures w.passes == map[] && forall other :: other in w.workers ==> other == id
    ensures OwnJournal(w, w.workers[id]) && WorkerFits(w, w.workers[id])
    ensures w.workers[id].plan.Restorable() && SlotTrue(w.slots[w.workers[id].home])
    ensures IsTarget(w, target, w.workers[id].plan) ==> target == w.workers[id].home
  {
    hide SlotTrue;
    forall other | other in w.workers
      ensures other == id
    {
      assert OwnJournal(w, w.workers[other]) && OwnJournal(w, w.workers[id]);
    }
    SlotFact(w, w.workers[id].home);
  }

  lemma UpdatedSlotsTrue(w: World, w': World, key: string, s': Slot)
    requires SlotsTrue(w) && SlotTrue(s') && w'.slots == w.slots[key := s']
    ensures SlotsTrue(w')
  {
    hide SlotTrue;
  }

  lemma NobodyWorks(w: World)
    requires w.workers == map[] && w.passes == map[]
    ensures OwnJournals(w) && PassAlone(w)
  {
  }

  lemma MarkKeepsDaemon(w: World, w': World, id: nat, t: Worker, step: WorkerStep)
    requires Inv(w) && id in w.workers && w.workers[id] == t && WorkerNext(w, w', id, t, step) && step.Marks?
    ensures SlotsTrue(w') && OwnJournals(w') && PassAlone(w')
  {
    hide AnyInv;
    hide SlotsTrue;
    OneWorker(w, id, step.target);
    UpdatedSlotsTrue(w, w', t.home, w'.slots[t.home]);
  }

  lemma CallKeepsDaemon(w: World, w': World, id: nat, t: Worker, step: WorkerStep)
    requires Inv(w) && id in w.workers && w.workers[id] == t && WorkerNext(w, w', id, t, step)
    requires step.Calls? || step.OpenerSucceeds? || step.OpenerFails?
    ensures SlotsTrue(w') && OwnJournals(w') && PassAlone(w')
  {
    hide AnyInv;
    hide SlotsTrue;
    OneWorker(w, id, t.home);
    UpdatedSlotsTrue(w, w', t.home, w'.slots[t.home]);
  }

  lemma QuietStepKeepsDaemon(w: World, w': World, id: nat, t: Worker, step: WorkerStep)
    requires Inv(w) && id in w.workers && w.workers[id] == t && WorkerNext(w, w', id, t, step)
    requires step.OutcomeUnknown? || step.Abandons?
    ensures SlotsTrue(w') && OwnJournals(w') && PassAlone(w')
  {
    hide AnyInv;
    hide SlotTrue;
    OneWorker(w, id, t.home);
  }

  lemma EndKeepsDaemon(w: World, w': World, id: nat, t: Worker, step: WorkerStep)
    requires Inv(w) && id in w.workers && w.workers[id] == t && WorkerNext(w, w', id, t, step) && step.Ends?
    ensures SlotsTrue(w') && OwnJournals(w') && PassAlone(w')
  {
    hide AnyInv;
    hide SlotsTrue;
    hide ValidLine;
    OneWorker(w, id, step.target);
    UpdatedSlotsTrue(w, w', t.home, w'.slots[t.home]);
  }

  lemma WorkerStepKeepsDaemon(w: World, w': World, id: nat, t: Worker, step: WorkerStep)
    requires Inv(w) && id in w.workers && w.workers[id] == t && WorkerNext(w, w', id, t, step)
    ensures SlotsTrue(w') && OwnJournals(w') && PassAlone(w')
  {
    hide Inv;
    hide WorkerNext;
    hide SlotsTrue;
    hide OwnJournals;
    hide PassAlone;
    match step
    case Marks(_, _, _) => MarkKeepsDaemon(w, w', id, t, step);
    case Ends(_, _, _) => EndKeepsDaemon(w, w', id, t, step);
    case Calls => CallKeepsDaemon(w, w', id, t, step);
    case OpenerSucceeds => CallKeepsDaemon(w, w', id, t, step);
    case OpenerFails(_) => CallKeepsDaemon(w, w', id, t, step);
    case _ => QuietStepKeepsDaemon(w, w', id, t, step);
  }

  lemma PassStepKeepsDaemon(w: World, w': World, id: nat, step: PassStep)
    requires Inv(w) && PassNext(w, w', id, step) && (step.Lists? ==> w.workers == map[] && w.passes == map[])
    ensures SlotsTrue(w') && OwnJournals(w') && PassAlone(w')
  {
    hide SlotTrue;
    if step.Recovers? {
      RecoveryKeepsSlots(w, w', id, step);
    }
  }

  lemma RecoveryKeepsSlots(w: World, w': World, id: nat, step: PassStep)
    requires AnyInv(w) && SlotsTrue(w) && PassNext(w, w', id, step) && step.Recovers?
    ensures SlotsTrue(w')
  {
    hide ValidLine;
    hide SlotsTrue;
    SlotFact(w, step.target);
    TrueSlot(w, step.target);
    UpdatedSlotsTrue(w, w', step.target, w'.slots[step.target]);
  }

  lemma TrueSlot(w: World, key: string)
    requires SlotsTrue(w) && key in w.slots
    ensures SlotTrue(w.slots[key])
  {
  }

  lemma ReplayKeepsDaemon(w: World, w': World, id: nat, key: string, content: ArtifactVersion)
    requires SlotsTrue(w) && OwnJournals(w) && PassAlone(w) && key in w.slots && w' == AfterReplay(w, id, key, content)
    ensures SlotsTrue(w') && OwnJournals(w') && PassAlone(w')
  {
    hide SlotTrue;
    TrueSlot(w, key);
    ReplayIsTrue(w.slots[key], content);
    UpdatedSlotsTrue(w, w', key, w'.slots[key]);
    SamePlans(w, w');
  }

  /** Workers and passes depend on journals only. */
  lemma SamePlans(w: World, w': World)
    requires OwnJournals(w) && PassAlone(w) && w'.slots.Keys == w.slots.Keys
    requires forall key :: key in w.slots ==> w'.slots[key].plan == w.slots[key].plan
    requires w'.workers == w.workers && w'.passes == w.passes
    ensures OwnJournals(w') && PassAlone(w')
  {
    if w.passes != map[] {
      var key :| key in w.slots && !w.slots[key].plan.Terminal();
      assert key in w'.slots && !w'.slots[key].plan.Terminal();
    }
    forall id | id in w'.workers
      ensures OwnJournal(w', w'.workers[id])
    {
      assert OwnJournal(w, w.workers[id]);
    }
  }

  lemma NobodyElse(w: World)
    requires OwnJournals(w) && PassAlone(w) && NothingIncomplete(w)
    ensures w.workers == map[] && w.passes == map[]
  {
  }

  lemma PreparingKeepsDaemon(w: World, w': World, id: nat, key: string, plan: OpenPlan, answered: bool)
    requires SlotsTrue(w) && OwnJournals(w) && PassAlone(w) && NothingIncomplete(w) && plan.state.Prepared?
    requires w' == AfterPreparing(w.(callers := w.callers - {id}), id, key, plan, answered)
    ensures SlotsTrue(w') && OwnJournals(w') && PassAlone(w')
  {
    hide SlotTrue;
    NewSlotIsTrue(plan);
    UpdatedSlotsTrue(w, w', key, w'.slots[key]);
    NobodyElse(w);
  }

  /** Slots change only by what callers are told, or by a new journal while nobody works. */
  lemma CallerStepKeepsDaemon(w: World, w': World, id: nat, step: CallerStep)
    requires SlotsTrue(w) && OwnJournals(w) && PassAlone(w) && CallerNext(w, w', id, step)
    ensures SlotsTrue(w') && OwnJournals(w') && PassAlone(w')
  {
    hide SlotTrue;
    hide OwnJournals;
    hide PassAlone;
    if step.Requests? {
      SamePlans(w, w');
    } else {
      var key, content := w.callers[id].key, w.callers[id].content;
      if (step.Resolves? || step.Prepares?) && key in w.slots {
        ReplayKeepsDaemon(w, w', id, key, content);
      } else if step.Prepares? && IsAvailable(w, content) && NothingIncomplete(w) && Prepare(content, step.at).Some? {
        PreparingKeepsDaemon(w, w', id, key, Prepare(content, step.at).value, step.answered);
      } else {
        SamePlans(w, w');
      }
    }
  }

  lemma ReplayIsTrue(s: Slot, content: ArtifactVersion)
    requires SlotTrue(s)
    ensures SlotTrue(Replayed(s, content)) && Replayed(s, content).plan == s.plan
  {
  }

  lemma NewSlotIsTrue(plan: OpenPlan)
    requires plan.state.Prepared?
    ensures SlotTrue(Slot(plan, 0, false, None, {}))
  {
  }

  lemma StepKeepsInv(w: World, w': World, step: Step)
    requires Inv(w) && Alone(w, step) && Takes(w, w', step)
    ensures Inv(w')
  {
    hide AnyInv;
    hide SlotTrue;
    hide OwnJournals;
    hide PassAlone;
    hide WorkerNext;
    hide PassNext;
    hide CallerNext;
    StepKeepsAnyInv(w, w', step);
    match step
    case CallerActs(id, callerStep) => CallerStepKeepsDaemon(w, w', id, callerStep);
    case WorkerActs(id, workerStep) => WorkerStepKeepsDaemon(w, w', id, w.workers[id], workerStep);
    case PassActs(id, passStep) => PassStepKeepsDaemon(w, w', id, passStep);
    case Crash => NobodyWorks(w');
    case _ => SamePlans(w, w');
  }

  lemma InvHolds(trace: seq<World>, i: nat)
    requires IsRun(Init, Next, trace) && i < |trace|
    ensures Inv(trace[i])
  {
    forall w, w' | Inv(w) && Next(w, w')
      ensures Inv(w')
    {
      var step :| Alone(w, step) && Takes(w, w', step);
      StepKeepsInv(w, w', step);
    }
    InvariantHolds(Init, Next, Inv, trace, i);
  }

  /**
   What a receipt claims about its command is so: the version is that of the command; opened
   means that the one call of the opener returned success; refused means that it returned the
   code the receipt gives, or that there was no call and never will be; and whatever else may
   have been dispatched is left to a person.
   */
  ghost predicate TellsTheTruth(receipt: Receipt, s: Slot) {
    && receipt.artifactId == s.plan.content.artifactId && receipt.contentVersion == s.plan.content.version
    && (receipt.status.WasOpenedOnce? <==> s.plan.state.Opened?)
    && (receipt.status.WasRefused? <==> s.plan.state.Failed?)
    && (receipt.status.NeedsReview? <==> s.plan.state.InterruptedNeedsReview?)
    && (receipt.status.WasOpenedOnce? ==> s.succeeded && s.calls == 1)
    && (receipt.status.WasRefused? ==>
          && receipt.failure == s.plan.failure && receipt.failure.Some?
          && (|| (s.calls == 1 && receipt.failure == s.refusal)
              || (s.calls == 0 && receipt.failure == Some(InterruptedBeforeDispatch))))
    && (!receipt.status.WasRefused? ==> receipt.failure.None?)
  }

  lemma TrueReceipts(s: Slot, receipt: Receipt)
    requires SlotTrue(s) && s.plan.Restorable() && receipt in s.receipts
    ensures TellsTheTruth(receipt, s)
  {
    hide ValidLine;
  }

  /**
   Over every run of the daemon, with retries, crashes, lost answers and recovery at
   start-up: the opener is called at most once per command and only after its own dispatch
   became durable; a journal says Opened only if its own opener call succeeded; and whatever
   callers were told is one receipt, given once the journal ended, that tells the truth.
   */
  lemma OpensAtMostOnce(trace: seq<World>, i: nat, key: string)
    requires IsRun(Init, Next, trace) && i < |trace| && key in trace[i].slots
    ensures
      var s := trace[i].slots[key];
      && s.calls <= 1
      && (s.calls > 0 ==> WentDispatching(s.plan))
      && (s.plan.state.Opened? ==> s.succeeded && s.calls == 1)
      && (forall receipt :: receipt in s.receipts ==> s.plan.Terminal() && TellsTheTruth(receipt, s))
      && (forall a, b :: a in s.receipts && b in s.receipts ==> a == b)
  {
    InvHolds(trace, i);
    SlotFact(trace[i], key);
    var s := trace[i].slots[key];
    assert SlotTrue(s);
    hide TellsTheTruth;
    forall receipt | receipt in s.receipts
      ensures TellsTheTruth(receipt, s)
    {
      TrueReceipts(s, receipt);
    }
  }

  /**
   A worker whose last store call is answered tells its caller what the opener told it: that
   it opened, the failure it gave, or that nobody knows.
   */
  lemma WorkersTellWhatTheySaw(trace: seq<World>, i: nat, id: nat, target: string, at: UnixMillis)
    requires IsRun(Init, Next, trace) && i + 1 < |trace|
    requires Takes(trace[i], trace[i + 1], WorkerActs(id, Ends(target, at, true)))
    ensures
      var home := trace[i].workers[id].home;
      && home in trace[i + 1].slots
      && var s := trace[i + 1].slots[home];
         && s.calls == 1 && s.receipts != {}
         && (forall receipt :: receipt in s.receipts ==>
               && (receipt.status.WasOpenedOnce? <==> s.succeeded)
               && (receipt.status.WasRefused? <==> s.refusal.Some?) && receipt.failure == s.refusal)
  {
    hide ValidLine;
    InvHolds(trace, i);
    OneWorker(trace[i], id, target);
    hide Inv;
  }

  /** Two answers to one command, at any two moments of a run and whatever was removed in between, agree. */
  lemma ReceiptsNeverChange(trace: seq<World>, i: nat, j: nat, key: string, first: Receipt, second: Receipt)
    requires IsRun(Init, Next, trace) && i <= j < |trace| && key in trace[i].slots
    requires first in trace[i].slots[key].receipts
    ensures key in trace[j].slots
    ensures second in trace[j].slots[key].receipts ==> second == first
  {
    DaemonRunsAreRuns(trace);
    InvHolds(trace, i);
    TrueSlot(trace[i], key);
    TerminalJournalsStay(trace, i, j, key);
    InvHolds(trace, j);
    TrueSlot(trace[j], key);
    hide Inv;
  }

  // What overlapping recovery loses

  /** Everything of a world in which one version was published and nothing removed. */
  function Published(
    content: ArtifactVersion, slots: map<string, Slot>, callers: map<nat, Caller>, workers: map<nat, Worker>,
    passes: map<nat, OpenPlan>): World
  {
    World(slots, callers, workers, passes, {content}, map[content.artifactId := content], {})
  }

  ghost predicate Reached(trace: seq<World>, w: World) {
    IsRun(Init, AnyNext, trace) && trace[|trace| - 1] == w
  }

  lemma OneStep(trace: seq<World>, w: World, w': World, step: Step) returns (longer: seq<World>)
    requires Reached(trace, w) && Takes(w, w', step)
    ensures Reached(longer, w')
  {
    assert AnyNext(w, w');
    longer := trace + [w'];
    RunExtends(Init, AnyNext, trace, w');
  }

  /** A caller with a new command gets as far as a worker with its own journal. */
  lemma OpensAnew(
    trace: seq<World>, content: ArtifactVersion, slots: map<string, Slot>, workers: map<nat, Worker>, id: nat, key: string)
    returns (longer: seq<World>)
    requires Reached(trace, Published(content, slots, map[], workers, map[]))
    requires key !in slots && id !in workers && Prepare(content, 0).Some?
    requires forall other :: other in slots ==> slots[other].plan.Terminal()
    ensures
      var plan := Prepare(content, 0).value;
      Reached(longer, Published(content, slots[key := Slot(plan, 0, false, None, {})], map[], workers[id := Marking(key, plan)],
                                map[]))
  {
    var w0 := Published(content, slots, map[], workers, map[]);
    var w1 := w0.(callers := map[id := Resolving(key, content)]);
    longer := OneStep(trace, w0, w1, CallerActs(id, Requests(key, content)));
    var w2 := w0.(callers := map[id := Checking(key, content)]);
    assert w1.callers[id := Checking(key, content)] == w2.callers;
    longer := OneStep(longer, w1, w2, CallerActs(id, Resolves));
    var w3 := w0.(callers := map[id := Preparing(key, content)]);
    assert w2.callers[id := Preparing(key, content)] == w3.callers;
    longer := OneStep(longer, w2, w3, CallerActs(id, Checks));
    var w4 := AfterPreparing(w0, id, key, Prepare(content, 0).value, true);
    assert w3.callers - {id} == map[];
    longer := OneStep(longer, w3, w4, CallerActs(id, Prepares(0, true)));
  }

  /** Recovery fails a prepared journal under its live worker. */
  lemma IsFailed(
    trace: seq<World>, content: ArtifactVersion, plan: OpenPlan, workers: map<nat, Worker>) returns (longer: seq<World>)
    requires Prepare(content, 0) == Some(plan)
    requires Reached(trace, Published(content, map["a" := Slot(plan, 0, false, None, {})], map[], workers, map[]))
    ensures Reached(longer, Published(content, map["a" := Slot(FailedPlan(plan), 0, false, None, {})], map[], workers, map[]))
  {
    var w0 := Published(content, map["a" := Slot(plan, 0, false, None, {})], map[], workers, map[]);
    var w1 := w0.(passes := map[0 := plan]);
    longer := OneStep(trace, w0, w1, PassActs(0, Lists("a")));
    var w2 := Published(content, map["a" := Slot(FailedPlan(plan), 0, false, None, {})], map[], workers, map[]);
    assert w1.passes - {0} == map[] && w2.slots == WithPlan(w1, "a", FailedPlan(plan));
    longer := OneStep(longer, w1, w2, PassActs(0, Recovers("a", 0)));
  }

  function FailedPlan(plan: OpenPlan): OpenPlan {
    plan.(state := Failed, failure := Some(InterruptedBeforeDispatch), revision := 1)
  }

  function DispatchingPlan(plan: OpenPlan): OpenPlan {
    plan.(state := Dispatching, revision := 1)
  }

  /** Two commands for one version: the first was failed under its worker, the second is incomplete. */
  function Overlap(content: ArtifactVersion, a: Slot, b: Slot, first: Worker, second: Worker): World {
    Published(content, map["a" := a, "b" := b], map[], map[1 := first, 2 := second], map[])
  }

  lemma FirstWorkerGoesOn(trace: seq<World>, content: ArtifactVersion, plan: OpenPlan) returns (longer: seq<World>)
    requires Prepare(content, 0) == Some(plan)
    requires Reached(trace, Overlap(content, Slot(FailedPlan(plan), 0, false, None, {}), Slot(plan, 0, false, None, {}),
                                    Marking("a", plan), Marking("b", plan)))
    ensures Reached(longer, Overlap(content, Slot(FailedPlan(plan), 1, false, None, {}),
                                    Slot(DispatchingPlan(plan), 0, false, None, {}), Waiting("a", DispatchingPlan(plan)),
                                    Marking("b", plan)))
  {
    var failed, marked := FailedPlan(plan), DispatchingPlan(plan);
    var w0 := Overlap(content, Slot(failed, 0, false, None, {}), Slot(plan, 0, false, None, {}), Marking("a", plan), Marking("b", plan));
    var w1 := Overlap(content, Slot(failed, 0, false, None, {}), Slot(marked, 0, false, None, {}), Calling("a", marked), Marking("b", plan));
    assert w1.slots == WithPlan(w0, "b", marked) && w1.workers == w0.workers[1 := Calling("a", marked)];
    longer := OneStep(trace, w0, w1, WorkerActs(1, Marks("b", 0, true)));
    var w2 := Overlap(content, Slot(failed, 1, false, None, {}), Slot(marked, 0, false, None, {}), Waiting("a", marked), Marking("b", plan));
    assert w2.slots == w1.slots["a" := Slot(failed, 1, false, None, {})] && w2.workers == w1.workers[1 := Waiting("a", marked)];
    longer := OneStep(longer, w1, w2, WorkerActs(1, Calls));
  }

  /**
   Once recovery overlaps a live worker: its journal was failed as never dispatched, the store
   let it mark the journal of a later command for the same version, and it calls the opener.
   A call was made for "a", which was never dispatching, and "b" is dispatching without a call.
   */
  lemma OverlappingRecoveryCrossesJournals(content: ArtifactVersion) returns (trace: seq<World>)
    requires content.Restorable()
    ensures IsRun(Init, AnyNext, trace)
    ensures
      var w := trace[|trace| - 1];
      && "a" in w.slots && w.slots["a"].calls == 1 && !WentDispatching(w.slots["a"].plan)
      && "b" in w.slots && w.slots["b"].calls == 0 && w.slots["b"].plan.state.Dispatching?
      && 1 in w.workers && w.workers[1].home == "a" && IsTarget(w, "b", w.workers[1].plan)
  {
    hide ValidLine;
    var plan := Prepare(content, 0).value;
    var empty := World(map[], map[], map[], map[], {}, map[], {});
    trace := OneStep([empty], empty, Published(content, map[], map[], map[], map[]), Publishes(content));
    trace := OpensAnew(trace, content, map[], map[], 1, "a");
    trace := IsFailed(trace, content, plan, map[1 := Marking("a", plan)]);
    var failed := Slot(FailedPlan(plan), 0, false, None, {});
    trace := OpensAnew(trace, content, map["a" := failed], map[1 := Marking("a", plan)], 2, "b");
    assert map["a" := failed]["b" := Slot(plan, 0, false, None, {})] == map["a" := failed, "b" := Slot(plan, 0, false, None, {})];
    assert map[1 := Marking("a", plan)][2 := Marking("b", plan)] == map[1 := Marking("a", plan), 2 := Marking("b", plan)];
    trace := FirstWorkerGoesOn(trace, content, plan);
  }
}
