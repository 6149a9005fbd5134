/**
 The durable open journal record: transitions, the check on stored records, and
 the proof that the check accepts exactly the reachable records.
 */
module OpenPlans {
  import opened Wrappers
  import opened Artifacts
  import opened Limits
  import Transitions

  datatype OpenState = Prepared | Dispatching | Opened | Failed | InterruptedNeedsReview

  datatype OpenFailure =
    | ContentUnavailable
    | PlatformUnavailable
    | DeadlineExceeded
    | IntegrityFailure
    | InterruptedBeforeDispatch

  datatype OpenPlan = OpenPlan(
    content: ArtifactVersion, state: OpenState, failure: Option<OpenFailure>, revision: nat,
    createdAt: UnixMillis, updatedAt: UnixMillis)
  {
    function BeginDispatch(now: UnixMillis): Option<OpenPlan> {
      Move(Prepared, Dispatching, None, now)
    }

    function Complete(now: UnixMillis): Option<OpenPlan> {
      Move(Dispatching, Opened, None, now)
    }

    function Fail(code: OpenFailure, now: UnixMillis): Option<OpenPlan> {
      if !(state.Prepared? || state.Dispatching?) then None
      else Move(state, Failed, Some(code), now)
    }

    function Interrupt(now: UnixMillis): Option<OpenPlan> {
      Move(Dispatching, InterruptedNeedsReview, None, now)
    }

    function Move(expected: OpenState, next: OpenState, code: Option<OpenFailure>, now: UnixMillis):
      Option<OpenPlan>
    {
      if state != expected || now < updatedAt || revision == U64_MAX then None
      else Some(this.(state := next, failure := code, revision := revision + 1, updatedAt := now))
    }

    predicate Terminal() {
      state.Opened? || state.Failed? || state.InterruptedNeedsReview?
    }

    /** The check made on every record read back from durable storage. */
    predicate Restorable() {
      && content.Restorable()
      && createdAt <= updatedAt
      && match state
         case Prepared => revision == 0 && failure.None? && updatedAt == createdAt
         case Dispatching => revision == 1 && failure.None?
         case Opened => revision == 2 && failure.None?
         case InterruptedNeedsReview => revision == 2 && failure.None?
         case Failed => (revision == 1 || revision == 2) && failure.Some?
    }
  }

  function Prepare(content: ArtifactVersion, now: UnixMillis): Option<OpenPlan> {
    if !content.Restorable() then None
    else Some(OpenPlan(content, Prepared, None, 0, now, now))
  }

  datatype Transition =
    | DispatchBegan(at: UnixMillis)
    | WasOpened(at: UnixMillis)
    | HasFailed(code: OpenFailure, at: UnixMillis)
    | WasInterrupted(at: UnixMillis)

  function Apply(plan: OpenPlan, transition: Transition): Option<OpenPlan> {
    match transition
    case DispatchBegan(at) => plan.BeginDispatch(at)
    case WasOpened(at) => plan.Complete(at)
    case HasFailed(code, at) => plan.Fail(code, at)
    case WasInterrupted(at) => plan.Interrupt(at)
  }

  ghost predicate ReachableBy(plan: OpenPlan, content: ArtifactVersion, created: UnixMillis, transitions: seq<Transition>) {
    && Prepare(content, created).Some?
    && Transitions.ApplyAll(Apply, Prepare(content, created).value, transitions) == Some(plan)
  }

  /** Some history of the record's own transitions, in time order, ends in `plan`. */
  ghost predicate Reachable(plan: OpenPlan) {
    exists content, created, transitions :: ReachableBy(plan, content, created, transitions)
  }

  lemma TransitionKeepsRestorable(plan: OpenPlan, transition: Transition)
    requires plan.Restorable() && Apply(plan, transition).Some?
    ensures Apply(plan, transition).value.Restorable()
  {
  }

  /** No history leads from an acceptable record to one that would be rejected. */
  lemma TransitionsKeepRestorable(plan: OpenPlan, transitions: seq<Transition>)
    requires plan.Restorable()
    ensures
      var last := Transitions.ApplyAll(Apply, plan, transitions);
      last.Some? ==> last.value.Restorable()
  {
    forall p: OpenPlan, t: Transition | p.Restorable() && Apply(p, t).Some?
      ensures Apply(p, t).value.Restorable()
    {
      TransitionKeepsRestorable(p, t);
    }
    Transitions.HistoriesKeep(Apply, (p: OpenPlan) => p.Restorable(), plan, transitions);
  }

  function History(plan: OpenPlan): seq<Transition>
    requires plan.Restorable()
  {
    var at := plan.updatedAt;
    var dispatched := [DispatchBegan(plan.createdAt)];
    match plan.state
    case Prepared => []
    case Dispatching => [DispatchBegan(at)]
    case Opened => dispatched + [WasOpened(at)]
    case InterruptedNeedsReview => dispatched + [WasInterrupted(at)]
    case Failed => (if plan.revision == 2 then dispatched else []) + [HasFailed(plan.failure.value, at)]
  }

  lemma HistoryReaches(plan: OpenPlan)
    requires plan.Restorable()
    ensures ReachableBy(plan, plan.content, plan.createdAt, History(plan))
  {
    var start := Prepare(plan.content, plan.createdAt).value;
    var history := History(plan);
    if |history| == 1 {
      Transitions.OneTransition(Apply, start, history[0]);
      assert history == [history[0]];
    } else if |history| == 2 {
      Transitions.TwoTransitions(Apply, start, history[0], history[1]);
      assert history == [history[0], history[1]];
    }
  }

  lemma RestorableIffReachable(plan: OpenPlan)
    ensures plan.Restorable() <==> Reachable(plan)
  {
    if plan.Restorable() {
      HistoryReaches(plan);
    }
    forall content, created, transitions | ReachableBy(plan, content, created, transitions)
      ensures plan.Restorable()
    {
      TransitionsKeepRestorable(Prepare(content, created).value, transitions);
    }
  }
}
