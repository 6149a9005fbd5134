/**
 Dispatching bound automation runs to the isolated guest. A slot is one occurrence bound
 to one run: both rows are durable, daemons hold arbitrarily old listings of them, and the
 daemon whose begin took effect carries the attempt. A store call may take effect although
 its caller sees an error; recovery deals with expired attempts at any time. The run row
 belongs to other services as well, which may move it as the run's own life cycle permits.
 */
module GuestDispatch {
  import opened Wrappers
  import opened Runs

  datatype OccurrenceState = RunLinked | Succeeded | Failed | InterruptedNeedsReview | Cancelled

  datatype RunState =
    | Queued | Planning | AwaitingApproval | Paused | Running
    | RunCompleted | RunFailed | RunInterrupted | RunCancelled

  predicate HasEnded(run: RunState) {
    run.RunCompleted? || run.RunFailed? || run.RunInterrupted? || run.RunCancelled?
  }

  /** An interrupted run may still be taken up or given up; the other ends are final. */
  predicate IsFinal(run: RunState) {
    run.RunCompleted? || run.RunFailed? || run.RunCancelled?
  }

  /** The life cycle of a run, whoever moves it. */
  predicate Permits(run: RunState, next: RunState) {
    match run
    case Queued => next.Planning? || next.RunCancelled? || next.RunInterrupted?
    case Planning =>
      next.AwaitingApproval? || next.Running? || next.RunFailed? || next.RunCancelled? || next.RunInterrupted?
    case AwaitingApproval =>
      next.Running? || next.Paused? || next.RunFailed? || next.RunCancelled? || next.RunInterrupted?
    case Paused => next.Running? || next.RunFailed? || next.RunCancelled? || next.RunInterrupted?
    case Running => next.AwaitingApproval? || next.Paused? || HasEnded(next)
    case RunInterrupted => next.Running? || next.RunFailed? || next.RunCancelled?
    case _ => false
  }

  datatype Completion = CompletedWell | CompletedBadly | NeedsReview | WasCancelled

  /** What the guest dispatcher came back with; it may also not come back at all. */
  datatype Answer = ReportedSuccess | ReportedFailure | WasUnavailable

  /** What a daemon read when it listed resumable work. */
  datatype Listing = Listing(occurrenceRevision: nat, runRevision: nat)

  datatype Worker =
    | Begun(occurrenceRevision: nat)
    | Dispatched(occurrenceRevision: nat)
    | Finishing(occurrenceRevision: nat, completion: Completion)

  datatype Slot = Slot(
    occurrence: OccurrenceState, occurrenceRevision: nat, run: RunState, runRevision: nat,
    listings: set<Listing>, worker: Option<Worker>,
    dispatches: nat, // calls of the guest dispatcher
    answer: Option<Answer>, // what it answered
    elsewhere: set<RunState>) // where other services have moved the run

  datatype SlotStep =
    | IsListed
    | Begins(listing: Listing, answered: bool)
    | SeesCancellation
    | Dispatches
    | Answers(answer: Answer)
    | Interrupted
    | Completes
    | WorkerDies
    | RunMoves(next: RunState)
    | Recovers

  function Bound(occurrenceRevision: nat): Slot {
    Slot(RunLinked, occurrenceRevision, Queued, 0, {}, None, 0, None, {})
  }

  function CrashSlot(s: Slot): Slot {
    s.(listings := {}, worker := None)
  }

  predicate Listable(s: Slot) {
    s.occurrence.RunLinked? && s.run.Queued?
  }

  function OccurrenceAfter(completion: Completion): OccurrenceState {
    match completion
    case CompletedWell => Succeeded
    case CompletedBadly => Failed
    case NeedsReview => InterruptedNeedsReview
    case WasCancelled => Cancelled
  }

  function RunAfter(completion: Completion): RunState {
    match completion
    case CompletedWell => RunCompleted
    case CompletedBadly => RunFailed
    case NeedsReview => RunInterrupted
    case WasCancelled => RunCancelled
  }

  predicate SlotNext(s: Slot, s': Slot, step: SlotStep) {
    match step
    case IsListed =>
      Listable(s) && s' == s.(listings := s.listings + {Listing(s.occurrenceRevision, s.runRevision)})
    case Begins(listing, answered) =>
      && listing in s.listings && s.occurrence.RunLinked? && s.run.Queued?
      && s.occurrenceRevision == listing.occurrenceRevision && s.runRevision == listing.runRevision
      && s' == s.(run := Running, runRevision := s.runRevision + 2,
                  worker := if answered then Some(Begun(s.occurrenceRevision)) else s.worker)
    case SeesCancellation =>
      && s.worker.Some? && s.worker.value.Begun?
      && s' == s.(worker := Some(Finishing(s.worker.value.occurrenceRevision, WasCancelled)))
    case Dispatches =>
      && s.worker.Some? && s.worker.value.Begun?
      && s' == s.(worker := Some(Dispatched(s.worker.value.occurrenceRevision)), dispatches := s.dispatches + 1)
    case Answers(answer) =>
      && s.worker.Some? && s.worker.value.Dispatched?
      && var completion := if answer.ReportedSuccess? then CompletedWell else CompletedBadly;
         s' == s.(worker := Some(Finishing(s.worker.value.occurrenceRevision, completion)), answer := Some(answer))
    case Interrupted =>
      && s.worker.Some? && s.worker.value.Dispatched?
      && s' == s.(worker := Some(Finishing(s.worker.value.occurrenceRevision, NeedsReview)))
    case Completes =>
      && s.worker.Some? && s.worker.value.Finishing?
      && s.run.Running? && s.occurrence.RunLinked? && s.occurrenceRevision == s.worker.value.occurrenceRevision
      && var completion := s.worker.value.completion;
         s' == s.(run := RunAfter(completion), runRevision := s.runRevision + 1,
                  occurrence := OccurrenceAfter(completion), occurrenceRevision := s.occurrenceRevision + 1,
                  worker := None)
    case WorkerDies =>
      s.worker.Some? && s' == s.(worker := None)
    case RunMoves(next) =>
      && Permits(s.run, next)
      && s' == s.(run := next, runRevision := s.runRevision + 1, elsewhere := s.elsewhere + {next})
    case Recovers =>
      // Queued work stays resumable; a run that has ended is believed; anything between is referred to a person.
      && s.occurrence.RunLinked? && !s.run.Queued?
      && var run := if HasEnded(s.run) then s.run else RunInterrupted;
         s' == s.(run := run, runRevision := if HasEnded(s.run) then s.runRevision else s.runRevision + 1,
                  occurrence := OccurrenceOf(run), occurrenceRevision := s.occurrenceRevision + 1)
  }

  function OccurrenceOf(run: RunState): OccurrenceState
    requires HasEnded(run)
  {
    match run
    case RunCompleted => Succeeded
    case RunFailed => Failed
    case RunCancelled => Cancelled
    case RunInterrupted => InterruptedNeedsReview
  }

  datatype Step = Bind(id: string, occurrenceRevision: nat) | Move(id: string, slotStep: SlotStep) | Crash

  ghost predicate NextBy(
    w: map<string, Slot>, w': map<string, Slot>, step: Step, slotNext: (Slot, Slot, SlotStep) -> bool)
  {
    match step
    case Bind(id, occurrenceRevision) =>
      id !in w && w' == w[id := Bound(occurrenceRevision)]
    case Move(id, slotStep) =>
      id in w && id in w' && slotNext(w[id], w'[id], slotStep) && w' == w[id := w'[id]]
    case Crash =>
      w' == map id | id in w :: CrashSlot(w[id])
  }

  ghost predicate Next(w: map<string, Slot>, w': map<string, Slot>) {
    exists step :: NextBy(w, w', step, SlotNext)
  }

  ghost predicate Init(w: map<string, Slot>) {
    w == map[]
  }

  predicate HasFailed(s: Slot) {
    s.answer == Some(ReportedFailure) || s.answer == Some(WasUnavailable)
  }

  predicate WorkerInv(s: Slot) {
    s.worker.Some? ==>
      && !s.run.Queued?
      && (s.occurrence.Cancelled? ==> RunCancelled in s.elsewhere)
      && (s.occurrence.Succeeded? ==> RunCompleted in s.elsewhere)
      && (s.occurrence.Failed? ==> RunFailed in s.elsewhere)
      && match s.worker.value
         case Begun(_) => s.dispatches == 0 && s.answer.None?
         case Dispatched(_) => s.dispatches == 1 && s.answer.None?
         case Finishing(_, completion) =>
           match completion
           case WasCancelled => s.dispatches == 0 && s.answer.None?
           case CompletedWell => s.dispatches == 1 && s.answer == Some(ReportedSuccess)
           case CompletedBadly => s.dispatches == 1 && HasFailed(s)
           case NeedsReview => s.dispatches == 1 && s.answer.None?
  }

  /** The two rows tell the same story. */
  predicate RowsAgree(s: Slot) {
    if s.occurrence.RunLinked? then !HasEnded(s.run)
    else HasEnded(s.run) && OccurrenceOf(s.run) == s.occurrence
  }

  predicate SlotInv(s: Slot) {
    && WorkerInv(s)
    && (s.elsewhere == {} ==> RowsAgree(s))
    && (s.occurrence.RunLinked? && HasEnded(s.run) ==> s.run in s.elsewhere)
    && s.dispatches <= 1
    && (s.run.Queued? ==> s.dispatches == 0)
    && (s.answer.Some? ==> s.dispatches == 1)
    && (s.occurrence.Cancelled? && RunCancelled !in s.elsewhere ==> s.dispatches == 0)
    && (s.occurrence.Succeeded? && RunCompleted !in s.elsewhere ==> s.answer == Some(ReportedSuccess))
    && (s.occurrence.Failed? && RunFailed !in s.elsewhere ==> HasFailed(s))
  }

  lemma SlotStepKeepsInv(s: Slot, s': Slot, step: SlotStep)
    requires SlotInv(s) && SlotNext(s, s', step)
    ensures SlotInv(s')
    ensures !s.run.Queued? ==> !s'.run.Queued?
    ensures s'.dispatches > s.dispatches ==> !s.run.Queued? && s.dispatches == 0
    ensures !s.occurrence.RunLinked? ==> s'.occurrence == s.occurrence
    ensures IsFinal(s.run) ==> s'.run == s.run
  {
  }

  ghost predicate WorldInv(w: map<string, Slot>, slotInv: Slot -> bool) {
    forall id :: id in w ==> slotInv(w[id])
  }

  ghost predicate Inv(w: map<string, Slot>) {
    WorldInv(w, SlotInv)
  }

  ghost predicate SlotContract(slotInv: Slot -> bool, slotNext: (Slot, Slot, SlotStep) -> bool) {
    && (forall s, s', step :: slotInv(s) && slotNext(s, s', step) ==>
          && slotInv(s') && (!s.run.Queued? ==> !s'.run.Queued?)
          && (!s.occurrence.RunLinked? ==> s'.occurrence == s.occurrence)
          && (IsFinal(s.run) ==> s'.run == s.run))
    && (forall s :: slotInv(s) ==> slotInv(CrashSlot(s)))
    && (forall revision :: slotInv(Bound(revision)))
  }

  lemma SlotsMeetTheirContract()
    ensures SlotContract(SlotInv, SlotNext)
  {
    forall s, s', step | SlotInv(s) && SlotNext(s, s', step)
      ensures SlotInv(s') && (!s.run.Queued? ==> !s'.run.Queued?)
      ensures !s.occurrence.RunLinked? ==> s'.occurrence == s.occurrence
      ensures IsFinal(s.run) ==> s'.run == s.run
    {
      SlotStepKeepsInv(s, s', step);
    }
    CrashedAndBoundFit();
    hide SlotNext;
    hide SlotInv;
  }

  lemma CrashedAndBoundFit()
    ensures forall s :: SlotInv(s) ==> SlotInv(CrashSlot(s))
    ensures forall revision :: SlotInv(Bound(revision))
  {
  }

  lemma StepKeepsInv(w: map<string, Slot>, w': map<string, Slot>, step: Step,
                     slotInv: Slot -> bool, slotNext: (Slot, Slot, SlotStep) -> bool)
    requires SlotContract(slotInv, slotNext)
    requires WorldInv(w, slotInv) && NextBy(w, w', step, slotNext)
    ensures WorldInv(w', slotInv)
    ensures forall id :: id in w ==>
      && id in w' && (!w[id].run.Queued? ==> !w'[id].run.Queued?)
      && (!w[id].occurrence.RunLinked? ==> w'[id].occurrence == w[id].occurrence)
      && (IsFinal(w[id].run) ==> w'[id].run == w[id].run)
  {
  }

  lemma InvIsInductive()
    ensures forall w :: Init(w) ==> Inv(w)
    ensures forall w, w' :: Inv(w) && Next(w, w') ==> Inv(w')
  {
    SlotsMeetTheirContract();
    forall w, w' | Inv(w) && Next(w, w')
      ensures Inv(w')
    {
      var step :| NextBy(w, w', step, SlotNext);
      StepKeepsInv(w, w', step, SlotInv, SlotNext);
    }
  }

  /**
   Under any number of daemons, crashes, lost answers and recoveries, and whatever other
   services do to the run: the guest is called at most once per bound occurrence and never
   while its run is still queued. Unless another service cancelled the run, a cancelled
   occurrence was never dispatched; unless another service completed or failed it, a succeeded
   one was reported so by the guest, and a failed one was reported so or found no guest. Unless
   others moved the run at all, the two rows agree, and an attempt that was dispatched and
   never answered ends only in review.
   */
  lemma DispatchesAtMostOnce(trace: seq<map<string, Slot>>, i: nat, id: string)
    requires IsRun(Init, Next, trace) && i < |trace| && id in trace[i]
    ensures
      var s := trace[i][id];
      && s.dispatches <= 1
      && (s.run.Queued? ==> s.dispatches == 0)
      && (s.elsewhere == {} ==> RowsAgree(s))
      && (s.occurrence.Cancelled? && RunCancelled !in s.elsewhere ==> s.dispatches == 0)
      && (s.occurrence.Succeeded? && RunCompleted !in s.elsewhere ==>
            s.answer == Some(ReportedSuccess) && s.dispatches == 1)
      && (s.occurrence.Failed? && RunFailed !in s.elsewhere ==>
            (s.answer == Some(ReportedFailure) || s.answer == Some(WasUnavailable)) && s.dispatches == 1)
      && (s.elsewhere == {} && s.dispatches == 1 && s.answer.None? ==>
            s.occurrence.RunLinked? || s.occurrence.InterruptedNeedsReview?)
  {
    InvIsInductive();
    InvariantHolds(Init, Next, Inv, trace, i);
    assert SlotInv(trace[i][id]);
  }

  /** What a completed attempt is recorded as, by what its worker saw. */
  predicate RecordsAnswer(s: Slot, s': Slot) {
    && s'.dispatches == s.dispatches && s'.answer == s.answer
    && (s'.occurrence.Cancelled? <==> s.dispatches == 0)
    && (s'.occurrence.Succeeded? <==> s.answer == Some(ReportedSuccess))
    && (s'.occurrence.Failed? <==> s.answer == Some(ReportedFailure) || s.answer == Some(WasUnavailable))
    && (s'.occurrence.InterruptedNeedsReview? <==> s.dispatches == 1 && s.answer.None?)
    && !s'.occurrence.RunLinked? && RowsAgree(s')
  }

  /**
   In every run an attempt that completes is recorded as what its worker saw, on both rows;
   and recovery leaves queued work alone, records what the run row says if the run has ended,
   and else refers to a person.
   */
  lemma RecordsAreTrue(trace: seq<map<string, Slot>>, i: nat, id: string, step: SlotStep)
    requires IsRun(Init, Next, trace) && i + 1 < |trace| && NextBy(trace[i], trace[i + 1], Move(id, step), SlotNext)
    ensures step.Completes? ==> RecordsAnswer(trace[i][id], trace[i + 1][id])
    ensures
      var s, s' := trace[i][id], trace[i + 1][id];
      step.Recovers? ==>
        && !s.run.Queued? && RowsAgree(s') && !s'.occurrence.RunLinked?
        && (if HasEnded(s.run) then s'.run == s.run && s.run in s.elsewhere else s'.occurrence.InterruptedNeedsReview?)
  {
    InvIsInductive();
    InvariantHolds(Init, Next, Inv, trace, i);
    assert SlotInv(trace[i][id]);
  }

  lemma OneMove(trace: seq<map<string, Slot>>, s: Slot, s': Slot, step: SlotStep) returns (longer: seq<map<string, Slot>>)
    requires IsRun(Init, Next, trace) && trace[|trace| - 1] == map["it" := s] && SlotNext(s, s', step)
    ensures IsRun(Init, Next, longer) && longer[|longer| - 1] == map["it" := s']
  {
    longer := trace + [map["it" := s']];
    assert map["it" := s'] == map["it" := s]["it" := s'];
    assert NextBy(trace[|trace| - 1], map["it" := s'], Move("it", step), SlotNext);
    RunExtends(Init, Next, trace, map["it" := s']);
  }

  lemma BoundRun() returns (trace: seq<map<string, Slot>>)
    ensures IsRun(Init, Next, trace) && trace[|trace| - 1] == map["it" := Bound(0)]
  {
    trace := [map[], map["it" := Bound(0)]];
    assert NextBy(map[], map["it" := Bound(0)], Bind("it", 0), SlotNext);
  }

  /** A run that another service cancels or completes while the guest has it is recovered as just that. */
  lemma EndedElsewhereIsBelieved(end: RunState) returns (trace: seq<map<string, Slot>>)
    requires end.RunCancelled? || end.RunCompleted?
    ensures IsRun(Init, Next, trace)
    ensures
      var w := trace[|trace| - 1];
      "it" in w && w["it"].occurrence == OccurrenceOf(end) && w["it"].dispatches == 1 && w["it"].answer.None?
  {
    hide IsRun;
    hide Next;
    hide Init;
    var s := Bound(0);
    trace := BoundRun();
    var listed := s.(listings := {Listing(0, 0)});
    trace := OneMove(trace, s, listed, IsListed);
    var begun := listed.(run := Running, runRevision := 2, worker := Some(Begun(0)));
    trace := OneMove(trace, listed, begun, Begins(Listing(0, 0), true));
    var dispatched := begun.(worker := Some(Dispatched(0)), dispatches := 1);
    trace := OneMove(trace, begun, dispatched, Dispatches);
    var ended := dispatched.(run := end, runRevision := 3, elsewhere := {end});
    trace := OneMove(trace, dispatched, ended, RunMoves(end));
    var recovered := ended.(occurrence := OccurrenceOf(end), occurrenceRevision := 1);
    trace := OneMove(trace, ended, recovered, Recovers);
  }

  /**
   An attempt that left the queue is never listed again; its outcome, once recorded, stays;
   and so does the final state of its run, whoever brought it about.
   */
  lemma AttemptsAreNeverRelisted(trace: seq<map<string, Slot>>, i: nat, j: nat, id: string)
    requires IsRun(Init, Next, trace) && i <= j < |trace| && id in trace[i]
    requires !trace[i][id].run.Queued?
    ensures id in trace[j] && !Listable(trace[j][id])
    ensures !trace[i][id].occurrence.RunLinked? ==> trace[j][id].occurrence == trace[i][id].occurrence
    ensures IsFinal(trace[i][id].run) ==> trace[j][id].run == trace[i][id].run
  {
    var outcome, run := trace[i][id].occurrence, trace[i][id].run;
    var keeps := (w: map<string, Slot>) =>
      && id in w && !w[id].run.Queued? && (!outcome.RunLinked? ==> w[id].occurrence == outcome)
      && (IsFinal(run) ==> w[id].run == run);
    InvIsInductive();
    SlotsMeetTheirContract();
    forall w, w' | Inv(w) && keeps(w) && Next(w, w')
      ensures keeps(w')
    {
      var step :| NextBy(w, w', step, SlotNext);
      StepKeepsInv(w, w', step, SlotInv, SlotNext);
    }
    StablePropertyHolds(Init, Next, Inv, keeps, trace, i, j);
  }
}
