/**
 What is open to an import: in every state that a run can reach, its worker can take the
 next step of its stage, exactly under the condition given here.
 */
module ImportProgress {
  import opened Wrappers
  import opened Runs
  import opened Artifacts
  import opened ImportPlans
  import opened ImportProtocol
  import RemovalPlans

  /** The slot can take the step. */
  ghost predicate Open(s: Slot, step: SlotStep) {
    exists s' :: SlotNext(s, s', step)
  }

  /** The bytes of the journal's content are there, staged or published. */
  predicate BytesAreThere(s: Slot)
    requires s.plan.content.Some?
  {
    s.staged == Some(s.plan.content.value.sha256) || s.plan.content.value.sha256 in s.published
  }

  ghost predicate StagedGoesOn(s: Slot, prepared: PreparedContent, at: UnixMillis) {
    if prepared.byteSize > 64 * 1024 * 1024 then Open(s, RejectsOversize) && !Open(s, MarksReady(at))
    else
      && !Open(s, RejectsOversize)
      && (Open(s, MarksReady(at)) <==> s.plan.updatedAt <= at && ValidLine(prepared.mediaType, 255))
  }

  /** Whatever a worker has to do next, it can. */
  ghost predicate GoesOn(s: Slot, at: UnixMillis) {
    s.task.Some? ==>
      match s.task.value
      case Reserved(_) => Open(s, ReadsSource)
      case Staging(_) =>
        forall prepared: PreparedContent :: s.staged == Some(prepared.sha256) ==> Open(s, StagingSucceeds(prepared))
      case Staged(_, prepared) => StagedGoesOn(s, prepared, at)
      case DiscardingReserved(_, _) => Open(s, DiscardsReserved)
      case FailingReserved(_, _) => Open(s, PersistsFailure(at)) <==> s.plan.updatedAt <= at
      case Publishing(_) => s.plan.content.Some? && (Open(s, PublishSucceeds) <==> BytesAreThere(s))
      case Committing(_) => Open(s, Commits(at)) <==> s.plan.updatedAt <= at
      case DiscardingReady(_, _) => Open(s, DiscardsReady)
      case CheckingAbsence(_, _) => s.plan.content.Some? && (Open(s, FindsNothingLeft) <==> !BytesAreThere(s))
      case FailingReady(_, _) => Open(s, PersistsFailure(at)) <==> s.plan.updatedAt <= at
      case CheckingStatus(_) =>
        && s.plan.content.Some?
        && (Open(s, StatusIsPresent) <==> BytesAreThere(s)) && (Open(s, StatusIsMissing) <==> !BytesAreThere(s))
  }

  lemma ReservedGoesOn(s: Slot, at: UnixMillis)
    requires SlotInv(s) && s.task.Some? && (s.task.value.Reserved? || s.task.value.Staging?)
    ensures GoesOn(s, at)
  {
    hide ValidLine;
    var t := s.task.value;
    if t.Reserved? {
      assert SlotNext(s, s.(task := Some(Staging(t.plan)), stagingWorker := true, sourceReads := s.sourceReads + 1),
                      ReadsSource);
    } else {
      forall prepared: PreparedContent | s.staged == Some(prepared.sha256)
        ensures Open(s, StagingSucceeds(prepared))
      {
        assert SlotNext(s, s.(task := Some(Staged(t.plan, prepared)), stagingWorker := false, reported := Some(prepared)),
                        StagingSucceeds(prepared));
      }
    }
  }

  lemma MarkingReadyIsOpenIff(s: Slot, at: UnixMillis)
    requires SlotInv(s) && s.task.Some? && s.task.value.Staged?
    ensures StagedGoesOn(s, s.task.value.prepared, at)
  {
    hide ValidLine;
    var t := s.task.value;
    var p := t.prepared;
    if p.byteSize > 64 * 1024 * 1024 {
      assert SlotNext(s, s.(task := Some(DiscardingReserved(t.plan, FileTooLarge)), causes := s.causes + {StagedTooMuch}),
                      RejectsOversize);
    } else {
      var content := ArtifactVersion(t.plan.artifact.id, 1, p.sha256, p.mediaType, p.byteSize, at);
      var ready := s.plan.RecordContentReady(content, at);
      if ready.Some? {
        assert SlotNext(s, s.(plan := ready.value, task := Some(Publishing(ready.value))), MarksReady(at));
      }
    }
  }

  lemma FailingGoesOn(s: Slot, at: UnixMillis)
    requires SlotInv(s) && s.task.Some? && (s.task.value.FailingReserved? || s.task.value.FailingReady?)
    ensures GoesOn(s, at)
  {
    hide ValidLine;
    var failed := s.plan.Fail(s.task.value.failure, at);
    if failed.Some? {
      assert SlotNext(s, s.(plan := failed.value, task := None), PersistsFailure(at));
    }
  }

  lemma PublishingGoesOn(s: Slot, at: UnixMillis)
    requires SlotInv(s) && s.task.Some? && s.task.value.Publishing?
    ensures GoesOn(s, at)
  {
    hide ValidLine;
    if BytesAreThere(s) {
      var content := s.plan.content.value;
      assert SlotNext(s, PublishBytes(s, content).(staged := None, task := Some(Committing(s.plan))), PublishSucceeds);
    }
  }

  lemma CommittingGoesOn(s: Slot, at: UnixMillis)
    requires SlotInv(s) && s.task.Some? && s.task.value.Committing?
    ensures GoesOn(s, at)
  {
    hide ValidLine;
    hide BytesOwned;
    var content := s.plan.content.value;
    var next := s.plan.artifact.RecordContent(content.Summary(), at);
    if s.plan.updatedAt <= at {
      assert s.plan.artifact.updatedAt <= s.plan.updatedAt;
      var committed := s.plan.Commit(next.value, at);
      assert SlotNext(s, s.(plan := committed.value, artifact := next.value, retention := RemovalPlans.Retain(content),
                            task := None), Commits(at));
    }
  }

  lemma CleaningGoesOn(s: Slot, at: UnixMillis)
    requires SlotInv(s) && s.task.Some? && (s.task.value.DiscardingReserved? || s.task.value.DiscardingReady?)
    ensures GoesOn(s, at)
  {
    hide ValidLine;
    var t := s.task.value;
    if t.DiscardingReserved? {
      assert SlotNext(s, s.(staged := None, task := Some(FailingReserved(t.plan, t.failure))), DiscardsReserved);
    } else {
      assert SlotNext(s, s.(staged := None, task := Some(CheckingAbsence(t.plan, t.failure))), DiscardsReady);
    }
  }

  lemma CheckingGoesOn(s: Slot, at: UnixMillis)
    requires SlotInv(s) && s.task.Some? && (s.task.value.CheckingAbsence? || s.task.value.CheckingStatus?)
    ensures GoesOn(s, at)
  {
    hide ValidLine;
    var t := s.task.value;
    if t.CheckingAbsence? && !BytesAreThere(s) {
      assert SlotNext(s, s.(task := Some(FailingReady(t.plan, t.failure))), FindsNothingLeft);
    }
    if t.CheckingStatus? && BytesAreThere(s) {
      assert SlotNext(s, s.(task := Some(Publishing(t.plan))), StatusIsPresent);
    }
    if t.CheckingStatus? && !BytesAreThere(s) {
      assert SlotNext(s, s.(task := Some(DiscardingReady(t.plan, IntegrityFailure)), causes := s.causes + {BytesWereGone}),
                      StatusIsMissing);
    }
  }

  lemma SlotGoesOn(s: Slot, at: UnixMillis)
    requires SlotInv(s)
    ensures GoesOn(s, at)
  {
    hide SlotInv;
    hide SlotNext;
    if s.task.Some? {
      match s.task.value
      case Reserved(_) => ReservedGoesOn(s, at);
      case Staging(_) => ReservedGoesOn(s, at);
      case Staged(_, _) => MarkingReadyIsOpenIff(s, at);
      case Publishing(_) => PublishingGoesOn(s, at);
      case Committing(_) => CommittingGoesOn(s, at);
      case FailingReserved(_, _) => FailingGoesOn(s, at);
      case FailingReady(_, _) => FailingGoesOn(s, at);
      case DiscardingReserved(_, _) => CleaningGoesOn(s, at);
      case DiscardingReady(_, _) => CleaningGoesOn(s, at);
      case _ => CheckingGoesOn(s, at);
    }
  }

  /**
   In every state of every run and at every time not before the journal's: a worker can read,
   stage, publish, commit, clean up or record its failure, whichever is next. What was staged
   can be made content exactly if it has at most 64 MiB and a proper media type, and is
   rejected exactly beyond that; publication can go on exactly if the bytes are there, and an
   import is given up for missing bytes exactly if they are not.
   */
  lemma ImportsCanGoOn(trace: seq<World>, i: nat, id: string, at: UnixMillis)
    requires IsRun(Init, Next, trace) && i < |trace| && id in trace[i].slots
    ensures GoesOn(trace[i].slots[id], at)
  {
    hide SlotInv;
    hide Next;
    hide GoesOn;
    InvIsInductive();
    InvariantHolds(Init, Next, Inv, trace, i);
    assert SlotGood(trace[i].slots[id]);
    SlotGoesOn(trace[i].slots[id], at);
  }
}
