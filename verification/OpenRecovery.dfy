/** The start-up pass over incomplete open journals, with its bounded listing and its summary. */
module OpenRecovery {
  import opened Wrappers
  import opened Artifacts
  import opened OpenPlans

  datatype Summary = Summary(failedBeforeDispatch: nat, interruptedNeedsReview: nat, truncated: bool)

  /** Never dispatched means failed; possibly dispatched means that a person has to look. Nothing is opened. */
  predicate RecoveredFrom(before: OpenPlan, after: OpenPlan) {
    && after.Restorable() && after.content == before.content && after.updatedAt >= before.updatedAt
    && (before.state.Prepared? ==> after.state.Failed? && after.failure == Some(InterruptedBeforeDispatch))
    && (before.state.Dispatching? ==> after.state.InterruptedNeedsReview?)
  }

  class OpenJournal {
    var plans: map<string, OpenPlan>
    ghost var faults: nat // store calls that reported an error

    ghost predicate Valid()
      reads this
    {
      forall key :: key in plans ==> plans[key].Restorable()
    }

    /** One journal: the store applies the transition, and may do so although it reports an error. */
    method RecoverOne(key: string) returns (ok: bool)
      requires Valid() && key in plans && !plans[key].Terminal()
      modifies this
      ensures Valid()
      ensures ok <==> faults == old(faults)
      ensures key in plans && plans == old(plans)[key := plans[key]]
      ensures ok ==> RecoveredFrom(old(plans)[key], plans[key])
      ensures plans == old(plans) || RecoveredFrom(old(plans)[key], plans[key])
    {
      hide ValidLine;
      var plan := plans[key];
      var clock: nat := *;
      var at := if clock < plan.updatedAt then plan.updatedAt else clock;
      var next := if plan.state.Prepared? then plan.Fail(InterruptedBeforeDispatch, at) else plan.Interrupt(at);
      ok := *;
      if !ok {
        faults := faults + 1;
      }
      var written: bool := *;
      if ok || written {
        plans := plans[key := next.value];
      }
    }

    method RecoverIncompleteOpens(limit: nat) returns (result: Result<Summary, ()>)
      requires Valid()
      modifies this
      ensures Valid() && plans.Keys == old(plans).Keys
      ensures OnlyRecovered(old(plans), plans)
      ensures result.Ok? <==> 1 <= limit <= 100 && faults == old(faults)
      ensures limit == 0 || limit > 100 ==> plans == old(plans)
      ensures result.Ok? && !result.value.truncated ==> forall key :: key in plans ==> plans[key].Terminal()
      ensures result.Ok? ==>
        var summary := result.value;
        && summary.failedBeforeDispatch == |Changed(old(plans), plans, true)|
        && summary.interruptedNeedsReview == |Changed(old(plans), plans, false)|
        && summary.failedBeforeDispatch + summary.interruptedNeedsReview <= limit
    {
      hide RecoveredFrom;
      hide OnlyRecovered;
      hide Changed;
      hide ValidLine;
      hide IncompleteKeys;
      NothingChanged(plans);
      if !(1 <= limit <= MAX_ARTIFACT_RECOVERY_BATCH) {
        return Err(());
      }
      var todo := IncompleteKeys(plans);
      var failed, interrupted := 0, 0;
      while todo != {} && failed + interrupted < limit
        invariant Valid() && plans.Keys == old(plans).Keys && faults == old(faults)
        invariant todo == IncompleteKeys(plans)
        invariant forall key :: key in todo ==> key in plans && plans[key] == old(plans)[key]
        invariant OnlyRecovered(old(plans), plans)
        invariant failed == |Changed(old(plans), plans, true)| && interrupted == |Changed(old(plans), plans, false)|
        invariant failed + interrupted <= limit
        decreases todo
      {
        var key :| key in todo;
        IncompleteKeysAre(plans, key);
        var prepared := plans[key].state.Prepared?;
        ghost var before := plans;
        var ok := RecoverOne(key);
        if plans != before {
          OneMoreRecovered(old(plans), before, plans, key);
        }
        if !ok {
          return Err(());
        }
        RecoveredIsTerminal(before[key], plans[key]);
        OneMoreChanged(old(plans), before, plans, key);
        OneFewerIncomplete(before, plans, key);
        failed := if prepared then failed + 1 else failed;
        interrupted := if prepared then interrupted else interrupted + 1;
        todo := todo - {key};
      }
      NoneIncomplete(plans);
      return Ok(Summary(failed, interrupted, todo != {}));
    }
  }

  function IncompleteKeys(plans: map<string, OpenPlan>): (keys: set<string>)
    ensures keys <= plans.Keys
  {
    set key | key in plans && !plans[key].Terminal()
  }

  lemma IncompleteKeysAre(plans: map<string, OpenPlan>, key: string)
    ensures key in IncompleteKeys(plans) <==> key in plans && !plans[key].Terminal()
  {
  }

  lemma NoneIncomplete(plans: map<string, OpenPlan>)
    ensures IncompleteKeys(plans) == {} <==> forall key :: key in plans ==> plans[key].Terminal()
  {
    forall key | key in plans && IncompleteKeys(plans) == {}
      ensures plans[key].Terminal()
    {
      IncompleteKeysAre(plans, key);
    }
  }

  lemma OneFewerIncomplete(before: map<string, OpenPlan>, after: map<string, OpenPlan>, key: string)
    requires key in before && key in after && after == before[key := after[key]] && after[key].Terminal()
    ensures IncompleteKeys(after) == IncompleteKeys(before) - {key}
  {
  }

  /** A pass leaves a journal as it was or recovers it. */
  ghost predicate OnlyRecovered(before: map<string, OpenPlan>, after: map<string, OpenPlan>)
    requires before.Keys == after.Keys
  {
    forall key :: key in before ==>
      after[key] == before[key] || (!before[key].Terminal() && RecoveredFrom(before[key], after[key]))
  }

  lemma OneMoreRecovered(
    start: map<string, OpenPlan>, before: map<string, OpenPlan>, after: map<string, OpenPlan>, key: string)
    requires key in start && before.Keys == start.Keys && after.Keys == start.Keys
    requires OnlyRecovered(start, before) && before[key] == start[key] && after == before[key := after[key]]
    requires !start[key].Terminal() && RecoveredFrom(start[key], after[key])
    ensures OnlyRecovered(start, after)
  {
    hide RecoveredFrom;
  }

  lemma RecoveredIsTerminal(before: OpenPlan, after: OpenPlan)
    requires !before.Terminal() && RecoveredFrom(before, after)
    ensures after.Terminal() && after != before
  {
  }

  lemma NothingChanged(plans: map<string, OpenPlan>)
    ensures Changed(plans, plans, true) == {} && Changed(plans, plans, false) == {}
    ensures OnlyRecovered(plans, plans)
  {
  }

  lemma OneMoreChanged(
    start: map<string, OpenPlan>, before: map<string, OpenPlan>, after: map<string, OpenPlan>, key: string)
    requires key in start && before.Keys == start.Keys && after.Keys == start.Keys
    requires before[key] == start[key] && after == before[key := after[key]] && after[key] != start[key]
    ensures
      var prepared := start[key].state.Prepared?;
      && |Changed(start, after, prepared)| == |Changed(start, before, prepared)| + 1
      && Changed(start, after, !prepared) == Changed(start, before, !prepared)
  {
    var prepared := start[key].state.Prepared?;
    assert Changed(start, after, prepared) == Changed(start, before, prepared) + {key};
  }

  /** The journals a pass changed, by whether they had been prepared or were dispatching. */
  function Changed(before: map<string, OpenPlan>, after: map<string, OpenPlan>, prepared: bool): set<string>
    requires before.Keys == after.Keys
  {
    set key | key in before && after[key] != before[key] && before[key].state.Prepared? == prepared
  }
}
