/**
 What the occurrences of an evaluated window have to be, said of the decisions alone, and the
 proof that the loops and the sort of an evaluation produce just that.
 */
module Judgement {
  import opened Schedule

  /** The due decisions from before the owner's continuity. */
  function MissedIndexes(decisions: seq<Decision>, continuity: nat): set<nat> {
    set i: nat | i < |decisions| && decisions[i].Due? && decisions[i].at < continuity
  }

  /** One occurrence, judged by its own decision. */
  ghost predicate IsJudged(decisions: seq<Decision>, continuity: nat, policy: MissedRunPolicy, o: Occurrence) {
    && o.decision in decisions
    && (if o.decision.Nonexistent? then o.count == 1 && o.state.SkippedInvalidLocalTime?
        else if continuity <= o.decision.at then o.count == 1 && o.state.Pending?
        else
          && o.count == |MissedIndexes(decisions, continuity)|
          && o.state == (if policy.SkipMissed? then SkippedMissed else Pending)
          && (forall d :: d in decisions && d.Due? && d.at < continuity ==>
                d.at <= o.decision.at && d.local <= o.decision.local))
  }

  /** Which occurrences a window needs. */
  ghost predicate HasAll(decisions: seq<Decision>, continuity: nat, occurrences: seq<Occurrence>) {
    forall d :: d in decisions ==>
      if d.Nonexistent? then Occurrence(d, 1, SkippedInvalidLocalTime) in occurrences
      else if continuity <= d.at then Occurrence(d, 1, Pending) in occurrences
      else exists o :: o in occurrences && o.decision.Due? && o.decision.at < continuity
  }

  /**
   A window is judged rightly: times that do not exist are skipped, what is due since the
   owner's continuity is pending one by one, and everything due before it is one occurrence,
   at the latest of them, with their number, as the policy for missed runs says. In order of
   local time, no local time twice; so there is at most one occurrence for missed runs.
   */
  ghost predicate Judged(
    decisions: seq<Decision>, continuity: nat, policy: MissedRunPolicy, occurrences: seq<Occurrence>)
  {
    && (forall o :: o in occurrences ==> IsJudged(decisions, continuity, policy, o))
    && HasAll(decisions, continuity, occurrences)
    && Increasing(occurrences)
  }

  ghost predicate Increasing(occurrences: seq<Occurrence>) {
    forall i, j :: 0 <= i < j < |occurrences| ==> occurrences[i].decision.local < occurrences[j].decision.local
  }

  lemma DistinctIncreases(occurrences: seq<Occurrence>)
    requires SortedByLocal(occurrences) && LocalsDistinct(occurrences)
    ensures Increasing(occurrences)
  {
  }

  lemma OrderDoesNotMatter(decisions: seq<Decision>, continuity: nat, a: seq<Occurrence>, b: seq<Occurrence>)
    requires HasAll(decisions, continuity, a) && forall o :: o in a ==> o in b
    ensures HasAll(decisions, continuity, b)
  {
  }

  lemma {:induction false} SelectIsOrdered(decisions: seq<Decision>, keep: Decision -> bool)
    requires Ordered(decisions)
    ensures Ordered(Select(decisions, keep))
  {
    if decisions != [] {
      var front, last := decisions[..|decisions| - 1], decisions[|decisions| - 1];
      SelectIsOrdered(front, keep);
      SelectKeeps(front, keep);
      var selected := Select(front, keep);
      forall i | 0 <= i < |selected|
        ensures selected[i].at <= last.at && selected[i].local < last.local
      {
        assert selected[i] in selected && selected[i] in front;
      }
    }
  }

  lemma SameLocalTime(decisions: seq<Decision>, d: Decision, e: Decision)
    requires Ordered(decisions) && d in decisions && e in decisions && d.local == e.local
    ensures d == e
  {
  }

  lemma {:induction false} MissedAreCounted(decisions: seq<Decision>, continuity: nat)
    ensures |Missed(decisions, continuity)| == |MissedIndexes(decisions, continuity)|
  {
    if decisions != [] {
      var n := |decisions| - 1;
      var front, last := decisions[..n], decisions[n];
      MissedAreCounted(front, continuity);
      if IsMissed(last, continuity) {
        assert MissedIndexes(decisions, continuity) == MissedIndexes(front, continuity) + {n};
      } else {
        assert MissedIndexes(decisions, continuity) == MissedIndexes(front, continuity);
      }
    }
  }

  ghost predicate LocalsDistinct(occurrences: seq<Occurrence>) {
    forall i, j :: 0 <= i < j < |occurrences| ==> occurrences[i].decision.local != occurrences[j].decision.local
  }

  lemma OneEachIsDistinct(decisions: seq<Decision>, state: OccurrenceState)
    requires Ordered(decisions)
    ensures LocalsDistinct(OneEach(decisions, state))
    ensures forall o :: o in OneEach(decisions, state) ==> o.decision in decisions && o == Occurrence(o.decision, 1, state)
    ensures forall d :: d in decisions ==> Occurrence(d, 1, state) in OneEach(decisions, state)
  {
    forall d | d in decisions
      ensures Occurrence(d, 1, state) in OneEach(decisions, state)
    {
      var i :| 0 <= i < |decisions| && decisions[i] == d;
      assert OneEach(decisions, state)[i] == Occurrence(d, 1, state);
    }
  }

  lemma DistinctConcat(a: seq<Occurrence>, b: seq<Occurrence>)
    requires LocalsDistinct(a) && LocalsDistinct(b)
    requires forall x, y :: x in a && y in b ==> x.decision.local != y.decision.local
    ensures LocalsDistinct(a + b)
  {
    forall i, j | 0 <= i < j < |a + b|
      ensures (a + b)[i].decision.local != (a + b)[j].decision.local
    {
      if i < |a| && |a| <= j {
        assert (a + b)[i] in a && (a + b)[j] in b;
      }
    }
  }

  lemma OccurrencesAreDistinct(decisions: seq<Decision>, continuity: nat, policy: MissedRunPolicy)
    requires Ordered(decisions)
    ensures LocalsDistinct(Occurrences(decisions, continuity, policy))
  {
    hide LocalsDistinct;
    var gaps, missed, current := Gaps(decisions), Missed(decisions, continuity), Current(decisions, continuity);
    var a, b, c := OneEach(gaps, SkippedInvalidLocalTime), Folded(missed, policy), OneEach(current, Pending);
    KindsAre(decisions, continuity);
    OneEachIsDistinct(gaps, SkippedInvalidLocalTime);
    OneEachIsDistinct(current, Pending);
    FoldedIsDistinct(missed, policy);
    KindsDiffer(decisions, a, b);
    KindsDiffer(decisions, a, c);
    KindsDiffer(decisions, b, c);
    DistinctConcat(a, b);
    assert forall x :: x in a + b ==> x in a || x in b;
    DistinctConcat(a + b, c);
  }

  lemma FoldedIsDistinct(missed: seq<Decision>, policy: MissedRunPolicy)
    ensures LocalsDistinct(Folded(missed, policy))
    ensures forall o :: o in Folded(missed, policy) ==> o.decision in missed
  {
  }

  lemma KindsAre(decisions: seq<Decision>, continuity: nat)
    requires Ordered(decisions)
    ensures Ordered(Gaps(decisions)) && Ordered(Missed(decisions, continuity)) && Ordered(Current(decisions, continuity))
    ensures forall d :: d in Gaps(decisions) <==> d in decisions && d.Nonexistent?
    ensures forall d :: d in Missed(decisions, continuity) <==> d in decisions && d.Due? && d.at < continuity
    ensures forall d :: d in Current(decisions, continuity) <==> d in decisions && d.Due? && d.at >= continuity
  {
    SelectIsOrdered(decisions, (d: Decision) => d.Nonexistent?);
    SelectIsOrdered(decisions, (d: Decision) => IsMissed(d, continuity));
    SelectIsOrdered(decisions, (d: Decision) => IsCurrent(d, continuity));
    SelectKeeps(decisions, (d: Decision) => d.Nonexistent?);
    SelectKeeps(decisions, (d: Decision) => IsMissed(d, continuity));
    SelectKeeps(decisions, (d: Decision) => IsCurrent(d, continuity));
  }

  lemma KindsDiffer(decisions: seq<Decision>, a: seq<Occurrence>, b: seq<Occurrence>)
    requires Ordered(decisions)
    requires forall x :: x in a || x in b ==> x.decision in decisions
    requires forall x, y :: x in a && y in b ==> x.decision != y.decision
    ensures forall x, y :: x in a && y in b ==> x.decision.local != y.decision.local
  {
    forall x, y | x in a && y in b
      ensures x.decision.local != y.decision.local
    {
      if x.decision.local == y.decision.local {
        SameLocalTime(decisions, x.decision, y.decision);
      }
    }
  }

  lemma {:induction false} InsertedIsDistinct(o: Occurrence, sorted: seq<Occurrence>)
    requires LocalsDistinct(sorted) && forall x :: x in sorted ==> x.decision.local != o.decision.local
    ensures LocalsDistinct(Inserted(o, sorted))
  {
    hide Inserted;
    hide LocalsDistinct;
    InsertedUnfolds(o, sorted);
    if sorted == [] || sorted[|sorted| - 1].decision.local <= o.decision.local {
      OneIsDistinct(o);
      DistinctConcat(sorted, [o]);
    } else {
      var front, last := sorted[..|sorted| - 1], sorted[|sorted| - 1];
      FrontIsDistinct(sorted);
      InsertedIsDistinct(o, front);
      InsertedKeeps(o, front);
      OneIsDistinct(last);
      DistinctConcat(Inserted(o, front), [last]);
    }
  }

  lemma InsertedUnfolds(o: Occurrence, sorted: seq<Occurrence>)
    ensures Inserted(o, sorted) ==
      if sorted == [] || sorted[|sorted| - 1].decision.local <= o.decision.local then sorted + [o]
      else Inserted(o, sorted[..|sorted| - 1]) + [sorted[|sorted| - 1]]
  {
  }

  lemma OneIsDistinct(o: Occurrence)
    ensures LocalsDistinct([o])
  {
  }

  lemma FrontIsDistinct(occurrences: seq<Occurrence>)
    requires LocalsDistinct(occurrences) && occurrences != []
    ensures
      var front, last := occurrences[..|occurrences| - 1], occurrences[|occurrences| - 1];
      LocalsDistinct(front) && forall x :: x in front ==> x.decision.local != last.decision.local
  {
  }

  lemma {:induction false} ByLocalIsDistinct(occurrences: seq<Occurrence>)
    requires LocalsDistinct(occurrences)
    ensures LocalsDistinct(ByLocal(occurrences))
  {
    hide LocalsDistinct;
    if occurrences != [] {
      var front, last := occurrences[..|occurrences| - 1], occurrences[|occurrences| - 1];
      FrontIsDistinct(occurrences);
      ByLocalIsDistinct(front);
      ByLocalKeeps(front);
      InsertedIsDistinct(last, ByLocal(front));
    } else {
      assert LocalsDistinct(ByLocal(occurrences)) by { NoneIsDistinct(); }
    }
  }

  lemma NoneIsDistinct()
    ensures LocalsDistinct([])
  {
  }

  lemma EachIsJudged(decisions: seq<Decision>, continuity: nat, policy: MissedRunPolicy, o: Occurrence)
    requires Ordered(decisions) && o in Occurrences(decisions, continuity, policy)
    ensures IsJudged(decisions, continuity, policy, o)
  {
    var gaps, missed, current := Gaps(decisions), Missed(decisions, continuity), Current(decisions, continuity);
    KindsAre(decisions, continuity);
    OneEachIsDistinct(gaps, SkippedInvalidLocalTime);
    OneEachIsDistinct(current, Pending);
    MissedAreCounted(decisions, continuity);
    if o in Folded(missed, policy) {
      forall d | d in decisions && d.Due? && d.at < continuity
        ensures d.at <= o.decision.at && d.local <= o.decision.local
      {
        LastIsLatest(missed, d);
      }
    }
  }

  lemma LastIsLatest(decisions: seq<Decision>, d: Decision)
    requires Ordered(decisions) && d in decisions
    ensures
      var last := decisions[|decisions| - 1];
      d.at <= last.at && d.local <= last.local
  {
  }

  lemma AllAreThere(decisions: seq<Decision>, continuity: nat, policy: MissedRunPolicy)
    requires Ordered(decisions)
    ensures HasAll(decisions, continuity, Occurrences(decisions, continuity, policy))
  {
    var gaps, missed, current := Gaps(decisions), Missed(decisions, continuity), Current(decisions, continuity);
    var a, b, c := OneEach(gaps, SkippedInvalidLocalTime), Folded(missed, policy), OneEach(current, Pending);
    KindsAre(decisions, continuity);
    OneEachIsDistinct(gaps, SkippedInvalidLocalTime);
    OneEachIsDistinct(current, Pending);
    assert forall o :: o in a || o in b || o in c ==> o in a + b + c;
    forall d | d in decisions && d.Due? && d.at < continuity
      ensures exists o: Occurrence :: o in a + b + c && o.decision.Due? && o.decision.at < continuity
    {
      assert d in missed && b[0] in b && b[0].decision in missed;
    }
  }

  /** The loops and the sort of an evaluation judge its window rightly. */
  lemma OccurrencesAreJudged(decisions: seq<Decision>, continuity: nat, policy: MissedRunPolicy)
    requires Ordered(decisions)
    ensures Judged(decisions, continuity, policy, ByLocal(Occurrences(decisions, continuity, policy)))
  {
    hide Occurrences;
    hide ByLocal;
    hide IsJudged;
    hide HasAll;
    hide Increasing;
    hide SortedByLocal;
    hide LocalsDistinct;
    hide Ordered;
    var occurrences := Occurrences(decisions, continuity, policy);
    ByLocalKeeps(occurrences);
    OccurrencesAreDistinct(decisions, continuity, policy);
    ByLocalIsDistinct(occurrences);
    DistinctIncreases(ByLocal(occurrences));
    AllAreThere(decisions, continuity, policy);
    OrderDoesNotMatter(decisions, continuity, occurrences, ByLocal(occurrences));
    forall o | o in ByLocal(occurrences)
      ensures IsJudged(decisions, continuity, policy, o)
    {
      EachIsJudged(decisions, continuity, policy, o);
    }
  }
}
