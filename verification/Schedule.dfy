/**
 Schedule decisions and how one evaluation turns the decisions of its window into
 occurrences. The calendar itself is abstract: an ordered sequence of decisions, of
 which `Between` is the part in a half-open window.
 */
module Schedule {
  import opened Wrappers
  import opened Limits

  const WINDOW_MS: nat := 180 * 86_400_000
  const MAX_EVALUATION_OCCURRENCES: nat := 3
  const MAX_DECISIONS: nat := 370

  /** A slot of the calendar: due at an instant, or skipped because its local time does not exist. */
  datatype Decision = Due(local: nat, at: nat) | Nonexistent(local: nat, at: nat)

  datatype MissedRunPolicy = RunOnce | SkipMissed

  datatype OccurrenceState = Pending | SkippedMissed | SkippedInvalidLocalTime

  datatype Occurrence = Occurrence(decision: Decision, count: nat, state: OccurrenceState)

  predicate Ordered(calendar: seq<Decision>) {
    forall i, j :: 0 <= i < j < |calendar| ==> calendar[i].at <= calendar[j].at && calendar[i].local < calendar[j].local
  }

  /** The decisions after the first instant and up to the second. */
  function Between(calendar: seq<Decision>, after: nat, through: nat): seq<Decision> {
    if calendar == [] then []
    else
      var rest := Between(calendar[1..], after, through);
      if after < calendar[0].at <= through then [calendar[0]] + rest else rest
  }

  lemma {:induction false} BetweenIsEmptyAbove(calendar: seq<Decision>, after: nat, through: nat)
    requires forall i :: 0 <= i < |calendar| ==> calendar[i].at > through
    ensures Between(calendar, after, through) == []
  {
    if calendar != [] {
      BetweenIsEmptyAbove(calendar[1..], after, through);
    }
  }

  lemma {:induction false} BetweenMembers(calendar: seq<Decision>, after: nat, through: nat)
    ensures forall d :: d in Between(calendar, after, through) <==> d in calendar && after < d.at <= through
  {
    if calendar != [] {
      BetweenMembers(calendar[1..], after, through);
      assert calendar == [calendar[0]] + calendar[1..];
    }
  }

  lemma {:induction false} BetweenIsOrdered(calendar: seq<Decision>, after: nat, through: nat)
    requires Ordered(calendar)
    ensures Ordered(Between(calendar, after, through))
  {
    if calendar != [] {
      BetweenIsOrdered(calendar[1..], after, through);
      BetweenMembers(calendar[1..], after, through);
      assert forall d :: d in calendar[1..] ==> calendar[0].at <= d.at && calendar[0].local < d.local;
      var rest := Between(calendar[1..], after, through);
      assert forall i :: 0 <= i < |rest| ==> rest[i] in calendar[1..];
    }
  }

  /** Adjacent windows partition the decisions. */
  lemma {:induction false} WindowsPartition(calendar: seq<Decision>, a: nat, b: nat, c: nat)
    requires Ordered(calendar) && a <= b <= c
    ensures Between(calendar, a, c) == Between(calendar, a, b) + Between(calendar, b, c)
  {
    if calendar != [] {
      var rest := calendar[1..];
      WindowsPartition(rest, a, b, c);
      var first, second := Between(rest, a, b), Between(rest, b, c);
      if calendar[0].at > b {
        BetweenIsEmptyAbove(rest, a, b);
        assert [] + second == second && [] + ([calendar[0]] + second) == [calendar[0]] + second;
      } else {
        assert [calendar[0]] + (first + second) == ([calendar[0]] + first) + second;
      }
    }
  }

  /** The decision a cursor waits for. */
  function FirstAfter(calendar: seq<Decision>, instant: nat): Option<Decision> {
    if calendar == [] then None
    else if calendar[0].at > instant then Some(calendar[0])
    else FirstAfter(calendar[1..], instant)
  }

  lemma {:induction false} FirstAfterIsNext(calendar: seq<Decision>, instant: nat)
    requires Ordered(calendar)
    ensures
      match FirstAfter(calendar, instant)
      case None => forall d :: d in calendar ==> d.at <= instant
      case Some(next) =>
        && next in calendar && next.at > instant
        && (forall d :: d in calendar && d.at > instant ==> next.at <= d.at && next.local <= d.local)
  {
    if calendar != [] {
      FirstAfterIsNext(calendar[1..], instant);
      assert calendar == [calendar[0]] + calendar[1..];
    }
  }

  /** How far one evaluation reaches: strictly on, never past the observation, at most one window at a time. */
  function Through(evaluatedThrough: nat, observedAt: nat): (through: nat)
    requires evaluatedThrough < observedAt <= U64_MAX
    ensures evaluatedThrough < through <= observedAt
    ensures evaluatedThrough + WINDOW_MS <= U64_MAX ==> through - evaluatedThrough <= WINDOW_MS
    ensures through < observedAt ==> through - evaluatedThrough == WINDOW_MS
  {
    if evaluatedThrough + WINDOW_MS > U64_MAX || evaluatedThrough + WINDOW_MS > observedAt then observedAt
    else evaluatedThrough + WINDOW_MS
  }

  // Occurrences

  predicate IsMissed(decision: Decision, continuity: nat) {
    decision.Due? && decision.at < continuity
  }

  predicate IsCurrent(decision: Decision, continuity: nat) {
    decision.Due? && decision.at >= continuity
  }

  function Select(decisions: seq<Decision>, keep: Decision -> bool): seq<Decision> {
    if decisions == [] then []
    else
      var front := Select(decisions[..|decisions| - 1], keep);
      var last := decisions[|decisions| - 1];
      if keep(last) then front + [last] else front
  }

  function Gaps(decisions: seq<Decision>): seq<Decision> {
    Select(decisions, (d: Decision) => d.Nonexistent?)
  }

  function Missed(decisions: seq<Decision>, continuity: nat): seq<Decision> {
    Select(decisions, (d: Decision) => IsMissed(d, continuity))
  }

  function Current(decisions: seq<Decision>, continuity: nat): seq<Decision> {
    Select(decisions, (d: Decision) => IsCurrent(d, continuity))
  }

  function OneEach(decisions: seq<Decision>, state: OccurrenceState): seq<Occurrence> {
    seq(|decisions|, i requires 0 <= i < |decisions| => Occurrence(decisions[i], 1, state))
  }

  /** All missed decisions become one occurrence at the latest of them. */
  function Folded(missed: seq<Decision>, policy: MissedRunPolicy): seq<Occurrence> {
    if missed == [] then []
    else [Occurrence(missed[|missed| - 1], |missed|, if policy.SkipMissed? then SkippedMissed else Pending)]
  }

  /** What an evaluation stands for: each gap, the missed runs as one, each current run. */
  function Occurrences(decisions: seq<Decision>, continuity: nat, policy: MissedRunPolicy): seq<Occurrence> {
    OneEach(Gaps(decisions), SkippedInvalidLocalTime)
    + Folded(Missed(decisions, continuity), policy)
    + OneEach(Current(decisions, continuity), Pending)
  }

  function Total(occurrences: seq<Occurrence>): nat {
    if occurrences == [] then 0 else Total(occurrences[..|occurrences| - 1]) + occurrences[|occurrences| - 1].count
  }

  lemma {:induction false} TotalConcat(a: seq<Occurrence>, b: seq<Occurrence>)
    ensures Total(a + b) == Total(a) + Total(b)
    decreases |b|
  {
    if b == [] {
      assert a + b == a;
    } else {
      TotalConcat(a, b[..|b| - 1]);
      assert (a + b)[..|a + b| - 1] == a + b[..|b| - 1];
    }
  }

  lemma {:induction false} TotalOneEach(decisions: seq<Decision>, state: OccurrenceState)
    ensures Total(OneEach(decisions, state)) == |decisions|
  {
    if decisions != [] {
      var front := decisions[..|decisions| - 1];
      TotalOneEach(front, state);
      assert OneEach(decisions, state)[..|decisions| - 1] == OneEach(front, state);
    }
  }

  lemma {:induction false} KindsPartition(decisions: seq<Decision>, continuity: nat)
    ensures |Gaps(decisions)| + |Missed(decisions, continuity)| + |Current(decisions, continuity)| == |decisions|
  {
    if decisions != [] {
      KindsPartition(decisions[..|decisions| - 1], continuity);
    }
  }

  /** No decision is lost or counted twice: gaps, the folded count and the current runs add up to the window. */
  lemma OccurrencesCountEveryDecision(decisions: seq<Decision>, continuity: nat, policy: MissedRunPolicy)
    ensures Total(Occurrences(decisions, continuity, policy)) == |decisions|
  {
    var gaps := OneEach(Gaps(decisions), SkippedInvalidLocalTime);
    var missed := Missed(decisions, continuity);
    var folded := Folded(missed, policy);
    var current := OneEach(Current(decisions, continuity), Pending);
    TotalConcat(gaps + folded, current);
    TotalConcat(gaps, folded);
    TotalOneEach(Gaps(decisions), SkippedInvalidLocalTime);
    TotalOneEach(Current(decisions, continuity), Pending);
    KindsPartition(decisions, continuity);
    if missed != [] {
      assert folded[..0] == [];
    }
  }

  lemma {:induction false} SelectKeeps(decisions: seq<Decision>, keep: Decision -> bool)
    ensures forall d :: d in Select(decisions, keep) <==> d in decisions && keep(d)
  {
    if decisions != [] {
      SelectKeeps(decisions[..|decisions| - 1], keep);
      assert decisions == decisions[..|decisions| - 1] + [decisions[|decisions| - 1]];
    }
  }

  /**
   Every decision of the window is accounted for by its own occurrence or, if it was
   missed, by the folded one, which carries the latest missed decision.
   */
  lemma EveryDecisionIsRepresented(decisions: seq<Decision>, continuity: nat, policy: MissedRunPolicy, d: Decision)
    requires Ordered(decisions) && d in decisions
    ensures
      var occurrences := Occurrences(decisions, continuity, policy);
      var missed := Missed(decisions, continuity);
      && (d.Nonexistent? ==> Occurrence(d, 1, SkippedInvalidLocalTime) in occurrences)
      && (IsCurrent(d, continuity) ==> Occurrence(d, 1, Pending) in occurrences)
      && (IsMissed(d, continuity) ==>
            && missed != [] && Folded(missed, policy)[0] in occurrences
            && d.at <= Folded(missed, policy)[0].decision.at)
  {
    var gaps, current := Gaps(decisions), Current(decisions, continuity);
    var missed := Missed(decisions, continuity);
    SelectKeeps(decisions, (d: Decision) => d.Nonexistent?);
    SelectKeeps(decisions, (d: Decision) => IsMissed(d, continuity));
    SelectKeeps(decisions, (d: Decision) => IsCurrent(d, continuity));
    var a, b, c := OneEach(gaps, SkippedInvalidLocalTime), Folded(missed, policy), OneEach(current, Pending);
    assert forall o :: o in a || o in b || o in c ==> o in a + b + c;
    if d.Nonexistent? {
      var i :| 0 <= i < |gaps| && gaps[i] == d;
      assert a[i] in a;
    } else if IsCurrent(d, continuity) {
      var i :| 0 <= i < |current| && current[i] == d;
      assert c[i] in c;
    } else {
      assert b[0] in b;
      LastSelectedIsLatest(decisions, (d: Decision) => IsMissed(d, continuity), d);
    }
  }

  /** Occurrences stand for decisions of the window only. */
  lemma OccurrencesAreDecisions(decisions: seq<Decision>, continuity: nat, policy: MissedRunPolicy)
    ensures forall o :: o in Occurrences(decisions, continuity, policy) ==> o.decision in decisions && o.count > 0
  {
    SelectKeeps(decisions, (d: Decision) => d.Nonexistent?);
    SelectKeeps(decisions, (d: Decision) => IsMissed(d, continuity));
    SelectKeeps(decisions, (d: Decision) => IsCurrent(d, continuity));
  }

  lemma {:induction false} LastSelectedIsLatest(decisions: seq<Decision>, keep: Decision -> bool, d: Decision)
    requires Ordered(decisions) && d in Select(decisions, keep)
    ensures d.at <= Select(decisions, keep)[|Select(decisions, keep)| - 1].at
  {
    var front := decisions[..|decisions| - 1];
    SelectKeeps(decisions, keep);
    if !keep(decisions[|decisions| - 1]) {
      LastSelectedIsLatest(front, keep, d);
    }
  }

  /** The loop that sorts decisions into kinds and builds the occurrences. */
  method MaterializeDecisions(decisions: seq<Decision>, continuity: nat, policy: MissedRunPolicy)
    returns (result: Result<seq<Occurrence>, ()>)
    ensures result.Ok? <==> |Missed(decisions, continuity)| <= U32_MAX
    ensures result.Ok? ==> result.value == Occurrences(decisions, continuity, policy)
  {
    var gaps, missed, current := [], [], [];
    var i := 0;
    while i < |decisions|
      invariant 0 <= i <= |decisions|
      invariant gaps == Gaps(decisions[..i])
      invariant missed == Missed(decisions[..i], continuity)
      invariant current == Current(decisions[..i], continuity)
    {
      assert decisions[..i + 1][..i] == decisions[..i];
      match decisions[i] {
        case Nonexistent(_, _) =>
          gaps := gaps + [decisions[i]];
        case Due(_, at) =>
          if at < continuity {
            missed := missed + [decisions[i]];
          } else {
            current := current + [decisions[i]];
          }
      }
      i := i + 1;
    }
    assert decisions[..i] == decisions;
    var occurrences := [];
    var k := 0;
    while k < |gaps|
      invariant 0 <= k <= |gaps|
      invariant occurrences == OneEach(gaps[..k], SkippedInvalidLocalTime)
    {
      occurrences := occurrences + [Occurrence(gaps[k], 1, SkippedInvalidLocalTime)];
      k := k + 1;
    }
    assert gaps[..k] == gaps;
    if missed != [] {
      if |missed| > U32_MAX {
        return Err(());
      }
      var state := if policy.SkipMissed? then SkippedMissed else Pending;
      occurrences := occurrences + [Occurrence(missed[|missed| - 1], |missed|, state)];
    }
    ghost var front := occurrences;
    k := 0;
    while k < |current|
      invariant 0 <= k <= |current|
      invariant occurrences == front + OneEach(current[..k], Pending)
    {
      occurrences := occurrences + [Occurrence(current[k], 1, Pending)];
      k := k + 1;
    }
    assert current[..k] == current;
    return Ok(occurrences);
  }

  // Sorting by local slot

  predicate SortedByLocal(occurrences: seq<Occurrence>) {
    forall i, j :: 0 <= i < j < |occurrences| ==> occurrences[i].decision.local <= occurrences[j].decision.local
  }

  function Inserted(o: Occurrence, sorted: seq<Occurrence>): seq<Occurrence> {
    if sorted == [] || sorted[|sorted| - 1].decision.local <= o.decision.local then sorted + [o]
    else Inserted(o, sorted[..|sorted| - 1]) + [sorted[|sorted| - 1]]
  }

  function ByLocal(occurrences: seq<Occurrence>): seq<Occurrence> {
    if occurrences == [] then []
    else Inserted(occurrences[|occurrences| - 1], ByLocal(occurrences[..|occurrences| - 1]))
  }

  lemma {:induction false} InsertedKeeps(o: Occurrence, sorted: seq<Occurrence>)
    ensures |Inserted(o, sorted)| == |sorted| + 1
    ensures forall x :: x in Inserted(o, sorted) <==> x in sorted || x == o
    ensures Total(Inserted(o, sorted)) == Total(sorted) + o.count
  {
    if sorted == [] || sorted[|sorted| - 1].decision.local <= o.decision.local {
      assert (sorted + [o])[..|sorted|] == sorted;
    } else {
      var front, last := sorted[..|sorted| - 1], sorted[|sorted| - 1];
      InsertedKeeps(o, front);
      var inserted := Inserted(o, front);
      assert (inserted + [last])[..|inserted|] == inserted;
      assert sorted == front + [last];
    }
  }

  lemma SortedSnoc(sorted: seq<Occurrence>, last: Occurrence)
    requires SortedByLocal(sorted) && forall o :: o in sorted ==> o.decision.local <= last.decision.local
    ensures SortedByLocal(sorted + [last])
  {
    assert forall i :: 0 <= i < |sorted| ==> sorted[i] in sorted;
  }

  lemma SortedFront(sorted: seq<Occurrence>)
    requires SortedByLocal(sorted) && sorted != []
    ensures SortedByLocal(sorted[..|sorted| - 1])
    ensures forall o :: o in sorted ==> o.decision.local <= sorted[|sorted| - 1].decision.local
  {
  }

  lemma {:induction false} InsertedIsSorted(o: Occurrence, sorted: seq<Occurrence>)
    requires SortedByLocal(sorted)
    ensures SortedByLocal(Inserted(o, sorted))
  {
    hide SortedByLocal;
    if sorted == [] {
      SortedSnoc(sorted, o);
    } else {
      var front, last := sorted[..|sorted| - 1], sorted[|sorted| - 1];
      SortedFront(sorted);
      if last.decision.local <= o.decision.local {
        SortedSnoc(sorted, o);
      } else {
        InsertedIsSorted(o, front);
        InsertedKeeps(o, front);
        SortedSnoc(Inserted(o, front), last);
      }
    }
  }

  lemma EmptyIsSorted()
    ensures SortedByLocal([])
  {
  }

  /** Sorting only reorders. */
  lemma {:induction false} ByLocalKeeps(occurrences: seq<Occurrence>)
    ensures SortedByLocal(ByLocal(occurrences)) && |ByLocal(occurrences)| == |occurrences|
    ensures forall x :: x in ByLocal(occurrences) <==> x in occurrences
    ensures Total(ByLocal(occurrences)) == Total(occurrences)
  {
    hide Inserted;
    hide SortedByLocal;
    if occurrences == [] {
      EmptyIsSorted();
    } else {
      var front, last := occurrences[..|occurrences| - 1], occurrences[|occurrences| - 1];
      ByLocalKeeps(front);
      InsertedKeeps(last, ByLocal(front));
      InsertedIsSorted(last, ByLocal(front));
      assert occurrences == front + [last];
    }
  }
}
