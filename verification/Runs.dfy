/**
 Runs of a step system, and the two induction principles every protocol below
 uses: an inductive invariant holds in every state of a run, and a property that
 steps keep holds from the moment it is first true.
 */
module Runs {
  /** A non-empty sequence of states which starts in `init` and moves by `next`. */
  ghost predicate IsRun<S(!new)>(init: S -> bool, next: (S, S) -> bool, trace: seq<S>) {
    && |trace| > 0
    && init(trace[0])
    && forall i :: 0 < i < |trace| ==> next(trace[i - 1], trace[i])
  }

  lemma RunExtends<S(!new)>(init: S -> bool, next: (S, S) -> bool, trace: seq<S>, s: S)
    requires IsRun(init, next, trace) && next(trace[|trace| - 1], s)
    ensures IsRun(init, next, trace + [s])
  {
    var longer := trace + [s];
    forall i | 0 < i < |longer|
      ensures next(longer[i - 1], longer[i])
    {
      assert i < |trace| ==> longer[i - 1] == trace[i - 1] && longer[i] == trace[i];
    }
  }

  lemma {:induction false} InvariantHolds<S(!new)>(
    init: S -> bool, next: (S, S) -> bool, inv: S -> bool, trace: seq<S>, i: nat)
    requires IsRun(init, next, trace) && i < |trace|
    requires forall s :: init(s) ==> inv(s)
    requires forall s, s' :: inv(s) && next(s, s') ==> inv(s')
    ensures inv(trace[i])
  {
    if i > 0 {
      InvariantHolds(init, next, inv, trace, i - 1);
    }
  }

  lemma {:induction false} StablePropertyHolds<S(!new)>(
    init: S -> bool, next: (S, S) -> bool, inv: S -> bool, stable: S -> bool,
    trace: seq<S>, i: nat, j: nat)
    requires IsRun(init, next, trace) && i <= j < |trace|
    requires forall s :: init(s) ==> inv(s)
    requires forall s, s' :: inv(s) && next(s, s') ==> inv(s')
    requires forall s, s' :: inv(s) && stable(s) && next(s, s') ==> stable(s')
    requires stable(trace[i])
    ensures stable(trace[j])
    decreases j
  {
    if i < j {
      StablePropertyHolds(init, next, inv, stable, trace, i, j - 1);
      InvariantHolds(init, next, inv, trace, j - 1);
    }
  }
}
