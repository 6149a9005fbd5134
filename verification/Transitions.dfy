/** Histories of a durable record: any finite sequence of its own fallible transitions. */
module Transitions {
  import opened Wrappers

  /** The record after all transitions, if each of them was accepted in its turn. */
  function ApplyAll<R, T>(apply: (R, T) -> Option<R>, record: R, transitions: seq<T>): Option<R> {
    if transitions == [] then Some(record)
    else
      var first := apply(record, transitions[0]);
      if first.None? then None else ApplyAll(apply, first.value, transitions[1..])
  }

  /** What every accepted transition keeps, every history keeps. */
  lemma {:induction false} HistoriesKeep<R(!new), T(!new)>(
    apply: (R, T) -> Option<R>, keeps: R -> bool, record: R, transitions: seq<T>)
    requires forall r, t :: keeps(r) && apply(r, t).Some? ==> keeps(apply(r, t).value)
    requires keeps(record)
    ensures
      var last := ApplyAll(apply, record, transitions);
      last.Some? ==> keeps(last.value)
    decreases |transitions|
  {
    if transitions != [] && apply(record, transitions[0]).Some? {
      HistoriesKeep(apply, keeps, apply(record, transitions[0]).value, transitions[1..]);
    }
  }

  lemma OneTransition<R, T>(apply: (R, T) -> Option<R>, record: R, t: T)
    ensures ApplyAll(apply, record, [t]) == apply(record, t)
  {
    var first := apply(record, t);
    assert [t][1..] == [];
    assert first.Some? ==> ApplyAll(apply, first.value, [t][1..]) == first;
  }

  lemma TwoTransitions<R, T>(apply: (R, T) -> Option<R>, record: R, t: T, u: T)
    ensures ApplyAll(apply, record, [t, u]) ==
      if apply(record, t).None? then None else apply(apply(record, t).value, u)
  {
    assert [t, u][1..] == [u];
    if apply(record, t).Some? {
      OneTransition(apply, apply(record, t).value, u);
    }
  }
}
