/**
 The limiter for external URL launches: a sliding window over a pruned list of launch
 times, and one active launch at a time. `grants` is the full history the pruned list
 stands for; `released` holds the private flag of each release closure.
 */
module LaunchLimiter {
  import opened Wrappers

  const MAX_SAFE_INTEGER: int := 0x1F_FFFF_FFFF_FFFF

  predicate SafeTime(now: int) {
    0 <= now <= MAX_SAFE_INTEGER
  }

  predicate InWindow(launchedAt: int, now: int, window: int) {
    launchedAt <= now && now - launchedAt < window
  }

  function Recent(times: seq<int>, now: int, window: int): seq<int> {
    if times == [] then []
    else if InWindow(times[0], now, window) then [times[0]] + Recent(times[1..], now, window)
    else Recent(times[1..], now, window)
  }

  predicate Sorted(times: seq<int>) {
    forall i, j :: 0 <= i <= j < |times| ==> times[i] <= times[j]
  }

  /** Any `maximum + 1` consecutive launches span at least a window. */
  predicate Spaced(times: seq<int>, maximum: nat, window: int) {
    forall i :: maximum <= i < |times| ==> times[i] - times[i - maximum] >= window
  }

  ghost function LaunchedWithin(times: seq<int>, start: int, window: int): set<nat> {
    set i: nat | i < |times| && start <= times[i] < start + window
  }

  lemma {:induction false} RecentConcat(a: seq<int>, b: seq<int>, now: int, window: int)
    ensures Recent(a + b, now, window) == Recent(a, now, window) + Recent(b, now, window)
  {
    if a == [] {
      assert a + b == b;
    } else {
      RecentConcat(a[1..], b, now, window);
      assert (a + b)[1..] == a[1..] + b;
    }
  }

  lemma {:induction false} RecentOfOld(times: seq<int>, now: int, window: int)
    requires forall i :: 0 <= i < |times| ==> !InWindow(times[i], now, window)
    ensures Recent(times, now, window) == []
  {
    if times != [] {
      RecentOfOld(times[1..], now, window);
    }
  }

  /** On a sorted list that reaches no later than now, pruning drops a prefix: exactly the launches that left the window. */
  lemma {:induction false} RecentIsSuffix(times: seq<int>, now: int, window: int)
    requires Sorted(times) && (forall i :: 0 <= i < |times| ==> times[i] <= now)
    ensures
      var kept := Recent(times, now, window);
      && |kept| <= |times| && kept == times[|times| - |kept|..]
      && (forall i :: 0 <= i < |times| - |kept| ==> now - times[i] >= window)
  {
    if times == [] {
    } else if InWindow(times[0], now, window) {
      RecentIsSuffix(times[1..], now, window);
      var rest := Recent(times[1..], now, window);
      assert |times| > 1 ==> now - times[1..][0] < window;
    } else {
      RecentIsSuffix(times[1..], now, window);
      forall i | 0 < i < |times| - |Recent(times, now, window)|
        ensures now - times[i] >= window
      {
        assert now - times[1..][i - 1] >= window;
      }
    }
  }

  ghost function Range(low: nat, count: nat): (range: set<nat>)
    ensures |range| == count && forall i :: i in range <==> low <= i < low + count
  {
    if count == 0 then {} else Range(low, count - 1) + {low + count - 1}
  }

  lemma SubsetSize<T>(a: set<T>, b: set<T>)
    requires a <= b
    ensures |a| <= |b|
  {
    assert b == a + (b - a);
  }

  /** The promise of the limiter: every half-open interval of one window holds at most `maximum` launches. */
  lemma WindowHoldsAtMost(times: seq<int>, maximum: nat, window: int, start: int)
    requires Sorted(times) && Spaced(times, maximum, window) && maximum > 0
    ensures |LaunchedWithin(times, start, window)| <= maximum
  {
    var inside := LaunchedWithin(times, start, window);
    if inside != {} {
      var first := Least(inside);
      assert first + maximum < |times| ==> times[first + maximum] - times[first] >= window;
      assert inside <= Range(first, maximum);
      SubsetSize(inside, Range(first, maximum));
    }
  }

  ghost function Least(numbers: set<nat>): (least: nat)
    requires numbers != {}
    ensures least in numbers && forall n :: n in numbers ==> least <= n
  {
    var n :| n in numbers;
    if numbers == {n} then n
    else
      assert numbers == {n} + (numbers - {n});
      var rest := Least(numbers - {n});
      if n < rest then n else rest
  }

  lemma PrunedListStandsForHistory(grants: seq<int>, launches: seq<int>, now: int, window: int)
    requires |launches| <= |grants| && launches == grants[|grants| - |launches|..]
    requires forall i :: 0 <= i < |grants| - |launches| ==> now - grants[i] >= window
    ensures Recent(grants, now, window) == Recent(launches, now, window)
  {
  }

  /** The pruned list is the end of the history, and what it dropped has left the window for good. */
  predicate WindowInv(grants: seq<int>, launches: seq<int>, clock: int, maximum: nat, window: int) {
    && Sorted(grants) && (forall i :: 0 <= i < |grants| ==> 0 <= grants[i] <= clock)
    && |launches| <= |grants| && launches == grants[|grants| - |launches|..]
    && (forall i :: 0 <= i < |grants| - |launches| ==> clock - grants[i] >= window)
    && Spaced(grants, maximum, window)
  }

  lemma PruningKeepsInv(grants: seq<int>, launches: seq<int>, clock: int, now: int, maximum: nat, window: int)
    requires WindowInv(grants, launches, clock, maximum, window) && clock <= now
    ensures WindowInv(grants, Recent(launches, now, window), now, maximum, window)
    ensures Recent(grants, now, window) == Recent(launches, now, window)
  {
    var cut := |grants| - |launches|;
    PrunedListStandsForHistory(grants, launches, now, window);
    RecentIsSuffix(launches, now, window);
    var kept := Recent(launches, now, window);
    forall i | 0 <= i < |grants| - |kept|
      ensures now - grants[i] >= window
    {
      if i >= cut {
        assert now - launches[i - cut] >= window;
      }
    }
  }

  lemma GrantKeepsInv(grants: seq<int>, launches: seq<int>, now: int, maximum: nat, window: int)
    requires WindowInv(grants, launches, now, maximum, window) && |launches| < maximum && 0 <= now
    ensures WindowInv(grants + [now], launches + [now], now, maximum, window)
  {
  }

  class ExternalUrlLaunchLimiter {
    const maximumLaunches: nat
    const windowMs: int
    var active: bool
    var launches: seq<int>
    var released: seq<bool>
    ghost var grants: seq<int>
    ghost var clock: int
    ghost var monotone: bool // no acquire time went backwards so far

    ghost predicate Valid()
      reads this
    {
      && maximumLaunches >= 1 && windowMs >= 1 && clock >= 0
      && |released| == |grants|
      && (forall k :: 0 <= k < |released| && !released[k] ==> active && k == |released| - 1)
      && (active ==> released != [] && !released[|released| - 1])
      && (monotone ==> WindowInv(grants, launches, clock, maximumLaunches, windowMs))
    }

    constructor (maximumLaunches: nat, windowMs: int)
      requires maximumLaunches >= 1 && windowMs >= 1
      ensures Valid() && monotone && grants == [] && clock == 0
      ensures this.maximumLaunches == maximumLaunches && this.windowMs == windowMs
    {
      this.maximumLaunches := maximumLaunches;
      this.windowMs := windowMs;
      active, launches, released := false, [], [];
      grants, clock, monotone := [], 0, true;
    }

    /** The answer is the one the full history would give, although only the pruned list is kept. */
    method TryAcquire(now: int) returns (token: Option<nat>)
      requires Valid()
      modifies this
      ensures Valid()
      ensures now < 0 || now >= 0x20_0000_0000_0000 ==> token.None? && unchanged(this)
      ensures 0 <= now < 0x20_0000_0000_0000 ==> clock == now && monotone == (old(monotone) && old(clock) <= now)
      ensures monotone && 0 <= now < 0x20_0000_0000_0000 ==>
        (token.Some? <==> !old(active) && |Recent(old(grants), now, windowMs)| < maximumLaunches)
      ensures token.Some? ==>
        && !old(active) && active && token.value == |old(grants)|
        && grants == old(grants) + [now] && released == old(released) + [false]
      ensures token.None? ==> grants == old(grants) && released == old(released) && active == old(active)
    {
      hide WindowInv;
      if !SafeTime(now) {
        return None;
      }
      if monotone && clock <= now {
        PruningKeepsInv(grants, launches, clock, now, maximumLaunches, windowMs);
      }
      monotone := monotone && clock <= now;
      clock := now;
      launches := Recent(launches, now, windowMs);
      if active || |launches| >= maximumLaunches {
        return None;
      }
      if monotone {
        GrantKeepsInv(grants, launches, now, maximumLaunches, windowMs);
      }
      active := true;
      launches := launches + [now];
      released := released + [false];
      grants := grants + [now];
      return Some(|released| - 1);
    }

    /** The release closure: only its first call counts, however late or often it is called. */
    method Release(token: nat)
      requires Valid() && token < |released|
      modifies this`active, this`released
      ensures Valid()
      ensures old(released)[token] ==> active == old(active) && released == old(released)
      ensures !old(released)[token] ==> !active && released == old(released)[token := true]
    {
      if released[token] {
        return;
      }
      released := released[token := true];
      active := false;
    }

    lemma OneActiveAtATime(j: nat, k: nat)
      requires Valid() && j < |released| && k < |released| && !released[j] && !released[k]
      ensures j == k
    {
    }

    lemma EveryWindowIsBounded(start: int)
      requires Valid() && monotone
      ensures |LaunchedWithin(grants, start, windowMs)| <= maximumLaunches
    {
      WindowHoldsAtMost(grants, maximumLaunches, windowMs, start);
    }
  }
}
