/**
 The pool of guest channels, with one lock for the pool and one for each entry. A step is
 one critical section of one thread; between them any other thread may run. Entries are
 named by their position in `table`, which stands for the heap.
 */
module ChannelPool {
  import opened Wrappers
  import opened Runs

  datatype Key = Key(vmId: string, runtimeId: string, purpose: string)

  datatype Entry = Entry(retired: bool, channel: Option<nat>)

  datatype Pool = Pool(entries: map<Key, nat>, closed: bool, table: seq<Entry>, nextChannel: nat)

  const EMPTY: Pool := Pool(map[], false, [], 0)

  // The critical sections

  /** `entry`: the entry of a key, created on demand, unless the pool is closed. */
  function Enter(p: Pool, key: Key): Option<(Pool, nat)> {
    if p.closed then None
    else if key in p.entries then Some((p, p.entries[key]))
    else Some((p.(entries := p.entries[key := |p.table|], table := p.table + [Entry(false, None)]), |p.table|))
  }

  datatype ChannelAnswer = Refused | DialFailed | Provided(channel: nat)

  /**
   `channel`: the entry's channel if it is alive, else a new one. Whether the old one is
   poisoned and whether dialing works is the environment's choice.
   */
  function Provide(p: Pool, e: nat, poisoned: bool, dials: bool): (Pool, ChannelAnswer)
    requires e < |p.table|
  {
    var entry := p.table[e];
    if entry.retired then (p, Refused)
    else if entry.channel.Some? && !poisoned then (p, Provided(entry.channel.value))
    else if !dials then (p, DialFailed)
    else
      (p.(table := p.table[e := entry.(channel := Some(p.nextChannel))], nextChannel := p.nextChannel + 1),
       Provided(p.nextChannel))
  }

  /** `discard`: forget a channel that failed, if it is still the entry's. */
  function Discard(p: Pool, e: nat, channel: nat): Pool
    requires e < |p.table|
  {
    if p.table[e].channel == Some(channel) then p.(table := p.table[e := p.table[e].(channel := None)]) else p
  }

  /** `retire`: the entry gives up its channel for good. */
  function Retire(p: Pool, e: nat): Pool
    requires e < |p.table|
  {
    p.(table := p.table[e := Entry(true, None)])
  }

  /** The first half of each closing operation takes the selected keys out of the map. */
  function Detach(p: Pool, selected: set<Key>): Pool {
    p.(entries := p.entries - selected)
  }

  function OfVm(p: Pool, vmId: string): set<Key> {
    set key | key in p.entries && key.vmId == vmId
  }

  // Threads

  datatype Thread =
    | Idle
    | HasEntry(entry: nat)
    | HasChannel(entry: nat, channel: nat)
    | Retiring(todo: set<nat>)

  /** A closer with nothing left to retire is done. */
  function Closing(todo: set<nat>): Thread {
    if todo == {} then Idle else Retiring(todo)
  }

  function Todo(t: Thread): set<nat> {
    if t.Retiring? then t.todo else {}
  }

  datatype World = World(pool: Pool, threads: map<nat, Thread>, handedOut: nat)

  datatype Action =
    | TakeEntry(key: Key)
    | TakeChannel(poisoned: bool, dials: bool)
    | Finish
    | FailRoundTrip
    | CloseVm(vmId: string)
    | CloseKey(key: Key)
    | ClosePool
    | RetireOne(entry: nat)

  function Detached(p: Pool, selected: set<Key>): set<nat>
    requires selected <= p.entries.Keys
  {
    set key | key in selected :: p.entries[key]
  }

  /** What an action does to the pool and to the acting thread. */
  function Act(p: Pool, t: Thread, action: Action): Option<(Pool, Thread)> {
    match action
    case TakeEntry(key) =>
      if !t.Idle? then None
      else
        var entered := Enter(p, key);
        Some(if entered.None? then (p, Idle) else (entered.value.0, HasEntry(entered.value.1)))
    case TakeChannel(poisoned, dials) =>
      if !t.HasEntry? || t.entry >= |p.table| then None
      else
        var (p', answer) := Provide(p, t.entry, poisoned, dials);
        Some((p', if answer.Provided? then HasChannel(t.entry, answer.channel) else Idle))
    case Finish => if t.HasChannel? then Some((p, Idle)) else None
    case FailRoundTrip =>
      if t.HasChannel? && t.entry < |p.table| then Some((Discard(p, t.entry, t.channel), Idle)) else None
    case CloseVm(vmId) =>
      if !t.Idle? then None
      else Some((Detach(p, OfVm(p, vmId)), Closing(Detached(p, OfVm(p, vmId)))))
    case CloseKey(key) =>
      if !t.Idle? then None
      else if key !in p.entries then Some((p, Idle))
      else Some((Detach(p, {key}), Closing(Detached(p, {key}))))
    case ClosePool =>
      if !t.Idle? then None
      else if p.closed then Some((p, Idle))
      else Some((Detach(p, p.entries.Keys).(closed := true), Closing(Detached(p, p.entries.Keys))))
    case RetireOne(e) =>
      if !t.Retiring? || e !in t.todo || e >= |p.table| then None
      else Some((Retire(p, e), Closing(t.todo - {e})))
  }

  ghost predicate NextBy(w: World, w': World, id: nat, action: Action) {
    && id in w.threads
    && var outcome := Act(w.pool, w.threads[id], action);
       && outcome.Some?
       && w' == World(outcome.value.0, w.threads[id := outcome.value.1],
                      if outcome.value.1.HasChannel? then w.handedOut + 1 else w.handedOut)
  }

  ghost predicate Next(w: World, w': World) {
    exists id, action :: NextBy(w, w', id, action)
  }

  ghost predicate Init(w: World) {
    w.pool == EMPTY && w.handedOut == 0 && (forall id :: id in w.threads ==> w.threads[id].Idle?)
  }

  // The invariant

  predicate PoolInv(p: Pool) {
    && (p.closed ==> p.entries == map[])
    && (forall key :: key in p.entries ==> p.entries[key] < |p.table| && !p.table[p.entries[key]].retired)
    && (forall k, l :: k in p.entries && l in p.entries && p.entries[k] == p.entries[l] ==> k == l)
    && (forall e :: 0 <= e < |p.table| && p.table[e].retired ==> p.table[e].channel.None?)
  }

  /** Every channel has its own number, and belongs to one entry. */
  predicate ChannelsInv(p: Pool) {
    && (forall e :: 0 <= e < |p.table| && p.table[e].channel.Some? ==> p.table[e].channel.value < p.nextChannel)
    && (forall e, f :: 0 <= e < f < |p.table| && p.table[e].channel.Some? ==> p.table[e].channel != p.table[f].channel)
  }

  predicate HolderInv(p: Pool, t: Thread) {
    t.HasChannel? ==>
      && t.channel < p.nextChannel
      && (forall f :: 0 <= f < |p.table| && p.table[f].channel == Some(t.channel) ==> f == t.entry)
  }

  predicate InMap(p: Pool, e: nat) {
    exists key :: key in p.entries && p.entries[key] == e
  }

  predicate ThreadInv(p: Pool, t: Thread) {
    match t
    case Idle => true
    case HasEntry(e) => e < |p.table|
    case HasChannel(e, _) => e < |p.table|
    case Retiring(todo) => forall e :: e in todo ==> e < |p.table| && !InMap(p, e)
  }

  predicate BeingRetired(threads: map<nat, Thread>, e: nat) {
    exists id :: id in threads && e in Todo(threads[id])
  }

  /** Every entry is reachable through the map, on some closer's list, or retired. */
  ghost predicate Accounted(w: World) {
    forall e: nat :: e < |w.pool.table| ==>
      InMap(w.pool, e) || BeingRetired(w.threads, e) || w.pool.table[e].retired
  }

  ghost predicate Inv(w: World) {
    && PoolInv(w.pool)
    && (forall id :: id in w.threads ==> ThreadInv(w.pool, w.threads[id]))
    && Accounted(w)
    && ChannelsInv(w.pool) && (forall id :: id in w.threads ==> HolderInv(w.pool, w.threads[id]))
  }

  /** What any action guarantees to the other threads. */
  ghost predicate Grows(p: Pool, p': Pool) {
    && |p.table| <= |p'.table|
    && (forall e :: 0 <= e < |p.table| && p.table[e].retired ==> p'.table[e] == p.table[e])
    && (forall e: nat :: e < |p.table| && InMap(p', e) ==> InMap(p, e))
    && (p.closed ==> p'.closed && |p'.table| == |p.table|)
  }

  /** An entry changes hands without ever being lost. */
  ghost predicate HandsOver(p: Pool, t: Thread, p': Pool, t': Thread) {
    && (forall e: nat :: e < |p.table| && InMap(p, e) ==> InMap(p', e) || e in Todo(t'))
    && (forall e: nat :: e in Todo(t) ==> e in Todo(t') || (e < |p'.table| && p'.table[e].retired))
    && (forall e: nat :: |p.table| <= e < |p'.table| ==> InMap(p', e))
  }

  predicate ClosingAction(action: Action) {
    action.CloseVm? || action.CloseKey? || action.ClosePool?
  }

  lemma DetachFacts(p: Pool, selected: set<Key>)
    requires PoolInv(p) && selected <= p.entries.Keys
    ensures
      var p' := Detach(p, selected);
      var t' := Closing(Detached(p, selected));
      && PoolInv(p') && ThreadInv(p', t') && Grows(p, p') && HandsOver(p, Idle, p', t')
      && (selected == p.entries.Keys ==> p'.entries == map[])
  {
    var p' := Detach(p, selected);
    var t' := Closing(Detached(p, selected));
    forall e: nat | InMap(p', e)
      ensures InMap(p, e) && e !in Detached(p, selected)
    {
      var key :| key in p'.entries && p'.entries[key] == e;
      assert key in p.entries && p.entries[key] == e;
    }
    forall e: nat | InMap(p, e)
      ensures InMap(p', e) || e in Detached(p, selected)
    {
      var key :| key in p.entries && p.entries[key] == e;
      assert key in selected || key in p'.entries;
    }
  }

  lemma CloseFacts(p: Pool, t: Thread, action: Action)
    requires PoolInv(p) && ThreadInv(p, t) && ClosingAction(action) && Act(p, t, action).Some?
    ensures
      var (p', t') := Act(p, t, action).value;
      PoolInv(p') && ThreadInv(p', t') && Grows(p, p') && HandsOver(p, t, p', t')
  {
    hide ThreadInv;
    hide Closing;
    hide Grows;
    hide HandsOver;
    match action
    case CloseVm(vmId) => DetachFacts(p, OfVm(p, vmId));
    case CloseKey(key) =>
      if key in p.entries {
        DetachFacts(p, {key});
      } else {
        NothingHappens(p);
      }
    case ClosePool =>
      if p.closed {
        NothingHappens(p);
      } else {
        DetachFacts(p, p.entries.Keys);
        ClosedFlagOnly(p, Detach(p, p.entries.Keys), Closing(Detached(p, p.entries.Keys)));
      }
  }

  lemma NothingHappens(p: Pool)
    ensures ThreadInv(p, Idle) && Grows(p, p) && HandsOver(p, Idle, p, Idle)
  {
  }

  lemma ClosedFlagOnly(p: Pool, q: Pool, t: Thread)
    requires !p.closed && Grows(p, q) && HandsOver(p, Idle, q, t) && ThreadInv(q, t)
    ensures
      var q' := q.(closed := true);
      Grows(p, q') && HandsOver(p, Idle, q', t) && ThreadInv(q', t)
  {
    var q' := q.(closed := true);
    assert forall e: nat :: InMap(q', e) <==> InMap(q, e);
  }

  lemma EnterFacts(p: Pool, key: Key)
    requires PoolInv(p) && Enter(p, key).Some?
    ensures
      var (p', e) := Enter(p, key).value;
      PoolInv(p') && e < |p'.table| && Grows(p, p') && HandsOver(p, Idle, p', HasEntry(e))
  {
    var (p', e) := Enter(p, key).value;
    if key in p.entries {
      NothingHappens(p);
    } else {
      assert InMap(p', e) by { assert key in p'.entries; }
      forall other: nat | InMap(p, other)
        ensures InMap(p', other)
      {
        var k :| k in p.entries && p.entries[k] == other;
        assert k in p'.entries && p'.entries[k] == other;
      }
    }
  }

  /** One entry's fields change; a retired entry stays as it is, and only detached entries retire. */
  lemma EntryChangeFacts(p: Pool, e: nat, entry: Entry, nextChannel: nat)
    requires PoolInv(p) && e < |p.table|
    requires p.table[e].retired ==> entry == p.table[e]
    requires entry.retired ==> entry.channel.None? && !InMap(p, e)
    ensures
      var p' := p.(table := p.table[e := entry], nextChannel := nextChannel);
      && PoolInv(p') && Grows(p, p')
      && (forall other: nat :: InMap(p', other) <==> InMap(p, other))
  {
  }

  lemma UseFacts(p: Pool, t: Thread, action: Action)
    requires PoolInv(p) && ThreadInv(p, t) && !ClosingAction(action) && Act(p, t, action).Some?
    ensures
      var (p', t') := Act(p, t, action).value;
      PoolInv(p') && ThreadInv(p', t') && Grows(p, p') && HandsOver(p, t, p', t')
  {
    hide PoolInv;
    hide Grows;
    hide InMap;
    NothingHappens(p);
    match action
    case TakeEntry(key) =>
      if !p.closed {
        EnterFacts(p, key);
      }
    case TakeChannel(_, _) =>
      if !p.table[t.entry].retired {
        EntryChangeFacts(p, t.entry, p.table[t.entry].(channel := Some(p.nextChannel)), p.nextChannel + 1);
      }
    case Finish =>
    case FailRoundTrip =>
      if p.table[t.entry].channel == Some(t.channel) {
        RetiredHasNoChannel(p, t.entry);
        EntryChangeFacts(p, t.entry, p.table[t.entry].(channel := None), p.nextChannel);
      }
    case RetireOne(e) =>
      RetiredHasNoChannel(p, e);
      EntryChangeFacts(p, e, Entry(true, None), p.nextChannel);
  }

  lemma RetiredHasNoChannel(p: Pool, e: nat)
    requires PoolInv(p) && e < |p.table|
    ensures p.table[e].retired ==> p.table[e].channel.None?
  {
  }

  /** A channel that appears in an entry is new. */
  ghost predicate ChannelsGrow(p: Pool, p': Pool) {
    && p.nextChannel <= p'.nextChannel
    && (forall e :: 0 <= e < |p'.table| && p'.table[e].channel.Some? ==>
          p'.table[e].channel.value >= p.nextChannel || (e < |p.table| && p.table[e].channel == p'.table[e].channel))
  }

  lemma ChannelFacts(p: Pool, t: Thread, action: Action)
    requires ThreadInv(p, t) && ChannelsInv(p) && HolderInv(p, t) && Act(p, t, action).Some?
    ensures
      var (p', t') := Act(p, t, action).value;
      ChannelsInv(p') && HolderInv(p', t') && ChannelsGrow(p, p')
  {
    hide OfVm;
    hide Detached;
    hide Closing;
    var (p', t') := Act(p, t, action).value;
    if ClosingAction(action) || action.RetireOne? {
      ClosersHoldNothing(p, t, action);
    }
  }

  lemma ClosersHoldNothing(p: Pool, t: Thread, action: Action)
    requires Act(p, t, action).Some? && (ClosingAction(action) || action.RetireOne?)
    ensures !Act(p, t, action).value.1.HasChannel?
  {
  }

  // Whole runs

  lemma OthersKeepTheirChannel(p: Pool, p': Pool, t: Thread)
    requires HolderInv(p, t) && ChannelsGrow(p, p')
    ensures HolderInv(p', t)
  {
  }

  lemma OthersKeepTheirInv(p: Pool, p': Pool, t: Thread)
    requires ThreadInv(p, t) && Grows(p, p')
    ensures ThreadInv(p', t)
  {
  }

  lemma NobodyLosesAnEntry(w: World, w': World, id: nat)
    requires Accounted(w) && id in w.threads && id in w'.threads
    requires Grows(w.pool, w'.pool) && HandsOver(w.pool, w.threads[id], w'.pool, w'.threads[id])
    requires w'.threads == w.threads[id := w'.threads[id]]
    ensures Accounted(w')
  {
    forall e: nat | e < |w'.pool.table|
      ensures InMap(w'.pool, e) || BeingRetired(w'.threads, e) || w'.pool.table[e].retired
    {
      if e < |w.pool.table| {
        if BeingRetired(w.threads, e) {
          var holder :| holder in w.threads && e in Todo(w.threads[holder]);
          assert holder != id ==> e in Todo(w'.threads[holder]);
        }
        assert e in Todo(w'.threads[id]) ==> BeingRetired(w'.threads, e);
      }
    }
  }

  lemma StepKeepsInv(w: World, w': World, id: nat, action: Action)
    requires Inv(w) && NextBy(w, w', id, action)
    ensures Inv(w') && Grows(w.pool, w'.pool)
  {
    var t := w.threads[id];
    if ClosingAction(action) {
      CloseFacts(w.pool, t, action);
    } else {
      UseFacts(w.pool, t, action);
    }
    ChannelFacts(w.pool, t, action);
    hide PoolInv;
    hide Grows;
    hide ThreadInv;
    hide HandsOver;
    hide Accounted;
    hide Act;
    hide ChannelsInv;
    hide HolderInv;
    hide ChannelsGrow;
    NobodyLosesAnEntry(w, w', id);
    forall other | other in w'.threads && other != id
      ensures HolderInv(w'.pool, w'.threads[other])
    {
      OthersKeepTheirChannel(w.pool, w'.pool, w.threads[other]);
    }
    forall other | other in w'.threads && other != id
      ensures ThreadInv(w'.pool, w'.threads[other])
    {
      OthersKeepTheirInv(w.pool, w'.pool, w.threads[other]);
    }
  }

  lemma InvIsInductive()
    ensures forall w :: Init(w) ==> Inv(w)
    ensures forall w, w' :: Inv(w) && Next(w, w') ==> Inv(w')
  {
    forall w, w' | Inv(w) && Next(w, w')
      ensures Inv(w')
    {
      var id, action :| NextBy(w, w', id, action);
      StepKeepsInv(w, w', id, action);
    }
  }

  /** Under every interleaving: mapped entries are live, retired ones hold nothing, and none is lost track of. */
  lemma EntriesAreAccountedFor(trace: seq<World>, i: nat)
    requires IsRun(Init, Next, trace) && i < |trace|
    ensures PoolInv(trace[i].pool) && Accounted(trace[i])
  {
    InvIsInductive();
    InvariantHolds(Init, Next, Inv, trace, i);
  }

  ghost predicate AllRetired(p: Pool) {
    p.closed && forall e :: 0 <= e < |p.table| ==> p.table[e].retired && p.table[e].channel.None?
  }

  predicate NoCloserActive(w: World) {
    forall id :: id in w.threads ==> !w.threads[id].Retiring?
  }

  lemma ClosedAndQuietIsRetired(w: World)
    requires Inv(w) && w.pool.closed && NoCloserActive(w)
    ensures AllRetired(w.pool)
  {
  }

  lemma RetiredPoolHandsOutNothing(w: World, w': World, id: nat, action: Action)
    requires Inv(w) && NextBy(w, w', id, action) && AllRetired(w.pool)
    ensures AllRetired(w'.pool) && w'.handedOut == w.handedOut
  {
  }

  /**
   After the pool was closed and every closer that was at work has returned, no entry
   holds a channel and none is ever handed out again, whatever the threads still do.
   */
  lemma ClosedPoolStaysEmpty(trace: seq<World>, i: nat, j: nat)
    requires IsRun(Init, Next, trace) && i <= j < |trace|
    requires trace[i].pool.closed && NoCloserActive(trace[i])
    ensures AllRetired(trace[j].pool) && trace[j].handedOut == trace[i].handedOut
  {
    InvIsInductive();
    InvariantHolds(Init, Next, Inv, trace, i);
    ClosedAndQuietIsRetired(trace[i]);
    var handed := trace[i].handedOut;
    var quiet := (w: World) => AllRetired(w.pool) && w.handedOut == handed;
    forall w, w' | Inv(w) && quiet(w) && Next(w, w')
      ensures quiet(w')
    {
      var id, action :| NextBy(w, w', id, action);
      RetiredPoolHandsOutNothing(w, w', id, action);
    }
    StablePropertyHolds(Init, Next, Inv, quiet, trace, i, j);
  }

  /** A retired entry never holds or regains a channel. */
  lemma RetirementIsFinal(trace: seq<World>, i: nat, j: nat, e: nat)
    requires IsRun(Init, Next, trace) && i <= j < |trace|
    requires e < |trace[i].pool.table| && trace[i].pool.table[e].retired
    ensures e < |trace[j].pool.table| && trace[j].pool.table[e] == Entry(true, None)
  {
    InvIsInductive();
    InvariantHolds(Init, Next, Inv, trace, i);
    var final := (w: World) => e < |w.pool.table| && w.pool.table[e] == Entry(true, None);
    forall w, w' | Inv(w) && final(w) && Next(w, w')
      ensures final(w')
    {
      var id, action :| NextBy(w, w', id, action);
      StepKeepsInv(w, w', id, action);
    }
    StablePropertyHolds(Init, Next, Inv, final, trace, i, j);
  }

  // What each critical section brings about

  ghost predicate TakesEntry(p: Pool, p': Pool, t': Thread, key: Key) {
    if p.closed then p' == p && t'.Idle?
    else
      && t'.HasEntry? && p'.entries == p.entries[key := t'.entry]
      && (if key in p.entries then p' == p && t'.entry == p.entries[key]
          else t'.entry == |p.table| && p'.table == p.table + [Entry(false, None)])
  }

  /** A retired entry gives nothing, a live channel is used again, and a new one belongs to nobody else. */
  ghost predicate TakesChannel(w: World, w': World, id: nat, e: nat, poisoned: bool, dials: bool)
    requires e < |w.pool.table| && id in w'.threads
  {
    var entry, t' := w.pool.table[e], w'.threads[id];
    var reuses := !entry.retired && entry.channel.Some? && !poisoned;
    && (t'.HasChannel? <==> reuses || (!entry.retired && dials))
    && (!t'.HasChannel? ==> t'.Idle? && w'.pool == w.pool)
    && (reuses ==> t' == HasChannel(e, entry.channel.value) && w'.pool == w.pool)
    && (t'.HasChannel? && !reuses ==>
          && t'.entry == e && w'.pool.entries == w.pool.entries && w'.pool.closed == w.pool.closed
          && w'.pool.table == w.pool.table[e := Entry(false, Some(t'.channel))]
          && (forall other :: other in w.threads && w.threads[other].HasChannel? ==> w.threads[other].channel != t'.channel)
          && (forall f :: 0 <= f < |w.pool.table| ==> w.pool.table[f].channel != Some(t'.channel)))
  }

  /** Which keys a closer means. */
  predicate Names(action: Action, key: Key) {
    || (action.CloseVm? && key.vmId == action.vmId)
    || (action.CloseKey? && key == action.key)
    || action.ClosePool?
  }

  /** Exactly the entries of the keys that go are left to the closer, and no entry has changed yet. */
  ghost predicate Collects(p: Pool, p': Pool, t': Thread, action: Action) {
    && p'.table == p.table
    && (forall key :: key in p'.entries <==> key in p.entries && !Names(action, key))
    && (forall key :: key in p'.entries ==> p'.entries[key] == p.entries[key])
    && (forall e :: e in Todo(t') <==> exists key :: key in p.entries && Names(action, key) && p.entries[key] == e)
  }

  ghost predicate DoesItsPart(w: World, w': World, id: nat, action: Action)
    requires id in w.threads && id in w'.threads
  {
    var p, p', t, t' := w.pool, w'.pool, w.threads[id], w'.threads[id];
    match action
    case TakeEntry(key) => TakesEntry(p, p', t', key)
    case TakeChannel(poisoned, dials) =>
      t.HasEntry? && t.entry < |p.table| && TakesChannel(w, w', id, t.entry, poisoned, dials)
    case Finish => t.HasChannel? && p' == p && t'.Idle?
    case FailRoundTrip =>
      && t.HasChannel? && t'.Idle? && t.entry < |p.table|
      && p' == if p.table[t.entry].channel == Some(t.channel) then p.(table := p.table[t.entry := Entry(false, None)]) else p
    case CloseVm(_) => p'.closed == p.closed && Collects(p, p', t', action)
    case CloseKey(_) => p'.closed == p.closed && Collects(p, p', t', action)
    case ClosePool => p'.closed && Collects(p, p', t', action)
    case RetireOne(e) =>
      && e in Todo(t) && e < |p.table| && Todo(t') == Todo(t) - {e} && p' == p.(table := p.table[e := Entry(true, None)])
  }

  lemma CollectingCollects(p: Pool, selected: set<Key>, action: Action)
    requires selected <= p.entries.Keys && forall key :: key in p.entries ==> (key in selected <==> Names(action, key))
    ensures Collects(p, Detach(p, selected), Closing(Detached(p, selected)), action)
  {
    var t' := Closing(Detached(p, selected));
    assert Todo(t') == Detached(p, selected);
  }

  lemma ClosingDoesItsPart(w: World, w': World, id: nat, action: Action)
    requires Inv(w) && NextBy(w, w', id, action) && ClosingAction(action)
    ensures id in w'.threads && DoesItsPart(w, w', id, action)
  {
    var p := w.pool;
    match action
    case CloseVm(vmId) => CollectingCollects(p, OfVm(p, vmId), action);
    case CloseKey(key) => CollectingCollects(p, if key in p.entries then {key} else {}, action);
    case ClosePool => CollectingCollects(p, p.entries.Keys, action);
  }

  lemma UsingDoesItsPart(w: World, w': World, id: nat, action: Action)
    requires Inv(w) && NextBy(w, w', id, action) && !ClosingAction(action)
    ensures id in w'.threads && DoesItsPart(w, w', id, action)
  {
    assert ThreadInv(w.pool, w.threads[id]);
    assert forall other :: other in w.threads ==> ThreadInv(w.pool, w.threads[other]);
    assert forall other :: other in w.threads ==> HolderInv(w.pool, w.threads[other]);
    assert PoolInv(w.pool) && ChannelsInv(w.pool);
  }

  /**
   Under every interleaving each critical section does exactly its part: a key leads to its
   own entry; an entry hands out its live channel or a new one that nobody else has; a closer
   takes out exactly the keys it names and has exactly their entries to retire, and closing
   the pool closes it.
   */
  lemma SectionsDoTheirPart(trace: seq<World>, i: nat, id: nat, action: Action)
    requires IsRun(Init, Next, trace) && i + 1 < |trace| && NextBy(trace[i], trace[i + 1], id, action)
    ensures id in trace[i + 1].threads && DoesItsPart(trace[i], trace[i + 1], id, action)
  {
    InvIsInductive();
    InvariantHolds(Init, Next, Inv, trace, i);
    hide Inv;
    hide NextBy;
    hide DoesItsPart;
    if ClosingAction(action) {
      ClosingDoesItsPart(trace[i], trace[i + 1], id, action);
    } else {
      UsingDoesItsPart(trace[i], trace[i + 1], id, action);
    }
  }

  // The pool as it is written

  class GuestChannelPool {
    var entries: map<Key, nat>
    var closed: bool
    var table: seq<Entry>
    var nextChannel: nat

    ghost function View(): Pool
      reads this
    {
      Pool(entries, closed, table, nextChannel)
    }

    constructor ()
      ensures View() == EMPTY
    {
      entries, closed, table, nextChannel := map[], false, [], 0;
    }

    method TakeEntry(key: Key) returns (entry: Option<nat>)
      modifies this
      ensures entry.None? <==> old(closed)
      ensures entry.Some? ==> Enter(old(View()), key) == Some((View(), entry.value))
      ensures entry.None? ==> View() == old(View())
    {
      if closed {
        return None;
      }
      if key !in entries {
        entries := entries[key := |table|];
        table := table + [Entry(false, None)];
      }
      return Some(entries[key]);
    }

    method TakeChannel(e: nat, poisoned: bool, dials: bool) returns (answer: ChannelAnswer)
      requires e < |table|
      modifies this`table, this`nextChannel
      ensures (View(), answer) == Provide(old(View()), e, poisoned, dials)
    {
      if table[e].retired {
        return Refused;
      }
      if table[e].channel.Some? && !poisoned {
        return Provided(table[e].channel.value);
      }
      if !dials {
        return DialFailed;
      }
      var channel := nextChannel;
      nextChannel := nextChannel + 1;
      table := table[e := table[e].(channel := Some(channel))];
      return Provided(channel);
    }

    /** Takes every entry of one VM out of the map and collects it. */
    method CollectVm(vmId: string) returns (collected: set<nat>)
      requires PoolInv(View())
      modifies this`entries
      ensures View() == Detach(old(View()), OfVm(old(View()), vmId))
      ensures collected == Detached(old(View()), OfVm(old(View()), vmId))
    {
      hide PoolInv;
      collected := {};
      var todo := entries.Keys;
      ghost var removed: set<Key> := {};
      while todo != {}
        invariant todo <= old(entries).Keys
        invariant removed == set key | key in old(entries) && key.vmId == vmId && key !in todo
        invariant entries == old(entries) - removed
        invariant collected == set key | key in removed :: old(entries)[key]
        decreases todo
      {
        var key :| key in todo;
        todo := todo - {key};
        if key.vmId == vmId {
          collected := collected + {entries[key]};
          entries := entries - {key};
          removed := removed + {key};
        }
      }
    }

    /** Closes the pool once; later calls find it closed and collect nothing. */
    method CollectAll() returns (collected: set<nat>)
      requires PoolInv(View())
      modifies this`entries, this`closed
      ensures closed && entries == map[] && table == old(table)
      ensures collected == Detached(old(View()), old(entries).Keys)
    {
      collected := {};
      if closed {
        return;
      }
      closed := true;
      var todo := entries.Keys;
      while todo != {}
        invariant closed && todo <= old(entries).Keys
        invariant entries == old(entries) - (old(entries).Keys - todo)
        invariant collected == set key | key in old(entries) && key !in todo :: old(entries)[key]
        decreases todo
      {
        var key :| key in todo;
        todo := todo - {key};
        collected := collected + {entries[key]};
        entries := entries - {key};
      }
    }

    /** The second half of closing: each collected entry gives up its channel, in any order. */
    method RetireAll(collected: set<nat>)
      requires forall e :: e in collected ==> e < |table|
      modifies this`table
      ensures |table| == |old(table)|
      ensures forall e :: 0 <= e < |table| ==> table[e] == if e in collected then Entry(true, None) else old(table)[e]
    {
      var todo := collected;
      while todo != {}
        invariant todo <= collected && |table| == |old(table)|
        invariant forall e :: 0 <= e < |table| ==>
          table[e] == if e in collected && e !in todo then Entry(true, None) else old(table)[e]
        decreases todo
      {
        var e :| e in todo;
        table := table[e := Entry(true, None)];
        todo := todo - {e};
      }
    }

    method DiscardChannel(e: nat, channel: nat)
      requires e < |table|
      modifies this`table
      ensures View() == Discard(old(View()), e, channel)
    {
      if table[e].channel == Some(channel) {
        table := table[e := table[e].(channel := None)];
      }
    }
  }
}
