/**
 Start-up reconciliation of VM records with the hypervisor, as values: the decision for
 one record, what a settled record is, and how far a pass over all records has come.
 */
module Reconciliation {
  import opened Wrappers
  import opened Text
  import opened VmRecords

  predicate Owned(owner: string, system: System) {
    system.owner == owner && system.virtualMachine
  }

  /** What enumeration shows under an identifier, among the systems of this owner. */
  function Seen(owner: string, systems: map<HcsId, System>, id: HcsId): Option<System> {
    if id in systems && Owned(owner, systems[id]) then Some(systems[id]) else None
  }

  /** Nothing of this owner is left under the identifier, except perhaps a stopped system. */
  predicate Quiet(owner: string, systems: map<HcsId, System>, id: HcsId) {
    var seen := Seen(owner, systems, id);
    seen.None? || seen.value.state.SystemStopped?
  }

  /** Systems of other owners, and other kinds of systems, are as they were. */
  ghost predicate ForeignKept(owner: string, before: map<HcsId, System>, after: map<HcsId, System>) {
    forall id :: !(id in before && before[id].owner == owner && before[id].virtualMachine) ==>
      (id in after <==> id in before) && (id in before ==> after[id] == before[id])
  }

  lemma ForeignKeptIsTransitive(owner: string, a: map<HcsId, System>, b: map<HcsId, System>, c: map<HcsId, System>)
    ensures ForeignKept(owner, a, a)
    ensures ForeignKept(owner, a, b) && ForeignKept(owner, b, c) ==> ForeignKept(owner, a, c)
  {
  }

  predicate Live(system: Option<System>) {
    system.Some? && system.value.state.SystemRunning? && IsGuid(system.value.runtimeId)
  }

  /** Reconciliation's decision for one record that is not being deleted. */
  function ReconcileVm(vm: Vm, system: Option<System>, now: nat): Vm {
    if Live(system) then
      if !vm.state.Running? || !EqualFold(vm.runtimeId, system.value.runtimeId) || !vm.pending.Idle? then
        vm.(state := Running, runtimeId := ToLower(system.value.runtimeId), pending := Idle, updatedAt := now)
      else vm
    else if vm.state.Running? || vm.runtimeId != "" || !vm.pending.Idle? then
      vm.(state := if vm.state.Running? || vm.pending.Stopping? then Stopped else vm.state,
          runtimeId := "", pending := Idle, updatedAt := now)
    else vm
  }

  /** The record agrees with the hypervisor. */
  predicate Settled(vm: Vm, system: Option<System>) {
    && !vm.deleting && vm.pending.Idle?
    && (vm.state.Running? <==> Live(system))
    && (vm.state.Running? ==> EqualFold(vm.runtimeId, system.value.runtimeId))
    && (!vm.state.Running? ==> vm.runtimeId == "")
  }

  function ReconciledVms(owner: string, vms: map<string, Vm>, systems: map<HcsId, System>, now: nat): map<string, Vm> {
    map id | id in vms && !vms[id].deleting :: ReconcileVm(vms[id], Seen(owner, systems, vms[id].hcsId), now)
  }

  /** Reconciliation settles a record, keeps it valid, and keeps all but four of its fields. */
  lemma ReconcileSettles(sid: string, images: map<string, Image>, vm: Vm, system: Option<System>, now: nat)
    requires ValidVm(sid, images, vm.id, vm) && !vm.deleting && now > 0
    ensures
      var after := ReconcileVm(vm, system, now);
      && Settled(after, system)
      && ValidVm(sid, images, vm.id, after)
      && after.(state := vm.state, runtimeId := vm.runtimeId, pending := vm.pending, updatedAt := vm.updatedAt) == vm
      && (vm.state.Created? && !Live(system) && !vm.pending.Stopping? ==> after.state.Created?)
  {
  }

  /** Reconciling again against an unchanged hypervisor changes no record. */
  lemma ReconcileIsIdempotent(owner: string, vms: map<string, Vm>, systems: map<HcsId, System>, now: nat)
    requires forall id :: id in vms ==> Settled(vms[id], Seen(owner, systems, vms[id].hcsId))
    ensures ReconciledVms(owner, vms, systems, now) == vms
  {
  }

  /** The system under a live record is left alone; any other is taken down. */
  predicate Cleaned(owner: string, byId: map<HcsId, System>, systems: map<HcsId, System>, id: HcsId) {
    if Live(Seen(owner, byId, id)) then Seen(owner, systems, id) == Seen(owner, byId, id) else Quiet(owner, systems, id)
  }

  ghost predicate RecordDone(
    owner: string, was: Vm, vms: map<string, Vm>, byId: map<HcsId, System>, systems: map<HcsId, System>, now: nat)
  {
    if was.deleting then was.id !in vms && Quiet(owner, systems, was.hcsId)
    else
      && was.id in vms && vms[was.id] == ReconcileVm(was, Seen(owner, byId, was.hcsId), now)
      && Cleaned(owner, byId, systems, was.hcsId)
  }

  ghost predicate RecordPending(
    owner: string, was: Vm, vms: map<string, Vm>, byId: map<HcsId, System>, systems: map<HcsId, System>)
  {
    was.id in vms && vms[was.id] == was && Seen(owner, systems, was.hcsId) == Seen(owner, byId, was.hcsId)
  }

  ghost predicate Keyed(sid: string, vms: map<string, Vm>) {
    forall id :: id in vms ==> vms[id].id == id && vms[id].hcsId == HcsId(sid, id)
  }

  /** A pass over the records `was` has dealt with all but `todo`. */
  ghost predicate Progress(
    owner: string, was: map<string, Vm>, vms: map<string, Vm>, byId: map<HcsId, System>,
    systems: map<HcsId, System>, todo: set<string>, now: nat)
  {
    && todo <= was.Keys && vms.Keys <= was.Keys
    && (forall id :: id in was ==>
          if id in todo then RecordPending(owner, was[id], vms, byId, systems)
          else RecordDone(owner, was[id], vms, byId, systems, now))
  }

  lemma ProgressStep(
    sid: string, owner: string, was: map<string, Vm>, vms: map<string, Vm>, vms': map<string, Vm>,
    byId: map<HcsId, System>, systems: map<HcsId, System>, systems': map<HcsId, System>,
    todo: set<string>, id: string, now: nat)
    requires Keyed(sid, was) && id in todo
    requires Progress(owner, was, vms, byId, systems, todo, now)
    requires vms'.Keys <= vms.Keys
    requires forall other :: other in vms && other != id ==> other in vms' && vms'[other] == vms[other]
    requires forall h :: h != HcsId(sid, id) ==> Seen(owner, systems', h) == Seen(owner, systems, h)
    requires RecordDone(owner, was[id], vms', byId, systems', now)
    ensures Progress(owner, was, vms', byId, systems', todo - {id}, now)
    ensures vms' == was <==> vms == was && id in vms' && vms'[id] == was[id]
  {
    hide Live;
    hide ReconcileVm;
  }

  /** A finished pass has computed `ReconciledVms` and left every record settled. */
  lemma ProgressEnds(
    sid: string, owner: string, images: map<string, Image>, was: map<string, Vm>, vms: map<string, Vm>,
    byId: map<HcsId, System>, systems: map<HcsId, System>, now: nat)
    requires Keyed(sid, was) && now > 0
    requires forall id :: id in was ==> ValidVm(sid, images, id, was[id])
    requires Progress(owner, was, vms, byId, systems, {}, now)
    ensures vms == ReconciledVms(owner, was, byId, now)
    ensures forall id :: id in vms ==> Settled(vms[id], Seen(owner, systems, vms[id].hcsId))
    ensures forall id :: id in was && !Quiet(owner, systems, HcsId(sid, id)) ==> id in vms && vms[id].state.Running?
  {
    hide ValidVm;
    forall id | id in was
      ensures id in vms <==> !was[id].deleting
      ensures id in vms ==>
        && vms[id] == ReconcileVm(was[id], Seen(owner, byId, was[id].hcsId), now)
        && vms[id].hcsId == was[id].hcsId
        && Settled(vms[id], Seen(owner, systems, vms[id].hcsId))
      ensures !Quiet(owner, systems, HcsId(sid, id)) ==> id in vms && vms[id].state.Running?
    {
      assert RecordDone(owner, was[id], vms, byId, systems, now);
      if !was[id].deleting {
        ReconcileSettles(sid, images, was[id], Seen(owner, byId, was[id].hcsId), now);
      }
    }
  }

  /** The outcome depends only on the systems the records name. */
  lemma ReconciledVmsDependsOnSeen(
    sid: string, owner: string, policy: map<string, Trusted>, state: ServiceState,
    systems: map<HcsId, System>, systems': map<HcsId, System>, now: nat)
    requires ValidState(sid, policy, state)
    requires forall id :: id in state.vms ==>
      Seen(owner, systems, HcsId(sid, id)) == Seen(owner, systems', HcsId(sid, id))
    ensures ReconciledVms(owner, state.vms, systems, now) == ReconciledVms(owner, state.vms, systems', now)
  {
  }
}
