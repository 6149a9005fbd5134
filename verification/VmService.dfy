/**
 The Windows VM service. Metadata lives in memory and in one file that is replaced
 atomically; the hypervisor and the disk directories live outside. Every persist and
 every hypervisor call may fail, with or without its effect.

 `everPersisted` collects every value the metadata file ever had, including the ones
 in the middle of an operation. A crash at any point therefore restarts from one of
 them, next to whatever the hypervisor and the disks look like by then; that is all
 `Restart` and `Reconcile` assume.
 */
module VmService {
  import opened Wrappers
  import opened Text
  import opened PathRules
  import opened VmRecords
  import opened Reconciliation

  predicate PersistError(error: ServiceError) {
    error.Unavailable? || error.NotFound? || error.PermissionDenied?
  }

  datatype HcsAnswer = Done | Missing | Failed

  /** What the service asks of the hypervisor. */
  datatype HcsCall = CreateCall(id: HcsId) | StartCall(id: HcsId) | TerminateCall(id: HcsId) | ShutdownCall(id: HcsId)

  /** Only terminations were added. */
  ghost predicate OnlyTerminations(before: seq<HcsCall>, after: seq<HcsCall>) {
    before <= after && forall k :: |before| <= k < |after| ==> after[k].TerminateCall?
  }

  class HcsService {
    const sid: string
    const owner: string
    const policy: map<string, Trusted>
    var memory: ServiceState
    var persisted: Option<ServiceState>
    var systems: map<HcsId, System>
    var vmDisks: set<string>
    var imageDisks: set<string>
    ghost var everPersisted: set<ServiceState>
    ghost var calls: seq<HcsCall>
    ghost var troubles: nat // how often the file system, the hypervisor or a check of the host failed a call

    /** A host on which the service has never run, whatever else its hypervisor holds. */
    constructor (sid: string, owner: string, policy: map<string, Trusted>, systems: map<HcsId, System>)
      requires ValidPolicy(policy)
      ensures Reloadable() && persisted.None? && this.policy == policy && this.systems == systems
    {
      this.sid := sid;
      this.owner := owner;
      this.policy := policy;
      this.systems := systems;
      memory := ServiceState(map[], map[]);
      persisted := None;
      vmDisks := {};
      imageDisks := {};
      everPersisted := {};
      calls := [];
      troubles := 0;
    }

    /** Whatever the metadata file ever held passes the check made on load. */
    ghost predicate Reloadable()
      reads this
    {
      && (persisted.Some? ==> persisted.value in everPersisted)
      && (forall state :: state in everPersisted ==> ValidState(sid, policy, state))
    }

    ghost predicate Valid()
      reads this
    {
      ValidPolicy(policy) && ValidState(sid, policy, memory) && Reloadable()
    }

    /** The durable record announces the operation. */
    ghost predicate MarkedDurably(id: string, pending: PendingOperation)
      reads this
    {
      persisted.Some? && id in persisted.value.vms && persisted.value.vms[id].pending == pending
    }

    ghost predicate DeletionMarkedDurably(id: string)
      reads this
    {
      persisted.Some? && id in persisted.value.vms && persisted.value.vms[id].deleting
    }

    ghost predicate Known(id: HcsId)
      reads this`memory
    {
      id.sid == sid && id.vmId in memory.vms
    }

    /** Nothing of this owner runs except behind a record that says so. */
    ghost predicate Accounted(h: HcsId)
      reads this`memory, this`systems, this`calls
    {
      Quiet(owner, systems, h) || (Known(h) && memory.vms[h.vmId].state.Running?)
    }

    /** Records and hypervisor agree. */
    ghost predicate Agreed()
      reads this`memory, this`systems, this`calls
    {
      && (forall id :: id in memory.vms ==> Settled(memory.vms[id], Seen(owner, systems, memory.vms[id].hcsId)))
      && (forall h :: Accounted(h))
    }

    /** Metadata, hypervisor and disks agree. */
    ghost predicate Consistent()
      reads this
    {
      && persisted == Some(memory)
      && Agreed()
      && vmDisks <= memory.vms.Keys
      && imageDisks <= memory.images.Keys
    }

    // Ports

    /** Whether the host does what it is asked for. */
    method Succeeds() returns (ok: bool)
      modifies this`troubles
      ensures ok <==> troubles == old(troubles)
      ensures old(troubles) <= troubles
    {
      ok := *;
      if !ok {
        troubles := troubles + 1;
      }
    }

    /** Replaces the metadata file; fails with a storage or a path error, with or without effect. */
    method Persist() returns (failure: Option<ServiceError>)
      requires Valid()
      modifies this`persisted, this`everPersisted, this`troubles
      ensures Valid()
      ensures old(everPersisted) <= everPersisted
      ensures failure.None? ==> persisted == Some(memory)
      ensures old(troubles) <= troubles && (failure.None? <==> troubles == old(troubles))
      ensures failure.Some? ==> PersistError(failure.value) && (persisted == old(persisted) || persisted == Some(memory))
    {
      hide ValidState;
      var written: bool := *;
      failure := *;
      if failure.Some? && !PersistError(failure.value) {
        failure := Some(Unavailable);
      }
      troubles := if failure.None? then troubles else troubles + 1;
      if failure.None? || written {
        persisted := Some(memory);
        everPersisted := everPersisted + {memory};
      }
    }

    /** Hypervisor calls touch one system. */
    twostate predicate OnlySystem(id: HcsId)
      reads this
    {
      forall h :: h != id ==>
        (h in systems <==> h in old(systems)) && (h in systems ==> systems[h] == old(systems)[h])
    }

    predicate IsDown(id: HcsId)
      reads this`systems
    {
      id !in systems || systems[id].state.SystemStopped?
    }

    method Terminate(id: HcsId) returns (answer: HcsAnswer)
      modifies this`systems, this`calls, this`troubles
      ensures OnlySystem(id) && calls == old(calls) + [TerminateCall(id)]
      ensures !answer.Failed? ==> IsDown(id)
      ensures old(troubles) <= troubles && (answer.Failed? <==> troubles != old(troubles))
    {
      calls := calls + [TerminateCall(id)];
      if id !in systems {
        return Missing;
      }
      var succeeds := Succeeds();
      var lingers: bool := *;
      if !succeeds {
        return Failed;
      }
      systems := if lingers then systems[id := systems[id].(state := SystemStopped)] else systems - {id};
      return Done;
    }

    /** A system appears only after its record durably announced the start. */
    method CreateSystem(id: string) returns (ok: bool)
      requires MarkedDurably(id, Starting)
      modifies this`systems, this`calls, this`troubles
      ensures OnlySystem(HcsId(sid, id)) && calls == old(calls) + [CreateCall(HcsId(sid, id))]
      ensures old(troubles) <= troubles && (ok <==> troubles == old(troubles))
    {
      calls := calls + [CreateCall(HcsId(sid, id))];
      ok := Succeeds();
      var created: bool := *;
      if ok || created {
        systems := systems[HcsId(sid, id) := System(owner, true, SystemOther, "")];
      }
    }

    method StartSystem(id: string) returns (ok: bool)
      requires MarkedDurably(id, Starting)
      modifies this`systems, this`calls, this`troubles
      ensures OnlySystem(HcsId(sid, id)) && calls == old(calls) + [StartCall(HcsId(sid, id))]
      ensures old(troubles) <= troubles && (ok <==> troubles == old(troubles))
    {
      calls := calls + [StartCall(HcsId(sid, id))];
      SystemMoves(HcsId(sid, id));
      ok := Succeeds();
    }

    /** Boot, guest shutdown or host trouble: the system may move anywhere. */
    method SystemMoves(id: HcsId)
      modifies this`systems
      ensures OnlySystem(id)
    {
      var state: SystemState := *;
      var runtimeId: string := *;
      var gone: bool := *;
      if id in systems {
        systems := if gone then systems - {id} else systems[id := systems[id].(state := state, runtimeId := runtimeId)];
      }
    }

    /** A guest that is asked to shut down may take its time. */
    method ShutdownSystem(id: string) returns (ok: bool)
      requires MarkedDurably(id, Stopping)
      modifies this`systems, this`calls, this`troubles
      ensures OnlySystem(HcsId(sid, id)) && calls == old(calls) + [ShutdownCall(HcsId(sid, id))]
      ensures old(troubles) <= troubles && (ok <==> troubles == old(troubles))
    {
      calls := calls + [ShutdownCall(HcsId(sid, id))];
      SystemMoves(HcsId(sid, id));
      ok := Succeeds();
    }

    /** The one call that stops a system: by force it is down afterwards. */
    method StopSystem(id: string, force: bool) returns (ok: bool)
      requires MarkedDurably(id, Stopping)
      modifies this`systems, this`calls, this`troubles
      ensures OnlySystem(HcsId(sid, id))
      ensures calls == old(calls) + [if force then TerminateCall(HcsId(sid, id)) else ShutdownCall(HcsId(sid, id))]
      ensures ok && force ==> IsDown(HcsId(sid, id))
      ensures old(troubles) <= troubles && (ok <==> troubles == old(troubles))
    {
      if force {
        var answer := Terminate(HcsId(sid, id));
        ok := answer.Done?;
        troubles := if answer.Missing? then troubles + 1 else troubles;
      } else {
        ok := ShutdownSystem(id);
      }
    }

    /** Disk bytes go only after the deletion is durable. */
    method RemoveVmDisk(id: string) returns (ok: bool)
      requires DeletionMarkedDurably(id)
      modifies this`vmDisks, this`troubles
      ensures vmDisks == old(vmDisks) || vmDisks == old(vmDisks) - {id}
      ensures ok ==> id !in vmDisks
      ensures old(troubles) <= troubles && (ok <==> troubles == old(troubles))
    {
      ok := Succeeds();
      var removed: bool := *;
      if ok || removed {
        vmDisks := vmDisks - {id};
      }
    }

    // Operations

    method CreateVm(id: string, imageId: string, vcpuCount: nat, memoryMiB: nat, now: nat)
      returns (result: Result<Vm, ServiceError>)
      requires Valid() && now > 0
      modifies this`memory, this`persisted, this`everPersisted, this`vmDisks, this`troubles
      ensures Valid()
      ensures old(everPersisted) <= everPersisted
      ensures result.Ok? ==>
        && id !in old(memory).vms && imageId in old(memory).images
        && result.value == Vm(id, HcsId(sid, id), imageId, vcpuCount, memoryMiB, Created, [], now, DiskPath(id),
                              result.value.diskIdentity, "", Idle, false)
        && memory == old(memory).(vms := old(memory).vms[id := result.value])
        && persisted == Some(memory) && id in vmDisks
      ensures
        var valid := ValidId(id) && ValidId(imageId) && 1 <= vcpuCount <= 32 && 512 <= memoryMiB <= 65536;
        && (!valid ==> result == Err(InvalidArgument) && unchanged(this))
        && (valid && imageId !in old(memory).images ==> result == Err(NotFound) && unchanged(this))
        && (valid && imageId in old(memory).images && (id in old(memory).vms || |old(memory).vms| >= MAX_VMS) ==>
              result == Err(Conflict) && unchanged(this))
        && (valid && imageId in old(memory).images && id !in old(memory).vms && |old(memory).vms| < MAX_VMS ==>
              (result.Ok? <==> troubles == old(troubles)))
      ensures result.Err? ==> memory == old(memory)
      ensures old(vmDisks) - {id} <= vmDisks <= old(vmDisks) + {id}
    {
      hide ValidState;
      hide ValidVm;
      if !ValidId(id) || !ValidId(imageId) || !(1 <= vcpuCount <= 32) || !(512 <= memoryMiB <= 65536) {
        return Err(InvalidArgument);
      }
      if imageId !in memory.images {
        return Err(NotFound);
      }
      if id in memory.vms || |memory.vms| >= MAX_VMS {
        return Err(Conflict);
      }
      var copied := Succeeds();
      var identity: FileIdentity := *;
      if !copied {
        return Err(PermissionDenied);
      }
      vmDisks := vmDisks + {id};
      var vm := Vm(id, HcsId(sid, id), imageId, vcpuCount, memoryMiB, Created, [], now, DiskPath(id),
                   identity, "", Idle, false);
      NewVmIsValid(sid, memory.images, vm, now);
      AddingVmKeepsValid(sid, policy, memory, id, vm);
      memory := memory.(vms := memory.vms[id := vm]);
      var failure := Persist();
      if failure.Some? {
        memory := memory.(vms := memory.vms - {id});
        assert memory.vms == old(memory).vms;
        var removed: bool := *;
        vmDisks := if removed then vmDisks - {id} else vmDisks;
        return Err(failure.value);
      }
      return Ok(vm);
    }

    /** Only what the signed catalog names may be installed. */
    method CheckImageRequest(id: string, staged: string, sha256: string, sizeBytes: int)
      returns (refusal: Option<ServiceError>)
      requires ValidPolicy(policy)
      ensures refusal.None? <==>
        ValidId(id) && Acceptable(staged) && id in policy && RequestsSigned(policy[id], staged, sha256, sizeBytes)
      ensures refusal.Some? ==> refusal.value.PermissionDenied? || refusal.value.InvalidArgument?
      ensures !ValidId(id) ==> refusal == Some(InvalidArgument)
      ensures ValidId(id) && id !in policy ==> refusal == Some(PermissionDenied)
    {
      hide Acceptable;
      hide ValidSha256;
      if !ValidId(id) {
        return Some(InvalidArgument);
      }
      if id !in policy {
        return Some(PermissionDenied);
      }
      var resolved := ResolveRelativePath(staged);
      if resolved.Err? {
        return Some(InvalidArgument);
      }
      var trusted := policy[id];
      if resolved.value != "staging/" + trusted.stagingName {
        return Some(PermissionDenied);
      }
      if sha256 != "" {
        if !ValidSha256(sha256) || ToLower(sha256) != trusted.sha256 {
          return Some(InvalidArgument);
        }
      }
      if sizeBytes != 0 && sizeBytes != trusted.sizeBytes {
        return Some(InvalidArgument);
      }
      return None;
    }

    /** Installs a signed image once; a second call only finds it. */
    method EnsureImage(id: string, staged: string, sha256: string, sizeBytes: int, identity: FileIdentity)
      returns (result: Result<Image, ServiceError>)
      requires Valid()
      modifies this`memory, this`persisted, this`everPersisted, this`imageDisks, this`troubles
      ensures Valid()
      ensures old(everPersisted) <= everPersisted
      ensures result.Ok? ==>
        && id in memory.images && result.value == memory.images[id] && TrustedImage(policy, result.value)
        && (id in old(memory).images ==> memory == old(memory))
        && (id !in old(memory).images ==>
              && persisted == Some(memory) && id in imageDisks
              && result.value == Image(id, ImagePath(id), policy[id].sha256, policy[id].sizeBytes, identity)
              && memory.images == old(memory).images[id := result.value])
      ensures result.Ok? ==>
        ValidId(id) && Acceptable(staged) && id in policy && RequestsSigned(policy[id], staged, sha256, sizeBytes)
      ensures id !in policy || !RequestsSigned(policy[id], staged, sha256, sizeBytes) ==>
        unchanged(this) && (result.error.PermissionDenied? || result.error.InvalidArgument?)
      ensures
        ValidId(id) && Acceptable(staged) && id in policy && RequestsSigned(policy[id], staged, sha256, sizeBytes) ==>
        if id in old(memory).images || |old(memory).images| < MAX_IMAGES then (result.Ok? <==> troubles == old(troubles))
        else result == Err(Conflict) && unchanged(this)
      ensures result.Err? ==> memory == old(memory)
      ensures memory.vms == old(memory).vms
      ensures old(imageDisks) - {id} <= imageDisks <= old(imageDisks) + {id}
    {
      hide ValidVm;
      hide ValidImage;
      hide Acceptable;
      hide ValidSha256;
      hide RequestsSigned;
      var refusal := CheckImageRequest(id, staged, sha256, sizeBytes);
      if refusal.Some? {
        return Err(refusal.value);
      }
      var trusted := policy[id];
      if id in memory.images {
        StoredImageIsTrusted(policy, id, memory.images[id]);
        var verified := Succeeds();
        if !verified {
          return Err(PermissionDenied);
        }
        return Ok(memory.images[id]);
      }
      if |memory.images| >= MAX_IMAGES {
        return Err(Conflict);
      }
      var copied := Succeeds();
      if !copied {
        var partial: bool := *;
        imageDisks := if partial then imageDisks + {id} else imageDisks;
        return Err(InvalidArgument);
      }
      imageDisks := imageDisks + {id};
      var image := Image(id, ImagePath(id), trusted.sha256, trusted.sizeBytes, identity);
      AddingImageKeepsValid(sid, policy, memory, image);
      memory := memory.(images := memory.images[id := image]);
      var failure := Persist();
      if failure.Some? {
        memory := memory.(images := memory.images - {id});
        assert memory.images == old(memory).images;
        var removed: bool := *;
        imageDisks := if removed then imageDisks - {id} else imageDisks;
        return Err(failure.value);
      }
      return Ok(image);
    }

    /** Moves one record through its lifecycle in memory. */
    method SetVm(id: string, next: Vm)
      requires Valid() && id in memory.vms && LifecycleChange(memory.vms[id], next)
      modifies this`memory
      ensures Valid()
      ensures memory == old(memory).(vms := old(memory).vms[id := next])
    {
      hide ValidState;
      LifecycleChangeKeepsState(sid, policy, memory, id, next);
      memory := memory.(vms := memory.vms[id := next]);
    }

    method ClearPending(id: string)
      requires Valid() && id in memory.vms
      modifies this`memory, this`persisted, this`everPersisted, this`troubles
      ensures Valid()
      ensures memory == old(memory).(vms := old(memory).vms[id := old(memory).vms[id].(pending := Idle)])
      ensures old(everPersisted) <= everPersisted && old(troubles) <= troubles
    {
      hide ValidState;
      hide ValidVm;
      StoredVmFacts(sid, policy, memory, id);
      SetVm(id, memory.vms[id].(pending := Idle));
      var _ := Persist();
    }

    /** An operation is announced durably before it touches the system, or given up. */
    method Announce(id: string, pending: PendingOperation) returns (failure: Option<ServiceError>)
      requires Valid() && id in memory.vms
      modifies this`memory, this`persisted, this`everPersisted, this`troubles
      ensures Valid()
      ensures old(everPersisted) <= everPersisted && old(troubles) <= troubles
      ensures failure.None? <==> troubles == old(troubles)
      ensures failure.None? ==> persisted == Some(memory) && MarkedDurably(id, pending)
      ensures
        var marked := old(memory).vms[id].(pending := if failure.None? then pending else Idle);
        memory == old(memory).(vms := old(memory).vms[id := marked])
    {
      hide ValidState;
      hide ValidVm;
      var vm := memory.vms[id];
      StoredVmFacts(sid, policy, memory, id);
      SetVm(id, vm.(pending := pending));
      failure := Persist();
      if failure.Some? {
        SetVm(id, vm.(pending := Idle));
        assert memory.vms == old(memory).vms[id := vm.(pending := Idle)];
      }
    }

    /** Up to three looks at the hypervisor for a running system with a valid runtime identity. */
    method RuntimeId(id: HcsId) returns (runtimeId: Option<string>)
      modifies this`systems, this`troubles
      ensures OnlySystem(id) && old(troubles) <= troubles
      ensures runtimeId.Some? <==> troubles == old(troubles)
      ensures runtimeId.Some? ==>
        && id in systems && systems[id].state.SystemRunning? && IsGuid(systems[id].runtimeId)
        && runtimeId.value == ToLower(systems[id].runtimeId) && IsGuid(runtimeId.value)
    {
      hide IsGuid;
      var attempt := 0;
      while attempt < 3
        invariant OnlySystem(id) && troubles == old(troubles)
        decreases 3 - attempt
      {
        var answers := Succeeds();
        if !answers {
          return None;
        }
        if id in systems && systems[id].state.SystemRunning? && IsGuid(systems[id].runtimeId) {
          LowerGuid(systems[id].runtimeId);
          return Some(ToLower(systems[id].runtimeId));
        }
        SystemMoves(id);
        attempt := attempt + 1;
      }
      troubles := troubles + 1;
      return None;
    }

    /** The calls of a start that failed: nothing, or at least a last attempt to take the system down. */
    ghost predicate RolledBack(before: seq<HcsCall>, id: HcsId)
      reads this`calls
    {
      && before <= calls && (forall k :: |before| <= k < |calls| ==> calls[k].id == id)
      && (calls != before ==> calls[|calls| - 1] == TerminateCall(id))
    }

    lemma NothingToRollBack(before: seq<HcsCall>, id: HcsId)
      requires calls == before || calls == before + [CreateCall(id), StartCall(id)] + [TerminateCall(id)]
      ensures RolledBack(before, id)
    {
    }

    /** Create, start and identify the system, in this order; every failure tries to take it down again. */
    method Launch(id: string) returns (runtimeId: Option<string>)
      requires MarkedDurably(id, Starting)
      modifies this`systems, this`calls, this`troubles
      ensures OnlySystem(HcsId(sid, id))
      ensures runtimeId.Some? ==>
        && HcsId(sid, id) in systems && systems[HcsId(sid, id)].state.SystemRunning?
        && runtimeId.value == ToLower(systems[HcsId(sid, id)].runtimeId) && IsGuid(runtimeId.value)
        && calls == old(calls) + [CreateCall(HcsId(sid, id)), StartCall(HcsId(sid, id))]
      ensures runtimeId.None? ==> RolledBack(old(calls), HcsId(sid, id)) && calls != old(calls)
      ensures old(troubles) <= troubles && (runtimeId.Some? <==> troubles == old(troubles))
    {
      hide IsGuid;
      var created := CreateSystem(id);
      var revalidated := Succeeds();
      if !created || !revalidated {
        var _ := Terminate(HcsId(sid, id));
        return None;
      }
      var started := StartSystem(id);
      if !started {
        var _ := Terminate(HcsId(sid, id));
        return None;
      }
      runtimeId := RuntimeId(HcsId(sid, id));
      var channelOk := Succeeds();
      if runtimeId.None? || !channelOk {
        var _ := Terminate(HcsId(sid, id));
        return None;
      }
    }

    /** The running record becomes durable, or the system goes down again. */
    method CommitStart(id: string, vm: Vm, runtimeId: string, now: nat) returns (result: Result<Vm, ServiceError>)
      requires Valid() && now > 0 && id in memory.vms && IsGuid(runtimeId)
      requires memory.vms[id] == vm.(pending := Starting) && vm.updatedAt != 0 && vm.hcsId == HcsId(sid, id)
      modifies this`memory, this`persisted, this`everPersisted, this`systems, this`calls, this`troubles
      ensures Valid()
      ensures old(everPersisted) <= everPersisted
      ensures OnlySystem(HcsId(sid, id))
      ensures result.Ok? ==>
        && result.value == vm.(state := Running, runtimeId := runtimeId, pending := Idle, updatedAt := now)
        && systems == old(systems) && calls == old(calls) && persisted == Some(memory)
      ensures result.Err? ==> calls == old(calls) + [TerminateCall(HcsId(sid, id))]
      ensures old(troubles) <= troubles && (result.Ok? <==> troubles == old(troubles))
      ensures memory == old(memory).(vms := old(memory).vms[id := if result.Ok? then result.value else vm.(pending := Idle)])
    {
      hide ValidState;
      hide IsGuid;
      var running := vm.(state := Running, runtimeId := runtimeId, pending := Idle, updatedAt := now);
      LifecycleChangeKeepsState(sid, policy, memory, id, vm.(pending := Idle));
      SetVm(id, running);
      var uncommitted := Persist();
      if uncommitted.Some? {
        memory := memory.(vms := memory.vms[id := vm.(pending := Idle)]);
        assert memory.vms == old(memory).vms[id := vm.(pending := Idle)];
        var _ := Terminate(vm.hcsId);
        var _ := Persist();
        return Err(uncommitted.value);
      }
      return Ok(running);
    }

    method StartVm(id: string, now: nat) returns (result: Result<Vm, ServiceError>)
      requires Valid() && now > 0
      modifies this`memory, this`persisted, this`everPersisted, this`systems, this`calls, this`troubles
      ensures Valid()
      ensures old(everPersisted) <= everPersisted
      ensures OnlySystem(HcsId(sid, id))
      ensures result.Ok? ==>
        && id in old(memory).vms && !old(memory).vms[id].state.Running? && !old(memory).vms[id].deleting
        && HcsId(sid, id) in systems && systems[HcsId(sid, id)].state.SystemRunning?
        && result.value == old(memory).vms[id].(
             state := Running, runtimeId := ToLower(systems[HcsId(sid, id)].runtimeId), pending := Idle, updatedAt := now)
        && memory == old(memory).(vms := old(memory).vms[id := result.value])
        && persisted == Some(memory)
      ensures result.Ok? ==> calls == old(calls) + [CreateCall(HcsId(sid, id)), StartCall(HcsId(sid, id))]
      ensures result.Err? ==> RolledBack(old(calls), HcsId(sid, id))
      ensures !ValidId(id) ==> result == Err(InvalidArgument) && unchanged(this)
      ensures ValidId(id) && (id !in old(memory).vms || old(memory).vms[id].deleting) ==>
        result == Err(NotFound) && unchanged(this)
      ensures ValidId(id) && id in old(memory).vms && !old(memory).vms[id].deleting ==>
        if old(memory).vms[id].state.Running? then result == Err(Conflict) && unchanged(this)
        else (result.Ok? <==> troubles == old(troubles))
      ensures result.Err? ==>
        || memory == old(memory)
        || (id in old(memory).vms
            && memory == old(memory).(vms := old(memory).vms[id := old(memory).vms[id].(pending := Idle)]))
    {
      hide ValidState;
      hide IsGuid;
      hide ValidVm;
      hide RolledBack;
      NothingToRollBack(calls, HcsId(sid, id));
      if !ValidId(id) {
        return Err(InvalidArgument);
      }
      if id !in memory.vms || memory.vms[id].deleting {
        return Err(NotFound);
      }
      var vm := memory.vms[id];
      StoredVmFacts(sid, policy, memory, id);
      if vm.state.Running? {
        return Err(Conflict);
      }
      var resourcesOk := Succeeds();
      if !resourcesOk {
        return Err(PermissionDenied);
      }
      var unannounced := Announce(id, Starting);
      if unannounced.Some? {
        return Err(unannounced.value);
      }
      result := BringUp(id, vm, now);
    }

    /** The announced start, from the disk access to the durable running record. */
    method BringUp(id: string, vm: Vm, now: nat) returns (result: Result<Vm, ServiceError>)
      requires Valid() && now > 0 && MarkedDurably(id, Starting) && id in memory.vms
      requires memory.vms[id] == vm.(pending := Starting) && vm.updatedAt != 0 && vm.hcsId == HcsId(sid, id)
      modifies this`memory, this`persisted, this`everPersisted, this`systems, this`calls, this`troubles
      ensures Valid()
      ensures old(everPersisted) <= everPersisted
      ensures OnlySystem(HcsId(sid, id))
      ensures result.Ok? ==>
        && HcsId(sid, id) in systems && systems[HcsId(sid, id)].state.SystemRunning?
        && result.value == vm.(
             state := Running, runtimeId := ToLower(systems[HcsId(sid, id)].runtimeId), pending := Idle, updatedAt := now)
        && persisted == Some(memory)
      ensures result.Ok? ==> calls == old(calls) + [CreateCall(HcsId(sid, id)), StartCall(HcsId(sid, id))]
      ensures result.Err? ==> RolledBack(old(calls), HcsId(sid, id))
      ensures old(troubles) <= troubles && (result.Ok? <==> troubles == old(troubles))
      ensures memory == old(memory).(vms := old(memory).vms[id := if result.Ok? then result.value else vm.(pending := Idle)])
    {
      hide ValidState;
      hide IsGuid;
      hide RolledBack;
      var granted := Succeeds();
      if !granted {
        NothingToRollBack(old(calls), HcsId(sid, id));
        ClearPending(id);
        return Err(Unavailable);
      }
      var runtimeId := Launch(id);
      if runtimeId.None? {
        ClearPending(id);
        return Err(Unavailable);
      }
      result := CommitStart(id, vm, runtimeId.value, now);
      if result.Err? {
        NothingToRollBack(old(calls), HcsId(sid, id));
      }
    }

    method StopVm(id: string, force: bool, now: nat) returns (result: Result<Vm, ServiceError>)
      requires Valid() && now > 0
      modifies this`memory, this`persisted, this`everPersisted, this`systems, this`calls, this`troubles
      ensures Valid()
      ensures old(everPersisted) <= everPersisted
      ensures OnlySystem(HcsId(sid, id))
      ensures result.Ok? ==>
        && id in old(memory).vms && old(memory).vms[id].state.Running?
        && result.value == old(memory).vms[id].(state := Stopped, runtimeId := "", pending := Idle, updatedAt := now)
        && memory == old(memory).(vms := old(memory).vms[id := result.value])
        && persisted == Some(memory)
      ensures result.Ok? && force ==> IsDown(HcsId(sid, id))
      ensures result.Ok? ==>
        calls == old(calls) + [if force then TerminateCall(HcsId(sid, id)) else ShutdownCall(HcsId(sid, id))]
      ensures result.Err? ==>
        || calls == old(calls)
        || calls == old(calls) + [if force then TerminateCall(HcsId(sid, id)) else ShutdownCall(HcsId(sid, id))]
      ensures !ValidId(id) ==> result == Err(InvalidArgument) && unchanged(this)
      ensures ValidId(id) && (id !in old(memory).vms || old(memory).vms[id].deleting) ==>
        result == Err(NotFound) && unchanged(this)
      ensures ValidId(id) && id in old(memory).vms && !old(memory).vms[id].deleting ==>
        if !old(memory).vms[id].state.Running? then result == Err(Conflict) && unchanged(this)
        else (result.Ok? <==> troubles == old(troubles))
      ensures memory.images == old(memory).images && memory.vms.Keys == old(memory).vms.Keys
      ensures forall other :: other in memory.vms && other != id ==> memory.vms[other] == old(memory).vms[other]
      ensures result.Err? && memory != old(memory) ==>
        && id in memory.vms
        && (|| memory.vms[id] == old(memory).vms[id].(pending := Idle)
            || memory.vms[id] == old(memory).vms[id].(state := Stopped, runtimeId := "", pending := Idle, updatedAt := now))
    {
      hide ValidState;
      hide ValidVm;
      if !ValidId(id) {
        return Err(InvalidArgument);
      }
      if id !in memory.vms || memory.vms[id].deleting {
        return Err(NotFound);
      }
      var vm := memory.vms[id];
      StoredVmFacts(sid, policy, memory, id);
      if !vm.state.Running? {
        return Err(Conflict);
      }
      var unannounced := Announce(id, Stopping);
      if unannounced.Some? {
        return Err(unannounced.value);
      }
      var stopped := StopSystem(id, force);
      if !stopped {
        ClearPending(id);
        return Err(Unavailable);
      }
      var after := vm.(state := Stopped, runtimeId := "", pending := Idle, updatedAt := now);
      SetVm(id, after);
      var uncommitted := Persist();
      if uncommitted.Some? {
        return Err(uncommitted.value);
      }
      return Ok(after);
    }

    method DeleteVm(id: string) returns (result: Result<(), ServiceError>)
      requires Valid()
      modifies this`memory, this`persisted, this`everPersisted, this`vmDisks, this`troubles
      ensures Valid()
      ensures old(everPersisted) <= everPersisted
      ensures result.Ok? ==>
        && id in old(memory).vms && !old(memory).vms[id].state.Running?
        && memory == old(memory).(vms := old(memory).vms - {id})
        && persisted == Some(memory) && id !in vmDisks
      ensures !ValidId(id) ==> result == Err(InvalidArgument) && unchanged(this)
      ensures ValidId(id) && id !in old(memory).vms ==> result == Err(NotFound) && unchanged(this)
      ensures ValidId(id) && id in old(memory).vms ==>
        if old(memory).vms[id].state.Running? then result == Err(Conflict) && unchanged(this)
        else (result.Ok? <==> troubles == old(troubles))
      ensures vmDisks == old(vmDisks) || vmDisks == old(vmDisks) - {id}
      ensures memory.images == old(memory).images
      ensures memory.vms - {id} == old(memory).vms - {id}
      ensures id in memory.vms ==>
        id in old(memory).vms && memory.vms[id] == old(memory).vms[id].(deleting := memory.vms[id].deleting)
    {
      hide ValidState;
      hide ValidVm;
      if !ValidId(id) {
        return Err(InvalidArgument);
      }
      if id !in memory.vms {
        return Err(NotFound);
      }
      var vm := memory.vms[id];
      StoredVmFacts(sid, policy, memory, id);
      if vm.state.Running? {
        return Err(Conflict);
      }
      SetVm(id, vm.(deleting := true));
      var unannounced := Persist();
      if unannounced.Some? {
        SetVm(id, vm.(deleting := false));
        return Err(unannounced.value);
      }
      var accessRevoked := Succeeds();
      if !accessRevoked {
        return Err(PermissionDenied);
      }
      var removed := RemoveVmDisk(id);
      if !removed {
        return Err(Unavailable);
      }
      DroppingVmKeepsValid(sid, policy, memory, id);
      memory := memory.(vms := memory.vms - {id});
      var uncommitted := Persist();
      if uncommitted.Some? {
        return Err(uncommitted.value);
      }
      return Ok(());
    }

    /** What a request to attach is turned away with if the host has no trouble with it. */
    ghost function AttachRefusal(id: string, mountId: string, path: string, readOnly: bool, identity: FileIdentity):
      Option<ServiceError>
      reads this`memory
    {
      if !ValidId(id) || !ValidId(mountId) then Some(InvalidArgument)
      else if !readOnly then Some(PermissionDenied)
      else if !Acceptable(path) then Some(InvalidArgument)
      else if id !in memory.vms || memory.vms[id].deleting then Some(NotFound)
      else if memory.vms[id].state.Running? then Some(Conflict)
      else
        var workspaces := memory.vms[id].workspaces;
        if Workspace(mountId, Portable(path), true, identity) in workspaces then None
        else if (exists k :: 0 <= k < |workspaces| && workspaces[k].mountId == mountId) || |workspaces| >= MAX_WORKSPACES then
          Some(Conflict)
        else None
    }

    method AttachWorkspace(id: string, mountId: string, path: string, readOnly: bool, identity: FileIdentity, now: nat)
      returns (result: Result<Workspace, ServiceError>, ghost persisting: bool)
      requires Valid() && now > 0
      modifies this`memory, this`persisted, this`everPersisted, this`troubles
      ensures Valid()
      ensures old(everPersisted) <= everPersisted
      ensures memory.images == old(memory).images && memory.vms.Keys == old(memory).vms.Keys
      ensures forall other :: other in memory.vms && other != id ==> memory.vms[other] == old(memory).vms[other]
      ensures result.Ok? ==> id in memory.vms && Acceptable(path)
      ensures result.Ok? ==> result.value == Workspace(mountId, Portable(path), true, identity)
      ensures result.Ok? ==>
        || (memory == old(memory) && result.value in memory.vms[id].workspaces)
        || (persisted == Some(memory) && memory.vms[id] == WithWorkspace(old(memory).vms[id], result.value, now))
      ensures result.Err? && !persisting ==> memory == old(memory) && persisted == old(persisted)
      ensures result.Err? && persisting ==>
        && PersistError(result.error) && id in old(memory).vms
        && memory == old(memory).(vms := old(memory).vms[id := old(memory).vms[id].(updatedAt := now)])
      ensures result.Err? && result.error.Unavailable? ==> persisting
      ensures
        var refusal := old(AttachRefusal(id, mountId, path, readOnly, identity));
        if refusal.Some? && troubles == old(troubles) then result == Err(refusal.value) && unchanged(this)
        else (result.Ok? <==> troubles == old(troubles))
    {
      hide ValidState;
      hide ValidVm;
      hide Acceptable;
      persisting := false;
      if !ValidId(id) || !ValidId(mountId) {
        return Err(InvalidArgument), persisting;
      }
      if !readOnly {
        return Err(PermissionDenied), persisting;
      }
      var resolved := ResolveRelativePath(path);
      if resolved.Err? {
        return Err(InvalidArgument), persisting;
      }
      StoredPathIsAcceptedAgain(path);
      var reachable := Succeeds();
      var missing: bool := *;
      if !reachable {
        return Err(if missing then NotFound else PermissionDenied), persisting;
      }
      if id !in memory.vms || memory.vms[id].deleting {
        return Err(NotFound), persisting;
      }
      var vm := memory.vms[id];
      StoredVmFacts(sid, policy, memory, id);
      if vm.state.Running? {
        return Err(Conflict), persisting;
      }
      var attachment := Workspace(mountId, resolved.value, true, identity);
      StoredMountsDiffer(sid, policy, memory, id);
      var i := 0;
      while i < |vm.workspaces|
        invariant 0 <= i <= |vm.workspaces|
        invariant forall k :: 0 <= k < i ==> vm.workspaces[k].mountId != mountId
      {
        if vm.workspaces[i].mountId == mountId {
          if vm.workspaces[i] == attachment {
            return Ok(attachment), persisting;
          }
          return Err(Conflict), persisting;
        }
        i := i + 1;
      }
      if |vm.workspaces| >= MAX_WORKSPACES {
        return Err(Conflict), persisting;
      }
      var attached := WithWorkspace(vm, attachment, now);
      AttachingKeepsValid(sid, memory.images, id, vm, attachment, now);
      ReplacingVmKeepsValid(sid, policy, memory, id, attached);
      memory := memory.(vms := memory.vms[id := attached]);
      persisting := true;
      var failure := Persist();
      if failure.Some? {
        LifecycleChangeKeepsState(sid, policy, old(memory), id, vm.(updatedAt := now));
        memory := memory.(vms := memory.vms[id := vm.(updatedAt := now)]);
        assert memory.vms == old(memory).vms[id := vm.(updatedAt := now)];
        return Err(failure.value), persisting;
      }
      return Ok(attachment), persisting;
    }

    // Start-up

    /** A new process reads the file back, or starts one; what the old process knew is gone. */
    method Restart() returns (ok: bool)
      requires ValidPolicy(policy) && Reloadable()
      modifies this`memory, this`persisted, this`everPersisted, this`troubles
      ensures ok <==> troubles == old(troubles)
      ensures old(everPersisted) <= everPersisted
      ensures ok <== old(persisted).Some?
      ensures Valid() && (ok ==> persisted == Some(memory))
      ensures ok && old(persisted).Some? ==> persisted == old(persisted)
      ensures ok && old(persisted).None? ==> memory == ServiceState(map[], map[])
    {
      hide ValidVm;
      hide ValidImage;
      if persisted.None? {
        memory := ServiceState(map[], map[]);
        var failure := Persist();
        ok := failure.None?;
        return;
      }
      memory := persisted.value;
      ok := ValidateState(sid, policy, memory);
    }

    /** First pass: systems of this owner that no record knows are taken down. */
    method TerminateOrphans() returns (ok: bool)
      requires Valid()
      modifies this`systems, this`calls, this`troubles
      ensures ok <==> troubles == old(troubles)
      ensures Valid() && OnlyTerminations(old(calls), calls)
      ensures ForeignKept(owner, old(systems), systems)
      ensures forall h :: Known(h) ==>
        (h in systems <==> h in old(systems)) && (h in systems ==> systems[h] == old(systems)[h])
      ensures ok ==> forall h :: !Known(h) ==> Quiet(owner, systems, h)
    {
      hide ValidState;
      var todo := systems.Keys;
      while todo != {}
        invariant todo <= old(systems).Keys && troubles == old(troubles)
        invariant ForeignKept(owner, old(systems), systems) && OnlyTerminations(old(calls), calls)
        invariant forall h :: Known(h) || h in todo ==>
          (h in systems <==> h in old(systems)) && (h in systems ==> systems[h] == old(systems)[h])
        invariant forall h :: !Known(h) && h !in todo ==> Quiet(owner, systems, h)
        decreases todo
      {
        var id :| id in todo;
        var known := id.sid == sid && id.vmId in memory.vms;
        if Owned(owner, systems[id]) && !known {
          var answer := Terminate(id);
          if answer.Failed? {
            return false;
          }
        }
        todo := todo - {id};
      }
      return true;
    }

    /** An interrupted deletion is carried through; its directory may linger until the disk scan. */
    method FinishDeletion(id: string, seen: Option<System>) returns (ok: bool)
      requires Valid() && id in memory.vms
      requires seen == Seen(owner, systems, HcsId(sid, id))
      modifies this`memory, this`systems, this`calls, this`vmDisks, this`troubles
      ensures ok <==> troubles == old(troubles)
      ensures Valid() && OnlyTerminations(old(calls), calls)
      ensures OnlySystem(HcsId(sid, id))
      ensures seen.None? ==> systems == old(systems)
      ensures ok ==>
        && memory == old(memory).(vms := old(memory).vms - {id})
        && Quiet(owner, systems, HcsId(sid, id))
      ensures !ok ==> memory == old(memory)
    {
      hide ValidState;
      if seen.Some? && !seen.value.state.SystemStopped? {
        var answer := Terminate(HcsId(sid, id));
        if answer.Failed? {
          return false;
        }
      }
      var removed: bool := *;
      vmDisks := if removed then vmDisks - {id} else vmDisks;
      DroppingVmKeepsValid(sid, policy, memory, id);
      memory := memory.(vms := memory.vms - {id});
      return true;
    }

    /** A record whose system does not run as it should: whatever is left of the system goes, and the record says so. */
    method TakeDown(id: string, seen: Option<System>, now: nat) returns (ok: bool, changed: bool)
      requires Valid() && id in memory.vms && now > 0
      modifies this`memory, this`systems, this`calls, this`troubles
      ensures ok <==> troubles == old(troubles)
      ensures Valid() && OnlyTerminations(old(calls), calls)
      ensures OnlySystem(HcsId(sid, id)) && (seen.None? ==> systems == old(systems))
      ensures ok && seen.Some? ==> IsDown(HcsId(sid, id))
      ensures !ok ==> memory == old(memory)
      ensures
        var vm := old(memory).vms[id];
        ok ==>
          && (changed <==> vm.state.Running? || vm.runtimeId != "" || !vm.pending.Idle?)
          && memory ==
             if !changed then old(memory)
             else
               var state := if vm.state.Running? || vm.pending.Stopping? then Stopped else vm.state;
               old(memory).(vms := old(memory).vms[
                              id := vm.(state := state, runtimeId := "", pending := Idle, updatedAt := now)])
    {
      hide ValidState;
      hide ValidVm;
      var vm := memory.vms[id];
      StoredVmFacts(sid, policy, memory, id);
      changed := false;
      if seen.Some? {
        var answer := Terminate(vm.hcsId);
        if answer.Failed? {
          return false, changed;
        }
      }
      if vm.state.Running? || vm.runtimeId != "" || !vm.pending.Idle? {
        var state := if vm.state.Running? || vm.pending.Stopping? then Stopped else vm.state;
        SetVm(id, vm.(state := state, runtimeId := "", pending := Idle, updatedAt := now));
        changed := true;
      }
      return true, changed;
    }

    /** Second pass: one record against what enumeration showed of its system. */
    method ReconcileRecord(id: string, byId: map<HcsId, System>, now: nat) returns (ok: bool, changed: bool)
      requires Valid() && id in memory.vms && now > 0
      requires Seen(owner, byId, HcsId(sid, id)) == Seen(owner, systems, HcsId(sid, id))
      modifies this`memory, this`systems, this`calls, this`vmDisks, this`troubles
      ensures ok <==> troubles == old(troubles)
      ensures Valid() && OnlyTerminations(old(calls), calls)
      ensures OnlySystem(HcsId(sid, id))
      ensures Seen(owner, byId, HcsId(sid, id)).None? ==> systems == old(systems)
      ensures memory.images == old(memory).images && memory.vms.Keys <= old(memory).vms.Keys
      ensures forall other :: other in old(memory).vms && other != id ==>
        other in memory.vms && memory.vms[other] == old(memory).vms[other]
      ensures ok ==> RecordDone(owner, old(memory).vms[id], memory.vms, byId, systems, now)
      ensures ok ==> (changed <==> !(id in memory.vms && memory.vms[id] == old(memory).vms[id]))
    {
      hide ValidState;
      hide ValidVm;
      hide IsGuid;
      var vm := memory.vms[id];
      var seen := Seen(owner, byId, vm.hcsId);
      StoredVmFacts(sid, policy, memory, id);
      changed := false;
      if vm.deleting {
        ok := FinishDeletion(id, seen);
        return ok, true;
      }
      ReconcileSettles(sid, memory.images, vm, seen, now);
      if seen.Some? && seen.value.state.SystemRunning? && IsGuid(seen.value.runtimeId) {
        if !vm.state.Running? || !EqualFold(vm.runtimeId, seen.value.runtimeId) || !vm.pending.Idle? {
          LowerGuid(seen.value.runtimeId);
          SetVm(id, vm.(state := Running, runtimeId := ToLower(seen.value.runtimeId), pending := Idle, updatedAt := now));
          changed := true;
        }
        return true, changed;
      }
      ok, changed := TakeDown(id, seen, now);
    }

    method ReconcileRecords(now: nat) returns (ok: bool, changed: bool)
      requires Valid() && now > 0
      requires forall h :: !Known(h) ==> Quiet(owner, systems, h)
      modifies this`memory, this`systems, this`calls, this`vmDisks, this`troubles
      ensures ok <==> troubles == old(troubles)
      ensures Valid() && OnlyTerminations(old(calls), calls)
      ensures ForeignKept(owner, old(systems), systems)
      ensures ok ==>
        && memory.images == old(memory).images
        && memory.vms == ReconciledVms(owner, old(memory).vms, old(systems), now)
        && (changed <==> memory != old(memory))
      ensures ok ==> Agreed()
    {
      hide ValidState;
      hide ValidVm;
      hide RecordDone;
      hide Settled;
      ghost var was := memory.vms;
      forall id | id in was
        ensures ValidVm(sid, memory.images, id, was[id]) && was[id].id == id && was[id].hcsId == HcsId(sid, id)
      {
        StoredVmFacts(sid, policy, memory, id);
      }
      var byId := systems;
      var todo := memory.vms.Keys;
      changed := false;
      while todo != {}
        invariant Valid() && ForeignKept(owner, byId, systems) && OnlyTerminations(old(calls), calls)
        invariant memory.images == old(memory).images && troubles == old(troubles)
        invariant Progress(owner, was, memory.vms, byId, systems, todo, now)
        invariant forall h: HcsId :: h.sid != sid || h.vmId !in was ==> Quiet(owner, systems, h)
        invariant changed <==> memory.vms != was
        decreases todo
      {
        var id :| id in todo;
        ghost var vms, atStart := memory.vms, systems;
        assert RecordPending(owner, was[id], vms, byId, systems);
        var recordChanged;
        ok, recordChanged := ReconcileRecord(id, byId, now);
        if !ok {
          return;
        }
        ProgressStep(sid, owner, was, vms, memory.vms, byId, atStart, systems, todo, id, now);
        todo := todo - {id};
        changed := changed || recordChanged;
      }
      ok := true;
      ProgressEnds(sid, owner, memory.images, was, memory.vms, byId, systems, now);
    }

    method ReconcileMetadata(now: nat) returns (ok: bool, changed: bool)
      requires Valid() && now > 0
      modifies this`memory, this`systems, this`calls, this`vmDisks, this`troubles
      ensures ok <==> troubles == old(troubles)
      ensures Valid() && OnlyTerminations(old(calls), calls)
      ensures ForeignKept(owner, old(systems), systems)
      ensures ok ==>
        && memory.images == old(memory).images
        && memory.vms == ReconciledVms(owner, old(memory).vms, old(systems), now)
        && (changed <==> memory != old(memory))
      ensures ok ==> Agreed()
    {
      hide ValidState;
      hide ReconciledVms;
      hide Agreed;
      changed := false;
      ok := TerminateOrphans();
      if !ok {
        return;
      }
      ReconciledVmsDependsOnSeen(sid, owner, policy, memory, old(systems), systems, now);
      ok, changed := ReconcileRecords(now);
    }

    /** Third pass: directories that no record names. */
    method RemoveOrphanVmDisks() returns (ok: bool)
      modifies this`vmDisks, this`troubles
      ensures ok <==> troubles == old(troubles)
      ensures old(vmDisks) * memory.vms.Keys <= vmDisks <= old(vmDisks)
      ensures ok ==> vmDisks <= memory.vms.Keys
    {
      var entries := vmDisks;
      while entries != {}
        invariant old(vmDisks) * memory.vms.Keys <= vmDisks <= old(vmDisks)
        invariant vmDisks <= memory.vms.Keys + entries && troubles == old(troubles)
        decreases entries
      {
        var entry :| entry in entries;
        if entry !in memory.vms {
          ok := Succeeds();
          if !ok {
            return;
          }
          vmDisks := vmDisks - {entry};
        }
        entries := entries - {entry};
      }
      ok := true;
    }

    method RemoveOrphanImages() returns (ok: bool)
      modifies this`imageDisks, this`troubles
      ensures ok <==> troubles == old(troubles)
      ensures old(imageDisks) * memory.images.Keys <= imageDisks <= old(imageDisks)
      ensures ok ==> imageDisks <= memory.images.Keys
    {
      var entries := imageDisks;
      while entries != {}
        invariant old(imageDisks) * memory.images.Keys <= imageDisks <= old(imageDisks)
        invariant imageDisks <= memory.images.Keys + entries && troubles == old(troubles)
        decreases entries
      {
        var entry :| entry in entries;
        if entry !in memory.images {
          ok := Succeeds();
          if !ok {
            return;
          }
          imageDisks := imageDisks - {entry};
        }
        entries := entries - {entry};
      }
      ok := true;
    }

    /**
     Whatever an interrupted operation left in the file, at the hypervisor and on disk, a
     successful pass makes the three agree. It never touches another owner's systems,
     and from an agreeing state it changes no metadata.
     */
    method Reconcile(now: nat) returns (ok: bool)
      requires Valid() && now > 0 && persisted == Some(memory)
      modifies this`memory, this`persisted, this`everPersisted, this`systems, this`calls, this`vmDisks, this`imageDisks, this`troubles
      ensures ok <==> troubles == old(troubles)
      ensures Valid() && OnlyTerminations(old(calls), calls)
      ensures old(everPersisted) <= everPersisted
      ensures ForeignKept(owner, old(systems), systems)
      ensures ok ==> Consistent()
      ensures ok ==>
        && memory.images == old(memory).images
        && memory.vms == ReconciledVms(owner, old(memory).vms, old(systems), now)
      ensures ok && old(Consistent()) ==> memory == old(memory) && persisted == old(persisted)
    {
      hide ValidState;
      hide Settled;
      hide ReconcileVm;
      if old(Consistent()) {
        ReconcileIsIdempotent(owner, memory.vms, systems, now);
      }
      var changed;
      ok, changed := ReconcileMetadata(now);
      if !ok {
        return;
      }
      ok := RemoveOrphanVmDisks();
      if !ok {
        return;
      }
      ok := RemoveOrphanImages();
      if !ok {
        return;
      }
      if changed {
        var failure := Persist();
        ok := failure.None?;
      }
    }

    /** A running VM whose guest channel cannot be reopened is stopped. */
    method RecoverGuestChannel(id: string, now: nat) returns (ok: bool, changed: bool)
      requires Valid() && Agreed() && now > 0 && id in memory.vms && memory.vms[id].state.Running?
      modifies this`memory, this`systems, this`calls, this`troubles
      ensures ok <==> troubles == old(troubles)
      ensures Valid() && OnlyTerminations(old(calls), calls)
      ensures ForeignKept(owner, old(systems), systems)
      ensures memory.images == old(memory).images && memory.vms.Keys == old(memory).vms.Keys
      ensures ok ==> Agreed()
      ensures ok && !changed ==> memory == old(memory) && systems == old(systems)
      ensures !ok ==> memory == old(memory)
      ensures ok && changed ==>
        memory.vms == old(memory).vms[id := old(memory).vms[id].(state := Stopped, runtimeId := "", updatedAt := now)]
    {
      hide ValidState;
      hide ValidVm;
      hide IsGuid;
      var vm := memory.vms[id];
      StoredVmFacts(sid, policy, memory, id);
      assert Settled(vm, Seen(owner, systems, vm.hcsId));
      var reopened: bool := *;
      if reopened {
        return true, false;
      }
      var answer := Terminate(vm.hcsId);
      if answer.Failed? {
        return false, false;
      }
      SetVm(id, vm.(state := Stopped, runtimeId := "", pending := Idle, updatedAt := now));
      forall other | other in memory.vms
        ensures Settled(memory.vms[other], Seen(owner, systems, memory.vms[other].hcsId))
      {
        StoredVmFacts(sid, policy, memory, other);
        assert other != id ==> Settled(memory.vms[other], Seen(owner, old(systems), memory.vms[other].hcsId));
      }
      forall h
        ensures Accounted(h)
      {
        assert old(Accounted(h));
      }
      return true, true;
    }

    static predicate KeptOrStopped(before: Vm, after: Vm, now: nat) {
      || after == before
      || (before.state.Running? && after == before.(state := Stopped, runtimeId := "", updatedAt := now))
    }

    method RecoverGuestChannels(now: nat) returns (ok: bool)
      requires Valid() && Consistent() && now > 0
      modifies this`memory, this`persisted, this`everPersisted, this`systems, this`calls, this`troubles
      ensures ok <==> troubles == old(troubles)
      ensures Valid() && OnlyTerminations(old(calls), calls)
      ensures old(everPersisted) <= everPersisted
      ensures ForeignKept(owner, old(systems), systems)
      ensures ok ==> Consistent()
      ensures memory.vms.Keys == old(memory).vms.Keys && memory.images == old(memory).images
      ensures forall id :: id in memory.vms ==> KeptOrStopped(old(memory).vms[id], memory.vms[id], now)
    {
      hide ValidState;
      hide Agreed;
      hide ForeignKept;
      assert ForeignKept(owner, systems, systems) by { ForeignKeptIsTransitive(owner, systems, systems, systems); }
      var required: bool := *;
      if !required {
        return true;
      }
      var ids := set id | id in memory.vms && memory.vms[id].state.Running?;
      var changed := false;
      while ids != {}
        invariant Valid() && Agreed() && ForeignKept(owner, old(systems), systems) && OnlyTerminations(old(calls), calls)
        invariant memory.vms.Keys == old(memory).vms.Keys && memory.images == old(memory).images
        invariant forall id :: id in ids ==>
          id in memory.vms && memory.vms[id] == old(memory).vms[id] && memory.vms[id].state.Running?
        invariant !changed ==> memory == old(memory)
        invariant persisted == old(persisted) && everPersisted == old(everPersisted) && troubles == old(troubles)
        invariant forall id :: id in memory.vms ==> KeptOrStopped(old(memory).vms[id], memory.vms[id], now)
        decreases ids
      {
        var id :| id in ids;
        ghost var atStart := systems;
        var stopped;
        ok, stopped := RecoverGuestChannel(id, now);
        ForeignKeptIsTransitive(owner, old(systems), atStart, systems);
        if !ok {
          return;
        }
        changed := changed || stopped;
        ids := ids - {id};
      }
      ok := true;
      if changed {
        var failure := Persist();
        ok := failure.None?;
      }
    }

    /** Start-up as a whole, from whatever the last process left behind. */
    method Start(now: nat) returns (ok: bool)
      requires ValidPolicy(policy) && Reloadable() && now > 0
      modifies this
      ensures ok <==> troubles == old(troubles)
      ensures old(everPersisted) <= everPersisted
      ensures ForeignKept(owner, old(systems), systems)
      ensures Valid() && (ok ==> Consistent()) && OnlyTerminations(old(calls), calls)
    {
      hide ValidState;
      hide ForeignKept;
      hide Consistent;
      assert ForeignKept(owner, systems, systems) by { ForeignKeptIsTransitive(owner, systems, systems, systems); }
      ok := Restart();
      if !ok {
        return;
      }
      ok := Reconcile(now);
      if !ok {
        return;
      }
      ghost var reconciled := systems;
      ok := RecoverGuestChannels(now);
      ForeignKeptIsTransitive(owner, old(systems), reconciled, systems);
    }
  }
}
