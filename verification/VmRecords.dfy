/**
 The metadata of the Windows VM service: its records, how they may change, and the
 check made on every load.
 */
module VmRecords {
  import opened Wrappers
  import opened Text
  import opened PathRules

  const MAX_IMAGES: nat := 64
  const MAX_VMS: nat := 64
  const MAX_WORKSPACES: nat := 32

  datatype VmState = Created | Running | Stopped

  /** The write-ahead marker of an operation that is about to touch the hypervisor. */
  datatype PendingOperation = Idle | Starting | Stopping

  /** Derived from the owner and the VM by a digest, which is taken to be injective. */
  datatype HcsId = HcsId(sid: string, vmId: string)

  datatype FileIdentity = FileIdentity(volume: nat, low: nat, high: nat)

  /** A guest image of the signed catalog. */
  datatype Trusted = Trusted(stagingName: string, sha256: string, sizeBytes: int)

  datatype Image = Image(
    id: string, relativePath: string, sha256: string, sizeBytes: int, identity: FileIdentity)

  datatype Workspace = Workspace(
    mountId: string, relativePath: string, readOnly: bool, identity: FileIdentity)

  datatype Vm = Vm(
    id: string, hcsId: HcsId, imageId: string, vcpuCount: nat, memoryMiB: nat, state: VmState,
    workspaces: seq<Workspace>, updatedAt: nat, diskRelativePath: string,
    diskIdentity: FileIdentity, runtimeId: string, pending: PendingOperation, deleting: bool)

  datatype ServiceState = ServiceState(images: map<string, Image>, vms: map<string, Vm>)

  datatype SystemState = SystemRunning | SystemStopped | SystemOther

  datatype System = System(owner: string, virtualMachine: bool, state: SystemState, runtimeId: string)

  predicate IsHex(c: char) {
    '0' <= c <= '9' || 'a' <= Lower(c) <= 'f'
  }

  /** A version 1 to 5 GUID in either case. */
  predicate IsGuid(text: string) {
    && |text| == 36
    && text[8] == '-' && text[13] == '-' && text[18] == '-' && text[23] == '-'
    && '1' <= text[14] <= '5'
    && (text[19] == '8' || text[19] == '9' || Lower(text[19]) == 'a' || Lower(text[19]) == 'b')
    && forall i :: 0 <= i < 36 && i !in {8, 13, 18, 23} ==> IsHex(text[i])
  }

  predicate ValidSha256(text: string) {
    |text| == 64 && forall i :: 0 <= i < 64 ==> IsHex(text[i])
  }

  function ImagePath(id: string): string {
    ".vm-service/installed/" + id + "/disk.vhdx"
  }

  function DiskPath(id: string): string {
    ".vm-service/vms/" + id + "/disk.vhdx"
  }

  predicate TrustedImage(policy: map<string, Trusted>, image: Image) {
    && image.id in policy
    && image.sha256 == policy[image.id].sha256
    && image.sizeBytes == policy[image.id].sizeBytes
  }

  /** The staged file is the one the catalog names, and what the caller says of it, if anything, agrees. */
  predicate RequestsSigned(trusted: Trusted, staged: string, sha256: string, sizeBytes: int) {
    && Portable(staged) == "staging/" + trusted.stagingName
    && (sha256 == "" || (ValidSha256(sha256) && ToLower(sha256) == trusted.sha256))
    && (sizeBytes == 0 || sizeBytes == trusted.sizeBytes)
  }

  predicate ValidImage(policy: map<string, Trusted>, id: string, image: Image) {
    && ValidId(id) && image.id == id && image.sizeBytes > 0
    && ValidSha256(image.sha256)
    && image.relativePath == ImagePath(id)
    && TrustedImage(policy, image)
  }

  predicate ValidWorkspace(workspace: Workspace) {
    ValidId(workspace.mountId) && workspace.readOnly && Acceptable(workspace.relativePath)
  }

  predicate ValidWorkspaces(workspaces: seq<Workspace>) {
    && |workspaces| <= MAX_WORKSPACES
    && (forall i :: 0 <= i < |workspaces| ==> ValidWorkspace(workspaces[i]))
    && (forall i, j :: 0 <= i < j < |workspaces| ==> workspaces[i].mountId != workspaces[j].mountId)
  }

  predicate ValidVm(sid: string, images: map<string, Image>, id: string, vm: Vm) {
    && ValidId(id) && vm.id == id && vm.hcsId == HcsId(sid, id) && vm.updatedAt != 0
    && vm.imageId in images && 1 <= vm.vcpuCount <= 32 && 512 <= vm.memoryMiB <= 65536
    && vm.diskRelativePath == DiskPath(id)
    && (vm.runtimeId != "" ==> IsGuid(vm.runtimeId))
    && ValidWorkspaces(vm.workspaces)
  }

  /** What the service demands of the metadata file before it uses it. */
  predicate ValidState(sid: string, policy: map<string, Trusted>, state: ServiceState) {
    && |state.images| <= MAX_IMAGES && |state.vms| <= MAX_VMS
    && (forall id :: id in state.images ==> ValidImage(policy, id, state.images[id]))
    && (forall id :: id in state.vms ==> ValidVm(sid, state.images, id, state.vms[id]))
  }

  predicate ValidPolicy(policy: map<string, Trusted>) {
    forall id :: id in policy ==> ValidSha256(policy[id].sha256) && policy[id].sizeBytes > 0
  }

  /** The lifecycle fields may change freely; only the runtime identity and the time are checked. */
  predicate LifecycleChange(vm: Vm, next: Vm) {
    && next == vm.(state := next.state, runtimeId := next.runtimeId, pending := next.pending,
                   deleting := next.deleting, updatedAt := next.updatedAt)
    && (next.runtimeId == "" || next.runtimeId == vm.runtimeId || IsGuid(next.runtimeId))
    && next.updatedAt != 0
  }

  lemma ValidVmFacts(sid: string, images: map<string, Image>, id: string, vm: Vm)
    requires ValidVm(sid, images, id, vm)
    ensures vm.id == id && vm.hcsId == HcsId(sid, id) && vm.updatedAt != 0
    ensures forall next :: LifecycleChange(vm, next) ==> ValidVm(sid, images, id, next)
  {
  }

  lemma ReplacingVmKeepsValid(sid: string, policy: map<string, Trusted>, state: ServiceState, id: string, vm: Vm)
    requires ValidState(sid, policy, state) && id in state.vms && ValidVm(sid, state.images, id, vm)
    ensures ValidState(sid, policy, state.(vms := state.vms[id := vm]))
  {
    hide ValidVm;
    hide ValidImage;
    assert state.vms[id := vm].Keys == state.vms.Keys;
  }

  lemma StoredImageIsTrusted(policy: map<string, Trusted>, id: string, image: Image)
    requires ValidImage(policy, id, image)
    ensures TrustedImage(policy, image)
  {
  }

  lemma SignedImageIsValid(policy: map<string, Trusted>, image: Image)
    requires ValidPolicy(policy) && ValidId(image.id) && TrustedImage(policy, image)
    requires image.relativePath == ImagePath(image.id)
    ensures ValidImage(policy, image.id, image)
  {
  }

  lemma MoreImagesKeepVmValid(
    sid: string, images: map<string, Image>, more: map<string, Image>, id: string, vm: Vm)
    requires ValidVm(sid, images, id, vm) && images.Keys <= more.Keys
    ensures ValidVm(sid, more, id, vm)
  {
  }

  /** New images keep every record valid, because records only need their image to exist. */
  lemma AddingImageKeepsValid(sid: string, policy: map<string, Trusted>, state: ServiceState, image: Image)
    requires ValidState(sid, policy, state) && ValidPolicy(policy)
    requires |state.images| < MAX_IMAGES && image.id !in state.images && ValidId(image.id)
    requires TrustedImage(policy, image) && image.relativePath == ImagePath(image.id)
    ensures ValidState(sid, policy, state.(images := state.images[image.id := image]))
  {
    hide ValidVm;
    hide ValidImage;
    hide ValidSha256;
    hide ValidPolicy;
    hide ValidId;
    hide TrustedImage;
    var images := state.images[image.id := image];
    assert images.Keys == state.images.Keys + {image.id};
    SignedImageIsValid(policy, image);
    forall id | id in state.vms
      ensures ValidVm(sid, images, id, state.vms[id])
    {
      MoreImagesKeepVmValid(sid, state.images, images, id, state.vms[id]);
    }
  }

  lemma StoredVmFacts(sid: string, policy: map<string, Trusted>, state: ServiceState, id: string)
    requires ValidState(sid, policy, state) && id in state.vms
    ensures
      var vm := state.vms[id];
      vm.id == id && vm.hcsId == HcsId(sid, id) && vm.updatedAt != 0 && ValidVm(sid, state.images, id, vm)
  {
    ValidVmFacts(sid, state.images, id, state.vms[id]);
  }

  lemma StoredMountsDiffer(sid: string, policy: map<string, Trusted>, state: ServiceState, id: string)
    requires ValidState(sid, policy, state) && id in state.vms
    ensures
      var workspaces := state.vms[id].workspaces;
      forall a, b :: 0 <= a < b < |workspaces| ==> workspaces[a].mountId != workspaces[b].mountId
  {
    StoredVmFacts(sid, policy, state, id);
  }

  lemma LifecycleChangeKeepsState(
    sid: string, policy: map<string, Trusted>, state: ServiceState, id: string, next: Vm)
    requires ValidState(sid, policy, state) && id in state.vms && LifecycleChange(state.vms[id], next)
    ensures ValidState(sid, policy, state.(vms := state.vms[id := next]))
  {
    ValidVmFacts(sid, state.images, id, state.vms[id]);
    ReplacingVmKeepsValid(sid, policy, state, id, next);
  }

  lemma AddingVmKeepsValid(sid: string, policy: map<string, Trusted>, state: ServiceState, id: string, vm: Vm)
    requires ValidState(sid, policy, state) && |state.vms| < MAX_VMS
    requires id !in state.vms && ValidVm(sid, state.images, id, vm)
    ensures ValidState(sid, policy, state.(vms := state.vms[id := vm]))
  {
    hide ValidVm;
    hide ValidImage;
    OneMore(state.vms, id, vm);
  }

  lemma OneMore<V>(records: map<string, V>, id: string, record: V)
    requires id !in records
    ensures |records[id := record]| == |records| + 1
  {
    assert records[id := record].Keys == records.Keys + {id};
  }

  lemma NewVmIsValid(sid: string, images: map<string, Image>, vm: Vm, now: nat)
    requires ValidId(vm.id) && vm.imageId in images && now > 0
    requires 1 <= vm.vcpuCount <= 32 && 512 <= vm.memoryMiB <= 65536
    requires vm == Vm(vm.id, HcsId(sid, vm.id), vm.imageId, vm.vcpuCount, vm.memoryMiB, Created, [], now,
                      DiskPath(vm.id), vm.diskIdentity, "", Idle, false)
    ensures ValidVm(sid, images, vm.id, vm)
  {
  }

  function WithWorkspace(vm: Vm, workspace: Workspace, now: nat): Vm {
    vm.(workspaces := vm.workspaces + [workspace], updatedAt := now)
  }

  lemma AttachingKeepsValid(
    sid: string, images: map<string, Image>, id: string, vm: Vm, workspace: Workspace, now: nat)
    requires ValidVm(sid, images, id, vm) && ValidWorkspace(workspace) && now > 0
    requires |vm.workspaces| < MAX_WORKSPACES
    requires forall i :: 0 <= i < |vm.workspaces| ==> vm.workspaces[i].mountId != workspace.mountId
    ensures ValidVm(sid, images, id, WithWorkspace(vm, workspace, now))
  {
  }

  lemma DroppingVmKeepsValid(sid: string, policy: map<string, Trusted>, state: ServiceState, id: string)
    requires ValidState(sid, policy, state)
    ensures ValidState(sid, policy, state.(vms := state.vms - {id}))
  {
    hide ValidVm;
    hide ValidImage;
    if id in state.vms {
      assert state.vms.Keys == (state.vms - {id}).Keys + {id};
    }
  }

  lemma LowerGuid(text: string)
    requires IsGuid(text)
    ensures IsGuid(ToLower(text)) && EqualFold(ToLower(text), text)
  {
  }

  /** The check made on load, with its loops and early exits, decides exactly `ValidState`. */
  method ValidateState(sid: string, policy: map<string, Trusted>, state: ServiceState) returns (ok: bool)
    ensures ok <==> ValidState(sid, policy, state)
  {
    hide ValidVm;
    hide ValidImage;
    if |state.images| > MAX_IMAGES || |state.vms| > MAX_VMS {
      return false;
    }
    var imagesOk := ValidateImages(policy, state.images);
    if !imagesOk {
      return false;
    }
    var todo := state.vms.Keys;
    while todo != {}
      invariant todo <= state.vms.Keys
      invariant forall id :: id in state.vms && id !in todo ==> ValidVm(sid, state.images, id, state.vms[id])
      decreases todo
    {
      var id :| id in todo;
      var vmOk := ValidateVm(sid, state.images, id, state.vms[id]);
      if !vmOk {
        return false;
      }
      todo := todo - {id};
    }
    return true;
  }

  method ValidateImages(policy: map<string, Trusted>, images: map<string, Image>) returns (ok: bool)
    ensures ok <==> forall id :: id in images ==> ValidImage(policy, id, images[id])
  {
    hide ValidImage;
    var todo := images.Keys;
    while todo != {}
      invariant todo <= images.Keys
      invariant forall id :: id in images && id !in todo ==> ValidImage(policy, id, images[id])
      decreases todo
    {
      var id :| id in todo;
      if !ValidImage(policy, id, images[id]) {
        return false;
      }
      todo := todo - {id};
    }
    return true;
  }

  method ValidateVm(sid: string, images: map<string, Image>, id: string, vm: Vm) returns (ok: bool)
    ensures ok <==> ValidVm(sid, images, id, vm)
  {
    if !ValidId(id) || vm.id != id || vm.hcsId != HcsId(sid, id) || vm.updatedAt == 0 {
      return false;
    }
    if vm.imageId !in images || !(1 <= vm.vcpuCount <= 32) || !(512 <= vm.memoryMiB <= 65536) {
      return false;
    }
    if vm.diskRelativePath != DiskPath(id) || (vm.runtimeId != "" && !IsGuid(vm.runtimeId)) {
      return false;
    }
    ok := ValidateWorkspaces(vm.workspaces);
  }

  method ValidateWorkspaces(workspaces: seq<Workspace>) returns (ok: bool)
    ensures ok <==> ValidWorkspaces(workspaces)
  {
    if |workspaces| > MAX_WORKSPACES {
      return false;
    }
    var mounts: set<string> := {};
    var i := 0;
    while i < |workspaces|
      invariant 0 <= i <= |workspaces|
      invariant mounts == set k | 0 <= k < i :: workspaces[k].mountId
      invariant ValidWorkspaces(workspaces[..i])
    {
      if !ValidId(workspaces[i].mountId) || !workspaces[i].readOnly {
        assert !ValidWorkspace(workspaces[i]);
        return false;
      }
      var resolved := ResolveRelativePath(workspaces[i].relativePath);
      if resolved.Err? {
        assert !ValidWorkspace(workspaces[i]);
        return false;
      }
      if workspaces[i].mountId in mounts {
        return false;
      }
      mounts := mounts + {workspaces[i].mountId};
      i := i + 1;
    }
    assert workspaces[..i] == workspaces;
    return true;
  }
}
