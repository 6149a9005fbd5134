/**
 Configuring, enrolling, deleting, refreshing and using one xAI credential, concurrently and with
 crashes at every await and between any two vault writes. Tasks share the vault, the
 mutation journal, a read-write gate and the enrollment lock; a task that dies releases
 what it holds, and a process crash is all tasks dying.
 */
module CredentialProtocol {
  import opened Wrappers
  import opened Runs
  import opened CredentialVault

  /** Configure commands are fingerprinted by the key itself, the others by nothing. */
  datatype Fingerprint = OfKey(key: ApiKey) | Empty

  datatype Record = Record(fingerprint: Fingerprint, outcome: Option<AccountState>)

  datatype Task =
    | Configuring(command: Command, key: ApiKey)
    | ConfigureReady(command: Command, key: ApiKey, resolved: bool)
    | Enrolling(command: Command)
    | Collecting(command: Command)
    | EnrollReady(command: Command, key: ApiKey, resolved: bool)
    | Reconciling(command: Command)
    | Storing(command: Command, key: ApiKey, resolved: bool, done: nat)
    | DeleteRequested(command: Command)
    | Erasing(command: Command, done: nat)
    | Completing(command: Command, outcome: AccountState)
    | Refreshing
    | RefreshLoaded(key: ApiKey)
    | RefreshMarking(key: ApiKey, resolved: bool)
    | RefreshClearing
    | UseRequested(expected: Option<Command>)
    | InUse(binding: Command, key: ApiKey) // holds a use lease

  /**
   Everything that tasks share. `facts` and `installed` are history: the key each command
   stands for, the keys that were validated, and the generations whose binding was written.
   */
  datatype Shared = Shared(
    vault: Vault, journal: map<Command, Record>, writer: Option<nat>, readers: set<nat>, enroller: Option<nat>,
    facts: Facts, installed: set<Command>)

  datatype World = World(shared: Shared, tasks: map<nat, Task>)

  datatype Action =
    | ConfigureValidated(resolved: bool)
    | ConfigureBegins
    | EnrollBegins
    | Collected(key: ApiKey, resolved: bool)
    | EnrollStores
    | Reconciles
    | DeleteBegins
    | Writes(applied: bool, ok: bool)
    | Completes(applied: bool, ok: bool)
    | RefreshLoads
    | RefreshValidates(resolved: bool)
    | RefreshMarks(applied: bool)
    | RefreshClears(applied: bool)
    | UseBegins
    | Dies

  predicate GateFree(s: Shared) {
    s.writer.None? && s.readers == {}
  }

  function Release(s: Shared, id: nat): Shared {
    s.(writer := if s.writer == Some(id) then None else s.writer, readers := s.readers - {id},
       enroller := if s.enroller == Some(id) then None else s.enroller)
  }

  function Validate(s: Shared, key: ApiKey, resolved: bool): Shared {
    if resolved then s.(facts := s.facts.(validated := s.facts.validated + {key})) else s
  }

  /** Reserving a command: a different fingerprint conflicts, a completed command only replays. */
  predicate MayProceed(s: Shared, command: Command, fingerprint: Fingerprint) {
    command in s.journal ==> s.journal[command] == Record(fingerprint, None)
  }

  function Reserve(s: Shared, command: Command, fingerprint: Fingerprint): Shared {
    if command in s.journal then s else s.(journal := s.journal[command := Record(fingerprint, None)])
  }

  function Complete(s: Shared, command: Command, outcome: AccountState): Shared {
    if command in s.journal && s.journal[command].outcome.None? then
      s.(journal := s.journal[command := s.journal[command].(outcome := Some(outcome))])
    else s
  }

  function Observed(v: Vault): AccountState {
    AccountState(v.key.Some?, v.key.Some? && v.binding.Some? && v.marker == Some(true))
  }

  /** From now on the command stands for this key. */
  function BeginStore(s: Shared, id: nat, command: Command, key: ApiKey): Shared {
    s.(writer := Some(id), facts := s.facts.(names := s.facts.names[command := key]))
  }

  function Program(t: Task): seq<Write>
    requires t.Storing? || t.Erasing?
  {
    if t.Storing? then StoreProgram(t.key, t.command, t.resolved) else DELETE_PROGRAM
  }

  function OneFurther(t: Task): Task
    requires t.Storing? || t.Erasing?
  {
    if t.Storing? then Storing(t.command, t.key, t.resolved, t.done + 1) else Erasing(t.command, t.done + 1)
  }

  function WriteVault(s: Shared, write: Write): Shared {
    s.(vault := Apply(s.vault, write), installed := if write.SetBinding? then s.installed + {write.binding} else s.installed)
  }

  /** How a worker goes on after a successful vault write. Enrolling releases the gate before it completes its command. */
  function Advance(s: Shared, id: nat, t: Task): (Shared, Task)
    requires (t.Storing? || t.Erasing?) && t.done < |Program(t)|
  {
    if t.done + 1 < |Program(t)| then (s, OneFurther(t))
    else
      var outcome := if t.Storing? then AccountState(true, t.resolved) else AccountState(false, false);
      (if t.command.scope.Enroll? then s.(writer := None) else s, Completing(t.command, outcome))
  }

  // What each step makes of the shared state and of its task; None means that it is over.

  function ConfigureBegin(s: Shared, id: nat, t: Task): (Shared, Option<Task>)
    requires t.ConfigureReady?
  {
    if !MayProceed(s, t.command, OfKey(t.key)) then (s, None)
    else (BeginStore(Reserve(s, t.command, OfKey(t.key)), id, t.command, t.key),
          Some(Storing(t.command, t.key, t.resolved, 0)))
  }

  function EnrollBegin(s: Shared, id: nat, t: Task): (Shared, Option<Task>)
    requires t.Enrolling?
  {
    if !MayProceed(s, t.command, Empty) then (s, None)
    else if t.command in s.journal then (s.(enroller := Some(id)), Some(Reconciling(t.command)))
    else (Reserve(s, t.command, Empty).(enroller := Some(id)), Some(Collecting(t.command)))
  }

  function DeleteBegin(s: Shared, id: nat, t: Task): (Shared, Option<Task>)
    requires t.DeleteRequested?
  {
    if !MayProceed(s, t.command, Empty) then (s, None)
    else (Reserve(s, t.command, Empty).(writer := Some(id)), Some(Erasing(t.command, 0)))
  }

  /** A pending enrollment is completed only if its own generation is the installed one. */
  function Reconcile(s: Shared, id: nat, t: Task): (Shared, Option<Task>)
    requires t.Reconciling?
  {
    if s.vault.key.None? || s.vault.binding != Some(t.command) then (Release(s, id), None)
    else (Release(Complete(s, t.command, Observed(s.vault)), id), None)
  }

  /** A vault write that fails ends its owner, whether or not it took effect. */
  function WriteOne(s: Shared, id: nat, t: Task, applied: bool, ok: bool): (Shared, Option<Task>)
    requires (t.Storing? || t.Erasing?) && t.done < |Program(t)|
  {
    var s' := if applied || ok then WriteVault(s, Program(t)[t.done]) else s;
    if !ok then (Release(s', id), None)
    else
      var (s'', t') := Advance(s', id, t);
      (s'', Some(t'))
  }

  function RefreshLoad(s: Shared, id: nat): (Shared, Option<Task>) {
    if s.vault.key.None? then (s, None)
    else if s.vault.binding.None? then (s, Some(RefreshClearing))
    else (s.(readers := s.readers + {id}), Some(RefreshLoaded(s.vault.key.value)))
  }

  /** A use lease: the generation is read, and compared if the caller expects one, under the shared gate. */
  function UseBegin(s: Shared, id: nat, t: Task): (Shared, Option<Task>)
    requires t.UseRequested?
  {
    if s.vault.key.None? || s.vault.binding.None? || (t.expected.Some? && s.vault.binding != t.expected) then (s, None)
    else (s.(readers := s.readers + {id}), Some(InUse(s.vault.binding.value, s.vault.key.value)))
  }

  /** One step of one task, if it can take it. */
  function Act(s: Shared, id: nat, t: Task, action: Action): Option<(Shared, Option<Task>)> {
    match action
    case ConfigureValidated(resolved) =>
      if !t.Configuring? then None
      else Some((Validate(s, t.key, resolved), Some(ConfigureReady(t.command, t.key, resolved))))
    case ConfigureBegins =>
      if t.ConfigureReady? && GateFree(s) then Some(ConfigureBegin(s, id, t)) else None
    case EnrollBegins =>
      if t.Enrolling? && s.enroller.None? then Some(EnrollBegin(s, id, t)) else None
    case Collected(key, resolved) =>
      if !t.Collecting? then None
      else Some((Validate(s, key, resolved), Some(EnrollReady(t.command, key, resolved))))
    case EnrollStores =>
      if !t.EnrollReady? || !GateFree(s) then None
      else Some((BeginStore(s, id, t.command, t.key), Some(Storing(t.command, t.key, t.resolved, 0))))
    case Reconciles =>
      if t.Reconciling? && GateFree(s) then Some(Reconcile(s, id, t)) else None
    case DeleteBegins =>
      if t.DeleteRequested? && GateFree(s) then Some(DeleteBegin(s, id, t)) else None
    case Writes(applied, ok) =>
      if (t.Storing? || t.Erasing?) && t.done < |Program(t)| then Some(WriteOne(s, id, t, applied, ok)) else None
    case Completes(applied, ok) =>
      if !t.Completing? then None
      else Some((Release(if applied || ok then Complete(s, t.command, t.outcome) else s, id), None))
    case RefreshLoads =>
      if t.Refreshing? && s.writer.None? then Some(RefreshLoad(s, id)) else None
    case RefreshValidates(resolved) =>
      if !t.RefreshLoaded? then None
      else Some((Validate(s, t.key, resolved), Some(RefreshMarking(t.key, resolved))))
    case RefreshMarks(applied) =>
      if !t.RefreshMarking? then None
      else Some((Release(if applied then WriteVault(s, SetMarker(t.resolved)) else s, id), None))
    case RefreshClears(applied) =>
      if !t.RefreshClearing? then None
      else Some((if applied then WriteVault(s, SetMarker(false)) else s, None))
    case UseBegins =>
      if t.UseRequested? && s.writer.None? then Some(UseBegin(s, id, t)) else None
    case Dies => Some((Release(s, id), None))
  }

  /** Requests as their callers make them. */
  predicate IsRequest(t: Task) {
    || (t.Configuring? && t.command.scope.Configure?)
    || (t.Enrolling? && t.command.scope.Enroll?)
    || (t.DeleteRequested? && t.command.scope.Delete?)
    || t.Refreshing? || t.UseRequested?
  }

  ghost predicate Starts(w: World, w': World, id: nat, t: Task) {
    id !in w.tasks && IsRequest(t) && w' == w.(tasks := w.tasks[id := t])
  }

  ghost predicate Moves(w: World, w': World, id: nat, action: Action) {
    && id in w.tasks
    && var outcome := Act(w.shared, id, w.tasks[id], action);
       && outcome.Some?
       && w' == World(outcome.value.0,
                      if outcome.value.1.Some? then w.tasks[id := outcome.value.1.value] else w.tasks - {id})
  }

  ghost predicate Next(w: World, w': World) {
    || (exists id, t :: Starts(w, w', id, t))
    || (exists id, action :: Moves(w, w', id, action))
  }

  ghost predicate Init(w: World) {
    w == World(Shared(Vault(None, None, None), map[], None, {}, None, Facts(map[], {}), {}), map[])
  }

  // The invariant

  /** A configuration or enrollment was installed, and says resolved only of a validated key. */
  predicate OutcomeFits(s: Shared, command: Command, outcome: AccountState) {
    if command.scope.Delete? then outcome == AccountState(false, false)
    else
      && command in s.installed && command in s.facts.names && outcome.configured
      && (outcome.resolved ==> s.facts.names[command] in s.facts.validated)
  }

  predicate JournalInv(s: Shared) {
    && (forall c :: c in s.journal ==> (s.journal[c].fingerprint.OfKey? <==> c.scope.Configure?))
    && (forall c :: c in s.facts.names ==>
          && c in s.journal && !c.scope.Delete?
          && s.journal[c].fingerprint == if c.scope.Configure? then OfKey(s.facts.names[c]) else Empty)
    && (forall c :: c in s.journal && s.journal[c].outcome.Some? ==> OutcomeFits(s, c, s.journal[c].outcome.value))
    && s.installed <= s.facts.names.Keys
    && (s.vault.binding.Some? ==> s.vault.binding.value in s.installed)
  }

  predicate SharedInv(s: Shared) {
    JournalInv(s) && Coherent(s.vault, s.facts) && (s.writer.Some? ==> s.readers == {})
  }

  /** How far a store has come, in terms of the vault. */
  predicate StoringInv(s: Shared, t: Task)
    requires t.Storing?
  {
    && t.command in s.facts.names && s.facts.names[t.command] == t.key && (t.resolved ==> t.key in s.facts.validated)
    && t.done < |StoreProgram(t.key, t.command, t.resolved)|
    && (t.done > 0 ==> s.vault.marker == Some(false))
    && (t.done == 2 || t.done == 3 ==> s.vault.binding.None?)
    && (t.done >= 3 ==> s.vault.key == Some(t.key))
    && (t.done >= 4 ==> s.vault.binding == Some(t.command) && t.command in s.installed)
  }

  /** Only a pending command writes. */
  predicate IsPending(s: Shared, command: Command) {
    command in s.journal && s.journal[command].outcome.None?
  }

  predicate TaskInv(s: Shared, id: nat, t: Task) {
    && (s.writer == Some(id) <==> t.Storing? || t.Erasing? || (t.Completing? && !t.command.scope.Enroll?))
    && (id in s.readers <==> t.RefreshLoaded? || t.RefreshMarking? || t.InUse?)
    && (s.enroller == Some(id) <==>
          || t.Collecting? || t.EnrollReady? || t.Reconciling?
          || ((t.Storing? || t.Completing?) && t.command.scope.Enroll?))
    && match t
       case Configuring(command, _) => command.scope.Configure?
       case ConfigureReady(command, key, resolved) => command.scope.Configure? && (resolved ==> key in s.facts.validated)
       case Enrolling(command) => command.scope.Enroll?
       case Collecting(command) => command.scope.Enroll? && NotYetStored(s, command)
       case EnrollReady(command, key, resolved) =>
         command.scope.Enroll? && NotYetStored(s, command) && (resolved ==> key in s.facts.validated)
       case Reconciling(command) => command.scope.Enroll? && IsPending(s, command)
       case Storing(command, _, _, _) => !command.scope.Delete? && StoringInv(s, t) && IsPending(s, command)
       case DeleteRequested(command) => command.scope.Delete?
       case Erasing(command, done) =>
         && command.scope.Delete? && done < |DELETE_PROGRAM| && IsPending(s, command)
         && (done > 0 ==> s.vault.key.None?) && (done > 1 ==> s.vault.binding.None?)
       case Completing(command, outcome) => OutcomeFits(s, command, outcome) && IsPending(s, command)
       case RefreshLoaded(key) => s.vault.key == Some(key) && s.vault.binding.Some?
       case RefreshMarking(key, resolved) =>
         s.vault.key == Some(key) && s.vault.binding.Some? && (resolved ==> key in s.facts.validated)
       case InUse(binding, key) => s.vault == s.vault.(key := Some(key), binding := Some(binding))
       case _ => true
  }

  /** A newly reserved enrollment has not been given a key. */
  predicate NotYetStored(s: Shared, command: Command) {
    command in s.journal && s.journal[command] == Record(Empty, None) && command !in s.facts.names
  }

  ghost predicate Inv(w: World) {
    && SharedInv(w.shared)
    && (forall id :: id in w.tasks ==> TaskInv(w.shared, id, w.tasks[id]))
    && (w.shared.writer.Some? ==> w.shared.writer.value in w.tasks)
    && (w.shared.enroller.Some? ==> w.shared.enroller.value in w.tasks)
    && w.shared.readers <= w.tasks.Keys
  }

  /** What every step of a task leaves alone, as the others rely on it. */
  ghost predicate Guarantee(s: Shared, s': Shared, id: nat) {
    && (s'.vault.key != s.vault.key || s'.vault.binding != s.vault.binding ==> s.writer == Some(id))
    && (s'.vault.marker != s.vault.marker ==> s'.vault.marker == Some(false) || s.writer == Some(id) || id in s.readers)
    && s.facts.validated <= s'.facts.validated && s.installed <= s'.installed
    && (forall c :: c in s.facts.names ==> c in s'.facts.names && s'.facts.names[c] == s.facts.names[c])
    && (forall c :: c in s'.facts.names && c !in s.facts.names ==> c.scope.Configure? || s.enroller == Some(id))
    && (forall c :: c in s.journal ==> c in s'.journal && s'.journal[c].fingerprint == s.journal[c].fingerprint)
    && (forall c :: c in s.journal && s.journal[c].outcome.Some? ==> s'.journal[c] == s.journal[c])
    && (forall c :: c in s.journal && s'.journal[c] != s.journal[c] ==>
          (if c.scope.Enroll? then s.enroller else s.writer) == Some(id))
    && (s'.writer != s.writer ==> (s'.writer.None? && s.writer == Some(id)) || (s'.writer == Some(id) && GateFree(s)))
    && (s'.enroller != s.enroller ==>
          (s'.enroller.None? && s.enroller == Some(id)) || (s'.enroller == Some(id) && s.enroller.None?))
    && (forall other :: other != id ==> (other in s'.readers <==> other in s.readers))
  }

  lemma OthersKeepTheirInv(s: Shared, s': Shared, id: nat, other: nat, t: Task)
    requires SharedInv(s) && TaskInv(s, other, t) && Guarantee(s, s', id) && other != id
    ensures TaskInv(s', other, t)
  {
  }

  /** What one step owes the whole: the shared invariant, its promise to the others, its own invariant or its exit. */
  ghost predicate Good(s: Shared, id: nat, after: (Shared, Option<Task>)) {
    var (s', t') := after;
    && SharedInv(s') && Guarantee(s, s', id)
    && (t'.Some? ==> TaskInv(s', id, t'.value))
    && (t'.None? ==> s'.writer != Some(id) && id !in s'.readers && s'.enroller != Some(id))
  }

  /** A step that changes data but no lock. */
  ghost predicate SameLocks(s: Shared, s': Shared) {
    s'.writer == s.writer && s'.readers == s.readers && s'.enroller == s.enroller
  }

  lemma ExitIsGood(s: Shared, s': Shared, id: nat)
    requires SharedInv(s') && Guarantee(s, s', id) && SameLocks(s, s')
    ensures Good(s, id, (Release(s', id), None))
  {
  }

  lemma NothingChanged(s: Shared, id: nat)
    ensures Guarantee(s, s, id) && SameLocks(s, s)
  {
  }

  /** A key given to a command that is open for it, by a worker that then holds the gate. */
  lemma BeginStoreKeepsInv(s: Shared, id: nat, command: Command, key: ApiKey)
    requires SharedInv(s) && GateFree(s) && command in s.journal && !command.scope.Delete?
    requires s.journal[command] == Record(if command.scope.Configure? then OfKey(key) else Empty, None)
    requires command.scope.Configure? || (s.enroller == Some(id) && command !in s.facts.names)
    ensures SharedInv(BeginStore(s, id, command, key)) && Guarantee(s, BeginStore(s, id, command, key), id)
  {
  }

  lemma GuaranteesCompose(s: Shared, s': Shared, s'': Shared, id: nat)
    requires Guarantee(s, s', id) && SameLocks(s, s') && Guarantee(s', s'', id)
    ensures Guarantee(s, s'', id)
  {
  }

  lemma ReserveKeepsInv(s: Shared, id: nat, command: Command, fingerprint: Fingerprint)
    requires SharedInv(s) && MayProceed(s, command, fingerprint) && (fingerprint.OfKey? <==> command.scope.Configure?)
    ensures SharedInv(Reserve(s, command, fingerprint)) && Guarantee(s, Reserve(s, command, fingerprint), id)
    ensures SameLocks(s, Reserve(s, command, fingerprint))
    ensures command !in s.journal ==> command !in s.facts.names
  {
  }

  lemma TakingTheEnrollmentLock(s: Shared, id: nat)
    requires SharedInv(s) && s.enroller.None?
    ensures SharedInv(s.(enroller := Some(id))) && Guarantee(s, s.(enroller := Some(id)), id)
  {
  }

  lemma ConfigureBeginIsGood(s: Shared, id: nat, t: Task)
    requires SharedInv(s) && TaskInv(s, id, t) && t.ConfigureReady? && GateFree(s)
    ensures Good(s, id, ConfigureBegin(s, id, t))
  {
    hide SharedInv;
    hide Guarantee;
    NothingChanged(s, id);
    if MayProceed(s, t.command, OfKey(t.key)) {
      var reserved := Reserve(s, t.command, OfKey(t.key));
      ReserveKeepsInv(s, id, t.command, OfKey(t.key));
      BeginStoreKeepsInv(reserved, id, t.command, t.key);
      GuaranteesCompose(s, reserved, BeginStore(reserved, id, t.command, t.key), id);
    }
  }

  lemma EnrollBeginIsGood(s: Shared, id: nat, t: Task)
    requires SharedInv(s) && TaskInv(s, id, t) && t.Enrolling? && s.enroller.None?
    ensures Good(s, id, EnrollBegin(s, id, t))
  {
    hide SharedInv;
    hide Guarantee;
    NothingChanged(s, id);
    if MayProceed(s, t.command, Empty) {
      var reserved := Reserve(s, t.command, Empty);
      ReserveKeepsInv(s, id, t.command, Empty);
      TakingTheEnrollmentLock(reserved, id);
      GuaranteesCompose(s, reserved, reserved.(enroller := Some(id)), id);
    }
  }

  lemma EnrollStoreIsGood(s: Shared, id: nat, t: Task)
    requires SharedInv(s) && TaskInv(s, id, t) && t.EnrollReady? && GateFree(s)
    ensures Good(s, id, (BeginStore(s, id, t.command, t.key), Some(Storing(t.command, t.key, t.resolved, 0))))
  {
  }

  lemma DeleteBeginIsGood(s: Shared, id: nat, t: Task)
    requires SharedInv(s) && TaskInv(s, id, t) && t.DeleteRequested? && GateFree(s)
    ensures Good(s, id, DeleteBegin(s, id, t))
  {
  }

  lemma CompleteIsGood(s: Shared, id: nat, command: Command, outcome: AccountState)
    requires SharedInv(s) && OutcomeFits(s, command, outcome)
    requires (if command.scope.Enroll? then s.enroller else s.writer) == Some(id)
    ensures
      var s' := Complete(s, command, outcome);
      SharedInv(s') && Guarantee(s, s', id) && SameLocks(s, s')
  {
  }

  lemma StoreWriteIsGood(s: Shared, id: nat, t: Task)
    requires SharedInv(s) && TaskInv(s, id, t) && t.Storing?
    ensures
      var s' := WriteVault(s, Program(t)[t.done]);
      && SharedInv(s') && Guarantee(s, s', id) && SameLocks(s, s') && IsPending(s', t.command)
      && (t.done + 1 < |Program(t)| ==> TaskInv(s', id, OneFurther(t)))
      && (t.done + 1 == |Program(t)| ==> OutcomeFits(s', t.command, AccountState(true, t.resolved)))
  {
  }

  lemma EraseWriteIsGood(s: Shared, id: nat, t: Task)
    requires SharedInv(s) && TaskInv(s, id, t) && t.Erasing?
    ensures
      var s' := WriteVault(s, Program(t)[t.done]);
      && SharedInv(s') && Guarantee(s, s', id) && SameLocks(s, s') && IsPending(s', t.command)
      && (t.done + 1 < |Program(t)| ==> TaskInv(s', id, OneFurther(t)))
  {
  }

  lemma WriteIsGood(s: Shared, id: nat, t: Task, applied: bool, ok: bool)
    requires SharedInv(s) && TaskInv(s, id, t) && (t.Storing? || t.Erasing?) && t.done < |Program(t)|
    ensures Good(s, id, WriteOne(s, id, t, applied, ok))
  {
    var s' := WriteVault(s, Program(t)[t.done]);
    if t.Storing? {
      StoreWriteIsGood(s, id, t);
    } else {
      EraseWriteIsGood(s, id, t);
    }
    if !ok {
      NothingChanged(s, id);
      ExitIsGood(s, if applied then s' else s, id);
    } else if t.done + 1 == |Program(t)| {
      LastWriteIsGood(s, s', id, t);
    }
    hide WriteVault;
    hide Guarantee;
    hide SharedInv;
    hide TaskInv;
    hide Program;
  }

  lemma LastWriteIsGood(s: Shared, s': Shared, id: nat, t: Task)
    requires TaskInv(s, id, t) && (t.Storing? || t.Erasing?) && t.done + 1 == |Program(t)|
    requires SharedInv(s') && Guarantee(s, s', id) && SameLocks(s, s') && IsPending(s', t.command)
    requires t.Storing? ==> OutcomeFits(s', t.command, AccountState(true, t.resolved))
    ensures
      var (s'', t') := Advance(s', id, t);
      Good(s, id, (s'', Some(t')))
  {
  }

  lemma ReconcileIsGood(s: Shared, id: nat, t: Task)
    requires SharedInv(s) && TaskInv(s, id, t) && t.Reconciling?
    ensures Good(s, id, Reconcile(s, id, t))
  {
    NothingChanged(s, id);
    ExitIsGood(s, s, id);
    if s.vault.key.Some? && s.vault.binding == Some(t.command) {
      CompleteIsGood(s, id, t.command, Observed(s.vault));
      ExitIsGood(s, Complete(s, t.command, Observed(s.vault)), id);
    }
    hide Good;
  }

  lemma RefreshLoadIsGood(s: Shared, id: nat, t: Task)
    requires SharedInv(s) && TaskInv(s, id, t) && t.Refreshing? && s.writer.None?
    ensures Good(s, id, RefreshLoad(s, id))
  {
  }

  lemma UseBeginIsGood(s: Shared, id: nat, t: Task)
    requires SharedInv(s) && TaskInv(s, id, t) && t.UseRequested? && s.writer.None?
    ensures Good(s, id, UseBegin(s, id, t))
  {
  }

  lemma RefreshMarkIsGood(s: Shared, id: nat, t: Task, applied: bool)
    requires SharedInv(s) && TaskInv(s, id, t) && t.RefreshMarking?
    ensures Good(s, id, (Release(if applied then WriteVault(s, SetMarker(t.resolved)) else s, id), None))
  {
  }

  lemma ValidatedTaskIsGood(s: Shared, id: nat, t: Task, key: ApiKey, resolved: bool, t': Task)
    requires SharedInv(s) && TaskInv(s, id, t)
    requires
      || (t.Configuring? && key == t.key && t' == ConfigureReady(t.command, t.key, resolved))
      || (t.Collecting? && t' == EnrollReady(t.command, key, resolved))
      || (t.RefreshLoaded? && key == t.key && t' == RefreshMarking(t.key, resolved))
    ensures Good(s, id, (Validate(s, key, resolved), Some(t')))
  {
  }

  lemma ActIsGood(s: Shared, id: nat, t: Task, action: Action)
    requires SharedInv(s) && TaskInv(s, id, t) && Act(s, id, t, action).Some?
    ensures Good(s, id, Act(s, id, t, action).value)
  {
    NothingChanged(s, id);
    match action
    case ConfigureValidated(resolved) =>
      ValidatedTaskIsGood(s, id, t, t.key, resolved, ConfigureReady(t.command, t.key, resolved));
    case ConfigureBegins => ConfigureBeginIsGood(s, id, t);
    case EnrollBegins => EnrollBeginIsGood(s, id, t);
    case Collected(key, resolved) =>
      ValidatedTaskIsGood(s, id, t, key, resolved, EnrollReady(t.command, key, resolved));
    case EnrollStores => EnrollStoreIsGood(s, id, t);
    case Reconciles => ReconcileIsGood(s, id, t);
    case DeleteBegins => DeleteBeginIsGood(s, id, t);
    case Writes(applied, ok) => WriteIsGood(s, id, t, applied, ok);
    case Completes(applied, ok) =>
      CompleteIsGood(s, id, t.command, t.outcome);
      ExitIsGood(s, if applied || ok then Complete(s, t.command, t.outcome) else s, id);
    case RefreshLoads => RefreshLoadIsGood(s, id, t);
    case RefreshValidates(resolved) => ValidatedTaskIsGood(s, id, t, t.key, resolved, RefreshMarking(t.key, resolved));
    case RefreshMarks(applied) => RefreshMarkIsGood(s, id, t, applied);
    case RefreshClears(applied) => RefreshClearIsGood(s, id, t, applied);
    case UseBegins => UseBeginIsGood(s, id, t);
    case Dies => ExitIsGood(s, s, id);
  }

  lemma RefreshClearIsGood(s: Shared, id: nat, t: Task, applied: bool)
    requires SharedInv(s) && TaskInv(s, id, t) && t.RefreshClearing?
    ensures Good(s, id, (if applied then WriteVault(s, SetMarker(false)) else s, None))
  {
  }

  // Whole runs

  lemma MoveKeepsInv(w: World, w': World, id: nat, action: Action)
    requires Inv(w) && Moves(w, w', id, action)
    ensures Inv(w') && Guarantee(w.shared, w'.shared, id)
  {
    ActIsGood(w.shared, id, w.tasks[id], action);
    hide Act;
    forall other | other in w'.tasks && other != id
      ensures TaskInv(w'.shared, other, w'.tasks[other])
    {
      OthersKeepTheirInv(w.shared, w'.shared, id, other, w.tasks[other]);
    }
    hide TaskInv;
    hide SharedInv;
  }

  lemma StartKeepsInv(w: World, w': World, id: nat, t: Task)
    requires Inv(w) && Starts(w, w', id, t)
    ensures Inv(w') && Guarantee(w.shared, w'.shared, id)
  {
  }

  lemma NextKeepsInv(w: World, w': World)
    requires Inv(w) && Next(w, w')
    ensures Inv(w') && exists id :: Guarantee(w.shared, w'.shared, id)
  {
    if id, t :| Starts(w, w', id, t) {
      StartKeepsInv(w, w', id, t);
    } else {
      var id, action :| Moves(w, w', id, action);
      MoveKeepsInv(w, w', id, action);
    }
  }

  lemma InvIsInductive()
    ensures forall w :: Init(w) ==> Inv(w)
    ensures forall w, w' :: Inv(w) && Next(w, w') ==> Inv(w')
  {
    forall w, w' | Inv(w) && Next(w, w')
      ensures Inv(w')
    {
      NextKeepsInv(w, w');
    }
  }

  /**
   In every state of every run, so also at every point where a crash may leave the vault:
   a readable key and binding belong together, a set marker beside them means that this
   very key passed validation, and a recorded outcome says no more than what was installed.
   */
  lemma GenerationsStayCoherent(trace: seq<World>, i: nat)
    requires IsRun(Init, Next, trace) && i < |trace|
    ensures
      var s := trace[i].shared;
      && Coherent(s.vault, s.facts)
      && (forall c :: c in s.journal && s.journal[c].outcome.Some? ==> OutcomeFits(s, c, s.journal[c].outcome.value))
  {
    InvIsInductive();
    InvariantHolds(Init, Next, Inv, trace, i);
  }

  /** One binding never names two keys, and a recorded outcome never changes. */
  lemma BindingsAndOutcomesAreFinal(trace: seq<World>, i: nat, j: nat, command: Command)
    requires IsRun(Init, Next, trace) && i <= j < |trace|
    ensures command in trace[i].shared.facts.names ==>
      && command in trace[j].shared.facts.names
      && trace[j].shared.facts.names[command] == trace[i].shared.facts.names[command]
    ensures command in trace[i].shared.journal && trace[i].shared.journal[command].outcome.Some? ==>
      command in trace[j].shared.journal && trace[j].shared.journal[command] == trace[i].shared.journal[command]
  {
    var s := trace[i].shared;
    var keeps := (w: World) =>
      && (command in s.facts.names ==>
            command in w.shared.facts.names && w.shared.facts.names[command] == s.facts.names[command])
      && (command in s.journal && s.journal[command].outcome.Some? ==>
            command in w.shared.journal && w.shared.journal[command] == s.journal[command]);
    InvIsInductive();
    forall w, w' | Inv(w) && keeps(w) && Next(w, w')
      ensures keeps(w')
    {
      NextKeepsInv(w, w');
    }
    StablePropertyHolds(Init, Next, Inv, keeps, trace, i, j);
  }

  /** Who may record the outcome of a command, and on what grounds. */
  ghost predicate Records(w: World, id: nat, command: Command, outcome: AccountState) {
    && id in w.tasks
    && (|| w.tasks[id] == Completing(command, outcome)
        || (&& w.tasks[id] == Reconciling(command) && GateFree(w.shared) && command in w.shared.facts.names
            && w.shared.vault.binding == Some(command)
            && w.shared.vault.key == Some(w.shared.facts.names[command])
            && outcome == AccountState(true, w.shared.vault.marker == Some(true))))
  }

  lemma MoveRecords(w: World, w': World, id: nat, action: Action, command: Command)
    requires Inv(w) && Moves(w, w', id, action) && command in w.shared.journal && command in w'.shared.journal
    requires w.shared.journal[command].outcome.None? && w'.shared.journal[command].outcome.Some?
    ensures Records(w, id, command, w'.shared.journal[command].outcome.value)
  {
    assert TaskInv(w.shared, id, w.tasks[id]);
    assert SharedInv(w.shared);
  }

  /**
   Whenever in any run the outcome of a pending command appears, it is recorded by the worker
   that has just finished that command's own vault writes, or by a reconciliation while the
   very generation of that command, its binding beside the key it stands for, is installed.
   A recorded configuration or enrollment was installed, and is called resolved only if its
   key passed validation.
   */
  lemma OutcomesHaveGrounds(trace: seq<World>, i: nat, command: Command)
    requires IsRun(Init, Next, trace) && i + 1 < |trace|
    requires command in trace[i].shared.journal && trace[i].shared.journal[command].outcome.None?
    ensures command in trace[i + 1].shared.journal
    ensures
      var recorded := trace[i + 1].shared.journal[command].outcome;
      recorded.Some? ==>
        && OutcomeFits(trace[i + 1].shared, command, recorded.value)
        && exists id :: Records(trace[i], id, command, recorded.value)
  {
    InvIsInductive();
    InvariantHolds(Init, Next, Inv, trace, i);
    InvariantHolds(Init, Next, Inv, trace, i + 1);
    var w, w' := trace[i], trace[i + 1];
    NextKeepsInv(w, w');
    hide Inv;
    if w'.shared.journal[command].outcome.Some? {
      assert !exists id, t :: Starts(w, w', id, t);
      var id, action :| Moves(w, w', id, action);
      MoveRecords(w, w', id, action, command);
    }
  }

  lemma InvAt(trace: seq<World>, i: nat)
    requires IsRun(Init, Next, trace) && i < |trace|
    ensures Inv(trace[i])
  {
    InvIsInductive();
    InvariantHolds(Init, Next, Inv, trace, i);
  }

  lemma TaskFact(w: World, id: nat)
    requires Inv(w) && id in w.tasks
    ensures TaskInv(w.shared, id, w.tasks[id]) && SharedInv(w.shared)
  {
  }

  /** Whose command may change the vault, and what a worker that is through with it has made of it. */
  ghost predicate Installs(w: World, w': World, id: nat)
    requires id in w.tasks
  {
    var s, s', t := w.shared, w'.shared, w.tasks[id];
    && (s'.vault.key != s.vault.key || s'.vault.binding != s.vault.binding ==>
          (t.Storing? || t.Erasing?) && t.command in s.journal && s.journal[t.command].outcome.None?)
    && (id in w'.tasks && w'.tasks[id].Completing? ==>
          || (&& t.Storing? && s'.vault == Vault(Some(t.key), Some(t.command), Some(t.resolved))
              && w'.tasks[id] == Completing(t.command, AccountState(true, t.resolved)))
          || (&& t.Erasing? && s'.vault == Vault(None, None, None)
              && w'.tasks[id] == Completing(t.command, AccountState(false, false))))
  }

  lemma WriteInstalls(w: World, w': World, id: nat, action: Action)
    requires id in w.tasks && TaskInv(w.shared, id, w.tasks[id]) && Moves(w, w', id, action) && action.Writes?
    ensures Installs(w, w', id)
  {
    hide OutcomeFits;
  }

  lemma MoveInstalls(w: World, w': World, id: nat, action: Action)
    requires id in w.tasks && TaskInv(w.shared, id, w.tasks[id]) && Moves(w, w', id, action)
    ensures Installs(w, w', id)
  {
    if action.Writes? {
      WriteInstalls(w, w', id, action);
    } else {
      hide TaskInv;
    }
  }

  /**
   Whenever in any run a vault write changes key or binding, it is one of a command that is
   still pending, so a completed command never touches them again. A worker that is through
   with its writes has installed its key under its own command, with a marker that says what
   validation said, or has left nothing; and that is what it goes on to record.
   */
  lemma OnlyPendingCommandsWrite(trace: seq<World>, i: nat, id: nat, action: Action)
    requires IsRun(Init, Next, trace) && i + 1 < |trace| && Moves(trace[i], trace[i + 1], id, action)
    ensures Installs(trace[i], trace[i + 1], id)
  {
    InvAt(trace, i);
    TaskFact(trace[i], id);
    MoveInstalls(trace[i], trace[i + 1], id, action);
    hide Act;
    hide Inv;
  }

  /** What a worker that is told about a key goes on with. */
  predicate FollowsValidation(s': Shared, t: Task, t': Task, key: ApiKey, resolved: bool) {
    && (resolved ==> key in s'.facts.validated)
    && (t.Configuring? ==> t' == ConfigureReady(t.command, t.key, resolved) && key == t.key)
    && (t.Collecting? ==> t' == EnrollReady(t.command, key, resolved))
    && (t.RefreshLoaded? ==> t' == RefreshMarking(t.key, resolved) && key == t.key && s'.vault.key == Some(key))
  }

  /** What a command is recorded as when it is completed, and when it is only found to be installed. */
  ghost predicate FollowsRecord(s: Shared, s': Shared, t: Task, action: Action)
    requires (t.Completing? && action.Completes?) || (t.Reconciling? && action.Reconciles?)
  {
    var installed := s.vault.key.Some? && s.vault.binding == Some(t.command);
    var recorded := if t.Completing? then action.applied || action.ok else installed;
    && t.command in s.journal && s.journal[t.command].outcome.None? && s'.vault == s.vault
    && s'.journal ==
       if !recorded then s.journal
       else
         var outcome := if t.Completing? then t.outcome else AccountState(true, s.vault.marker == Some(true));
         s.journal[t.command := Record(s.journal[t.command].fingerprint, Some(outcome))]
  }

  ghost predicate FollowsAnswer(w: World, w': World, id: nat, action: Action)
    requires id in w.tasks
  {
    var s, s', t := w.shared, w'.shared, w.tasks[id];
    match action
    case ConfigureValidated(resolved) =>
      t.Configuring? && id in w'.tasks && FollowsValidation(s', t, w'.tasks[id], t.key, resolved)
    case Collected(key, resolved) =>
      t.Collecting? && id in w'.tasks && FollowsValidation(s', t, w'.tasks[id], key, resolved)
    case RefreshValidates(resolved) =>
      t.RefreshLoaded? && id in w'.tasks && FollowsValidation(s', t, w'.tasks[id], t.key, resolved)
    case RefreshLoads =>
      && (id in w'.tasks <==> s.vault.key.Some?) && s'.vault == s.vault
      && (s.vault.key.Some? ==>
            w'.tasks[id] == if s.vault.binding.None? then RefreshClearing else RefreshLoaded(s.vault.key.value))
    case RefreshMarks(applied) =>
      && t.RefreshMarking? && s.vault.key == Some(t.key) && (t.resolved ==> t.key in s.facts.validated)
      && s'.vault == if applied then s.vault.(marker := Some(t.resolved)) else s.vault
    case RefreshClears(applied) => s'.vault == if applied then s.vault.(marker := Some(false)) else s.vault
    case Completes(_, _) => t.Completing? && FollowsRecord(s, s', t, action)
    case Reconciles => t.Reconciling? && FollowsRecord(s, s', t, action)
    case Dies => s'.vault == s.vault && s'.journal == s.journal
    case _ => true
  }

  lemma MoveFollows(w: World, w': World, id: nat, action: Action)
    requires id in w.tasks && TaskInv(w.shared, id, w.tasks[id]) && Moves(w, w', id, action)
    ensures FollowsAnswer(w, w', id, action)
  {
    hide OutcomeFits;
    hide StoringInv;
  }

  /**
   In every run, what validation says of a key is what its worker goes on with, stores and
   marks, and a refresh marks it on the key that is installed while it does so; without a
   binding it only clears. A completed command is recorded with the outcome of its worker, and
   a reconciled one with what its own installed generation shows, or not at all.
   */
  lemma StepsFollowTheirAnswers(trace: seq<World>, i: nat, id: nat, action: Action)
    requires IsRun(Init, Next, trace) && i + 1 < |trace| && Moves(trace[i], trace[i + 1], id, action)
    ensures FollowsAnswer(trace[i], trace[i + 1], id, action)
  {
    InvAt(trace, i);
    TaskFact(trace[i], id);
    MoveFollows(trace[i], trace[i + 1], id, action);
    hide *;
  }

  /**
   In every run, a request that gets its turn is turned away exactly if: its command is
   already completed; a configuration's command was recorded for another key; or a use finds
   no readable key and binding, or another binding than the one it expects. Turning away
   changes nothing.
   */
  lemma RefusalsHaveGrounds(trace: seq<World>, i: nat, id: nat, action: Action)
    requires IsRun(Init, Next, trace) && i + 1 < |trace| && Moves(trace[i], trace[i + 1], id, action)
    requires action.ConfigureBegins? || action.EnrollBegins? || action.DeleteBegins? || action.UseBegins?
    ensures
      var s, t := trace[i].shared, trace[i].tasks[id];
      && (id !in trace[i + 1].tasks ==> trace[i + 1].shared == s)
      && (t.UseRequested? ==>
            (id !in trace[i + 1].tasks <==>
             || s.vault.key.None? || s.vault.binding.None?
             || (t.expected.Some? && t.expected.value != s.vault.binding.value)))
      && (!t.UseRequested? ==>
            (id !in trace[i + 1].tasks <==>
             && t.command in s.journal
             && (|| s.journal[t.command].outcome.Some?
                 || (t.ConfigureReady? && s.journal[t.command].fingerprint != OfKey(t.key)))))
  {
    InvAt(trace, i);
    TaskFact(trace[i], id);
    hide Inv;
  }

  lemma OnlyUseBeginsLeases(w: World, w': World, id: nat, action: Action)
    requires Moves(w, w', id, action) && w.tasks[id].UseRequested? && id in w'.tasks
    ensures action.UseBegins? && w'.tasks[id] == UseBegin(w.shared, id, w.tasks[id]).1.value
  {
  }

  /** Whenever in any run a use request becomes a lease, the vault holds that generation, and it is the one expected. */
  lemma LeasesAreAsExpected(trace: seq<World>, i: nat, id: nat)
    requires IsRun(Init, Next, trace) && i + 1 < |trace| && id in trace[i].tasks && id in trace[i + 1].tasks
    requires trace[i].tasks[id].UseRequested? && trace[i + 1].tasks[id].InUse?
    ensures
      var s, lease, expected := trace[i].shared, trace[i + 1].tasks[id], trace[i].tasks[id].expected;
      && s.vault.binding == Some(lease.binding) && s.vault.key == Some(lease.key)
      && (expected.Some? ==> expected.value == lease.binding)
      && lease.binding in s.facts.names && s.facts.names[lease.binding] == lease.key
  {
    InvAt(trace, i);
    var w, w' := trace[i], trace[i + 1];
    TaskFact(w, id);
    hide Inv;
    assert Next(w, w');
    hide Act;
    assert !exists other, t :: Starts(w, w', other, t);
    var other, action :| Moves(w, w', other, action);
    assert other == id;
    OnlyUseBeginsLeases(w, w', id, action);
  }

  /** As long as a use lease is held, the vault holds the very generation the lease was taken for. */
  lemma LeasesHoldTheirGeneration(trace: seq<World>, i: nat, id: nat)
    requires IsRun(Init, Next, trace) && i < |trace| && id in trace[i].tasks && trace[i].tasks[id].InUse?
    ensures
      var s, lease := trace[i].shared, trace[i].tasks[id];
      && s.vault.key == Some(lease.key) && s.vault.binding == Some(lease.binding)
      && lease.binding in s.facts.names && s.facts.names[lease.binding] == lease.key
      && s.writer.None?
  {
    InvAt(trace, i);
    TaskFact(trace[i], id);
    hide Inv;
  }
}
