/**
 The update coordinator as a state machine: its own fields, the calls it has in flight
 (authorizations, the serial download queue, the running download), and what an
 observer records about the authorizer and the platform updater.
 */
module UpdateMachine {
  import opened Wrappers
  import Runs

  datatype Phase = Unsupported | Idle | Checking | Available | Downloaded | NotAvailable | Failed

  datatype Channel = Stable | Beta

  datatype Artifact = Artifact(url: string, sha256: string)

  datatype Authorization = NoUpdate | Update(version: string, artifact: Artifact)

  /** An authorization in flight remembers the generation and the channel it was asked for. */
  datatype Call = Call(generation: nat, channel: Channel)

  datatype Task = Task(generation: nat, version: string, artifact: Artifact)

  /** An observer's note: the authorizer offered this artifact for this channel and generation. */
  datatype Grant = Grant(generation: nat, channel: Channel, version: string, artifact: Artifact)

  datatype History = History(
    grants: set<Grant>,
    lastDownload: Option<Artifact>, // what the platform updater finished fetching last
    downloadsStarted: nat,
    installs: nat)

  datatype Coordinator = Coordinator(
    previewLocked: bool,
    phase: Phase,
    channel: Channel,
    targetVersion: string,
    generation: nat,
    downloadedGeneration: Option<nat>,
    installStarted: bool,
    calls: map<nat, Call>,
    nextCall: nat,
    queue: seq<Task>,
    running: Option<Task>,
    history: History)

  datatype Event =
    | SetChannel(channel: Channel)
    | Check
    | AuthorizeResolves(call: nat, answer: Authorization)
    | AuthorizeRejects(call: nat)
    | QueueAdvances
    | DownloadResolves(changed: bool)
    | DownloadRejects
    | Install(throws: bool)
    | InstallRejects

  predicate Initial(s: Coordinator) {
    && (s.phase.Idle? || s.phase.Unsupported?) && (s.previewLocked ==> s.channel.Beta?)
    && s.targetVersion == "" && s.generation == 0 && s.downloadedGeneration.None? && !s.installStarted
    && s.calls == map[] && s.queue == [] && s.running.None?
    && s.history == History({}, None, 0, 0)
  }

  /** Which callbacks the runtime may deliver next. */
  predicate Possible(s: Coordinator, event: Event) {
    match event
    case AuthorizeResolves(call, _) => call in s.calls
    case AuthorizeRejects(call) => call in s.calls
    case QueueAdvances => s.running.None? && s.queue != []
    case DownloadResolves(_) => s.running.Some?
    case DownloadRejects => s.running.Some?
    case InstallRejects => s.installStarted
    case _ => true
  }

  function Fail(s: Coordinator): Coordinator {
    s.(downloadedGeneration := None, phase := Failed)
  }

  function SetChannelStep(s: Coordinator, wanted: Channel): Coordinator {
    var channel := if s.previewLocked then Beta else wanted;
    if channel == s.channel then s
    else s.(generation := s.generation + 1, downloadedGeneration := None, targetVersion := "", channel := channel,
            phase := if s.phase.Unsupported? then Unsupported else Idle)
  }

  predicate Checks(s: Coordinator) {
    !s.phase.Unsupported? && !s.installStarted && !s.phase.Checking? && !s.phase.Available?
  }

  function CheckStep(s: Coordinator): Coordinator {
    if Checks(s) then
      s.(downloadedGeneration := None, phase := Checking, nextCall := s.nextCall + 1,
         calls := s.calls[s.nextCall := Call(s.generation, s.channel)])
    else s
  }

  function ResolveStep(s: Coordinator, call: nat, answer: Authorization): Coordinator
    requires call in s.calls
  {
    var asked := s.calls[call];
    var s := s.(calls := s.calls - {call});
    match answer
    case NoUpdate => if asked.generation == s.generation then s.(phase := NotAvailable, targetVersion := "") else s
    case Update(version, artifact) =>
      var s := s.(history := s.history.(
                    grants := s.history.grants + {Grant(asked.generation, asked.channel, version, artifact)}));
      if asked.generation == s.generation then
        s.(phase := Available, targetVersion := version, queue := s.queue + [Task(asked.generation, version, artifact)])
      else s
  }

  function RejectStep(s: Coordinator, call: nat): Coordinator
    requires call in s.calls
  {
    var current := s.calls[call].generation == s.generation;
    var s := s.(calls := s.calls - {call});
    if current then Fail(s) else s
  }

  function AdvanceStep(s: Coordinator): Coordinator
    requires s.running.None? && s.queue != []
  {
    var task := s.queue[0];
    var s := s.(queue := s.queue[1..]);
    if task.generation == s.generation then
      s.(running := Some(task), history := s.history.(downloadsStarted := s.history.downloadsStarted + 1))
    else s
  }

  function SettleStep(s: Coordinator, changed: bool): Coordinator
    requires s.running.Some?
  {
    var task := s.running.value;
    var s := s.(running := None, history := s.history.(lastDownload := Some(task.artifact)));
    if task.generation != s.generation then s
    else if changed then
      s.(downloadedGeneration := Some(task.generation), phase := Downloaded, targetVersion := task.version)
    else s.(downloadedGeneration := None, phase := NotAvailable, targetVersion := "")
  }

  function BreakStep(s: Coordinator): Coordinator
    requires s.running.Some?
  {
    var current := s.running.value.generation == s.generation;
    var s := s.(running := None);
    if current then Fail(s) else s
  }

  /** Exactly when `install` answers true. */
  predicate Installs(s: Coordinator) {
    s.phase.Downloaded? && !s.installStarted && s.downloadedGeneration == Some(s.generation)
  }

  function InstallStep(s: Coordinator, throws: bool): Coordinator {
    if !Installs(s) then s
    else
      var s := s.(installStarted := true, history := s.history.(installs := s.history.installs + 1));
      if throws then Fail(s) else s
  }

  function Step(s: Coordinator, event: Event): Coordinator
    requires Possible(s, event)
  {
    match event
    case SetChannel(channel) => SetChannelStep(s, channel)
    case Check => CheckStep(s)
    case AuthorizeResolves(call, answer) => ResolveStep(s, call, answer)
    case AuthorizeRejects(call) => RejectStep(s, call)
    case QueueAdvances => AdvanceStep(s)
    case DownloadResolves(changed) => SettleStep(s, changed)
    case DownloadRejects => BreakStep(s)
    case Install(throws) => InstallStep(s, throws)
    case InstallRejects => Fail(s)
  }

  ghost predicate Next(s: Coordinator, s': Coordinator) {
    exists event :: Possible(s, event) && s' == Step(s, event)
  }

  // The invariant

  ghost predicate CallsInv(s: Coordinator) {
    && (forall c :: c in s.calls ==> c < s.nextCall && s.calls[c].generation <= s.generation)
    && (forall c :: c in s.calls && s.calls[c].generation == s.generation ==>
          s.phase.Checking? && s.calls[c].channel == s.channel)
    && (forall c, d :: c in s.calls && d in s.calls && s.calls[c].generation == s.calls[d].generation == s.generation ==>
          c == d)
  }

  predicate Asking(s: Coordinator) {
    exists c :: c in s.calls && s.calls[c].generation == s.generation
  }

  /** Delivering an answer to a stale call leaves the current call in flight. */
  lemma StaleAnswerKeepsAsking(s: Coordinator, call: nat)
    requires Asking(s) && call in s.calls && s.calls[call].generation != s.generation
    ensures Asking(s.(calls := s.calls - {call}))
  {
    var c :| c in s.calls && s.calls[c].generation == s.generation;
    assert c in s.calls - {call};
  }

  predicate Granted(s: Coordinator, task: Task) {
    exists channel :: Grant(task.generation, channel, task.version, task.artifact) in s.history.grants
  }

  ghost predicate TasksInv(s: Coordinator) {
    && (forall i :: 0 <= i < |s.queue| ==> s.queue[i].generation <= s.generation && Granted(s, s.queue[i]))
    && (s.running.Some? ==> s.running.value.generation <= s.generation && Granted(s, s.running.value))
    // Only the last task can belong to the current generation, and only while its check is "available".
    && (forall i :: 0 <= i < |s.queue| && s.queue[i].generation == s.generation ==>
          i == |s.queue| - 1 && s.phase.Available? && (s.running.Some? ==> s.running.value.generation < s.generation))
    && (s.running.Some? && s.running.value.generation == s.generation ==> s.phase.Available? && s.queue == [])
    && (s.phase.Available? ==>
          || (s.running.Some? && s.running.value.generation == s.generation)
          || (s.queue != [] && s.queue[|s.queue| - 1].generation == s.generation))
  }

  ghost predicate GrantsInv(s: Coordinator) {
    forall g :: g in s.history.grants ==>
      g.generation <= s.generation && (g.generation == s.generation ==> g.channel == s.channel)
  }

  predicate Quiescent(s: Coordinator) {
    s.queue == [] && s.running.None?
  }

  /** What the platform updater fetched last was offered for the channel now selected. */
  predicate ReadyFor(s: Coordinator) {
    && s.history.lastDownload.Some?
    && Grant(s.generation, s.channel, s.targetVersion, s.history.lastDownload.value) in s.history.grants
  }

  ghost predicate Inv(s: Coordinator) {
    && CallsInv(s) && TasksInv(s) && GrantsInv(s)
    && (s.phase.Checking? ==> Asking(s))
    && (s.phase.Downloaded? ==> Quiescent(s) && ReadyFor(s))
    && (s.downloadedGeneration.Some? <==> s.phase.Downloaded?)
    && (s.downloadedGeneration.Some? ==> s.downloadedGeneration.value == s.generation)
    && (s.phase.Unsupported? ==> s.calls == map[] && Quiescent(s))
    && (s.installStarted ==> Quiescent(s) && (s.phase.Downloaded? || s.phase.Failed? || s.phase.Idle?))
    && s.history.installs == (if s.installStarted then 1 else 0)
    && (s.previewLocked ==> s.channel.Beta?)
  }

  lemma SetChannelKeepsInv(s: Coordinator, channel: Channel)
    requires Inv(s)
    ensures Inv(SetChannelStep(s, channel))
  {
  }

  lemma CheckKeepsInv(s: Coordinator)
    requires Inv(s)
    ensures Inv(CheckStep(s))
  {
    var s' := CheckStep(s);
    assert forall task :: Granted(s, task) ==> Granted(s', task);
    if Checks(s) {
      assert s.nextCall in s'.calls && s'.calls[s.nextCall].generation == s'.generation;
    }
  }

  lemma ResolveKeepsTasks(s: Coordinator, call: nat, answer: Authorization)
    requires Inv(s) && call in s.calls
    ensures TasksInv(ResolveStep(s, call, answer))
  {
  }

  lemma ResolveKeepsInv(s: Coordinator, call: nat, answer: Authorization)
    requires Inv(s) && call in s.calls
    ensures Inv(ResolveStep(s, call, answer))
  {
    ResolveKeepsTasks(s, call, answer);
    if s.calls[call].generation != s.generation && s.phase.Checking? {
      StaleAnswerKeepsAsking(s, call);
      assert ResolveStep(s, call, answer).calls == s.(calls := s.calls - {call}).calls;
    }
    hide Asking;
    hide TasksInv;
  }

  lemma RejectKeepsInv(s: Coordinator, call: nat)
    requires Inv(s) && call in s.calls
    ensures Inv(RejectStep(s, call))
  {
    var s' := RejectStep(s, call);
    assert forall task :: Granted(s, task) ==> Granted(s', task);
    if s.calls[call].generation != s.generation && s.phase.Checking? {
      StaleAnswerKeepsAsking(s, call);
    }
    hide Asking;
  }

  lemma AdvanceKeepsInv(s: Coordinator)
    requires Inv(s) && s.running.None? && s.queue != []
    ensures Inv(AdvanceStep(s))
  {
  }

  lemma SettleKeepsInv(s: Coordinator, changed: bool)
    requires Inv(s) && s.running.Some?
    ensures Inv(SettleStep(s, changed))
  {
  }

  lemma BreakKeepsInv(s: Coordinator)
    requires Inv(s) && s.running.Some?
    ensures Inv(BreakStep(s))
  {
  }

  lemma InstallKeepsInv(s: Coordinator, throws: bool)
    requires Inv(s)
    ensures Inv(InstallStep(s, throws))
    ensures s.installStarted ==> Inv(Fail(s))
  {
  }

  lemma StepKeepsInv(s: Coordinator, event: Event)
    requires Inv(s) && Possible(s, event)
    ensures Inv(Step(s, event))
  {
    hide Inv;
    match event
    case SetChannel(channel) => SetChannelKeepsInv(s, channel);
    case Check => CheckKeepsInv(s);
    case AuthorizeResolves(call, answer) => ResolveKeepsInv(s, call, answer);
    case AuthorizeRejects(call) => RejectKeepsInv(s, call);
    case QueueAdvances => AdvanceKeepsInv(s);
    case DownloadResolves(changed) => SettleKeepsInv(s, changed);
    case DownloadRejects => BreakKeepsInv(s);
    case Install(throws) => InstallKeepsInv(s, throws);
    case InstallRejects => InstallKeepsInv(s, false);
  }

  lemma InvIsInductive()
    ensures forall s :: Initial(s) ==> Inv(s)
    ensures forall s, s' :: Inv(s) && Next(s, s') ==> Inv(s')
  {
    forall s, s' | Inv(s) && Next(s, s')
      ensures Inv(s')
    {
      var event :| Possible(s, event) && s' == Step(s, event);
      StepKeepsInv(s, event);
    }
  }

  /**
   In every run, an install that answers true is the first one, finds nothing running or
   queued, and installs what was authorized for the channel and generation now selected.
   */
  lemma InstallsOnlyWhatIsAuthorized(trace: seq<Coordinator>, i: nat)
    requires Runs.IsRun(Initial, Next, trace) && i < |trace|
    ensures trace[i].history.installs <= 1
    ensures Installs(trace[i]) ==>
      trace[i].history.installs == 0 && Quiescent(trace[i]) && ReadyFor(trace[i])
    ensures trace[i].phase.Downloaded? && !trace[i].installStarted ==> Installs(trace[i])
  {
    InvIsInductive();
    Runs.InvariantHolds(Initial, Next, Inv, trace, i);
  }

  lemma StepAfterInstall(s: Coordinator, event: Event)
    requires Inv(s) && s.installStarted && Possible(s, event)
    ensures
      var s' := Step(s, event);
      && s'.installStarted
      && s'.history.downloadsStarted == s.history.downloadsStarted
      && s'.history.lastDownload == s.history.lastDownload
  {
  }

  /** Once an install has started, no download starts and no second install succeeds, ever. */
  lemma NothingAfterInstall(trace: seq<Coordinator>, i: nat, j: nat)
    requires Runs.IsRun(Initial, Next, trace) && i <= j < |trace|
    requires trace[i].installStarted
    ensures trace[j].installStarted && !Installs(trace[j]) && !Checks(trace[j]) && Quiescent(trace[j])
    ensures trace[j].history.downloadsStarted == trace[i].history.downloadsStarted
    ensures trace[j].history.lastDownload == trace[i].history.lastDownload
    ensures trace[j].history.installs == 1
  {
    InvIsInductive();
    var after := (s: Coordinator) =>
      && s.installStarted
      && s.history.downloadsStarted == trace[i].history.downloadsStarted
      && s.history.lastDownload == trace[i].history.lastDownload;
    forall s, s' | Inv(s) && after(s) && Next(s, s')
      ensures after(s')
    {
      var event :| Possible(s, event) && s' == Step(s, event);
      StepAfterInstall(s, event);
    }
    assert Inv(trace[j]) by { Runs.InvariantHolds(Initial, Next, Inv, trace, j); }
    hide Step;
    Runs.StablePropertyHolds(Initial, Next, Inv, after, trace, i, j);
  }

  // What is shown of an answer

  predicate NothingShown(s: Coordinator, s': Coordinator) {
    && s'.phase == s.phase && s'.channel == s.channel && s'.targetVersion == s.targetVersion
    && s'.downloadedGeneration == s.downloadedGeneration && s'.installStarted == s.installStarted
  }

  /** A switch ends on the channel asked for, unless it is locked, and leaves nothing in flight that still counts. */
  ghost predicate ShowsChannel(s: Coordinator, s': Coordinator, wanted: Channel) {
    && s'.channel == (if s.previewLocked then Beta else wanted)
    && (s'.channel == s.channel ==> s' == s)
    && (s'.channel != s.channel ==>
          && s'.targetVersion == "" && s'.phase == (if s.phase.Unsupported? then Unsupported else Idle)
          && s'.calls == s.calls && s'.queue == s.queue && s'.running == s.running
          && (forall c :: c in s'.calls ==> s'.calls[c].generation != s'.generation)
          && (forall k :: 0 <= k < |s'.queue| ==> s'.queue[k].generation != s'.generation)
          && (s'.running.Some? ==> s'.running.value.generation != s'.generation))
  }

  ghost predicate ShowsCheck(s: Coordinator, s': Coordinator) {
    if s.phase.Unsupported? || s.phase.Checking? || s.phase.Available? || s.installStarted then s' == s
    else
      && s'.phase.Checking? && s'.channel == s.channel && s'.queue == s.queue && s'.running == s.running
      && exists c: nat :: c !in s.calls && s'.calls == s.calls[c := Call(s.generation, s.channel)]
  }

  ghost predicate ShowsAuthorization(s: Coordinator, s': Coordinator, call: nat, answer: Authorization)
    requires call in s.calls
  {
    if s.calls[call].generation != s.generation then NothingShown(s, s') && s'.queue == s.queue
    else
      && s.phase.Checking? && s.calls[call].channel == s'.channel == s.channel
      && (answer.NoUpdate? ==> s'.phase.NotAvailable? && s'.targetVersion == "" && s'.queue == s.queue)
      && (answer.Update? ==>
            && s'.phase.Available? && s'.targetVersion == answer.version
            && s'.queue == s.queue + [Task(s.generation, answer.version, answer.artifact)])
  }

  ghost predicate ShowsDownload(s: Coordinator, s': Coordinator, changed: bool)
    requires s.running.Some?
  {
    && s'.running.None? && s'.history.lastDownload == Some(s.running.value.artifact)
    && if s.running.value.generation != s.generation then NothingShown(s, s')
       else
         && s.phase.Available? && s'.channel == s.channel
         && s'.phase == (if changed then Downloaded else NotAvailable)
         && s'.targetVersion == (if changed then s.running.value.version else "")
  }

  ghost predicate ShowsInstall(s: Coordinator, s': Coordinator, throws: bool) {
    if !s.phase.Downloaded? || s.installStarted then s' == s
    else
      && s'.installStarted && s'.history.installs == 1 && s'.channel == s.channel && s'.targetVersion == s.targetVersion
      && s'.phase == if throws then Failed else Downloaded
  }

  ghost predicate Shows(s: Coordinator, s': Coordinator, event: Event)
    requires Possible(s, event)
  {
    match event
    case SetChannel(wanted) => ShowsChannel(s, s', wanted)
    case Check => ShowsCheck(s, s')
    case AuthorizeResolves(call, answer) => ShowsAuthorization(s, s', call, answer)
    case AuthorizeRejects(call) =>
      if s.calls[call].generation != s.generation then NothingShown(s, s')
      else s.phase.Checking? && s'.phase.Failed? && s'.channel == s.channel
    case QueueAdvances =>
      && NothingShown(s, s') && s'.queue == s.queue[1..]
      && s'.running == if s.queue[0].generation == s.generation then Some(s.queue[0]) else None
    case DownloadResolves(changed) => ShowsDownload(s, s', changed)
    case DownloadRejects =>
      && s'.running.None?
      && if s.running.value.generation != s.generation then NothingShown(s, s')
         else s.phase.Available? && s'.phase.Failed? && s'.channel == s.channel
    case Install(throws) => ShowsInstall(s, s', throws)
    case InstallRejects => s'.phase.Failed? && s'.channel == s.channel
  }

  lemma CheckShows(s: Coordinator)
    requires Inv(s)
    ensures ShowsCheck(s, CheckStep(s))
  {
    assert s.nextCall !in s.calls;
  }

  lemma StepShows(s: Coordinator, event: Event)
    requires Inv(s) && Possible(s, event)
    ensures Shows(s, Step(s, event), event)
  {
    CheckShows(s);
    hide CheckStep;
    hide ShowsCheck;
  }

  /**
   In every run: switching ends on the channel asked for unless it is locked, and makes
   everything in flight stale. An answer to a stale call or download shows nothing. An answer
   that counts finds the check or the download it belongs to still going on, and leads to
   exactly this phase: nothing new, available with the version offered, downloaded with that
   version, or failed.
   */
  lemma AnswersAreShown(trace: seq<Coordinator>, i: nat, event: Event)
    requires Runs.IsRun(Initial, Next, trace) && i + 1 < |trace|
    requires Possible(trace[i], event) && trace[i + 1] == Step(trace[i], event)
    ensures Shows(trace[i], trace[i + 1], event)
  {
    InvIsInductive();
    Runs.InvariantHolds(Initial, Next, Inv, trace, i);
    StepShows(trace[i], event);
  }
}
