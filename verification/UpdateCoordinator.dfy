/**
 The update coordinator in the form it is written: fields reassigned by methods and by
 callbacks. Every method is one step of `UpdateMachine`, so that the theorems over runs
 hold of every interleaving of its calls.
 */
module UpdateCoordinator {
  import opened Wrappers
  import opened UpdateMachine

  predicate PreviewVersion(version: string) {
    && |version| > 4 && version[..4] == "0.0."
    && forall i :: 4 <= i < |version| ==> '0' <= version[i] <= '9'
  }

  class UpdateCoordinator {
    const previewLocked: bool
    var phase: Phase
    var channel: Channel
    var targetVersion: string
    var generation: nat
    var downloadedGeneration: Option<nat>
    var installStarted: bool
    // Promises in flight
    var calls: map<nat, Call>
    var nextCall: nat
    var queue: seq<Task>
    var running: Option<Task>
    // What the authorizer and the platform updater did so far
    ghost var history: History

    ghost function View(): Coordinator
      reads this
    {
      Coordinator(previewLocked, phase, channel, targetVersion, generation, downloadedGeneration, installStarted,
                  calls, nextCall, queue, running, history)
    }

    constructor (supported: bool, version: string, wanted: Option<Channel>)
      ensures Initial(View()) && (phase.Unsupported? <==> !supported)
      ensures previewLocked == PreviewVersion(version)
      ensures channel == if previewLocked then Beta else if wanted.Some? then wanted.value else Stable
    {
      previewLocked := PreviewVersion(version);
      phase := if supported then Idle else Unsupported;
      channel := if PreviewVersion(version) then Beta else if wanted.Some? then wanted.value else Stable;
      targetVersion := "";
      generation := 0;
      downloadedGeneration := None;
      installStarted := false;
      calls, nextCall, queue, running := map[], 0, [], None;
      history := History({}, None, 0, 0);
    }

    method SetChannel(wanted: Channel)
      modifies this
      ensures View() == Step(old(View()), Event.SetChannel(wanted))
    {
      var next := if previewLocked then Beta else wanted;
      if next == channel {
        return;
      }
      generation := generation + 1;
      downloadedGeneration := None;
      if phase != Unsupported {
        phase := Idle;
      }
      channel := next;
      targetVersion := "";
    }

    method Check()
      modifies this
      ensures View() == Step(old(View()), Event.Check)
    {
      if phase == Unsupported {
        return;
      }
      if installStarted || phase == Checking || phase == Available {
        return;
      }
      downloadedGeneration := None;
      phase := Checking;
      calls := calls[nextCall := Call(generation, channel)];
      nextCall := nextCall + 1;
    }

    method Fail()
      modifies this`downloadedGeneration, this`phase
      ensures View() == UpdateMachine.Fail(old(View()))
    {
      downloadedGeneration := None;
      phase := Failed;
    }

    method OnAuthorized(call: nat, answer: Authorization)
      requires call in calls
      modifies this
      ensures View() == Step(old(View()), AuthorizeResolves(call, answer))
    {
      var asked := calls[call];
      calls := calls - {call};
      if answer.Update? {
        history := history.(
          grants := history.grants + {Grant(asked.generation, asked.channel, answer.version, answer.artifact)});
      }
      if asked.generation != generation {
        return;
      }
      if answer.NoUpdate? {
        phase := NotAvailable;
        targetVersion := "";
        return;
      }
      phase := Available;
      targetVersion := answer.version;
      queue := queue + [Task(asked.generation, answer.version, answer.artifact)];
    }

    method OnAuthorizeRejected(call: nat)
      requires call in calls
      modifies this
      ensures View() == Step(old(View()), AuthorizeRejects(call))
    {
      var asked := calls[call];
      calls := calls - {call};
      if asked.generation == generation {
        Fail();
      }
    }

    /** The queue's next task begins; a task of an older generation is dropped without a download. */
    method OnQueueAdvanced()
      requires running.None? && queue != []
      modifies this
      ensures View() == Step(old(View()), QueueAdvances)
    {
      var task := queue[0];
      queue := queue[1..];
      if task.generation != generation {
        return;
      }
      running := Some(task);
      history := history.(downloadsStarted := history.downloadsStarted + 1);
    }

    method OnDownloaded(changed: bool)
      requires running.Some?
      modifies this
      ensures View() == Step(old(View()), DownloadResolves(changed))
    {
      var task := running.value;
      running := None;
      history := history.(lastDownload := Some(task.artifact));
      if task.generation != generation {
        return;
      }
      downloadedGeneration := if changed then Some(task.generation) else None;
      phase := if changed then Downloaded else NotAvailable;
      targetVersion := if changed then task.version else "";
    }

    method OnDownloadRejected()
      requires running.Some?
      modifies this
      ensures View() == Step(old(View()), DownloadRejects)
    {
      var task := running.value;
      running := None;
      if task.generation == generation {
        Fail();
      }
    }

    method Install(throws: bool) returns (accepted: bool)
      modifies this
      ensures accepted == Installs(old(View()))
      ensures View() == Step(old(View()), Event.Install(throws))
    {
      if phase != Downloaded {
        return false;
      }
      if installStarted || downloadedGeneration != Some(generation) {
        return false;
      }
      installStarted := true;
      history := history.(installs := history.installs + 1);
      if throws {
        Fail();
      }
      return true;
    }

    method OnInstallRejected()
      requires installStarted
      modifies this
      ensures View() == Step(old(View()), InstallRejects)
    {
      Fail();
    }
  }
}
