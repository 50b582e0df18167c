/**
 The controller as it runs: a DevWorkspace and its owned objects updated in place by Reconcile
 (controllers/workspace/devworkspace_controller.go), each method proved to take the step that
 module Lifecycle reasons about.
 */
module WorkspaceController {
  import opened Options
  import opened Conditions
  import opened Lifecycle

  /** The status one reconcile collects (currentStatus and workspaceConditions). */
  class CurrentStatus {
    var phase: Phase
    var conditions: map<ConditionType, Condition>
    var warnings: seq<Condition>

    function View(): Collected
      reads this
    {
      Collected(phase, Observed(conditions, warnings))
    }

    constructor (phase: Phase)
      ensures View() == Collected(phase, Observed(map[], []))
    {
      this.phase := phase;
      conditions := map[];
      warnings := [];
    }

    method SetCondition(k: ConditionType, status: ConditionStatus, message: string)
      modifies this
      ensures View() == Set(old(View()), k, status, message)
    {
      conditions := conditions[k := Condition(k, status, message, "", 0)];
    }

    method AddWarning(message: string)
      modifies this
      ensures View() == Warn(old(View()), message)
    {
      warnings := warnings + [Condition(Warning, True, message, "", 0)];
    }

    method FailWorkspace(message: string, reason: string)
      modifies this
      ensures View() == Fail(old(View()), message, reason)
    {
      phase := Failing;
      conditions := conditions[FailedStart := Condition(FailedStart, True, message, reason, 0)];
    }

    /** checkDWError, and the conditions its callers set around it. */
    method CheckStage(s: Stage, o: Outcome) returns (shouldReturn: bool)
      modifies this
      ensures shouldReturn <==> o.Waiting? || o.Broken? || o.Aborted?
      ensures !shouldReturn ==> phase == old(phase) && (s.done.None? || (s.optional && o.Skipped?) ==>
                                  conditions == old(conditions))
      ensures !shouldReturn && s.done.Some? && !(s.optional && o.Skipped?) ==>
                conditions == old(conditions)[s.done.value :=
                  Condition(s.done.value, True, if o.Skipped? then "" else o.message, "", 0)]
      ensures warnings == old(warnings) + if o.Warned? then [Condition(Warning, True, o.warning, "", 0)] else []
      ensures shouldReturn ==> phase == if o.Broken? then Failing else old(phase)
      ensures shouldReturn && s.waiting.Some? ==>
                && s.waiting.value in conditions
                && conditions[s.waiting.value] == Condition(s.waiting.value, False, o.message, "", 0)
      ensures o.Broken? && s.waiting != Some(FailedStart) ==>
                && FailedStart in conditions
                && conditions[FailedStart] == Condition(FailedStart, True, o.failure, o.reason, 0)
      ensures shouldReturn ==> forall k :: s.waiting != Some(k) && (k != FailedStart || !o.Broken?) ==>
                (k in conditions <==> k in old(conditions)) && (k in conditions ==> conditions[k] == old(conditions)[k])
      ensures View() == AfterStage(s, o, old(View()))
    {
      shouldReturn := true;
      match o {
        case Waiting(_) =>
        case Broken(failure, reason, _) => FailWorkspace(failure, reason);
        case Aborted(_) =>
        case Warned(warning, _) =>
          AddWarning(warning);
          shouldReturn := false;
        case Passed(_) => shouldReturn := false;
        case Skipped => shouldReturn := false;
      }
      if shouldReturn {
        if s.waiting.Some? { SetCondition(s.waiting.value, False, o.message); }
      } else if s.done.Some? && !(s.optional && o.Skipped?) {
        SetCondition(s.done.value, True, if o.Skipped? then "" else o.message);
      }
    }

    /** The successive stages of starting a workspace. */
    method RunStages(stages: seq<Stage>, outcomes: seq<Outcome>) returns (entered: nat, aborted: bool)
      modifies this
      ensures End(View(), entered, aborted) == Provision(stages, 0, outcomes, old(View()))
    {
      entered := 0;
      while entered < |stages|
        invariant entered <= |stages|
        invariant Provision(stages, entered, outcomes, View()) == Provision(stages, 0, outcomes, old(View()))
      {
        var o := OutcomeAt(outcomes, entered);
        var shouldReturn := CheckStage(stages[entered], o);
        entered := entered + 1;
        if shouldReturn { return entered, o.Aborted?; }
      }
      phase := Running;
      aborted := false;
    }
  }

  method RunStartStages(i: Input) returns (current: CurrentStatus, entered: nat, aborted: bool)
    ensures fresh(current)
    ensures End(current.View(), entered, aborted) == StartEnd(i)
  {
    current := new CurrentStatus(Starting);
    if i.configWarning.Some? { current.AddWarning(i.configWarning.value); }
    current.SetCondition(Started, True, "DevWorkspace is starting");
    assert current.View() == StartCollected(i);
    entered, aborted := current.RunStages(STAGES, i.outcomes);
  }

  /** GetConditionByType */
  method ConditionByType(conditions: seq<Condition>, k: ConditionType) returns (found: Option<Condition>)
    ensures found == First(conditions, k)
  {
    for i := 0 to |conditions|
      invariant First(conditions[..i], k) == None
    {
      assert conditions[..i + 1][..i] == conditions[..i];
      if conditions[i].kind == k {
        FirstOfPrefix(conditions, i + 1, k);
        return Some(conditions[i]);
      }
    }
    assert conditions[..|conditions|] == conditions;
    found := None;
  }

  lemma {:induction false} FirstOfPrefix(s: seq<Condition>, n: nat, k: ConditionType)
    requires n <= |s| && First(s[..n], k).Some?
    ensures First(s, k) == First(s[..n], k)
  {
    if n == |s| { assert s[..n] == s; }
    else {
      assert s[..|s| - 1][..n] == s[..n];
      FirstOfPrefix(s[..|s| - 1], n, k);
    }
  }

  lemma LatestTransitionExpired(s: seq<Condition>, timeout: int, now: int)
    ensures (LatestTransition(s) != 0 && LatestTransition(s) + timeout < now) <==>
            (exists c :: c in s && c.time > 0) && (forall c :: c in s ==> c.time + timeout < now || c.time <= 0)
  {
    LatestTransitionIsMaximum(s);
  }

  /** A DevWorkspace with the objects it owns. */
  class Workspace {
    var idSet: bool
    var deleted: bool
    var started: bool
    var debug: bool
    var phase: Phase
    const status: WorkspaceStatus
    var deployment: Option<Deployment>
    var routing: Option<Routing>
    var labelled: seq<Labelled>

    function View(): World
      reads this, status
    {
      World(idSet, deleted, started, debug, phase, status.conditions, deployment, routing, labelled)
    }

    constructor (started: bool, debug: bool)
      ensures View() == Created(started, debug) && fresh(status)
    {
      idSet, deleted, this.started, this.debug, phase := false, false, started, debug, NoPhase;
      status := new WorkspaceStatus([]);
      deployment, routing, labelled := None, None, [];
    }

    /** deleteWorkspaceOwnedObjects; `handled` objects are handled before a call fails. */
    method DeleteWorkspaceOwnedObjects(handled: nat) returns (result: StopResult)
      modifies this
      ensures (View(), result) == DeleteOwned(old(View()), handled)
    {
      var didDelete, done := false, 0;
      if deployment.Some? {
        didDelete := true;
        if handled == 0 {
          LeftUntouched(labelled);
          return StopError;
        }
        if deployment.value.soleOwner { deployment := None; }
        done := 1;
      }
      var failed: bool;
      done := done + |labelled|;
      didDelete := didDelete || labelled != [];
      labelled, failed := DeleteListed(labelled, handled - (done - |labelled|));
      if failed { return StopError; }
      if routing.Some? {
        didDelete := true;
        if handled == done { return StopError; }
        if routing.value.soleOwner { routing := None; }
      }
      result := if didDelete then NotStopped else StoppedNow;
    }

    /** The second half of doStop: scale the deployment down, or find that it is. */
    method ScaleDeploymentDown(i: Input) returns (result: StopResult)
      modifies this
      ensures (View(), result) == ScaleDown(old(View()), i)
    {
      if !i.deploymentRead { return StopError; }
      if deployment.None? { return StoppedNow; }
      if deployment.value.desired != Some(0) {
        if i.scaled == Refused { return StopError; }
        if i.scaled == Accepted { deployment := Some(deployment.value.(desired := Some(0))); }
        return NotStopped;
      }
      result := if deployment.value.actual == 0 then StoppedNow else NotStopped;
    }

    method DoStop(i: Input) returns (result: StopResult)
      modifies this
      ensures (View(), result) == Lifecycle.DoStop(old(View()), i)
    {
      if i.cleanupOnStop {
        result := DeleteWorkspaceOwnedObjects(i.handled);
        return;
      }
      if !i.routingRead { return StopError; }
      if routing.Some? && routing.value.annotated && !routing.value.markedStopped {
        if i.routingUpdate == Conflicted { return NotStopped; }
        if i.routingUpdate == Refused { return StopError; }
        routing := Some(routing.value.(markedStopped := true));
      }
      result := ScaleDeploymentDown(i);
    }

    /** updateWorkspaceStatus: a lost write leaves the stored status as it was. */
    method UpdateWorkspaceStatus(current: CurrentStatus, i: Input)
      modifies this, status
      ensures View() == WriteStatus(old(View()), old(current.View()), i)
    {
      var c := current.View();
      if i.statusWritten && Lists(i.order, c.obs) {
        status.SyncConditions(c.obs, i.order, i.now);
        phase := c.phase;
      }
    }

    method StopWorkspace(i: Input)
      modifies this, status
      ensures View() == Lifecycle.StopWorkspace(old(View()), i)
    {
      var current := new CurrentStatus(Stopping);
      if phase == Failing || phase == Failed {
        current.phase := phase;
        var failed := ConditionByType(status.conditions, FailedStart);
        if failed.Some? { current.conditions := current.conditions[FailedStart := failed.value]; }
      }
      assert current.View() == StopCollected(old(View()));
      var result := DoStop(i);
      if result == StopError { return; }
      if result == StoppedNow { EndStop(current); }
      UpdateWorkspaceStatus(current, i);
    }

    /** checkForStartTimeout: an unparsable timeout counts as reached. */
    method StartTimeout(i: Input) returns (expired: bool)
      ensures expired <==> StartExpired(View(), i)
    {
      if phase != Starting { return false; }
      if i.timeout.None? { return true; }
      expired := StartTimedOut(true, status.conditions, i.timeout.value, i.now);
      LatestTransitionExpired(status.conditions, i.timeout.value, i.now);
    }

    /** The start-up part of Reconcile with its deferred function. */
    method StartUp(i: Input)
      modifies this, status
      ensures View() == Lifecycle.StartUp(old(View()), i)
    {
      var current, entered, aborted := RunStartStages(i);
      TouchObjects(entered, i);
      if !aborted {
        var expired := StartTimeout(i);
        if expired { current.FailWorkspace(i.timeoutFailure, i.timeoutReason); }
      }
      assert current.View() == Deferred(old(View()), StartEnd(i), i);
      UpdateWorkspaceStatus(current, i);
    }

    method TouchObjects(entered: nat, i: Input)
      modifies this
      ensures View() == Touched(old(View()), entered, i)
    {
      if entered > DEPLOYMENT_STAGE { deployment := i.deployed; }
      if entered > ROUTING_STAGE { routing := i.routed; }
      labelled := i.created;
    }

    /** The check of a failing workspace that is still told to run. */
    method StopFailed(i: Input)
      requires phase == Failing && started
      modifies this
      ensures View() == if LeftForDebugging(old(View()), i) || !i.specPatched then old(View())
              else old(View()).(started := false)
    {
      if debug {
        if i.timeout.None? { return; }
        var expired := FailingTimedOut(true, status.conditions, i.timeout.value, i.now);
        FailedTimeAt(status.conditions);
        if !expired { return; }
      }
      if i.specPatched { started := false; }
    }

    method Finalize(i: Input)
      modifies this, status
      ensures View() == Lifecycle.Finalize(old(View()), i)
    {
      if i.finalizing.NoFinalizers? { return; }
      var current := new CurrentStatus(Terminating);
      current.SetCondition(Started, True, "Cleaning up resources for deletion");
      if i.finalizing.removedDeployment { deployment := None; }
      if i.finalizing.failure.Some? {
        current.phase := Errored;
        current.SetCondition(Error, True, i.finalizing.failure.value);
      }
      UpdateWorkspaceStatus(current, i);
    }

    method Reconcile(i: Input)
      modifies this, status
      ensures View() == Next(old(View()), Reconciled(i))
    {
      if deleted {
        Finalize(i);
      } else if !idSet {
        if i.statusWritten {
          if i.idAssigned { idSet := true; } else { phase := Failed; }
        }
      } else if phase == Failing && started {
        StopFailed(i);
      } else if !started {
        StopWorkspace(i);
      } else if phase != Starting && phase != Running {
        if i.statusWritten {
          phase := Starting;
          status.conditions := [Condition(Started, True, "DevWorkspace is starting", "", i.now)];
        }
      } else {
        StartUp(i);
      }
    }
  }

  /** Deletes, of the configmaps or secrets listed, those without another owner, until a call fails. */
  method DeleteListed(listed: seq<Labelled>, handled: nat) returns (left: seq<Labelled>, failed: bool)
    ensures left == Left(listed, handled)
    ensures failed <==> handled < |listed|
  {
    left := [];
    for n := 0 to |listed|
      invariant n <= handled
      invariant left == Left(listed[..n], handled)
    {
      if n == handled {
        LeftStops(listed, n, handled);
        return left + listed[n..], true;
      }
      assert listed[..n + 1][..n] == listed[..n];
      if !listed[n].soleOwner { left := left + [listed[n]]; }
    }
    assert listed[..|listed|] == listed;
    failed := false;
  }

  method EndStop(current: CurrentStatus)
    modifies current
    ensures current.View() == StopEnded(old(current.View()))
  {
    if current.phase == Failing || current.phase == Failed {
      current.phase := Failed;
      current.SetCondition(Started, False, "Workspace stopped due to error");
    } else {
      current.phase := Stopped;
      current.SetCondition(Started, False, "Workspace is stopped");
    }
  }

  lemma {:induction false} LeftUntouched(listed: seq<Labelled>)
    ensures Left(listed, 0) == listed
  {
    if listed != [] {
      LeftUntouched(listed[..|listed| - 1]);
      assert listed == listed[..|listed| - 1] + [listed[|listed| - 1]];
    }
  }

  /** Objects after the first `n` are left as they are. */
  lemma {:induction false} LeftStops(listed: seq<Labelled>, n: nat, handled: nat)
    requires n <= |listed| && handled <= n
    ensures Left(listed, handled) == Left(listed[..n], handled) + listed[n..]
  {
    if n == |listed| {
      assert listed[..n] == listed;
    } else {
      var init := listed[..|listed| - 1];
      LeftStops(init, n, handled);
      assert init[..n] == listed[..n];
      assert init[n..] + [listed[|listed| - 1]] == listed[n..];
    }
  }
}
