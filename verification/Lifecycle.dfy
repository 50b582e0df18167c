/**
 The life of a DevWorkspace across reconciles (Reconcile, stopWorkspace, doStop and
 failWorkspace in controllers/workspace/devworkspace_controller.go, the clean-up on stop in
 controllers/workspace/cleanup.go and the status write in controllers/workspace/status.go).

 A state is what is persisted: the DevWorkspace's spec flags and status, and the objects the
 workspace owns. Steps are reconciles, each atomic, with their status write possibly lost;
 changes a user makes; and moves of the controller that runs the deployment's replicas.
 */
module Lifecycle {
  import opened Options
  import opened Conditions

  datatype Phase = NoPhase | Starting | Running | Stopping | Stopped | Failing | Failed | Terminating | Errored

  /** A missing replica count means one. */
  datatype Deployment = Deployment(desired: Option<nat>, actual: nat, soleOwner: bool)

  /** `annotated`: the routing has an annotation map; `markedStopped`: its started annotation is "false". */
  datatype Routing = Routing(annotated: bool, markedStopped: bool, soleOwner: bool)

  /** A configmap or secret labelled with the workspace's ID. */
  datatype Labelled = Labelled(soleOwner: bool)

  datatype World = World(
    idSet: bool, deleted: bool, started: bool, debug: bool,
    phase: Phase, conditions: seq<Condition>,
    deployment: Option<Deployment>, routing: Option<Routing>, labelled: seq<Labelled>)

  // ----- what one reconcile finds out -----

  /** How one stage of provisioning ended. The message goes into the condition the stage sets. */
  datatype Outcome =
    | Passed(message: string)
    | Skipped
    | Warned(warning: string, message: string)
    | Waiting(message: string)
    | Broken(failure: string, reason: string, message: string)
    | Aborted(message: string)

  datatype Call = Accepted | Conflicted | Refused

  datatype Finalizing = NoFinalizers | Finalizing(removedDeployment: bool, failure: Option<string>)

  /** Everything a reconcile learns besides the persisted state; `timeout` is None when unparsable. */
  datatype Input = Input(
    now: int, order: seq<ConditionType>, timeout: Option<int>,
    statusWritten: bool, idAssigned: bool, specPatched: bool,
    finalizing: Finalizing,
    cleanupOnStop: bool, handled: nat, routingRead: bool, routingUpdate: Call, deploymentRead: bool, scaled: Call,
    configWarning: Option<string>, outcomes: seq<Outcome>, timeoutFailure: string, timeoutReason: string,
    deployed: Option<Deployment>, routed: Option<Routing>, created: seq<Labelled>)

  // ----- observations -----

  function Stated(k: ConditionType, status: ConditionStatus, message: string, reason: string): Condition {
    Condition(k, status, message, reason, 0)
  }

  /** The status a reconcile collects before writing it. */
  datatype Collected = Collected(phase: Phase, obs: Observed)

  function Set(c: Collected, k: ConditionType, status: ConditionStatus, message: string): Collected {
    c.(obs := c.obs.(conditions := c.obs.conditions[k := Stated(k, status, message, "")]))
  }

  function Warn(c: Collected, message: string): Collected {
    c.(obs := c.obs.(warnings := c.obs.warnings + [Stated(Warning, True, message, "")]))
  }

  function Fail(c: Collected, message: string, reason: string): Collected {
    var failed := Stated(FailedStart, True, message, reason);
    Collected(Failing, c.obs.(conditions := c.obs.conditions[FailedStart := failed]))
  }

  /** Whether `order` is an iteration order of the observed conditions. */
  predicate Lists(order: seq<ConditionType>, obs: Observed): (r: bool)
    ensures r <==> Enumerates(order, obs)
  {
    && (forall k :: k in order ==> k in obs.conditions)
    && (forall k :: k in obs.conditions ==> k in order)
    && (forall a, b :: 0 <= a < b < |order| ==> order[a] != order[b])
  }

  /**
   updateWorkspaceStatus: phase and conditions are written together, or the write is lost.
   An input whose `order` is not an iteration order stands for a lost write too.
   */
  function WriteStatus(w: World, c: Collected, i: Input): World {
    if i.statusWritten && Lists(i.order, c.obs) then
      w.(phase := c.phase, conditions := Synced(w.conditions, c.obs, i.order, i.now))
    else w
  }

  // ----- stopping -----

  predicate AtRest(d: Option<Deployment>) {
    d.None? || (d.value.desired == Some(0) && d.value.actual == 0)
  }

  /** What is left of `listed` after handling its first `n` objects. */
  function Left(listed: seq<Labelled>, n: nat): seq<Labelled> {
    if listed == [] then []
    else
      var last := listed[|listed| - 1];
      Left(listed[..|listed| - 1], n) + (if last.soleOwner && |listed| <= n then [] else [last])
  }

  function Present<T>(o: Option<T>): nat { if o.Some? then 1 else 0 }

  function ListedCount(w: World): nat {
    Present(w.deployment) + |w.labelled| + Present(w.routing)
  }

  datatype StopResult = NotStopped | StoppedNow | StopError

  /**
   deleteWorkspaceOwnedObjects, when the first `handled` listed objects could be handled: those
   the workspace alone owns are deleted. It is done only once nothing is listed.
   */
  function DeleteOwned(w: World, handled: nat): (World, StopResult) {
    var before := handled - Present(w.deployment);
    (w.(deployment := if w.deployment.Some? && w.deployment.value.soleOwner && handled >= 1 then None else w.deployment,
        labelled := Left(w.labelled, if before < 0 then 0 else before),
        routing := if w.routing.Some? && w.routing.value.soleOwner && handled >= ListedCount(w) then None
                   else w.routing),
     if handled < ListedCount(w) then StopError
     else if ListedCount(w) == 0 then StoppedNow else NotStopped)
  }

  predicate RoutingNeedsMark(w: World) {
    w.routing.Some? && w.routing.value.annotated && !w.routing.value.markedStopped
  }

  /** Scaling the deployment down, or finding that it is. */
  function ScaleDown(w: World, i: Input): (World, StopResult) {
    if !i.deploymentRead then (w, StopError)
    else if w.deployment.None? then (w, StoppedNow)
    else if w.deployment.value.desired == Some(0) then
      (w, if w.deployment.value.actual == 0 then StoppedNow else NotStopped)
    else match i.scaled
      case Accepted => (w.(deployment := Some(w.deployment.value.(desired := Some(0)))), NotStopped)
      case Conflicted => (w, NotStopped)
      case Refused => (w, StopError)
  }

  /** doStop */
  function DoStop(w: World, i: Input): (World, StopResult) {
    if i.cleanupOnStop then DeleteOwned(w, i.handled)
    else if !i.routingRead then (w, StopError)
    else if RoutingNeedsMark(w) then
      match i.routingUpdate
      case Accepted => ScaleDown(w.(routing := Some(w.routing.value.(markedStopped := true))), i)
      case Conflicted => (w, NotStopped)
      case Refused => (w, StopError)
    else ScaleDown(w, i)
  }

  function First(conditions: seq<Condition>, k: ConditionType): Option<Condition> {
    if conditions == [] then None
    else if First(conditions[..|conditions| - 1], k).Some? then First(conditions[..|conditions| - 1], k)
    else if conditions[|conditions| - 1].kind == k then Some(conditions[|conditions| - 1])
    else None
  }

  predicate FailurePhase(p: Phase) {
    p == Failing || p == Failed
  }

  /** What stopWorkspace collects before stopping: the phase, and a stored failure as it was. */
  function StopCollected(w: World): Collected {
    if FailurePhase(w.phase) then
      var failure := First(w.conditions, FailedStart);
      Collected(w.phase, Observed(if failure.Some? then map[FailedStart := failure.value] else map[], []))
    else Collected(Stopping, Observed(map[], []))
  }

  function StopEnded(c: Collected): Collected {
    if FailurePhase(c.phase) then Set(c, Started, False, "Workspace stopped due to error").(phase := Failed)
    else Set(c, Started, False, "Workspace is stopped").(phase := Stopped)
  }

  /** stopWorkspace */
  function StopWorkspace(w: World, i: Input): World {
    var (w', result) := DoStop(w, i);
    if result == StopError then w'
    else WriteStatus(w', if result == StoppedNow then StopEnded(StopCollected(w)) else StopCollected(w), i)
  }

  // ----- starting -----

  /**
   A stage of the start-up part of Reconcile: the condition it sets False when it ends the
   reconcile, the one it sets True when it passes, and whether it may not apply.
   */
  datatype Stage = Stage(name: string, waiting: Option<ConditionType>, done: Option<ConditionType>, optional: bool)

  const STAGES: seq<Stage> := [
    Stage("creator label", None, None, true),
    Stage("stop reason", None, None, true),
    Stage("flatten", None, None, false),
    Stage("ssh agent", None, Some(Resolved), false),
    Stage("component validation", None, None, false),
    Stage("storage provisioner", None, None, false),
    Stage("persistent home", None, None, true),
    Stage("storage finalizer", None, None, true),
    Stage("debug mode", None, Some(Started), true),
    Stage("pod additions", None, None, false),
    Stage("running deployment", None, None, true),
    Stage("automount", None, None, false),
    Stage("storage", Some(StorageReady), Some(StorageReady), false),
    Stage("rbac finalizer", None, None, true),
    Stage("rbac", None, None, false),
    Stage("routing", Some(RoutingReady), Some(RoutingReady), false),
    Stage("main url", None, None, false),
    Stage("metadata", None, None, false),
    Stage("service account settings", None, None, true),
    Stage("service account", Some(ServiceAccountReady), Some(ServiceAccountReady), false),
    Stage("pull secrets", Some(PullSecretsReady), Some(PullSecretsReady), true),
    Stage("kubernetes components", Some(KubeComponentsReady), Some(KubeComponentsReady), true),
    Stage("deployment", Some(DeploymentReady), Some(DeploymentReady), false),
    Stage("server", Some(Ready), Some(Ready), false)
  ]

  const ROUTING_STAGE: nat := 15
  const DEPLOYMENT_STAGE: nat := 22

  function OutcomeAt(outcomes: seq<Outcome>, n: nat): Outcome {
    if n < |outcomes| then outcomes[n] else Aborted("")
  }

  predicate Continues(o: Outcome) {
    o.Passed? || o.Skipped? || o.Warned?
  }

  /** What a stage adds to the collected status. */
  function AfterStage(s: Stage, o: Outcome, c: Collected): Collected {
    if Continues(o) then
      var warned := if o.Warned? then Warn(c, o.warning) else c;
      if s.done.None? || (s.optional && o.Skipped?) then warned
      else Set(warned, s.done.value, True, if o.Skipped? then "" else o.message)
    else
      var failed := if o.Broken? then Fail(c, o.failure, o.reason) else c;
      if s.waiting.None? then failed else Set(failed, s.waiting.value, False, o.message)
  }

  /** How provisioning ended: what it collected, how many stages it entered, and whether with an error. */
  datatype End = End(collected: Collected, entered: nat, aborted: bool)

  function Provision(stages: seq<Stage>, n: nat, outcomes: seq<Outcome>, c: Collected): End
    requires n <= |stages|
    decreases |stages| - n
  {
    if n == |stages| then End(c.(phase := Running), n, false)
    else
      var o := OutcomeAt(outcomes, n);
      if Continues(o) then Provision(stages, n + 1, outcomes, AfterStage(stages[n], o, c))
      else End(AfterStage(stages[n], o, c), n + 1, o.Aborted?)
  }

  function StartCollected(i: Input): Collected {
    var c := Collected(Starting, Observed(map[], []));
    Set(if i.configWarning.Some? then Warn(c, i.configWarning.value) else c, Started, True, "DevWorkspace is starting")
  }

  predicate StartExpired(w: World, i: Input) {
    w.phase == Starting &&
    (i.timeout.None? ||
     (LatestTransition(w.conditions) != 0 && LatestTransition(w.conditions) + i.timeout.value < i.now))
  }

  /** How the start-up part of Reconcile ends. */
  function StartEnd(i: Input): End {
    Provision(STAGES, 0, i.outcomes, StartCollected(i))
  }

  /** The timeout check the deferred function makes, unless there was an error. */
  function Deferred(w: World, e: End, i: Input): Collected {
    if !e.aborted && StartExpired(w, i) then Fail(e.collected, i.timeoutFailure, i.timeoutReason) else e.collected
  }

  /** The owned objects that the stages entered may have changed. */
  function Touched(w: World, entered: nat, i: Input): World {
    w.(deployment := if entered > DEPLOYMENT_STAGE then i.deployed else w.deployment,
       routing := if entered > ROUTING_STAGE then i.routed else w.routing,
       labelled := i.created)
  }

  function StartUp(w: World, i: Input): World {
    var e := StartEnd(i);
    WriteStatus(Touched(w, e.entered, i), Deferred(w, e, i), i)
  }

  // ----- one reconcile -----

  function Finalize(w: World, i: Input): World {
    match i.finalizing
    case NoFinalizers => w
    case Finalizing(removed, failure) =>
      WriteStatus(if removed then w.(deployment := None) else w, FinalizeCollected(failure), i)
  }

  function FinalizeCollected(failure: Option<string>): Collected {
    var c := Set(Collected(Terminating, Observed(map[], [])), Started, True, "Cleaning up resources for deletion");
    if failure.Some? then Set(c, Error, True, failure.value).(phase := Errored) else c
  }

  function AssignId(w: World, i: Input): World {
    if !i.statusWritten then w
    else if i.idAssigned then w.(idSet := true)
    else w.(phase := Failed)
  }

  function FailedTime(conditions: seq<Condition>): int {
    if conditions == [] then 0
    else if conditions[|conditions| - 1].kind == FailedStart then conditions[|conditions| - 1].time
    else FailedTime(conditions[..|conditions| - 1])
  }

  lemma {:induction false} FailedTimeAt(s: seq<Condition>)
    ensures FailedTime(s) != 0 ==>
              exists i :: 0 <= i < |s| && s[i].kind == FailedStart && s[i].time == FailedTime(s)
                          && forall j :: i < j < |s| ==> s[j].kind != FailedStart
    ensures forall i ::
              (0 <= i < |s| && s[i].kind == FailedStart && forall j :: i < j < |s| ==> s[j].kind != FailedStart) ==>
                s[i].time == FailedTime(s)
  {
    if s != [] && s[|s| - 1].kind != FailedStart {
      var init := s[..|s| - 1];
      FailedTimeAt(init);
      if FailedTime(init) != 0 {
        var i :| 0 <= i < |init| && init[i].kind == FailedStart && init[i].time == FailedTime(init)
                 && forall j :: i < j < |init| ==> init[j].kind != FailedStart;
        assert s[i] == init[i];
        assert forall j :: i < j < |s| ==> s[j].kind != FailedStart;
      }
      forall i | 0 <= i < |s| && s[i].kind == FailedStart && (forall j :: i < j < |s| ==> s[j].kind != FailedStart)
        ensures s[i].time == FailedTime(s)
      {
        assert init[i] == s[i];
        assert forall j :: i < j < |init| ==> init[j] == s[j];
      }
    }
  }

  /** A failing workspace in debug mode is left alone until the timeout, and if there is none. */
  predicate LeftForDebugging(w: World, i: Input) {
    w.debug && (i.timeout.None? || FailedTime(w.conditions) == 0 || FailedTime(w.conditions) + i.timeout.value >= i.now)
  }

  function BeginStart(w: World, i: Input): World {
    if i.statusWritten then
      w.(phase := Starting, conditions := [Condition(Started, True, "DevWorkspace is starting", "", i.now)])
    else w
  }

  function Reconcile(w: World, i: Input): World {
    if w.deleted then Finalize(w, i)
    else if !w.idSet then AssignId(w, i)
    else if w.phase == Failing && w.started then
      if LeftForDebugging(w, i) || !i.specPatched then w else w.(started := false)
    else if !w.started then StopWorkspace(w, i)
    else if w.phase != Starting && w.phase != Running then BeginStart(w, i)
    else StartUp(w, i)
  }

  // ----- runs -----

  datatype Step =
    | Reconciled(input: Input)
    | StartedSet(started: bool)
    | DebugSet(debug: bool)
    | ReplicasMoved(replicas: nat)
    | DeletionRequested

  /** Scaled to zero, a deployment only loses replicas. */
  function MoveReplicas(d: Deployment, n: nat): Deployment {
    d.(actual := if d.desired == Some(0) && n > d.actual then d.actual else n)
  }

  function Next(w: World, s: Step): World {
    match s
    case Reconciled(i) => Reconcile(w, i)
    case StartedSet(b) => w.(started := b)
    case DebugSet(b) => w.(debug := b)
    case ReplicasMoved(n) =>
      if w.deployment.Some? then w.(deployment := Some(MoveReplicas(w.deployment.value, n))) else w
    case DeletionRequested => w.(deleted := true)
  }

  function Run(w: World, steps: seq<Step>): World {
    if steps == [] then w else Next(Run(w, steps[..|steps| - 1]), steps[|steps| - 1])
  }

  function Created(started: bool, debug: bool): World {
    World(false, false, started, debug, NoPhase, [], None, None, [])
  }

  // ----- conditions -----

  ghost predicate Holds(conditions: seq<Condition>, k: ConditionType) {
    && (exists c :: c in conditions && c.kind == k)
    && (forall c :: c in conditions && c.kind == k ==> c.status == True)
  }

  ghost predicate Unique(conditions: seq<Condition>) {
    forall k :: k != Warning ==> Count(conditions, k) <= 1
  }

  lemma {:induction false} CountMember(s: seq<Condition>, c: Condition)
    requires c in s
    ensures Count(s, c.kind) >= 1
    ensures Count(s, c.kind) == 1 ==> First(s, c.kind) == Some(c)
  {
    var init, last := s[..|s| - 1], s[|s| - 1];
    assert s == init + [last];
    if c in init { CountMember(init, c); }
    else {
      assert c == last;
      FirstCounted(init, c.kind);
    }
  }

  lemma {:induction false} FirstCounted(s: seq<Condition>, k: ConditionType)
    ensures First(s, k).Some? <==> Count(s, k) > 0
    ensures First(s, k).Some? ==> First(s, k).value in s && First(s, k).value.kind == k
  {
    if s != [] {
      FirstCounted(s[..|s| - 1], k);
      assert s == s[..|s| - 1] + [s[|s| - 1]];
    }
  }

  /** Written conditions keep each type unique. */
  lemma SyncedUnique(stored: seq<Condition>, obs: Observed, order: seq<ConditionType>, now: int)
    requires Enumerates(order, obs) && Unique(stored)
    ensures Unique(Synced(stored, obs, order, now))
  {
    forall k | k != Warning ensures Count(Synced(stored, obs, order, now), k) <= 1 {
      SyncKindCounts(stored, obs, order, now, k);
      FirstCounted(stored, k);
    }
  }

  /** A type observed True holds after the write. */
  lemma SyncedHolds(stored: seq<Condition>, obs: Observed, order: seq<ConditionType>, now: int, k: ConditionType)
    requires Enumerates(order, obs) && k != Warning
    requires k in obs.conditions && obs.conditions[k].status == True
    ensures Holds(Synced(stored, obs, order, now), k)
  {
    EveryObservedKindIsKnown(stored, obs, order, now, k);
    forall d | d in Synced(stored, obs, order, now) && d.kind == k ensures d.status == True {
      SyncMember(stored, obs, order, now, d);
      ArisesTrue(stored, obs, now, d);
    }
  }

  lemma ArisesTrue(stored: seq<Condition>, obs: Observed, now: int, d: Condition)
    requires Arises(d, stored, obs, now) && d.kind != Warning
    requires d.kind in obs.conditions && obs.conditions[d.kind].status == True
    ensures d.status == True
  {
    KnownWarningsProperties(stored);
  }

  /** A stored condition that is observed as it is stays, with its time. */
  lemma SyncedKeeps(stored: seq<Condition>, obs: Observed, order: seq<ConditionType>, now: int, k: ConditionType)
    requires Enumerates(order, obs) && Unique(stored) && k != Warning
    requires First(stored, k).Some? ==> k in obs.conditions && obs.conditions[k] == First(stored, k).value
    requires First(stored, k).None? ==> k !in obs.conditions
    ensures First(Synced(stored, obs, order, now), k) == First(stored, k)
  {
    var synced := Synced(stored, obs, order, now);
    FirstCounted(stored, k);
    FirstCounted(synced, k);
    SyncKindCounts(stored, obs, order, now, k);
    if First(stored, k).Some? {
      var c := First(stored, k).value;
      assert Arises(Refresh(c, obs, now), stored, obs, now);
      SyncMember(stored, obs, order, now, c);
      assert k in KnownKinds(stored);
      CountMember(synced, c);
    }
  }

  // ----- provisioning -----

  predicate ObservedTrue(obs: Observed, k: ConditionType) {
    k in obs.conditions && obs.conditions[k].status == True
  }

  /** The first `n` stages, where they must apply, have set their conditions. */
  ghost predicate SetUpTo(stages: seq<Stage>, n: nat, obs: Observed)
    requires n <= |stages|
  {
    && ObservedTrue(obs, Started)
    && forall m :: 0 <= m < n && !stages[m].optional && stages[m].done.Some? ==> ObservedTrue(obs, stages[m].done.value)
  }

  ghost predicate AllPass(stages: seq<Stage>, n: nat, outcomes: seq<Outcome>) {
    && (n < |stages| ==> |stages| <= |outcomes|)
    && forall m :: n <= m < |stages| ==> outcomes[m].Passed? || outcomes[m].Skipped? || outcomes[m].Warned?
  }

  lemma AllPassFrom(stages: seq<Stage>, n: nat, outcomes: seq<Outcome>)
    requires n < |stages|
    ensures AllPass(stages, n, outcomes) <==> Continues(OutcomeAt(outcomes, n)) && AllPass(stages, n + 1, outcomes)
  {
    assert n < |outcomes| ==> OutcomeAt(outcomes, n) == outcomes[n];
  }

  lemma StageKeepsSet(stages: seq<Stage>, n: nat, o: Outcome, c: Collected)
    requires n < |stages| && Continues(o) && SetUpTo(stages, n, c.obs)
    ensures SetUpTo(stages, n + 1, AfterStage(stages[n], o, c).obs)
    ensures AfterStage(stages[n], o, c).phase == c.phase
  {
    var obs := AfterStage(stages[n], o, c).obs;
    forall k | ObservedTrue(c.obs, k) ensures ObservedTrue(obs, k) {}
  }

  lemma StageEnds(s: Stage, o: Outcome, c: Collected)
    requires !Continues(o) && c.phase == Starting && s.waiting != Some(FailedStart)
    ensures var d := AfterStage(s, o, c);
      d.phase == (if o.Broken? then Failing else Starting) && (o.Broken? ==> ObservedTrue(d.obs, FailedStart))
  {
  }

  /** Provisioning reports Running exactly when no stage ends it, and then every mandatory condition is True. */
  lemma {:induction false} RunningExactlyWhenEveryStagePasses(
      stages: seq<Stage>, n: nat, outcomes: seq<Outcome>, c: Collected)
    requires n <= |stages| && c.phase == Starting && SetUpTo(stages, n, c.obs)
    requires forall s :: s in stages ==> s.waiting != Some(FailedStart)
    ensures var e := Provision(stages, n, outcomes, c);
      && (e.collected.phase == Running <==> AllPass(stages, n, outcomes))
      && (e.collected.phase == Running ==> SetUpTo(stages, |stages|, e.collected.obs) && !e.aborted)
      && (e.collected.phase == Failing ==> ObservedTrue(e.collected.obs, FailedStart))
      && (e.collected.phase == Running || e.collected.phase == Starting || e.collected.phase == Failing)
    decreases |stages| - n
  {
    if n < |stages| {
      var o := OutcomeAt(outcomes, n);
      AllPassFrom(stages, n, outcomes);
      if Continues(o) {
        StageKeepsSet(stages, n, o, c);
        RunningExactlyWhenEveryStagePasses(stages, n + 1, outcomes, AfterStage(stages[n], o, c));
      } else {
        StageEnds(stages[n], o, c);
      }
    }
  }

  /** The conditions a running workspace has True. */
  const RUNNING_KINDS: seq<ConditionType> :=
    [Started, Resolved, StorageReady, RoutingReady, ServiceAccountReady, DeploymentReady, Ready]

  lemma MandatoryKinds(obs: Observed, k: ConditionType)
    requires SetUpTo(STAGES, |STAGES|, obs) && k in RUNNING_KINDS
    ensures ObservedTrue(obs, k)
  {
    assert STAGES[3].done == Some(Resolved);
    assert STAGES[12].done == Some(StorageReady);
    assert STAGES[15].done == Some(RoutingReady);
    assert STAGES[19].done == Some(ServiceAccountReady);
    assert STAGES[22].done == Some(DeploymentReady);
    assert STAGES[23].done == Some(Ready);
  }

  lemma NoStageWaitsOnFailure(s: Stage)
    requires s in STAGES
    ensures s.waiting != Some(FailedStart)
  {
  }

  lemma ProvisionEnds(outcomes: seq<Outcome>, c: Collected)
    requires c.phase == Starting && ObservedTrue(c.obs, Started)
    ensures var e := Provision(STAGES, 0, outcomes, c);
      && (e.collected.phase == Running <==> AllPass(STAGES, 0, outcomes))
      && (e.collected.phase == Running ==> SetUpTo(STAGES, |STAGES|, e.collected.obs) && !e.aborted)
      && (e.collected.phase == Failing ==> ObservedTrue(e.collected.obs, FailedStart))
      && (e.collected.phase == Running || e.collected.phase == Starting || e.collected.phase == Failing)
  {
    var stages := STAGES;
    forall s | s in stages ensures s.waiting != Some(FailedStart) { NoStageWaitsOnFailure(s); }
    RunningExactlyWhenEveryStagePasses(stages, 0, outcomes, c);
  }

  /** What the deferred status update writes. */
  lemma ProvisionedStatus(w: World, i: Input)
    ensures var c := Deferred(w, StartEnd(i), i);
      && (c.phase == Running <==> !StartExpired(w, i) && AllPass(STAGES, 0, i.outcomes))
      && (c.phase == Running ==> forall k :: k in RUNNING_KINDS ==> ObservedTrue(c.obs, k))
      && (c.phase == Failing ==> ObservedTrue(c.obs, FailedStart))
      && (c.phase == Running || c.phase == Starting || c.phase == Failing)
  {
    ProvisionEnds(i.outcomes, StartCollected(i));
    var e := StartEnd(i);
    if e.collected.phase == Running {
      forall k | k in RUNNING_KINDS ensures ObservedTrue(e.collected.obs, k) { MandatoryKinds(e.collected.obs, k); }
    }
  }

  // ----- what every reachable state satisfies -----

  ghost predicate Inv(w: World) {
    && (w.phase == Stopped || w.phase == Failed ==> AtRest(w.deployment))
    && (w.phase == Running ==> forall k :: k in RUNNING_KINDS ==> Holds(w.conditions, k))
    && (w.phase == Failing ==> w.idSet && Holds(w.conditions, FailedStart))
    && (!w.idSet ==> w.deployment.None?)
    && Unique(w.conditions)
  }

  /** What a collected status must show for writing it to keep the invariant. */
  ghost predicate Sound(c: Collected) {
    && (c.phase == Running ==> forall k :: k in RUNNING_KINDS ==> ObservedTrue(c.obs, k))
    && (c.phase == Failing ==> ObservedTrue(c.obs, FailedStart))
  }

  lemma WriteKeepsInv(w: World, c: Collected, i: Input)
    requires Inv(w) && Sound(c)
    requires c.phase == Stopped || c.phase == Failed ==> AtRest(w.deployment)
    requires c.phase == Failing ==> w.idSet
    ensures Inv(WriteStatus(w, c, i))
  {
    if i.statusWritten && Lists(i.order, c.obs) {
      SyncedUnique(w.conditions, c.obs, i.order, i.now);
      forall k | k != Warning && ObservedTrue(c.obs, k) ensures Holds(Synced(w.conditions, c.obs, i.order, i.now), k) {
        SyncedHolds(w.conditions, c.obs, i.order, i.now, k);
      }
    }
  }

  lemma DoStopResult(w: World, i: Input)
    ensures var (w', result) := DoStop(w, i);
      && (result == StoppedNow ==> AtRest(w'.deployment))
      && (AtRest(w.deployment) ==> AtRest(w'.deployment))
      && (w.deployment.None? ==> w'.deployment.None?)
      && w' == w.(deployment := w'.deployment, routing := w'.routing, labelled := w'.labelled)
  {
  }

  lemma StopKeepsInv(w: World, i: Input)
    requires Inv(w) && w.idSet
    ensures Inv(StopWorkspace(w, i))
  {
    var (w', result) := DoStop(w, i);
    DoStopResult(w, i);
    var c := if result == StoppedNow then StopEnded(StopCollected(w)) else StopCollected(w);
    FirstCounted(w.conditions, FailedStart);
    if w.phase == Failing { HeldIsFirst(w.conditions, FailedStart); }
    if result != StopError { WriteKeepsInv(w', c, i); }
  }

  lemma HeldIsFirst(s: seq<Condition>, k: ConditionType)
    requires Holds(s, k)
    ensures First(s, k).Some? && First(s, k).value.status == True && First(s, k).value.kind == k
  {
    var c :| c in s && c.kind == k;
    CountMember(s, c);
    FirstCounted(s, k);
  }

  lemma StartUpKeepsInv(w: World, i: Input)
    requires Inv(w) && w.idSet && w.phase != Stopped && w.phase != Failed
    ensures Inv(StartUp(w, i))
  {
    ProvisionedStatus(w, i);
    WriteKeepsInv(Touched(w, StartEnd(i).entered, i), Deferred(w, StartEnd(i), i), i);
  }

  lemma FinalizeKeepsInv(w: World, i: Input)
    requires Inv(w)
    ensures Inv(Finalize(w, i))
  {
    match i.finalizing
    case NoFinalizers =>
    case Finalizing(removed, failure) =>
      WriteKeepsInv(if removed then w.(deployment := None) else w, FinalizeCollected(failure), i);
  }

  lemma FirstStartUnique(c: Condition)
    ensures Unique([c])
  {
    forall k ensures Count([c], k) <= 1 { assert Count([c][..0], k) == 0; }
  }

  lemma NextKeepsInv(w: World, s: Step)
    requires Inv(w)
    ensures Inv(Next(w, s))
  {
    match s
    case Reconciled(i) =>
      if w.deleted { FinalizeKeepsInv(w, i); }
      else if !w.idSet { }
      else if w.phase == Failing && w.started { }
      else if !w.started { StopKeepsInv(w, i); }
      else if w.phase != Starting && w.phase != Running {
        FirstStartUnique(Condition(Started, True, "DevWorkspace is starting", "", i.now));
      }
      else { StartUpKeepsInv(w, i); }
    case StartedSet(_) =>
    case DebugSet(_) =>
    case ReplicasMoved(_) =>
    case DeletionRequested =>
  }

  lemma {:induction false} RunKeepsInv(w: World, steps: seq<Step>)
    requires Inv(w)
    ensures Inv(Run(w, steps))
  {
    if steps != [] {
      RunKeepsInv(w, steps[..|steps| - 1]);
      NextKeepsInv(Run(w, steps[..|steps| - 1]), steps[|steps| - 1]);
    }
  }

  /**
   In every state a workspace can reach: stopped or failed, its deployment is absent or has no
   replicas wanted and none left; running, every condition of a running workspace is True.
   */
  lemma ReachablePhases(started: bool, debug: bool, steps: seq<Step>)
    ensures var w := Run(Created(started, debug), steps);
      && (w.phase == Stopped || w.phase == Failed ==> AtRest(w.deployment))
      && (w.phase == Running ==> forall k :: k in RUNNING_KINDS ==> Holds(w.conditions, k))
      && (w.phase == Failing ==> Holds(w.conditions, FailedStart))
      && (forall k :: k != Warning ==> Count(w.conditions, k) <= 1)
  {
    assert Inv(Created(started, debug));
    RunKeepsInv(Created(started, debug), steps);
  }

  // ----- failure -----

  /** One step of a failing or failed workspace that is not being deleted. */
  lemma FailureStep(w: World, s: Step)
    requires Inv(w) && FailurePhase(w.phase) && !w.deleted && s != DeletionRequested
    ensures var v := Next(w, s);
      && !v.deleted
      && (FailurePhase(v.phase) || (w.phase == Failed && w.started && v.phase == Starting))
      && (FailurePhase(v.phase) ==> First(v.conditions, FailedStart) == First(w.conditions, FailedStart))
  {
    if s.Reconciled? && w.idSet && !w.started {
      var i := s.input;
      var (w', result) := DoStop(w, i);
      DoStopResult(w, i);
      FirstCounted(w.conditions, FailedStart);
      var c := if result == StoppedNow then StopEnded(StopCollected(w)) else StopCollected(w);
      if result != StopError && i.statusWritten && Lists(i.order, c.obs) {
        SyncedKeeps(w.conditions, c.obs, i.order, i.now, FailedStart);
      }
    }
  }

  /** While every state so far was a failure, the recorded failure is the first one's. */
  lemma {:induction false} FailureKept(w: World, steps: seq<Step>, all: seq<Step>)
    requires Inv(w) && !w.deleted && DeletionRequested !in steps
    requires steps <= all && forall j :: 0 <= j <= |steps| ==> FailurePhase(Run(w, all[..j]).phase)
    ensures !Run(w, steps).deleted && First(Run(w, steps).conditions, FailedStart) == First(w.conditions, FailedStart)
  {
    if steps != [] {
      var init, last := steps[..|steps| - 1], steps[|steps| - 1];
      FailureKept(w, init, all);
      RunKeepsInv(w, init);
      assert all[..|init|] == init && all[..|steps|] == steps;
      FailureStep(Run(w, init), last);
    }
  }

  lemma {:induction false} LastHolding(p: nat -> bool, n: nat) returns (k: nat)
    requires p(0)
    ensures k <= n && (forall j :: 0 <= j <= k ==> p(j)) && (k < n ==> !p(k + 1))
  {
    if n == 0 { return 0; }
    k := LastHolding(p, n - 1);
    if k == n - 1 && p(n) { k := n; }
  }

  /**
   However a run goes on after a failure, short of a deletion: the workspace stays Failing or
   Failed, with the failure it recorded (status, message, reason and time), until it is Failed
   and told to start; and from there it goes to Starting.
   */
  lemma FailureLastsUntilRestart(w: World, steps: seq<Step>) returns (k: nat)
    requires Inv(w) && FailurePhase(w.phase) && !w.deleted && DeletionRequested !in steps
    ensures k <= |steps|
    ensures forall j :: 0 <= j <= k ==>
              var v := Run(w, steps[..j]);
              FailurePhase(v.phase) && First(v.conditions, FailedStart) == First(w.conditions, FailedStart)
    ensures k < |steps| ==>
              var v := Run(w, steps[..k]);
              v.phase == Failed && v.started && Next(v, steps[k]).phase == Starting
    ensures w.phase == Failing ==>
            First(w.conditions, FailedStart).Some? && First(w.conditions, FailedStart).value.status == True
  {
    if w.phase == Failing { HeldIsFirst(w.conditions, FailedStart); }
    k := LastFailure(w, steps);
    forall j | 0 <= j <= k
      ensures First(Run(w, steps[..j]).conditions, FailedStart) == First(w.conditions, FailedStart) {
      FailureKept(w, steps[..j], steps);
    }
    if k < |steps| { DepartureIsRestart(w, steps, k); }
  }

  lemma LastFailure(w: World, steps: seq<Step>) returns (k: nat)
    requires FailurePhase(w.phase)
    ensures k <= |steps| && forall j :: 0 <= j <= k ==> FailurePhase(Run(w, steps[..j]).phase)
    ensures k < |steps| ==> !FailurePhase(Run(w, steps[..k + 1]).phase)
  {
    var p := (j: nat) => j <= |steps| && FailurePhase(Run(w, steps[..j]).phase);
    k := LastHolding(p, |steps|);
    forall j | 0 <= j <= k ensures FailurePhase(Run(w, steps[..j]).phase) { assert p(j); }
  }

  lemma DepartureIsRestart(w: World, steps: seq<Step>, k: nat)
    requires Inv(w) && !w.deleted && DeletionRequested !in steps && k < |steps|
    requires forall j :: 0 <= j <= k ==> FailurePhase(Run(w, steps[..j]).phase)
    requires !FailurePhase(Run(w, steps[..k + 1]).phase)
    ensures var v := Run(w, steps[..k]); v.phase == Failed && v.started && Next(v, steps[k]).phase == Starting
  {
    FailureKept(w, steps[..k], steps);
    RunKeepsInv(w, steps[..k]);
    FailureStep(Run(w, steps[..k]), steps[k]);
    assert steps[..k + 1][..k] == steps[..k];
  }

  // ----- when stopping completes -----

  predicate SolelyOwned(w: World) {
    && (w.deployment.Some? ==> w.deployment.value.soleOwner)
    && (w.routing.Some? ==> w.routing.value.soleOwner)
    && (forall o :: o in w.labelled ==> o.soleOwner)
  }

  predicate AtEnd(p: Phase) { p == Stopped || p == Failed }

  /** A workspace being stopped. */
  predicate BeingStopped(w: World) {
    w.idSet && !w.deleted && !w.started
  }

  /** Steps of a workspace being stopped with clean-up on stop. */
  predicate CleanupStep(s: Step) {
    match s
    case Reconciled(i) => i.cleanupOnStop
    case StartedSet(b) => !b
    case DebugSet(_) => true
    case ReplicasMoved(_) => true
    case DeletionRequested => false
  }

  ghost predicate CleanupSteps(steps: seq<Step>) {
    forall s :: s in steps ==> CleanupStep(s)
  }

  lemma {:induction false} LeftOver(listed: seq<Labelled>, n: nat)
    ensures (forall o :: o in listed ==> o.soleOwner) && |listed| <= n ==> Left(listed, n) == []
    ensures forall o :: o in listed && !o.soleOwner ==> o in Left(listed, n)
  {
    if listed != [] {
      LeftOver(listed[..|listed| - 1], n);
      assert listed == listed[..|listed| - 1] + [listed[|listed| - 1]];
    }
  }

  lemma SharedObjectRemains(w: World, handled: nat)
    requires !SolelyOwned(w)
    ensures var (w', result) := DeleteOwned(w, handled); !SolelyOwned(w') && result != StoppedNow
  {
    var before := handled - Present(w.deployment);
    LeftOver(w.labelled, if before < 0 then 0 else before);
  }

  lemma CleanupStepStalls(w: World, s: Step)
    requires BeingStopped(w) && !AtEnd(w.phase) && !SolelyOwned(w) && CleanupStep(s)
    ensures BeingStopped(Next(w, s)) && !AtEnd(Next(w, s).phase) && !SolelyOwned(Next(w, s))
  {
    if s.Reconciled? { SharedObjectRemains(w, s.input.handled); }
  }

  lemma {:induction false} CleanupStalls(w: World, steps: seq<Step>)
    requires BeingStopped(w) && !AtEnd(w.phase) && !SolelyOwned(w)
    requires CleanupSteps(steps)
    ensures BeingStopped(Run(w, steps)) && !AtEnd(Run(w, steps).phase) && !SolelyOwned(Run(w, steps))
  {
    if steps != [] {
      CleanupStalls(w, steps[..|steps| - 1]);
      CleanupStepStalls(Run(w, steps[..|steps| - 1]), steps[|steps| - 1]);
    }
  }

  /** A reconcile in which every call goes through. */
  function Smooth(cleanup: bool, order: seq<ConditionType>, handled: nat, now: int): Input {
    Input(now, order, None, true, true, true, NoFinalizers, cleanup, handled, true, Accepted, true, Accepted,
          None, [], "", "", None, None, [])
  }

  /** With nothing in the way, a reconcile of a stopped deployment ends the stop. */
  lemma StopEnds(w: World, cleanup: bool, handled: nat, now: int) returns (i: Input)
    requires BeingStopped(w)
    requires if cleanup then ListedCount(w) == 0 else AtRest(w.deployment)
    ensures i.cleanupOnStop == cleanup && AtEnd(Reconcile(w, i).phase)
  {
    var obs := StopEnded(StopCollected(w)).obs;
    var order := EnumerationExists(obs.conditions.Keys);
    i := Smooth(cleanup, order, handled, now);
    assert Enumerates(order, obs);
    DoStopSmooth(w, i);
  }

  lemma DoStopSmooth(w: World, i: Input)
    requires i.cleanupOnStop
             || (i.routingRead && i.deploymentRead && (RoutingNeedsMark(w) ==> i.routingUpdate == Accepted))
    requires if i.cleanupOnStop then ListedCount(w) == 0 else AtRest(w.deployment)
    ensures DoStop(w, i).1 == StoppedNow
  {
  }

  lemma TwoSteps(w: World, a: Step, b: Step)
    ensures Run(w, [a, b]) == Next(Next(w, a), b)
  {
    assert [a, b][..1] == [a] && [a][..0] == [];
    assert Run(w, [a]) == Next(Run(w, []), a);
  }

  lemma CleanupEmpties(w: World, i: Input)
    requires BeingStopped(w) && SolelyOwned(w) && !(w.phase == Failing && w.started)
    requires i.cleanupOnStop && i.handled >= ListedCount(w)
    ensures ListedCount(Reconcile(w, i)) == 0 && BeingStopped(Reconcile(w, i))
  {
    LeftOver(w.labelled, i.handled - Present(w.deployment));
  }

  lemma CleanupCompletes(w: World) returns (steps: seq<Step>)
    requires BeingStopped(w) && SolelyOwned(w)
    ensures CleanupSteps(steps) && AtEnd(Run(w, steps).phase)
  {
    var first := Smooth(true, [], ListedCount(w), 0);
    CleanupEmpties(w, first);
    var second := StopEnds(Reconcile(w, first), true, 0, 0);
    TwoSteps(w, Reconciled(first), Reconciled(second));
    steps := [Reconciled(first), Reconciled(second)];
  }

  /**
   With clean-up on stop, a workspace being stopped can reach Stopped or Failed exactly when every
   listed object is its own alone: an object with another owner is listed at every reconcile, and
   being listed counts as not being done.
   */
  lemma CleanupCompletesExactlyWhenSolelyOwned(w: World)
    requires BeingStopped(w) && !AtEnd(w.phase)
    ensures (exists steps: seq<Step> :: CleanupSteps(steps) && AtEnd(Run(w, steps).phase))
            <==> SolelyOwned(w)
  {
    if SolelyOwned(w) {
      var steps := CleanupCompletes(w);
    } else {
      forall steps: seq<Step> | CleanupSteps(steps) ensures !AtEnd(Run(w, steps).phase) {
        CleanupStalls(w, steps);
      }
    }
  }

  /** Without it, a workspace being stopped can always get there: scale down, drain, and look again. */
  lemma StopCanComplete(w: World) returns (steps: seq<Step>)
    requires BeingStopped(w)
    ensures AtEnd(Run(w, steps).phase)
    ensures forall s :: s in steps ==> s.ReplicasMoved? || (s.Reconciled? && !s.input.cleanupOnStop)
  {
    var scale := Reconciled(Smooth(false, [], 0, 0));
    var w1 := Next(w, scale);
    var w2 := Next(w1, ReplicasMoved(0));
    TwoSteps(w, scale, ReplicasMoved(0));
    ScaledDown(w, scale.input);
    var last := StopEnds(w2, false, 0, 0);
    steps := [scale, ReplicasMoved(0), Reconciled(last)];
    assert steps[..2] == [scale, ReplicasMoved(0)];
  }

  lemma ScaledDown(w: World, i: Input)
    requires BeingStopped(w) && !i.cleanupOnStop && i.routingRead && i.routingUpdate == Accepted && i.deploymentRead
             && i.scaled == Accepted
    ensures var v := Reconcile(w, i);
      BeingStopped(v) && (v.deployment.Some? ==> v.deployment.value.desired == Some(0))
  {
  }

  // ----- every run that does what it takes to stop, stops -----

  /** Steps of a workspace being stopped without clean-up on stop. */
  predicate StopStep(s: Step) {
    match s
    case Reconciled(i) => !i.cleanupOnStop
    case StartedSet(b) => !b
    case DebugSet(_) => true
    case ReplicasMoved(_) => true
    case DeletionRequested => false
  }

  /** A reconcile in which the routing is marked, if need be, and the deployment scaled to zero. */
  predicate ScaleDownAccepted(s: Step) {
    s.Reconciled? && s.input.routingRead && s.input.routingUpdate == Accepted
    && s.input.deploymentRead && s.input.scaled == Accepted
  }

  /** A reconcile of a stopped workspace that can read what it needs, and whose status write succeeds. */
  predicate StopWritten(w: World, s: Step) {
    s.Reconciled? && s.input.statusWritten && Lists(s.input.order, StopEnded(StopCollected(w)).obs)
    && (s.input.cleanupOnStop || (s.input.routingRead && s.input.deploymentRead))
  }

  predicate ScaledToZero(w: World) {
    BeingStopped(w) && !RoutingNeedsMark(w) && (w.deployment.Some? ==> w.deployment.value.desired == Some(0))
  }

  predicate Drained(w: World) {
    BeingStopped(w) && !RoutingNeedsMark(w) && AtRest(w.deployment)
  }

  /** What stopping without clean-up does to the deployment and the routing. */
  lemma DoStopProgress(w: World, i: Input)
    requires !i.cleanupOnStop
    ensures var (w', result) := DoStop(w, i);
      && w' == w.(deployment := w'.deployment, routing := w'.routing)
      && (!RoutingNeedsMark(w) ==> !RoutingNeedsMark(w'))
      && (w.deployment.None? || w.deployment.value.desired == Some(0) ==> w'.deployment == w.deployment)
      && (!RoutingNeedsMark(w) && AtRest(w.deployment) ==> result != NotStopped)
      && (i.routingRead && i.routingUpdate == Accepted && i.deploymentRead && i.scaled == Accepted ==>
            !RoutingNeedsMark(w') && (w'.deployment.Some? ==> w'.deployment.value.desired == Some(0)))
  {
  }

  lemma StopReconciles(w: World, i: Input)
    requires BeingStopped(w)
    ensures var (w', result) := DoStop(w, i); var v := Reconcile(w, i);
      && v == w'.(phase := v.phase, conditions := v.conditions)
      && (AtEnd(w.phase) && result != NotStopped ==> AtEnd(v.phase))
  {
    DoStopResult(w, i);
  }

  /** No step of a stop undoes what was achieved. */
  lemma StopStepKeeps(w: World, s: Step)
    requires BeingStopped(w) && StopStep(s)
    ensures BeingStopped(Next(w, s))
    ensures ScaledToZero(w) ==> ScaledToZero(Next(w, s))
    ensures Drained(w) ==> Drained(Next(w, s))
    ensures Drained(w) && AtEnd(w.phase) ==> AtEnd(Next(w, s).phase)
  {
    if s.Reconciled? {
      DoStopProgress(w, s.input);
      StopReconciles(w, s.input);
    }
  }

  lemma {:induction false} StopRunKeeps(w: World, steps: seq<Step>)
    requires BeingStopped(w) && forall s :: s in steps ==> StopStep(s)
    ensures BeingStopped(Run(w, steps))
    ensures ScaledToZero(w) ==> ScaledToZero(Run(w, steps))
    ensures Drained(w) ==> Drained(Run(w, steps))
    ensures Drained(w) && AtEnd(w.phase) ==> AtEnd(Run(w, steps).phase)
  {
    if steps != [] {
      StopRunKeeps(w, steps[..|steps| - 1]);
      StopStepKeeps(Run(w, steps[..|steps| - 1]), steps[|steps| - 1]);
    }
  }

  function Fold<S, T>(f: (S, T) -> S, s: S, ts: seq<T>): S {
    if ts == [] then s else f(Fold(f, s, ts[..|ts| - 1]), ts[|ts| - 1])
  }

  lemma {:induction false} FoldConcat<S, T>(f: (S, T) -> S, s: S, a: seq<T>, b: seq<T>)
    ensures Fold(f, s, a + b) == Fold(f, Fold(f, s, a), b)
  {
    if b == [] {
      assert a + b == a;
    } else {
      FoldConcat(f, s, a, b[..|b| - 1]);
      assert (a + b)[..|a + b| - 1] == a + b[..|b| - 1];
    }
  }

  lemma {:induction false} RunIsFold(w: World, steps: seq<Step>)
    ensures Run(w, steps) == Fold(Next, w, steps)
  {
    if steps != [] { RunIsFold(w, steps[..|steps| - 1]); }
  }

  lemma RunConcat(w: World, a: seq<Step>, b: seq<Step>)
    ensures Run(w, a + b) == Run(Run(w, a), b)
  {
    RunIsFold(w, a + b);
    RunIsFold(w, a);
    RunIsFold(Run(w, a), b);
    FoldConcat(Next, w, a, b);
  }

  /** A run goes through step `k`, and on from there. */
  lemma RunThrough(w: World, steps: seq<Step>, k: nat, n: nat)
    requires k < n <= |steps|
    ensures Run(w, steps[..n]) == Run(Next(Run(w, steps[..k]), steps[k]), steps[k + 1..n])
  {
    RunConcat(w, steps[..k + 1], steps[k + 1..n]);
    assert steps[..k + 1] + steps[k + 1..n] == steps[..n];
    assert steps[..k + 1][..k] == steps[..k];
  }

  lemma ScaleDownScales(w: World, s: Step)
    requires BeingStopped(w) && StopStep(s) && ScaleDownAccepted(s)
    ensures ScaledToZero(Next(w, s))
  {
    DoStopProgress(w, s.input);
    StopReconciles(w, s.input);
  }

  lemma DrainDrains(w: World)
    requires ScaledToZero(w)
    ensures Drained(Next(w, ReplicasMoved(0)))
  {
  }

  lemma WrittenStopEnds(w: World, s: Step)
    requires Drained(w) && StopStep(s) && StopWritten(w, s)
    ensures AtEnd(Next(w, s).phase)
  {
    DoStopSmooth(w, s.input);
  }

  /**
   However a stop goes, with conflicts, lost writes, failing calls, debug toggles and moving replicas:
   once the scale-down was accepted, then the replicas gone, then a reconcile's status written, the
   workspace is Stopped or Failed, and it stays so.
   */
  lemma StopCompletes(w: World, steps: seq<Step>, i: nat, j: nat, k: nat)
    requires BeingStopped(w) && forall s :: s in steps ==> StopStep(s)
    requires i < j < k < |steps| && ScaleDownAccepted(steps[i]) && steps[j] == ReplicasMoved(0)
    requires StopWritten(Run(w, steps[..k]), steps[k])
    ensures AtEnd(Run(w, steps).phase)
  {
    StopRunKeeps(w, steps[..i]);
    ScaleDownScales(Run(w, steps[..i]), steps[i]);
    RunThrough(w, steps, i, j);
    StopRunKeeps(Next(Run(w, steps[..i]), steps[i]), steps[i + 1..j]);
    DrainDrains(Run(w, steps[..j]));
    RunThrough(w, steps, j, k);
    StopRunKeeps(Next(Run(w, steps[..j]), steps[j]), steps[j + 1..k]);
    WrittenStopEnds(Run(w, steps[..k]), steps[k]);
    StopStepKeeps(Run(w, steps[..k]), steps[k]);
    RunThrough(w, steps, k, |steps|);
    StopRunKeeps(Next(Run(w, steps[..k]), steps[k]), steps[k + 1..|steps|]);
    assert steps[..|steps|] == steps;
  }

  predicate Emptied(w: World) {
    BeingStopped(w) && ListedCount(w) == 0
  }

  lemma CleanupStepKeeps(w: World, s: Step)
    requires BeingStopped(w) && CleanupStep(s)
    ensures BeingStopped(Next(w, s))
    ensures SolelyOwned(w) ==> SolelyOwned(Next(w, s))
    ensures Emptied(w) ==> Emptied(Next(w, s))
    ensures Emptied(w) && AtEnd(w.phase) ==> AtEnd(Next(w, s).phase)
  {
    if s.Reconciled? {
      var before := s.input.handled - Present(w.deployment);
      LeftIsListed(w.labelled, if before < 0 then 0 else before);
    }
  }

  lemma {:induction false} LeftIsListed(listed: seq<Labelled>, n: nat)
    ensures forall o :: o in Left(listed, n) ==> o in listed
  {
    if listed != [] { LeftIsListed(listed[..|listed| - 1], n); }
  }

  lemma {:induction false} CleanupRunKeeps(w: World, steps: seq<Step>)
    requires BeingStopped(w) && CleanupSteps(steps)
    ensures BeingStopped(Run(w, steps))
    ensures SolelyOwned(w) ==> SolelyOwned(Run(w, steps))
    ensures Emptied(w) ==> Emptied(Run(w, steps))
    ensures Emptied(w) && AtEnd(w.phase) ==> AtEnd(Run(w, steps).phase)
  {
    if steps != [] {
      CleanupRunKeeps(w, steps[..|steps| - 1]);
      CleanupStepKeeps(Run(w, steps[..|steps| - 1]), steps[|steps| - 1]);
    }
  }

  lemma HandledEmpties(w: World, s: Step)
    requires BeingStopped(w) && SolelyOwned(w) && CleanupStep(s) && s.Reconciled? && s.input.handled >= ListedCount(w)
    ensures Emptied(Next(w, s))
  {
    CleanupEmpties(w, s.input);
  }

  lemma EmptiedStopEnds(w: World, s: Step)
    requires Emptied(w) && CleanupStep(s) && StopWritten(w, s)
    ensures AtEnd(Next(w, s).phase)
  {
    DoStopSmooth(w, s.input);
  }

  /** The same with clean-up on stop: one reconcile handled all that was listed, a later one's status was written. */
  lemma CleanupCompletesEveryRun(w: World, steps: seq<Step>, i: nat, k: nat)
    requires BeingStopped(w) && SolelyOwned(w) && CleanupSteps(steps) && i < k < |steps|
    requires steps[i].Reconciled? && steps[i].input.handled >= ListedCount(Run(w, steps[..i]))
    requires StopWritten(Run(w, steps[..k]), steps[k])
    ensures AtEnd(Run(w, steps).phase)
  {
    CleanupRunKeeps(w, steps[..i]);
    HandledEmpties(Run(w, steps[..i]), steps[i]);
    RunThrough(w, steps, i, k);
    CleanupRunKeeps(Next(Run(w, steps[..i]), steps[i]), steps[i + 1..k]);
    EmptiedStopEnds(Run(w, steps[..k]), steps[k]);
    CleanupStepKeeps(Run(w, steps[..k]), steps[k]);
    RunThrough(w, steps, k, |steps|);
    CleanupRunKeeps(Next(Run(w, steps[..k]), steps[k]), steps[k + 1..|steps|]);
    assert steps[..|steps|] == steps;
  }

  /** A workspace that never finishes stopping: nothing is left but a configmap with another owner. */
  lemma SharedConfigMapBlocksStop(steps: seq<Step>)
    requires CleanupSteps(steps)
    ensures var w := World(true, false, false, false, Stopping, [], None, None, [Labelled(false)]);
            !AtEnd(Run(w, steps).phase)
  {
    var w := World(true, false, false, false, Stopping, [], None, None, [Labelled(false)]);
    assert Labelled(false) in w.labelled;
    CleanupStalls(w, steps);
  }

  // ----- map iteration order -----

  /** Of the types outside the condition order, only `extra` is observed. */
  ghost predicate OnlyExtra(obs: Observed, extra: ConditionType) {
    forall k :: k in obs.conditions ==> k == extra || OrderIndex(k) != -1
  }

  /** Every type a stage sets is in the condition order. */
  predicate StageOrdered(s: Stage) {
    InOrder(s.waiting) && InOrder(s.done)
  }

  predicate InOrder(k: Option<ConditionType>) {
    k.Some? ==> !k.value.FailedStart? && !k.value.Error? && !k.value.Warning? && !k.value.Custom?
  }

  lemma InOrderHasIndex(k: ConditionType)
    requires InOrder(Some(k))
    ensures OrderIndex(k) != -1
  {
  }

  lemma StagesOrdered(i: nat)
    requires i < |STAGES|
    ensures StageOrdered(STAGES[i])
  {
    if i < 12 { assert STAGES[i].waiting == None; }
  }

  lemma {:induction false} ProvisionObserves(stages: seq<Stage>, n: nat, outcomes: seq<Outcome>, c: Collected)
    requires n <= |stages| && OnlyExtra(c.obs, FailedStart)
    requires forall i :: 0 <= i < |stages| ==> StageOrdered(stages[i])
    ensures OnlyExtra(Provision(stages, n, outcomes, c).collected.obs, FailedStart)
    decreases |stages| - n
  {
    if n < |stages| {
      var o := OutcomeAt(outcomes, n);
      assert StageOrdered(stages[n]);
      if stages[n].waiting.Some? { InOrderHasIndex(stages[n].waiting.value); }
      if stages[n].done.Some? { InOrderHasIndex(stages[n].done.value); }
      assert OnlyExtra(AfterStage(stages[n], o, c).obs, FailedStart);
      if Continues(o) { ProvisionObserves(stages, n + 1, outcomes, AfterStage(stages[n], o, c)); }
    }
  }

  lemma StartObserves(w: World, i: Input)
    ensures OnlyExtra(Deferred(w, StartEnd(i), i).obs, FailedStart)
  {
    var stages := STAGES;
    forall i | 0 <= i < |stages| ensures StageOrdered(stages[i]) { StagesOrdered(i); }
    ProvisionObserves(stages, 0, i.outcomes, StartCollected(i));
  }

  /** What a reconcile is about to write, if it writes collected conditions at all. */
  function ToWrite(w: World, i: Input): Option<Collected> {
    if w.deleted then
      match i.finalizing
      case NoFinalizers => None
      case Finalizing(_, failure) => Some(FinalizeCollected(failure))
    else if !w.idSet || (w.phase == Failing && w.started) then None
    else if !w.started then
      var result := DoStop(w, i).1;
      if result == StopError then None
      else Some(if result == StoppedNow then StopEnded(StopCollected(w)) else StopCollected(w))
    else if w.phase != Starting && w.phase != Running then None
    else Some(Deferred(w, StartEnd(i), i))
  }

  /** No reconcile observes two types outside the condition order: failures are FailedStart or Error, never both. */
  lemma ReconcileObserves(w: World, i: Input)
    ensures ToWrite(w, i).Some? ==> NewMessagesDiffer(w.conditions, ToWrite(w, i).value.obs)
  {
    if !w.deleted && w.idSet && w.started { StartObserves(w, i); }
    var extra := if w.deleted then Error else FailedStart;
    assert ToWrite(w, i).Some? ==> OnlyExtra(ToWrite(w, i).value.obs, extra);
  }

  lemma WriteIgnoresOrder(w: World, c: Collected, i: Input, a: seq<ConditionType>, b: seq<ConditionType>)
    requires NewMessagesDiffer(w.conditions, c.obs) && Enumerates(a, c.obs) && Enumerates(b, c.obs)
    ensures WriteStatus(w, c, i.(order := a)) == WriteStatus(w, c, i.(order := b))
  {
    OrderIndependent(w.conditions, c.obs, a, b, i.now);
  }

  /** So no reconcile depends on the order in which Go iterates over its conditions. */
  lemma ReconcileIgnoresMapOrder(w: World, i: Input, a: seq<ConditionType>, b: seq<ConditionType>)
    requires ToWrite(w, i).Some? ==> Enumerates(a, ToWrite(w, i).value.obs) && Enumerates(b, ToWrite(w, i).value.obs)
    ensures Reconcile(w, i.(order := a)) == Reconcile(w, i.(order := b))
  {
    ReconcileObserves(w, i);
    if w.deleted {
      if i.finalizing.Finalizing? { FinalizeIgnoresOrder(w, i, ToWrite(w, i).value, a, b); }
    } else if w.idSet && !(w.phase == Failing && w.started) {
      if !w.started {
        StopIgnoresOrder(w, i, a, b);
      } else if w.phase == Starting || w.phase == Running {
        StartIgnoresOrder(w, i, a, b);
      }
    }
  }

  lemma FinalizeIgnoresOrder(w: World, i: Input, c: Collected, a: seq<ConditionType>, b: seq<ConditionType>)
    requires i.finalizing.Finalizing? && c == FinalizeCollected(i.finalizing.failure)
    requires NewMessagesDiffer(w.conditions, c.obs) && Enumerates(a, c.obs) && Enumerates(b, c.obs)
    ensures Finalize(w, i.(order := a)) == Finalize(w, i.(order := b))
  {
    var w' := if i.finalizing.removedDeployment then w.(deployment := None) else w;
    WriteIgnoresOrder(w', c, i, a, b);
    FinalizeWrites(w, i.(order := a), w', c);
    FinalizeWrites(w, i.(order := b), w', c);
  }

  lemma FinalizeWrites(w: World, i: Input, w': World, c: Collected)
    requires i.finalizing.Finalizing? && c == FinalizeCollected(i.finalizing.failure)
    requires w' == if i.finalizing.removedDeployment then w.(deployment := None) else w
    ensures Finalize(w, i) == WriteStatus(w', c, i)
  {
  }

  lemma StartIgnoresOrder(w: World, i: Input, a: seq<ConditionType>, b: seq<ConditionType>)
    requires var obs := Deferred(w, StartEnd(i), i).obs;
             NewMessagesDiffer(w.conditions, obs) && Enumerates(a, obs) && Enumerates(b, obs)
    ensures StartUp(w, i.(order := a)) == StartUp(w, i.(order := b))
  {
    WriteIgnoresOrder(Touched(w, StartEnd(i).entered, i), Deferred(w, StartEnd(i), i), i, a, b);
  }

  lemma StopIgnoresOrder(w: World, i: Input, a: seq<ConditionType>, b: seq<ConditionType>)
    requires BeingStopped(w) && ToWrite(w, i).Some? ==>
               var obs := ToWrite(w, i).value.obs;
               NewMessagesDiffer(w.conditions, obs) && Enumerates(a, obs) && Enumerates(b, obs)
    requires BeingStopped(w)
    ensures StopWorkspace(w, i.(order := a)) == StopWorkspace(w, i.(order := b))
  {
    DoStopResult(w, i);
    assert DoStop(w, i.(order := a)) == DoStop(w, i) == DoStop(w, i.(order := b));
    if ToWrite(w, i).Some? { WriteIgnoresOrder(DoStop(w, i).0, ToWrite(w, i).value, i, a, b); }
  }
}
