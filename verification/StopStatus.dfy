/**
 What a reconcile does to a workspace that is told to stop, has failed, is started again or is
 being deleted, told by what the reconcile finds and by the stored conditions alone
 (Reconcile, stopWorkspace and doStop in controllers/workspace/devworkspace_controller.go, the
 clean-up in controllers/workspace/cleanup.go, finalize in controllers/workspace/finalize.go).
 */
module StopStatus {
  import opened Options
  import opened Conditions
  import opened Lifecycle
  import opened StartUpStatus

  // ----- told to stop -----

  /** The routing says that the workspace is stopped, as far as it has to. */
  predicate RoutingSettled(w: World, i: Input) {
    w.routing.None? || !w.routing.value.annotated || w.routing.value.markedStopped || i.routingUpdate == Accepted
  }

  /** A reconcile finds that nothing is left to stop: nothing to delete, or a deployment scaled down and drained. */
  predicate FindsStopped(w: World, i: Input) {
    if i.cleanupOnStop then w.deployment.None? && w.routing.None? && w.labelled == []
    else
      && i.routingRead && i.deploymentRead && RoutingSettled(w, i)
      && (w.deployment.None? || (w.deployment.value.desired == Some(0) && w.deployment.value.actual == 0))
  }

  /** A call of the reconcile fails. */
  predicate CallFails(w: World, i: Input) {
    if i.cleanupOnStop then
      i.handled < |w.labelled| + (if w.deployment.Some? then 1 else 0) + (if w.routing.Some? then 1 else 0)
    else
      || !i.routingRead
      || (i.routingUpdate == Refused && !RoutingSettled(w, i))
      || (RoutingSettled(w, i) &&
          (!i.deploymentRead ||
           (w.deployment.Some? && w.deployment.value.desired != Some(0) && i.scaled == Refused)))
  }

  lemma StopResultExactly(w: World, i: Input)
    ensures DoStop(w, i).1 == StoppedNow <==> FindsStopped(w, i)
    ensures DoStop(w, i).1 == StopError <==> CallFails(w, i)
  {
  }

  /**
   A reconcile of a workspace told to stop, whose status is written: it ends at Stopped, or Failed
   after a failure, exactly when nothing is left to stop, and then Started is False; until then the
   phase is Stopping, or stays what it was after a failure.
   */
  lemma StopIsStored(w: World, i: Input)
    requires BeingStopped(w) && Written(w, i) && !CallFails(w, i)
    ensures var v := Reconcile(w, i); var failed := w.phase == Failing || w.phase == Failed;
      && (FindsStopped(w, i) ==>
            && v.phase == (if failed then Failed else Stopped)
            && Shows(v.conditions, Started, False,
                     if failed then "Workspace stopped due to error" else "Workspace is stopped"))
      && (!FindsStopped(w, i) ==>
            && v.phase == (if failed then w.phase else Stopping)
            && forall c :: c in v.conditions && c.kind == Started ==> c.status == Unknown)
  {
    StopResultExactly(w, i);
    StopWrites(w, i);
    var c := ToWrite(w, i).value;
    if FindsStopped(w, i) {
      SyncedShows(w.conditions, c.obs, i.order, i.now, Started);
    } else {
      SyncedUnknown(w.conditions, c.obs, i.order, i.now, Started);
    }
  }

  lemma StopWrites(w: World, i: Input)
    requires BeingStopped(w) && Written(w, i) && DoStop(w, i).1 != StopError
    ensures ToWrite(w, i).Some?
    ensures var c := ToWrite(w, i).value; var v := Reconcile(w, i);
      v.phase == c.phase && v.conditions == Synced(w.conditions, c.obs, i.order, i.now)
  {
    DoStopResult(w, i);
  }

  /** A failing call leaves the status as it was. */
  lemma FailedCallKeepsStatus(w: World, i: Input)
    requires BeingStopped(w) && CallFails(w, i)
    ensures Reconcile(w, i).phase == w.phase && Reconcile(w, i).conditions == w.conditions
  {
    StopResultExactly(w, i);
    DoStopResult(w, i);
  }

  /** Without clean-up: the routing is marked first, and the deployment scaled down only after that. */
  lemma StopTouches(w: World, i: Input)
    requires BeingStopped(w) && !i.cleanupOnStop
    ensures var v := Reconcile(w, i);
      && v.labelled == w.labelled && (v.routing.Some? <==> w.routing.Some?)
      && (w.routing.Some? ==>
            && v.routing.value == w.routing.value.(markedStopped := v.routing.value.markedStopped)
            && (v.routing.value.markedStopped <==>
                w.routing.value.markedStopped
                || (i.routingRead && w.routing.value.annotated && i.routingUpdate == Accepted)))
      && (v.deployment.Some? <==> w.deployment.Some?)
      && (w.deployment.Some? ==>
            && v.deployment.value == w.deployment.value.(desired := v.deployment.value.desired)
            && v.deployment.value.desired ==
               if i.routingRead && RoutingSettled(w, i) && i.deploymentRead && i.scaled == Accepted then Some(0)
               else w.deployment.value.desired)
  {
    StopReconciles(w, i);
    DoStopMarks(w, i);
    DoStopScales(w, i);
  }

  lemma DoStopMarks(w: World, i: Input)
    requires !i.cleanupOnStop
    ensures var v := DoStop(w, i).0;
      && v.labelled == w.labelled && (v.routing.Some? <==> w.routing.Some?)
      && (w.routing.Some? ==>
            && v.routing.value == w.routing.value.(markedStopped := v.routing.value.markedStopped)
            && (v.routing.value.markedStopped <==>
                w.routing.value.markedStopped
                || (i.routingRead && w.routing.value.annotated && i.routingUpdate == Accepted)))
  {
  }

  lemma DoStopScales(w: World, i: Input)
    requires !i.cleanupOnStop
    ensures var v := DoStop(w, i).0;
      && (v.deployment.Some? <==> w.deployment.Some?)
      && (w.deployment.Some? ==>
            && v.deployment.value == w.deployment.value.(desired := v.deployment.value.desired)
            && v.deployment.value.desired ==
               if i.routingRead && RoutingSettled(w, i) && i.deploymentRead && i.scaled == Accepted then Some(0)
               else w.deployment.value.desired)
  {
  }

  function Number(listed: seq<Labelled>, o: Labelled): nat {
    multiset(listed)[o]
  }

  lemma NumberSnoc(listed: seq<Labelled>, last: Labelled, o: Labelled)
    ensures Number(listed + [last], o) == Number(listed, o) + if last == o then 1 else 0
  {
  }

  lemma {:induction false} SharedAreLeft(listed: seq<Labelled>, n: nat)
    ensures Number(Left(listed, n), Labelled(false)) == Number(listed, Labelled(false))
  {
    if listed != [] {
      var init, last := listed[..|listed| - 1], listed[|listed| - 1];
      SharedAreLeft(init, n);
      assert listed == init + [last];
      NumberSnoc(init, last, Labelled(false));
      NumberSnoc(Left(init, n), last, Labelled(false));
    }
  }

  /** What comes after the first `n`. */
  function After(listed: seq<Labelled>, n: nat): seq<Labelled> {
    if n < |listed| then listed[n..] else []
  }

  lemma AfterSnoc(init: seq<Labelled>, last: Labelled, n: nat)
    ensures After(init + [last], n) == if n <= |init| then After(init, n) + [last] else []
    ensures n > |init| ==> After(init, n) == []
  {
  }

  lemma LeftSnoc(init: seq<Labelled>, last: Labelled, n: nat)
    ensures Left(init + [last], n) == if last.soleOwner && |init| < n then Left(init, n) else Left(init, n) + [last]
  {
    assert (init + [last])[..|init|] == init;
    assert Left(init, n) + [] == Left(init, n);
  }

  lemma {:induction false} OwnAreDeleted(listed: seq<Labelled>, n: nat)
    ensures Number(Left(listed, n), Labelled(true)) == Number(After(listed, n), Labelled(true))
  {
    if listed != [] {
      var init, last := listed[..|listed| - 1], listed[|listed| - 1];
      assert listed == init + [last];
      OwnAreDeleted(init, n);
      LeftSnoc(init, last, n);
      AfterSnoc(init, last, n);
      NumberSnoc(Left(init, n), last, Labelled(true));
      NumberSnoc(After(init, n), last, Labelled(true));
    }
  }

  /** With clean-up: objects with another owner stay, the workspace's own go as far as the calls get. */
  lemma CleanupDeletes(w: World, i: Input)
    requires BeingStopped(w) && i.cleanupOnStop
    ensures var v := Reconcile(w, i); var deployments := if w.deployment.Some? then 1 else 0;
            var before := if i.handled < deployments then 0 else i.handled - deployments;
      && v.deployment == (if w.deployment.Some? && w.deployment.value.soleOwner && i.handled > 0 then None
                          else w.deployment)
      && v.routing == (if w.routing.Some? && w.routing.value.soleOwner && before > |w.labelled| then None
                       else w.routing)
      && Number(v.labelled, Labelled(false)) == Number(w.labelled, Labelled(false))
      && Number(v.labelled, Labelled(true)) == Number(After(w.labelled, before), Labelled(true))
  {
    var before := i.handled - Present(w.deployment);
    SharedAreLeft(w.labelled, if before < 0 then 0 else before);
    OwnAreDeleted(w.labelled, if before < 0 then 0 else before);
    StopReconciles(w, i);
  }

  // ----- failed, and started again -----

  /** The last FailedStart condition is older than the timeout. */
  ghost predicate FailureExpired(w: World, timeout: int, now: int) {
    exists j :: 0 <= j < |w.conditions| && w.conditions[j].kind == FailedStart && w.conditions[j].time != 0
                && w.conditions[j].time + timeout < now
                && forall l :: j < l < |w.conditions| ==> w.conditions[l].kind != FailedStart
  }

  /**
   A failing workspace that is still told to run is told to stop, and nothing else, unless that cannot
   be written, or it is in debug mode and its failure is not older than a timeout that can be read.
   */
  lemma FailingIsToldToStop(w: World, i: Input)
    requires w.idSet && !w.deleted && w.started && w.phase == Failing
    ensures Reconcile(w, i) == w.(started := Reconcile(w, i).started)
    ensures Reconcile(w, i).started <==>
            !i.specPatched || (w.debug && (i.timeout.None? || !FailureExpired(w, i.timeout.value, i.now)))
  {
    FailedTimeAt(w.conditions);
  }

  /** A workspace started from any other phase forgets its conditions, a failure among them. */
  lemma RestartForgets(w: World, i: Input, k: ConditionType)
    requires w.idSet && !w.deleted && w.started && i.statusWritten
    requires w.phase != Failing && w.phase != Starting && w.phase != Running
    ensures var v := Reconcile(w, i);
      && v == w.(phase := Starting, conditions := v.conditions)
      && (if k == Started then Shows(v.conditions, k, True, "DevWorkspace is starting")
          else forall c :: c in v.conditions ==> c.kind != k)
      && forall c :: c in v.conditions ==> c.time == i.now
  {
    assert Reconcile(w, i).conditions[0].kind == Started;
  }

  // ----- being deleted -----

  /** What deleting a workspace reports. */
  lemma DeletionIsStored(w: World, i: Input)
    requires w.deleted && Written(w, i) && i.finalizing.Finalizing?
    ensures var v := Reconcile(w, i);
      && Shows(v.conditions, Started, True, "Cleaning up resources for deletion")
      && v.phase == (if i.finalizing.failure.Some? then Errored else Terminating)
      && (i.finalizing.failure.Some? ==> Shows(v.conditions, Error, True, i.finalizing.failure.value))
      && (i.finalizing.failure.None? ==> forall c :: c in v.conditions && c.kind == Error ==> c.status == Unknown)
      && v.deployment == (if i.finalizing.removedDeployment then None else w.deployment)
      && v.routing == w.routing && v.labelled == w.labelled
  {
    var obs := FinalizeCollected(i.finalizing.failure).obs;
    FinalizeWrites(w, i, if i.finalizing.removedDeployment then w.(deployment := None) else w,
                   FinalizeCollected(i.finalizing.failure));
    SyncedShows(w.conditions, obs, i.order, i.now, Started);
    if i.finalizing.failure.Some? {
      SyncedShows(w.conditions, obs, i.order, i.now, Error);
    } else {
      SyncedUnknown(w.conditions, obs, i.order, i.now, Error);
    }
  }

  lemma WriteKeeps(w: World, c: Collected, i: Input)
    ensures var v := WriteStatus(w, c, i);
      && v == w.(phase := v.phase, conditions := v.conditions) && (v.phase == w.phase || v.phase == c.phase)
      && (!i.statusWritten ==> v.phase == w.phase && v.conditions == w.conditions)
  {
  }

  lemma FinalizeKeeps(w: World, i: Input)
    ensures var v := Finalize(w, i);
      && v == w.(phase := v.phase, conditions := v.conditions, deployment := v.deployment)
      && (v.phase == w.phase || v.phase == Terminating || v.phase == Errored)
      && (v.deployment == w.deployment || v.deployment.None?)
      && (!i.statusWritten ==> v.phase == w.phase && v.conditions == w.conditions)
  {
    if i.finalizing.Finalizing? {
      var w' := if i.finalizing.removedDeployment then w.(deployment := None) else w;
      var c := FinalizeCollected(i.finalizing.failure);
      WriteKeeps(w', c, i);
      FinalizeWrites(w, i, w', c);
    }
  }

  lemma DeletionStep(w: World, s: Step)
    requires w.deleted
    ensures var v := Next(w, s);
      && v.deleted && v.idSet == w.idSet && v.routing == w.routing && v.labelled == w.labelled
      && (v.phase == w.phase || v.phase == Terminating || v.phase == Errored)
      && (w.deployment.None? ==> v.deployment.None?)
      && (v.deployment.Some? ==> v.deployment.value.desired == w.deployment.value.desired)
  {
    if s.Reconciled? {
      FinalizeKeeps(w, s.input);
      DeletedIsFinalized(w, s.input);
    }
  }

  lemma DeletedIsFinalized(w: World, i: Input)
    requires w.deleted
    ensures Next(w, Reconciled(i)) == Reconcile(w, i) == Finalize(w, i)
  {
  }

  /** Deletion is for good: no later step starts the workspace, stops it, or makes anything for it. */
  lemma {:induction false} DeletionIsForGood(w: World, steps: seq<Step>)
    requires w.deleted
    ensures var v := Run(w, steps);
      && v.deleted && v.idSet == w.idSet && v.routing == w.routing && v.labelled == w.labelled
      && (v.phase == w.phase || v.phase == Terminating || v.phase == Errored)
      && (w.deployment.None? ==> v.deployment.None?)
      && (v.deployment.Some? ==> v.deployment.value.desired == w.deployment.value.desired)
  {
    if steps != [] {
      DeletionIsForGood(w, steps[..|steps| - 1]);
      DeletionStep(Run(w, steps[..|steps| - 1]), steps[|steps| - 1]);
    }
  }

  // ----- lost writes -----

  lemma StopKeeps(w: World, i: Input)
    ensures var v := StopWorkspace(w, i);
      && v.idSet == w.idSet && v.deleted == w.deleted && v.debug == w.debug
      && (!i.statusWritten ==> v.phase == w.phase && v.conditions == w.conditions)
  {
    var (w', result) := DoStop(w, i);
    DoStopResult(w, i);
    WriteKeeps(w', if result == StoppedNow then StopEnded(StopCollected(w)) else StopCollected(w), i);
  }

  lemma StartUpKeeps(w: World, i: Input)
    ensures var v := StartUp(w, i);
      && v.idSet == w.idSet && v.deleted == w.deleted && v.debug == w.debug
      && (!i.statusWritten ==> v.phase == w.phase && v.conditions == w.conditions)
  {
    var e := StartEnd(i);
    WriteKeeps(Touched(w, e.entered, i), Deferred(w, e, i), i);
  }

  /** Without a status write a reconcile changes no part of the status, whatever else it does. */
  lemma LostWriteKeepsStatus(w: World, i: Input)
    requires !i.statusWritten
    ensures var v := Reconcile(w, i);
      && v.phase == w.phase && v.conditions == w.conditions
      && v.idSet == w.idSet && v.deleted == w.deleted && v.debug == w.debug
  {
    FinalizeKeeps(w, i);
    StopKeeps(w, i);
    StartUpKeeps(w, i);
  }

  // ----- before there is an ID -----

  predicate Untouched(w: World) {
    && w.deployment.None? && w.routing.None? && w.labelled == []
    && (!w.deleted ==> w.conditions == [] && (w.phase == NoPhase || w.phase == Failed))
  }

  /** The first thing a workspace gets is its ID; failing that, it is Failed. */
  lemma IdComesFirst(w: World, i: Input)
    requires !w.idSet && !w.deleted && i.statusWritten
    ensures var v := Reconcile(w, i);
      && (v.idSet <==> i.idAssigned) && v.phase == (if i.idAssigned then w.phase else Failed)
      && v == w.(idSet := v.idSet, phase := v.phase)
  {
  }

  lemma UntouchedStep(w: World, s: Step)
    requires w.idSet || Untouched(w)
    ensures Next(w, s).idSet || Untouched(Next(w, s))
  {
    if s.Reconciled? {
      if w.deleted {
        DeletionStep(w, s);
      } else if w.idSet {
        IdIsKept(w, s.input);
      }
    }
  }

  lemma IdIsKept(w: World, i: Input)
    requires w.idSet
    ensures Reconcile(w, i).idSet
  {
    FinalizeKeeps(w, i);
    StopKeeps(w, i);
    StartUpKeeps(w, i);
  }

  /** Until a workspace has its ID, nothing is made for it and nothing reported, but that it failed to get one. */
  lemma {:induction false} NothingBeforeId(started: bool, debug: bool, steps: seq<Step>)
    ensures var w := Run(Created(started, debug), steps);
      !w.idSet ==>
        && w.deployment.None? && w.routing.None? && w.labelled == []
        && (!w.deleted ==> w.conditions == [] && (w.phase == NoPhase || w.phase == Failed))
  {
    UntouchedRun(started, debug, steps);
  }

  lemma {:induction false} UntouchedRun(started: bool, debug: bool, steps: seq<Step>)
    ensures var w := Run(Created(started, debug), steps); w.idSet || Untouched(w)
  {
    if steps != [] {
      UntouchedRun(started, debug, steps[..|steps| - 1]);
      UntouchedStep(Run(Created(started, debug), steps[..|steps| - 1]), steps[|steps| - 1]);
    }
  }
}
