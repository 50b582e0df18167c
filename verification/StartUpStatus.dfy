/**
 What a reconcile of a workspace that is starting or running reports (the start-up part of
 Reconcile in controllers/workspace/devworkspace_controller.go), told by the outcomes of its
 stages alone: the stage that ends it, each condition before, at and after that stage, the
 failure, the phase and the objects touched; and what is then stored.
 */
module StartUpStatus {
  import opened Options
  import opened Conditions
  import opened Lifecycle

  predicate InStartUp(w: World) {
    w.idSet && !w.deleted && w.started && (w.phase == Starting || w.phase == Running)
  }

  /** The stages before `n` let the reconcile go on; `n` ended it, by its outcome or with no outcome to go by. */
  predicate EndsAt(stages: seq<Stage>, outcomes: seq<Outcome>, n: nat) {
    && n <= |stages| && n <= |outcomes|
    && (forall m :: 0 <= m < n ==> outcomes[m].Passed? || outcomes[m].Skipped? || outcomes[m].Warned?)
    && (n < |stages| && n < |outcomes| ==> outcomes[n].Waiting? || outcomes[n].Broken? || outcomes[n].Aborted?)
  }

  /** Every list of outcomes ends the reconcile somewhere. */
  lemma EndExists(outcomes: seq<Outcome>) returns (n: nat)
    ensures EndsAt(STAGES, outcomes, n)
  {
    n := 0;
    while n < |STAGES| && n < |outcomes| && (outcomes[n].Passed? || outcomes[n].Skipped? || outcomes[n].Warned?)
      invariant n <= |STAGES| && n <= |outcomes|
      invariant forall m :: 0 <= m < n ==> outcomes[m].Passed? || outcomes[m].Skipped? || outcomes[m].Warned?
    {
      n := n + 1;
    }
  }

  /** Starting, and for longer than allowed: no condition changed within the timeout, or there is no timeout to read. */
  ghost predicate Overdue(w: World, i: Input) {
    && w.phase == Starting
    && (i.timeout.None? ||
        ((exists c :: c in w.conditions && c.time > 0) &&
         forall c :: c in w.conditions && c.time > 0 ==> c.time + i.timeout.value < i.now))
  }

  lemma OverdueIsExpired(w: World, i: Input)
    ensures StartExpired(w, i) <==> Overdue(w, i)
  {
    LatestTransitionIsMaximum(w.conditions);
  }

  /** The stage whose end decides a condition. */
  function StageOf(k: ConditionType): int {
    match k
    case Resolved => 3
    case Started => 8
    case StorageReady => 12
    case RoutingReady => 15
    case ServiceAccountReady => 19
    case PullSecretsReady => 20
    case KubeComponentsReady => 21
    case DeploymentReady => 22
    case Ready => 23
    case _ => -1
  }

  /** Conditions of stages that may not apply. */
  predicate MayNotApply(k: ConditionType) {
    k == Started || k == PullSecretsReady || k == KubeComponentsReady
  }

  predicate Fits(s: Stage, m: int, k: ConditionType) {
    && (s.done == Some(k) <==> m == StageOf(k))
    && (s.waiting == Some(k) <==> m == StageOf(k) && m >= 12)
    && (m == StageOf(k) ==> (s.optional <==> MayNotApply(k)))
  }

  lemma StageFits(m: nat, k: ConditionType)
    requires m < |STAGES|
    ensures Fits(STAGES[m], m, k)
  {
    StageDone(m, k);
    StageWaits(m, k);
  }

  lemma StageDone(m: nat, k: ConditionType)
    requires m < |STAGES|
    ensures STAGES[m].done == Some(k) <==> m == StageOf(k)
    ensures m == StageOf(k) ==> (STAGES[m].optional <==> MayNotApply(k))
  {
  }

  lemma StageWaits(m: nat, k: ConditionType)
    requires m < |STAGES|
    ensures STAGES[m].waiting == Some(k) <==> m == StageOf(k) && m >= 12
  {
  }

  ghost predicate Tabled(stages: seq<Stage>) {
    |stages| == 24 && forall m, k :: 0 <= m < |stages| ==> Fits(stages[m], m, k)
  }

  lemma StagesTabled()
    ensures Tabled(STAGES)
  {
    forall m, k | 0 <= m < |STAGES| ensures Fits(STAGES[m], m, k) { StageFits(m, k); }
  }

  // ----- provisioning, one condition at a time -----

  /** Provisioning from stage `a`, when the reconcile ends at `n`. */
  predicate EndsFrom(stages: seq<Stage>, a: nat, outcomes: seq<Outcome>, n: nat) {
    a <= n && EndsAt(stages, outcomes, n)
  }

  lemma GoesOn(stages: seq<Stage>, a: nat, outcomes: seq<Outcome>, n: nat, c: Collected)
    requires EndsFrom(stages, a, outcomes, n) && a < n
    ensures Provision(stages, a, outcomes, c) ==
            Provision(stages, a + 1, outcomes, AfterStage(stages[a], outcomes[a], c))
    ensures EndsFrom(stages, a + 1, outcomes, n)
  {
    assert outcomes[a].Passed? || outcomes[a].Skipped? || outcomes[a].Warned?;
  }

  lemma EndsHere(stages: seq<Stage>, n: nat, outcomes: seq<Outcome>, c: Collected)
    requires EndsAt(stages, outcomes, n)
    ensures n < |stages| ==>
      Provision(stages, n, outcomes, c) ==
      End(AfterStage(stages[n], OutcomeAt(outcomes, n), c), n + 1, OutcomeAt(outcomes, n).Aborted?)
    ensures n == |stages| ==> Provision(stages, n, outcomes, c) == End(c.(phase := Running), n, false)
  {
  }

  /** A stage that another condition belongs to leaves a condition as it is. */
  lemma OtherStage(stages: seq<Stage>, m: nat, o: Outcome, c: Collected, k: ConditionType)
    requires Tabled(stages) && m < |stages| && m != StageOf(k) && k != FailedStart
    ensures var d := AfterStage(stages[m], o, c).obs.conditions;
      (k in d <==> k in c.obs.conditions) && (k in d ==> d[k] == c.obs.conditions[k])
  {
    assert Fits(stages[m], m, k);
  }

  /** A condition whose stage is not among those entered stays as it is. */
  lemma {:induction false} NotEntered(stages: seq<Stage>, a: nat, outcomes: seq<Outcome>, n: nat, c: Collected,
                                      k: ConditionType)
    requires Tabled(stages) && EndsFrom(stages, a, outcomes, n) && k != FailedStart
             && (StageOf(k) < a || StageOf(k) > n)
    ensures var d := Provision(stages, a, outcomes, c).collected.obs.conditions;
      (k in d <==> k in c.obs.conditions) && (k in d ==> d[k] == c.obs.conditions[k])
    decreases n - a
  {
    if a < n {
      OtherStage(stages, a, outcomes[a], c, k);
      GoesOn(stages, a, outcomes, n, c);
      NotEntered(stages, a + 1, outcomes, n, AfterStage(stages[a], outcomes[a], c), k);
    } else {
      EndsHere(stages, n, outcomes, c);
      if n < |stages| { OtherStage(stages, n, OutcomeAt(outcomes, n), c, k); }
    }
  }

  /** The condition of a stage that let the reconcile go on. */
  lemma {:induction false} Done(stages: seq<Stage>, a: nat, outcomes: seq<Outcome>, n: nat, c: Collected,
                                k: ConditionType)
    requires Tabled(stages) && EndsFrom(stages, a, outcomes, n) && a <= StageOf(k) < n
    ensures var d := Provision(stages, a, outcomes, c).collected.obs.conditions; var o := outcomes[StageOf(k)];
      if o.Skipped? && MayNotApply(k) then
        (k in d <==> k in c.obs.conditions) && (k in d ==> d[k] == c.obs.conditions[k])
      else k in d && d[k] == Condition(k, True, if o.Skipped? then "" else o.message, "", 0)
    decreases n - a
  {
    GoesOn(stages, a, outcomes, n, c);
    var c' := AfterStage(stages[a], outcomes[a], c);
    if a == StageOf(k) {
      assert Fits(stages[a], a, k);
      NotEntered(stages, a + 1, outcomes, n, c', k);
    } else {
      OtherStage(stages, a, outcomes[a], c, k);
      Done(stages, a + 1, outcomes, n, c', k);
    }
  }

  /** The condition of the stage that ends the reconcile. */
  lemma {:induction false} Ended(stages: seq<Stage>, a: nat, outcomes: seq<Outcome>, n: nat, c: Collected,
                                 k: ConditionType)
    requires Tabled(stages) && EndsFrom(stages, a, outcomes, n) && n < |stages| && n == StageOf(k)
    ensures var d := Provision(stages, a, outcomes, c).collected.obs.conditions;
      if n >= 12 then k in d && d[k] == Condition(k, False, if n < |outcomes| then outcomes[n].message else "", "", 0)
      else (k in d <==> k in c.obs.conditions) && (k in d ==> d[k] == c.obs.conditions[k])
    decreases n - a
  {
    if a < n {
      OtherStage(stages, a, outcomes[a], c, k);
      GoesOn(stages, a, outcomes, n, c);
      Ended(stages, a + 1, outcomes, n, AfterStage(stages[a], outcomes[a], c), k);
    } else {
      EndsHere(stages, n, outcomes, c);
      assert Fits(stages[n], n, k);
    }
  }

  /** The failure, the phase and the stages entered. */
  lemma {:induction false} Failure(stages: seq<Stage>, a: nat, outcomes: seq<Outcome>, n: nat, c: Collected)
    requires Tabled(stages) && EndsFrom(stages, a, outcomes, n) && c.phase == Starting
             && FailedStart !in c.obs.conditions
    ensures var e := Provision(stages, a, outcomes, c); var d := e.collected.obs.conditions;
            var broken := n < |stages| && n < |outcomes| && outcomes[n].Broken?;
      && (FailedStart in d <==> broken)
      && (broken ==> d[FailedStart] == Condition(FailedStart, True, outcomes[n].failure, outcomes[n].reason, 0))
      && e.collected.phase == (if n == |stages| then Running else if broken then Failing else Starting)
      && (e.aborted <==> n < |stages| && (n == |outcomes| || outcomes[n].Aborted?))
      && e.entered == (if n == |stages| then n else n + 1)
    decreases n - a
  {
    if a < n {
      NotFailed(stages, a, outcomes[a], c);
      GoesOn(stages, a, outcomes, n, c);
      Failure(stages, a + 1, outcomes, n, AfterStage(stages[a], outcomes[a], c));
    } else {
      EndsHere(stages, n, outcomes, c);
      assert n < |stages| ==> Fits(stages[n], n, FailedStart);
    }
  }

  lemma NotFailed(stages: seq<Stage>, m: nat, o: Outcome, c: Collected)
    requires Tabled(stages) && m < |stages| && (o.Passed? || o.Skipped? || o.Warned?)
    ensures var d := AfterStage(stages[m], o, c);
      d.phase == c.phase && (FailedStart in d.obs.conditions <==> FailedStart in c.obs.conditions)
  {
    assert Fits(stages[m], m, FailedStart);
  }

  /** A stage with this outcome adds this warning. */
  predicate Warns(o: Outcome, x: Condition) {
    o.Warned? && x == Condition(Warning, True, o.warning, "", 0)
  }

  lemma StageWarns(s: Stage, o: Outcome, c: Collected, x: Condition)
    ensures x in AfterStage(s, o, c).obs.warnings <==> x in c.obs.warnings || Warns(o, x)
  {
  }

  lemma {:induction false} StagesWarn(stages: seq<Stage>, a: nat, outcomes: seq<Outcome>, n: nat, c: Collected,
                                      x: Condition)
    requires EndsFrom(stages, a, outcomes, n)
    ensures x in Provision(stages, a, outcomes, c).collected.obs.warnings <==>
            x in c.obs.warnings || exists m :: a <= m < n && Warns(outcomes[m], x)
    decreases n - a
  {
    if a < n {
      StageWarns(stages[a], outcomes[a], c, x);
      GoesOn(stages, a, outcomes, n, c);
      StagesWarn(stages, a + 1, outcomes, n, AfterStage(stages[a], outcomes[a], c), x);
    } else {
      EndsHere(stages, n, outcomes, c);
      if n < |stages| { StageWarns(stages[n], OutcomeAt(outcomes, n), c, x); }
    }
  }

  // ----- what the reconcile reports -----

  /** A condition is observed with this status and message, and no reason. */
  predicate Reported(obs: Observed, k: ConditionType, status: ConditionStatus, message: string) {
    k in obs.conditions && obs.conditions[k] == Condition(k, status, message, "", 0)
  }

  lemma StartReports(i: Input)
    ensures var c := StartCollected(i);
      && c.phase == Starting && c.obs.conditions.Keys == {Started}
      && Reported(c.obs, Started, True, "DevWorkspace is starting")
  {
  }

  /** The timeout adds the failure and nothing else. */
  lemma DeferredReports(w: World, i: Input, k: ConditionType)
    requires k != FailedStart
    ensures var d := StartEnd(i).collected.obs.conditions; var d' := Deferred(w, StartEnd(i), i).obs.conditions;
      (k in d <==> k in d') && (k in d' ==> d'[k] == d[k])
  {
  }

  /**
   What is reported of a condition when the reconcile ends at stage `n`: those of earlier stages are True with
   the stage's message, that of `n` is False with the message of its outcome, those of later stages are
   not reported. Started is True throughout.
   */
  ghost predicate Tells(obs: Observed, outcomes: seq<Outcome>, n: nat, k: ConditionType)
    requires n <= |outcomes|
  {
    var p := StageOf(k);
    && (k == Started && (p >= n || outcomes[p].Skipped?) ==> Reported(obs, k, True, "DevWorkspace is starting"))
    && (0 <= p < n && outcomes[p].Skipped? && k != Started ==>
          if MayNotApply(k) then k !in obs.conditions else Reported(obs, k, True, ""))
    && (0 <= p < n && !outcomes[p].Skipped? ==> Reported(obs, k, True, outcomes[p].message))
    && (p == n >= 12 ==>
          Reported(obs, k, False, if n == |outcomes| || outcomes[n].Skipped? then "" else outcomes[n].message))
    && ((p > n || p == n < 12 || p == -1) && k != Started ==> k !in obs.conditions)
  }

  lemma ProvisionTells(stages: seq<Stage>, outcomes: seq<Outcome>, n: nat, c: Collected, k: ConditionType)
    requires Tabled(stages) && EndsAt(stages, outcomes, n) && k != FailedStart
    requires c.obs.conditions.Keys == {Started} && Reported(c.obs, Started, True, "DevWorkspace is starting")
    ensures Tells(Provision(stages, 0, outcomes, c).collected.obs, outcomes, n, k)
  {
    if 0 <= StageOf(k) < n {
      Done(stages, 0, outcomes, n, c, k);
    } else if StageOf(k) == n {
      EndedTells(stages, outcomes, n, c, k);
    } else {
      NotEntered(stages, 0, outcomes, n, c, k);
    }
  }

  lemma EndedTells(stages: seq<Stage>, outcomes: seq<Outcome>, n: nat, c: Collected, k: ConditionType)
    requires Tabled(stages) && EndsAt(stages, outcomes, n) && StageOf(k) == n
    requires c.obs.conditions.Keys == {Started} && Reported(c.obs, Started, True, "DevWorkspace is starting")
    ensures Tells(Provision(stages, 0, outcomes, c).collected.obs, outcomes, n, k)
  {
    assert n < |stages|;
    Ended(stages, 0, outcomes, n, c, k);
  }

  lemma SameTells(obs: Observed, obs': Observed, outcomes: seq<Outcome>, n: nat, k: ConditionType)
    requires n <= |outcomes| && Tells(obs, outcomes, n, k)
    requires (k in obs.conditions <==> k in obs'.conditions)
             && (k in obs'.conditions ==> obs'.conditions[k] == obs.conditions[k])
    ensures Tells(obs', outcomes, n, k)
  {
  }

  lemma ReportedConditions(w: World, i: Input, n: nat, k: ConditionType)
    requires InStartUp(w) && EndsAt(STAGES, i.outcomes, n) && ToWrite(w, i).Some? && k != FailedStart
    ensures Tells(ToWrite(w, i).value.obs, i.outcomes, n, k)
  {
    StagesTabled();
    StartReports(i);
    ProvisionTells(STAGES, i.outcomes, n, StartCollected(i), k);
    DeferredReports(w, i, k);
    SameTells(StartEnd(i).collected.obs, Deferred(w, StartEnd(i), i).obs, i.outcomes, n, k);
  }

  /**
   The phase of a reconcile that ends at stage `n`: Failing exactly when that stage is broken, or the
   start is overdue and no error ended the reconcile; otherwise Running exactly when no stage ended it.
   FailedStart is reported exactly for Failing; an overdue start hides the stage's own failure.
   */
  lemma ReportedPhase(w: World, i: Input, n: nat)
    requires InStartUp(w) && EndsAt(STAGES, i.outcomes, n)
    ensures ToWrite(w, i).Some?
    ensures var c := ToWrite(w, i).value;
            var broken := n < |STAGES| && n < |i.outcomes| && i.outcomes[n].Broken?;
            var aborted := n < |STAGES| && (n == |i.outcomes| || i.outcomes[n].Aborted?);
      && (c.phase == Failing <==> broken || (!aborted && Overdue(w, i)))
      && (c.phase == Running <==> n == |STAGES| && !Overdue(w, i))
      && (c.phase == Failing || c.phase == Running || c.phase == Starting)
      && (FailedStart in c.obs.conditions <==> c.phase == Failing)
      && (c.phase == Failing && !aborted && Overdue(w, i) ==>
            c.obs.conditions[FailedStart] == Condition(FailedStart, True, i.timeoutFailure, i.timeoutReason, 0))
      && (c.phase == Failing && !Overdue(w, i) ==>
            c.obs.conditions[FailedStart] ==
            Condition(FailedStart, True, i.outcomes[n].failure, i.outcomes[n].reason, 0))
  {
    StagesTabled();
    StartReports(i);
    OverdueIsExpired(w, i);
    Failure(STAGES, 0, i.outcomes, n, StartCollected(i));
  }

  /** The warnings are the configuration's and those of the stages that passed with one. */
  lemma ReportedWarnings(w: World, i: Input, n: nat, x: Condition)
    requires InStartUp(w) && EndsAt(STAGES, i.outcomes, n) && ToWrite(w, i).Some?
    ensures x in ToWrite(w, i).value.obs.warnings <==>
            && x == Condition(Warning, True, x.message, "", 0)
            && (i.configWarning == Some(x.message) ||
                exists m :: 0 <= m < n && i.outcomes[m].Warned? && i.outcomes[m].warning == x.message)
  {
    StagesWarn(STAGES, 0, i.outcomes, n, StartCollected(i), x);
    if m :| 0 <= m < n && i.outcomes[m].Warned? && i.outcomes[m].warning == x.message {
      assert x == Condition(Warning, True, x.message, "", 0) ==> Warns(i.outcomes[m], x);
    }
  }

  /**
   Conditions are reached in the condition order: once one is reported, whatever its status, each one
   before it is True, unless it is one that may not apply and is not reported.
   */
  lemma ConditionsAreReachedInOrder(w: World, i: Input, a: nat, b: nat)
    requires InStartUp(w) && ToWrite(w, i).Some? && a < b < |CONDITION_ORDER|
    requires CONDITION_ORDER[b] in ToWrite(w, i).value.obs.conditions
    ensures var obs := ToWrite(w, i).value.obs; var k := CONDITION_ORDER[a];
      if k in obs.conditions then obs.conditions[k].status == True
      else k == PullSecretsReady || k == KubeComponentsReady
  {
    var n := EndExists(i.outcomes);
    StagesInOrder(a, b);
    ReportedConditions(w, i, n, CONDITION_ORDER[b]);
    ReportedConditions(w, i, n, CONDITION_ORDER[a]);
  }

  lemma StagesInOrder(a: nat, b: nat)
    requires a < b < |CONDITION_ORDER|
    ensures var j, k := CONDITION_ORDER[a], CONDITION_ORDER[b];
      && k != Started && k != FailedStart && j != FailedStart && StageOf(j) >= 0 && StageOf(k) >= 0
      && (j == Started || StageOf(j) < StageOf(k))
      && (MayNotApply(j) <==> j == Started || j == PullSecretsReady || j == KubeComponentsReady)
  {
  }

  // ----- what is stored -----

  /** Every stored condition of a type says this, and there is one. */
  ghost predicate Shows(conditions: seq<Condition>, k: ConditionType, status: ConditionStatus, message: string) {
    && (exists c :: c in conditions && c.kind == k)
    && (forall c :: c in conditions && c.kind == k ==> c.status == status && c.message == message)
  }

  lemma SyncedShows(stored: seq<Condition>, obs: Observed, order: seq<ConditionType>, now: int, k: ConditionType)
    requires Enumerates(order, obs) && k in obs.conditions && k != Warning
    ensures Shows(Synced(stored, obs, order, now), k, obs.conditions[k].status, obs.conditions[k].message)
  {
    EveryObservedKindIsKnown(stored, obs, order, now, k);
    forall d | d in Synced(stored, obs, order, now) && d.kind == k
      ensures d.status == obs.conditions[k].status && d.message == obs.conditions[k].message {
      SyncMember(stored, obs, order, now, d);
      ArisesAsObserved(stored, obs, now, d);
    }
  }

  lemma ArisesAsObserved(stored: seq<Condition>, obs: Observed, now: int, d: Condition)
    requires Arises(d, stored, obs, now) && d.kind != Warning
    ensures d.kind in obs.conditions ==>
              d.status == obs.conditions[d.kind].status && d.message == obs.conditions[d.kind].message
    ensures d.kind !in obs.conditions ==> d.status == Unknown
  {
    KnownWarningsProperties(stored);
  }

  /** The reconcile's status write goes through. */
  predicate Written(w: World, i: Input) {
    i.statusWritten && (ToWrite(w, i).Some? ==> Lists(i.order, ToWrite(w, i).value.obs))
  }

  lemma WrittenIsStored(w: World, i: Input)
    requires InStartUp(w) && Written(w, i)
    ensures var c := ToWrite(w, i).value; var v := Reconcile(w, i);
      v.phase == c.phase && v.conditions == Synced(w.conditions, c.obs, i.order, i.now)
  {
  }

  /**
   A written reconcile leaves the workspace Running if and only if the start is not overdue and the
   outcome of each and every stage is that it passed, did not apply, or passed with a warning.
   */
  lemma RunningExactlyWhenAllStagesPass(w: World, i: Input)
    requires InStartUp(w) && Written(w, i)
    ensures Reconcile(w, i).phase == Running <==>
            && !Overdue(w, i) && |i.outcomes| >= |STAGES|
            && forall m :: 0 <= m < |STAGES| ==>
                 i.outcomes[m].Passed? || i.outcomes[m].Skipped? || i.outcomes[m].Warned?
  {
    var n := EndExists(i.outcomes);
    ReportedPhase(w, i, n);
    WrittenIsStored(w, i);
  }

  /**
   After a written reconcile that a stage ended: Failing exactly for a broken stage or, short of an error,
   an overdue start; the stage's condition is stored as False with the message of the outcome, those
   before as True, and those after as not known or not at all.
   */
  lemma EndedStartIsStored(w: World, i: Input, n: nat, k: ConditionType)
    requires InStartUp(w) && Written(w, i) && n < |STAGES| && n < |i.outcomes| && EndsAt(STAGES, i.outcomes, n)
    requires k != Warning && k != FailedStart
    ensures var v := Reconcile(w, i); var p := StageOf(k);
      && v.phase == (if i.outcomes[n].Broken? || (i.outcomes[n].Waiting? && Overdue(w, i)) then Failing else Starting)
      && (p == n && n >= 12 ==> Shows(v.conditions, k, False, i.outcomes[n].message))
      && (0 <= p < n && !i.outcomes[p].Skipped? ==> Shows(v.conditions, k, True, i.outcomes[p].message))
      && (p > n && k != Started ==> forall c :: c in v.conditions && c.kind == k ==> c.status == Unknown)
  {
    ReportedPhase(w, i, n);
    ReportedConditions(w, i, n, k);
    WrittenIsStored(w, i);
    var obs := ToWrite(w, i).value.obs;
    if k in obs.conditions {
      SyncedShows(w.conditions, obs, i.order, i.now, k);
    } else {
      SyncedUnknown(w.conditions, obs, i.order, i.now, k);
    }
  }

  lemma SyncedUnknown(stored: seq<Condition>, obs: Observed, order: seq<ConditionType>, now: int, k: ConditionType)
    requires Enumerates(order, obs) && k !in obs.conditions && k != Warning
    ensures forall c :: c in Synced(stored, obs, order, now) && c.kind == k ==> c.status == Unknown
  {
    forall d | d in Synced(stored, obs, order, now) && d.kind == k ensures d.status == Unknown {
      SyncMember(stored, obs, order, now, d);
      ArisesAsObserved(stored, obs, now, d);
    }
  }

  /** Written or not, the deployment and the routing are touched exactly if their stage was entered. */
  lemma ObjectsTouched(w: World, i: Input, n: nat)
    requires InStartUp(w) && EndsAt(STAGES, i.outcomes, n)
    ensures var v := Reconcile(w, i);
      && v.deployment == (if n >= 22 then i.deployed else w.deployment)
      && v.routing == (if n >= 15 then i.routed else w.routing)
      && v.labelled == i.created
      && v.idSet && !v.deleted && v.started && v.debug == w.debug
  {
    StagesTabled();
    StartReports(i);
    Failure(STAGES, 0, i.outcomes, n, StartCollected(i));
  }
}
