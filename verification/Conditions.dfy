/**
 Reconciliation of a DevWorkspace's stored status conditions with the conditions observed
 by one reconcile, and the start timeout measured from them
 (controllers/workspace/status.go, controllers/workspace/condition.go).

 Go's map iteration order is an argument (`order`): every theorem holds for all orders.
 */
module Conditions {
  import opened Sorting

  datatype ConditionType =
    | Started | Resolved | StorageReady | RoutingReady | ServiceAccountReady
    | PullSecretsReady | KubeComponentsReady | DeploymentReady | Ready
    | FailedStart | Error | Warning | Custom(name: string)

  datatype ConditionStatus = True | False | Unknown

  datatype Condition = Condition(
    kind: ConditionType, status: ConditionStatus, message: string, reason: string, time: int)

  /** One reconcile's observations: conditions by type, and any number of warnings. */
  datatype Observed = Observed(conditions: map<ConditionType, Condition>, warnings: seq<Condition>)

  const CONDITION_ORDER: seq<ConditionType> :=
    [Started, Resolved, StorageReady, RoutingReady, ServiceAccountReady,
     PullSecretsReady, KubeComponentsReady, DeploymentReady, Ready]

  function OrderIndex(t: ConditionType): (i: int)
    ensures i == -1 ==> t !in CONDITION_ORDER
    ensures i != -1 ==> 0 <= i < |CONDITION_ORDER| && CONDITION_ORDER[i] == t
  {
    match t
    case Started => 0
    case Resolved => 1
    case StorageReady => 2
    case RoutingReady => 3
    case ServiceAccountReady => 4
    case PullSecretsReady => 5
    case KubeComponentsReady => 6
    case DeploymentReady => 7
    case Ready => 8
    case _ => -1
  }

  predicate Before(c: Condition, d: Condition) {
    if OrderIndex(c.kind) == OrderIndex(d.kind) then StringLess(c.message, d.message)
    else OrderIndex(c.kind) < OrderIndex(d.kind)
  }

  lemma BeforeIsStrictWeakOrder()
    ensures StrictWeakOrder(Before)
    ensures forall c, d :: Equivalent(Before, c, d) <==>
              OrderIndex(c.kind) == OrderIndex(d.kind) && c.message == d.message
  {
    StringLessIsTotalOrder();
    forall c, d ensures Before(c, d) ==> !Before(d, c) {
      StringLessAsymmetric(c.message, d.message);
    }
    forall c, d, e ensures !Before(c, d) && !Before(d, e) ==> !Before(c, e) {
      StringLessNegTransitive(c.message, d.message, e.message);
    }
    forall c, d ensures Equivalent(Before, c, d) <==>
                          OrderIndex(c.kind) == OrderIndex(d.kind) && c.message == d.message {
      StringLessTotal(c.message, d.message);
      StringLessAsymmetric(c.message, d.message);
    }
  }

  lemma SortByOrder(s: seq<Condition>)
    ensures multiset(StableSort(Before, s)) == multiset(s)
    ensures forall x :: Class(Before, StableSort(Before, s), x) == Class(Before, s, x)
  {
    BeforeIsStrictWeakOrder();
    StableSortCorrect(Before, s);
  }

  lemma SameClassesSameOrder(s: seq<Condition>, t: seq<Condition>)
    requires forall x :: Class(Before, s, x) == Class(Before, t, x)
    ensures StableSort(Before, s) == StableSort(Before, t)
  {
    BeforeIsStrictWeakOrder();
    SameClassesSameSort(Before, s, t);
  }

  /** The members of a class: same place in CONDITION_ORDER (or none) and same message. */
  lemma ClassOf(s: seq<Condition>, x: Condition)
    ensures forall c :: c in Class(Before, s, x) <==>
              c in s && OrderIndex(c.kind) == OrderIndex(x.kind) && c.message == x.message
  {
    BeforeIsStrictWeakOrder();
    ClassMembers(Before, s, x);
  }

  // ----- what one synchronisation computes -----

  predicate SameState(c: Condition, d: Condition) {
    c.status == d.status && c.message == d.message && c.reason == d.reason
  }

  function Refresh(c: Condition, obs: Observed, now: int): Condition {
    if c.kind !in obs.conditions then
      if c.status == Unknown then c
      else c.(time := now, status := Unknown, message := "", reason := "")
    else
      var o := obs.conditions[c.kind];
      if SameState(c, o) then c
      else c.(time := now, status := o.status, message := o.message, reason := o.reason)
  }

  function Kept(stored: seq<Condition>, obs: Observed, now: int): seq<Condition> {
    if stored == [] then []
    else
      var c := stored[|stored| - 1];
      Kept(stored[..|stored| - 1], obs, now) + (if c.kind == Warning then [] else [Refresh(c, obs, now)])
  }

  function KnownKinds(stored: seq<Condition>): set<ConditionType> {
    set c | c in stored && c.kind != Warning :: c.kind
  }

  function NewCondition(k: ConditionType, o: Condition, now: int): Condition {
    Condition(k, o.status, o.message, o.reason, now)
  }

  function Added(order: seq<ConditionType>, known: set<ConditionType>, obs: Observed, now: int): seq<Condition>
    requires forall k :: k in order ==> k in obs.conditions
  {
    if order == [] then []
    else
      var k := order[|order| - 1];
      Added(order[..|order| - 1], known, obs, now) +
      (if k in known then [] else [NewCondition(k, obs.conditions[k], now)])
  }

  function KnownWarnings(stored: seq<Condition>): map<string, Condition> {
    if stored == [] then map[]
    else
      var c := stored[|stored| - 1];
      var m := KnownWarnings(stored[..|stored| - 1]);
      if c.kind == Warning then m[c.message := c] else m
  }

  function RefreshWarning(w: Condition, known: map<string, Condition>, now: int): Condition {
    if w.message in known then
      var e := known[w.message];
      if e.status == w.status && e.reason == w.reason then e
      else e.(time := now, status := w.status, reason := w.reason)
    else Condition(Warning, True, w.message, w.reason, now)
  }

  function RefreshWarnings(ws: seq<Condition>, known: map<string, Condition>, now: int): seq<Condition> {
    seq(|ws|, i requires 0 <= i < |ws| => RefreshWarning(ws[i], known, now))
  }

  ghost predicate Enumerates(order: seq<ConditionType>, obs: Observed) {
    && (forall k :: k in order <==> k in obs.conditions)
    && Distinct(order)
  }

  function Unsorted(stored: seq<Condition>, obs: Observed, order: seq<ConditionType>, now: int): seq<Condition>
    requires forall k :: k in order ==> k in obs.conditions
  {
    Kept(stored, obs, now) + Added(order, KnownKinds(stored), obs, now)
    + RefreshWarnings(obs.warnings, KnownWarnings(stored), now)
  }

  function Synced(stored: seq<Condition>, obs: Observed, order: seq<ConditionType>, now: int): seq<Condition>
    requires forall k :: k in order ==> k in obs.conditions
  {
    StableSort(Before, Unsorted(stored, obs, order, now))
  }

  /** The part of a DevWorkspace's status that reconciling writes. */
  class WorkspaceStatus {
    var conditions: seq<Condition>

    constructor (conditions: seq<Condition>)
      ensures this.conditions == conditions
    {
      this.conditions := conditions;
    }

    method SyncConditions(obs: Observed, order: seq<ConditionType>, now: int)
      requires Enumerates(order, obs)
      modifies this
      ensures conditions == Synced(old(conditions), obs, order, now)
    {
      var kept, existing, existingWarnings := UpdateStored(conditions, obs, now);
      var added := AddMissing(order, existing, obs, now);
      var warned := AddWarnings(obs.warnings, existingWarnings, now);
      conditions := StableSort(Before, kept + added + warned);
    }
  }

  /** First loop: refresh what is stored, and remember its types and its warnings by message. */
  method UpdateStored(stored: seq<Condition>, obs: Observed, now: int)
    returns (updated: seq<Condition>, existing: set<ConditionType>, existingWarnings: map<string, Condition>)
    ensures updated == Kept(stored, obs, now)
    ensures existing == KnownKinds(stored)
    ensures existingWarnings == KnownWarnings(stored)
  {
    updated, existing, existingWarnings := [], {}, map[];
    for i := 0 to |stored|
      invariant forall k :: k in existing <==> exists j :: 0 <= j < i && stored[j].kind == k && k != Warning
      invariant existingWarnings == KnownWarnings(stored[..i])
      invariant updated == Kept(stored[..i], obs, now)
    {
      var c := stored[i];
      assert stored[..i + 1][..i] == stored[..i];
      if c.kind == Warning {
        existingWarnings := existingWarnings[c.message := c];
        continue;
      }
      existing := existing + {c.kind};
      if c.kind !in obs.conditions {
        if c.status != Unknown {
          c := c.(time := now, status := Unknown, message := "", reason := "");
        }
      } else {
        var o := obs.conditions[c.kind];
        if c.status != o.status || c.message != o.message || c.reason != o.reason {
          c := c.(time := now, status := o.status, message := o.message, reason := o.reason);
        }
      }
      updated := updated + [c];
    }
    assert stored[..|stored|] == stored;
  }

  /** Second loop: observed types that were not stored, in map iteration order. */
  method AddMissing(order: seq<ConditionType>, existing: set<ConditionType>, obs: Observed, now: int)
    returns (added: seq<Condition>)
    requires forall k :: k in order ==> k in obs.conditions
    ensures added == Added(order, existing, obs, now)
  {
    added := [];
    for i := 0 to |order|
      invariant added == Added(order[..i], existing, obs, now)
    {
      var k := order[i];
      assert order[..i + 1][..i] == order[..i];
      if k in existing { continue; }
      var o := obs.conditions[k];
      added := added + [Condition(k, o.status, o.message, o.reason, now)];
    }
    assert order[..|order|] == order;
  }

  /** Third loop: observed warnings, each reusing the stored warning with its message. */
  method AddWarnings(ws: seq<Condition>, existingWarnings: map<string, Condition>, now: int)
    returns (warned: seq<Condition>)
    ensures warned == RefreshWarnings(ws, existingWarnings, now)
  {
    warned := [];
    for i := 0 to |ws|
      invariant |warned| == i
      invariant forall j :: 0 <= j < i ==> warned[j] == RefreshWarning(ws[j], existingWarnings, now)
    {
      var w := ws[i];
      if w.message in existingWarnings {
        var e := existingWarnings[w.message];
        if e.status != w.status || e.reason != w.reason {
          e := e.(time := now, status := w.status, reason := w.reason);
        }
        warned := warned + [e];
      } else {
        warned := warned + [Condition(Warning, True, w.message, w.reason, now)];
      }
    }
  }

  // ----- how many conditions of each type a synchronisation leaves -----

  function Count(s: seq<Condition>, k: ConditionType): nat {
    if s == [] then 0 else Count(s[..|s| - 1], k) + (if s[|s| - 1].kind == k then 1 else 0)
  }

  lemma {:induction false} CountConcat(s: seq<Condition>, t: seq<Condition>, k: ConditionType)
    ensures Count(s + t, k) == Count(s, k) + Count(t, k)
  {
    if t == [] { assert s + t == s; }
    else {
      assert (s + t)[..|s + t| - 1] == s + t[..|t| - 1];
      CountConcat(s, t[..|t| - 1], k);
    }
  }

  lemma {:induction false} CountInsert(s: seq<Condition>, c: Condition, k: ConditionType)
    ensures Count(Insert(Before, s, c), k) == Count(s, k) + (if c.kind == k then 1 else 0)
  {
    if s == [] || !Before(c, s[|s| - 1]) {
      assert (s + [c])[..|s|] == s;
    } else {
      var r := Insert(Before, s[..|s| - 1], c);
      CountInsert(s[..|s| - 1], c, k);
      assert (r + [s[|s| - 1]])[..|r|] == r;
    }
  }

  lemma {:induction false} CountSort(s: seq<Condition>, k: ConditionType)
    ensures Count(StableSort(Before, s), k) == Count(s, k)
  {
    if s != [] {
      CountSort(s[..|s| - 1], k);
      CountInsert(StableSort(Before, s[..|s| - 1]), s[|s| - 1], k);
    }
  }

  lemma CountSnoc(s: seq<Condition>, c: Condition, k: ConditionType)
    ensures Count(s + [c], k) == Count(s, k) + if c.kind == k then 1 else 0
  {
    assert (s + [c])[..|s|] == s;
  }

  lemma {:induction false} CountKept(stored: seq<Condition>, obs: Observed, now: int, k: ConditionType)
    ensures Count(Kept(stored, obs, now), k) == if k == Warning then 0 else Count(stored, k)
  {
    if stored != [] {
      var init, c := stored[..|stored| - 1], stored[|stored| - 1];
      CountKept(init, obs, now, k);
      var r := Kept(init, obs, now);
      if c.kind == Warning {
        assert Kept(stored, obs, now) == r;
      } else {
        CountSnoc(r, Refresh(c, obs, now), k);
      }
    }
  }

  lemma {:induction false} CountAdded(
      order: seq<ConditionType>, known: set<ConditionType>, obs: Observed, now: int, k: ConditionType)
    requires forall j :: j in order ==> j in obs.conditions
    requires Distinct(order)
    ensures Count(Added(order, known, obs, now), k) == if k in order && k !in known then 1 else 0
  {
    if order != [] {
      var init, last := order[..|order| - 1], order[|order| - 1];
      DistinctInit(order);
      CountAdded(init, known, obs, now, k);
      var r := Added(init, known, obs, now);
      if last in known {
        assert Added(order, known, obs, now) == r;
      } else {
        CountSnoc(r, NewCondition(last, obs.conditions[last], now), k);
      }
    }
  }

  lemma {:induction false} CountNone(s: seq<Condition>, k: ConditionType)
    requires forall c :: c in s ==> c.kind != k
    ensures Count(s, k) == 0
  {
    if s != [] { CountNone(s[..|s| - 1], k); }
  }

  lemma {:induction false} KnownWarningsProperties(stored: seq<Condition>)
    ensures forall m :: m in KnownWarnings(stored) ==>
              var c := KnownWarnings(stored)[m]; c in stored && c.kind == Warning && c.message == m
    ensures forall c :: c in stored && c.kind == Warning ==> c.message in KnownWarnings(stored)
  {
    if stored != [] {
      KnownWarningsProperties(stored[..|stored| - 1]);
      assert stored == stored[..|stored| - 1] + [stored[|stored| - 1]];
    }
  }

  lemma WarningsAreNoOtherKind(ws: seq<Condition>, stored: seq<Condition>, now: int, k: ConditionType)
    requires k != Warning
    ensures Count(RefreshWarnings(ws, KnownWarnings(stored), now), k) == 0
  {
    KnownWarningsProperties(stored);
    CountNone(RefreshWarnings(ws, KnownWarnings(stored), now), k);
  }

  /**
   Synchronising never loses a stored type and never duplicates one: a stored non-warning
   type keeps its number of occurrences, and every other observed type appears once.
   */
  lemma SyncKindCounts(stored: seq<Condition>, obs: Observed, order: seq<ConditionType>, now: int, k: ConditionType)
    requires Enumerates(order, obs) && k != Warning
    ensures Count(Synced(stored, obs, order, now), k) ==
            Count(stored, k) + if k in obs.conditions && k !in KnownKinds(stored) then 1 else 0
  {
    var kept, added := Kept(stored, obs, now), Added(order, KnownKinds(stored), obs, now);
    var warned := RefreshWarnings(obs.warnings, KnownWarnings(stored), now);
    CountSort(kept + added + warned, k);
    CountConcat(kept + added, warned, k);
    CountConcat(kept, added, k);
    CountKept(stored, obs, now, k);
    CountAdded(order, KnownKinds(stored), obs, now, k);
    WarningsAreNoOtherKind(obs.warnings, stored, now, k);
  }

  // ----- which conditions a synchronisation leaves -----

  lemma {:induction false} KeptMembers(stored: seq<Condition>, obs: Observed, now: int)
    ensures forall d :: d in Kept(stored, obs, now) <==>
              exists c :: c in stored && c.kind != Warning && d == Refresh(c, obs, now)
  {
    if stored != [] {
      KeptMembers(stored[..|stored| - 1], obs, now);
      assert stored == stored[..|stored| - 1] + [stored[|stored| - 1]];
    }
  }

  lemma {:induction false} AddedMembers(order: seq<ConditionType>, known: set<ConditionType>, obs: Observed, now: int)
    requires forall k :: k in order ==> k in obs.conditions
    ensures forall d :: d in Added(order, known, obs, now) <==>
              d.kind in order && d.kind !in known && d == NewCondition(d.kind, obs.conditions[d.kind], now)
  {
    if order != [] {
      AddedMembers(order[..|order| - 1], known, obs, now);
      assert order == order[..|order| - 1] + [order[|order| - 1]];
    }
  }

  /** Where a condition of the result comes from. */
  ghost predicate Arises(d: Condition, stored: seq<Condition>, obs: Observed, now: int) {
    || (exists c :: c in stored && c.kind != Warning && d == Refresh(c, obs, now))
    || (d.kind in obs.conditions && d.kind !in KnownKinds(stored)
        && d == NewCondition(d.kind, obs.conditions[d.kind], now))
    || (exists w :: w in obs.warnings && d == RefreshWarning(w, KnownWarnings(stored), now))
  }

  lemma SyncMembers(stored: seq<Condition>, obs: Observed, order: seq<ConditionType>, now: int)
    requires Enumerates(order, obs)
    ensures forall d :: d in Synced(stored, obs, order, now) <==> Arises(d, stored, obs, now)
  {
    var kept, added := Kept(stored, obs, now), Added(order, KnownKinds(stored), obs, now);
    var warned := RefreshWarnings(obs.warnings, KnownWarnings(stored), now);
    assert forall d :: d in Synced(stored, obs, order, now) <==> d in kept + added + warned by {
      SortByOrder(kept + added + warned);
      SameMultisetSameMembers(Synced(stored, obs, order, now), kept + added + warned);
    }
    KeptMembers(stored, obs, now);
    AddedMembers(order, KnownKinds(stored), obs, now);
    RefreshWarningsMembers(obs.warnings, KnownWarnings(stored), now);
  }

  lemma SyncMember(stored: seq<Condition>, obs: Observed, order: seq<ConditionType>, now: int, d: Condition)
    requires Enumerates(order, obs)
    ensures d in Synced(stored, obs, order, now) <==> Arises(d, stored, obs, now)
  {
    SyncMembers(stored, obs, order, now);
  }

  lemma KnownWarning(stored: seq<Condition>, m: string)
    ensures m in KnownWarnings(stored) ==>
              var c := KnownWarnings(stored)[m]; c in stored && c.kind == Warning && c.message == m
  {
    KnownWarningsProperties(stored);
  }

  lemma RefreshWarningsMembers(ws: seq<Condition>, known: map<string, Condition>, now: int)
    ensures forall d :: d in RefreshWarnings(ws, known, now) <==>
              exists w :: w in ws && d == RefreshWarning(w, known, now)
  {
    var r := RefreshWarnings(ws, known, now);
    forall w | w in ws ensures RefreshWarning(w, known, now) in r {
      var i :| 0 <= i < |ws| && ws[i] == w;
      assert r[i] == RefreshWarning(w, known, now);
    }
  }

  lemma SuccessorOf(stored: seq<Condition>, obs: Observed, order: seq<ConditionType>, now: int, c: Condition,
                    d: Condition)
    requires Enumerates(order, obs)
    requires c in stored && c.kind != Warning && forall e :: e in stored && e.kind == c.kind ==> e == c
    ensures Refresh(c, obs, now) in Synced(stored, obs, order, now)
    ensures d in Synced(stored, obs, order, now) && d.kind == c.kind ==> d == Refresh(c, obs, now)
  {
    SyncMembers(stored, obs, order, now);
    assert Arises(Refresh(c, obs, now), stored, obs, now);
    if d in Synced(stored, obs, order, now) && d.kind == c.kind {
      assert Arises(d, stored, obs, now);
      KnownWarningsProperties(stored);
      assert c.kind in KnownKinds(stored);
    }
  }

  /** A type stored once has exactly one successor, moved in time exactly when its state changed. */
  lemma SyncTimestamps(stored: seq<Condition>, obs: Observed, order: seq<ConditionType>, now: int, c: Condition)
    returns (d: Condition)
    requires Enumerates(order, obs)
    requires c in stored && c.kind != Warning && forall e :: e in stored && e.kind == c.kind ==> e == c
    ensures d in Synced(stored, obs, order, now) && d.kind == c.kind
    ensures forall e :: e in Synced(stored, obs, order, now) && e.kind == c.kind ==> e == d
    ensures d.time == if c.status == d.status && c.message == d.message && c.reason == d.reason then c.time else now
    ensures c.kind in obs.conditions ==>
              var o := obs.conditions[c.kind]; d.status == o.status && d.message == o.message && d.reason == o.reason
    ensures c.kind !in obs.conditions ==>
              && d.status == Unknown && (c.status == Unknown ==> d == c)
              && (c.status != Unknown ==> d.message == d.reason == "")
  {
    d := Refresh(c, obs, now);
    forall e ensures d in Synced(stored, obs, order, now)
             ensures e in Synced(stored, obs, order, now) && e.kind == c.kind ==> e == d {
      SuccessorOf(stored, obs, order, now, c, e);
    }
  }

  /** An observed type that was not stored appears once, as observed, with the time of the synchronisation. */
  lemma SyncAdds(stored: seq<Condition>, obs: Observed, order: seq<ConditionType>, now: int, k: ConditionType)
    requires Enumerates(order, obs) && k in obs.conditions && k != Warning
    requires forall c :: c in stored ==> c.kind != k
    ensures var o := obs.conditions[k]; var d := Condition(k, o.status, o.message, o.reason, now);
      && d in Synced(stored, obs, order, now)
      && (forall e :: e in Synced(stored, obs, order, now) && e.kind == k ==> e == d)
      && Count(Synced(stored, obs, order, now), k) == 1
  {
    var o := obs.conditions[k];
    var d := Condition(k, o.status, o.message, o.reason, now);
    assert Arises(d, stored, obs, now);
    SyncMember(stored, obs, order, now, d);
    forall e | e in Synced(stored, obs, order, now) && e.kind == k ensures e == d {
      SyncMember(stored, obs, order, now, e);
      KnownWarningsProperties(stored);
    }
    SyncKindCounts(stored, obs, order, now, k);
    CountNone(stored, k);
  }

  /** A condition made of the observed warning `w`: the stored one of that message, moved only if it changed. */
  ghost predicate MadeOf(d: Condition, w: Condition, stored: seq<Condition>, now: int) {
    && d.kind == Warning && d.message == w.message && d.reason == w.reason
    && if exists c :: c in stored && c.kind == Warning && c.message == w.message then
         && d.status == w.status
         && exists c :: c in stored && c.kind == Warning && c.message == w.message &&
                        d.time == if c.status == w.status && c.reason == w.reason then c.time else now
       else d.status == True && d.time == now
  }

  /** The warnings of the result are what was made of the observed ones, one each; stored ones not observed go. */
  lemma SyncWarnings(stored: seq<Condition>, obs: Observed, order: seq<ConditionType>, now: int)
    requires Enumerates(order, obs) && Warning !in obs.conditions
    ensures Count(Synced(stored, obs, order, now), Warning) == |obs.warnings|
    ensures forall w :: w in obs.warnings ==>
            exists d :: d in Synced(stored, obs, order, now) && MadeOf(d, w, stored, now)
    ensures forall d :: d in Synced(stored, obs, order, now) && d.kind == Warning ==>
              exists w :: w in obs.warnings && MadeOf(d, w, stored, now)
  {
    WarningCount(stored, obs, order, now);
    forall w | w in obs.warnings ensures exists d :: d in Synced(stored, obs, order, now) && MadeOf(d, w, stored, now) {
      var d := RefreshWarning(w, KnownWarnings(stored), now);
      RefreshedIsMade(stored, w, now);
      assert Arises(d, stored, obs, now);
      SyncMember(stored, obs, order, now, d);
    }
    forall d | d in Synced(stored, obs, order, now) && d.kind == Warning
      ensures exists w :: w in obs.warnings && MadeOf(d, w, stored, now) {
      SyncMember(stored, obs, order, now, d);
      var w :| w in obs.warnings && d == RefreshWarning(w, KnownWarnings(stored), now);
      RefreshedIsMade(stored, w, now);
    }
  }

  lemma RefreshedIsMade(stored: seq<Condition>, w: Condition, now: int)
    ensures MadeOf(RefreshWarning(w, KnownWarnings(stored), now), w, stored, now)
  {
    KnownWarningsProperties(stored);
    if w.message in KnownWarnings(stored) { KnownWarning(stored, w.message); }
  }

  lemma WarningCount(stored: seq<Condition>, obs: Observed, order: seq<ConditionType>, now: int)
    requires Enumerates(order, obs) && Warning !in obs.conditions
    ensures Count(Synced(stored, obs, order, now), Warning) == |obs.warnings|
  {
    var kept, added := Kept(stored, obs, now), Added(order, KnownKinds(stored), obs, now);
    var warned := RefreshWarnings(obs.warnings, KnownWarnings(stored), now);
    CountSort(kept + added + warned, Warning);
    CountConcat(kept + added, warned, Warning);
    CountConcat(kept, added, Warning);
    CountKept(stored, obs, now, Warning);
    CountAdded(order, KnownKinds(stored), obs, now, Warning);
    RefreshedCount(obs.warnings, stored, now);
  }

  lemma RefreshedCount(ws: seq<Condition>, stored: seq<Condition>, now: int)
    ensures Count(RefreshWarnings(ws, KnownWarnings(stored), now), Warning) == |ws|
  {
    KnownWarningsProperties(stored);
    CountAll(RefreshWarnings(ws, KnownWarnings(stored), now), Warning);
  }

  lemma {:induction false} CountAll(s: seq<Condition>, k: ConditionType)
    requires forall c :: c in s ==> c.kind == k
    ensures Count(s, k) == |s|
  {
    if s != [] { CountAll(s[..|s| - 1], k); }
  }

  // ----- the order of the result -----

  /** The place of a type in the order conditions are reported in; types outside it have place -1, before all others. */
  ghost predicate IsPlace(k: ConditionType, p: int) {
    var places := [Started, Resolved, StorageReady, RoutingReady, ServiceAccountReady,
                   PullSecretsReady, KubeComponentsReady, DeploymentReady, Ready];
    if p == -1 then k !in places else 0 <= p < |places| && places[p] == k
  }

  lemma PlaceIsIndex(k: ConditionType, p: int)
    requires IsPlace(k, p)
    ensures p == OrderIndex(k)
  {
    assert OrderIndex(k) != -1 ==> k in CONDITION_ORDER;
  }

  /** Conditions are ordered by place, and within one place by message. */
  lemma SyncedIsOrdered(stored: seq<Condition>, obs: Observed, order: seq<ConditionType>, now: int, i: nat, j: nat,
                        p: int, q: int)
    requires Enumerates(order, obs) && i < j < |Synced(stored, obs, order, now)|
    requires IsPlace(Synced(stored, obs, order, now)[i].kind, p) && IsPlace(Synced(stored, obs, order, now)[j].kind, q)
    ensures p <= q
    ensures p == q ==> NotAbove(Synced(stored, obs, order, now)[i].message, Synced(stored, obs, order, now)[j].message)
  {
    var s := Synced(stored, obs, order, now);
    PlaceIsIndex(s[i].kind, p);
    PlaceIsIndex(s[j].kind, q);
    SortedByBefore(Unsorted(stored, obs, order, now), i, j);
    StringLessMeans(s[i].message, s[j].message);
  }

  lemma SortedByBefore(s: seq<Condition>, i: nat, j: nat)
    requires i < j < |StableSort(Before, s)|
    ensures !Before(StableSort(Before, s)[j], StableSort(Before, s)[i])
  {
    BeforeIsStrictWeakOrder();
    StableSortCorrect(Before, s);
  }

  // ----- exact idempotence -----

  /** What makes a second synchronisation with the same observations a no-op. */
  ghost predicate Settles(stored: seq<Condition>, obs: Observed) {
    && Warning !in obs.conditions
    && (forall v, w :: v in obs.warnings && w in obs.warnings && v.message == w.message ==>
          v.status == w.status && v.reason == w.reason)
    && (forall w :: w in obs.warnings ==> w.status == True || w.message in KnownWarnings(stored))
  }

  function NonWarnings(s: seq<Condition>): seq<Condition> {
    if s == [] then []
    else NonWarnings(s[..|s| - 1]) + (if s[|s| - 1].kind == Warning then [] else [s[|s| - 1]])
  }

  lemma {:induction false} NonWarningsConcat(s: seq<Condition>, t: seq<Condition>)
    ensures NonWarnings(s + t) == NonWarnings(s) + NonWarnings(t)
  {
    if t == [] { assert s + t == s; }
    else {
      assert (s + t)[..|s + t| - 1] == s + t[..|t| - 1];
      NonWarningsConcat(s, t[..|t| - 1]);
    }
  }

  lemma {:induction false} NonWarningsUniform(s: seq<Condition>)
    ensures (forall c :: c in s ==> c.kind != Warning) ==> NonWarnings(s) == s
    ensures (forall c :: c in s ==> c.kind == Warning) ==> NonWarnings(s) == []
  {
    if s != [] {
      NonWarningsUniform(s[..|s| - 1]);
      assert s == s[..|s| - 1] + [s[|s| - 1]];
    }
  }

  lemma {:induction false} ClassOfNonWarnings(s: seq<Condition>, x: Condition)
    ensures Class(Before, NonWarnings(s), x) == NonWarnings(Class(Before, s, x))
  {
    if s != [] {
      var init, last := s[..|s| - 1], s[|s| - 1];
      ClassOfNonWarnings(init, x);
      var tail := if last.kind == Warning then [] else [last];
      assert NonWarnings(s) == NonWarnings(init) + tail;
      ClassConcat(Before, NonWarnings(init), tail, x);
      var classTail := if Equivalent(Before, last, x) then [last] else [];
      NonWarningsConcat(Class(Before, init, x), classTail);
    }
  }

  lemma {:induction false} KeptUnchanged(s: seq<Condition>, obs: Observed, now: int)
    requires forall c :: c in s && c.kind != Warning ==> Refresh(c, obs, now) == c
    ensures Kept(s, obs, now) == NonWarnings(s)
  {
    if s != [] { KeptUnchanged(s[..|s| - 1], obs, now); }
  }

  lemma {:induction false} AddedNothing(order: seq<ConditionType>, known: set<ConditionType>, obs: Observed, now: int)
    requires forall k :: k in order ==> k in obs.conditions && k in known
    ensures Added(order, known, obs, now) == []
  {
    if order != [] { AddedNothing(order[..|order| - 1], known, obs, now); }
  }

  lemma SecondRunUnsorted(stored: seq<Condition>, obs: Observed, order: seq<ConditionType>, t: int,
                          again: seq<ConditionType>, later: int)
    requires Enumerates(order, obs) && Enumerates(again, obs) && Settles(stored, obs)
    ensures var once := Synced(stored, obs, order, t);
            Unsorted(once, obs, again, later) ==
            NonWarnings(once) + RefreshWarnings(obs.warnings, KnownWarnings(stored), t)
  {
    var once := Synced(stored, obs, order, t);
    var warned := RefreshWarnings(obs.warnings, KnownWarnings(stored), t);
    assert Kept(once, obs, later) == NonWarnings(once) by {
      SettledConditions(stored, obs, order, t, later);
      KeptUnchanged(once, obs, later);
    }
    NothingToAdd(stored, obs, order, t, again, later);
    WarningsSettled(stored, obs, order, t, later);
    assert NonWarnings(once) + [] == NonWarnings(once);
  }

  lemma NothingToAdd(stored: seq<Condition>, obs: Observed, order: seq<ConditionType>, t: int,
                     again: seq<ConditionType>, later: int)
    requires Enumerates(order, obs) && Enumerates(again, obs) && Warning !in obs.conditions
    ensures Added(again, KnownKinds(Synced(stored, obs, order, t)), obs, later) == []
  {
    var once := Synced(stored, obs, order, t);
    forall k | k in again ensures k in KnownKinds(once) { EveryObservedKindIsKnown(stored, obs, order, t, k); }
    AddedNothing(again, KnownKinds(once), obs, later);
  }

  lemma WarningsSettled(stored: seq<Condition>, obs: Observed, order: seq<ConditionType>, t: int, later: int)
    requires Enumerates(order, obs) && Settles(stored, obs)
    ensures RefreshWarnings(obs.warnings, KnownWarnings(Synced(stored, obs, order, t)), later) ==
            RefreshWarnings(obs.warnings, KnownWarnings(stored), t)
  {
    var once := Synced(stored, obs, order, t);
    forall w | w in obs.warnings
      ensures RefreshWarning(w, KnownWarnings(once), later) == RefreshWarning(w, KnownWarnings(stored), t) {
      WarningSettled(stored, obs, order, t, later, w);
    }
  }

  lemma SettledRunIsNoOp(stored: seq<Condition>, obs: Observed, order: seq<ConditionType>, t: int,
                         again: seq<ConditionType>, later: int)
    requires Enumerates(order, obs) && Enumerates(again, obs) && Settles(stored, obs)
    ensures Synced(Synced(stored, obs, order, t), obs, again, later) == Synced(stored, obs, order, t)
  {
    SecondRunUnsorted(stored, obs, order, t, again, later);
    FrontAndWarnings(stored, obs, order, t);
    ResortKeepsOrder(Kept(stored, obs, t) + Added(order, KnownKinds(stored), obs, t),
                     RefreshWarnings(obs.warnings, KnownWarnings(stored), t));
  }

  lemma FrontAndWarnings(stored: seq<Condition>, obs: Observed, order: seq<ConditionType>, t: int)
    requires Enumerates(order, obs) && Settles(stored, obs)
    ensures forall c :: c in Kept(stored, obs, t) + Added(order, KnownKinds(stored), obs, t) ==> c.kind != Warning
    ensures forall c :: c in RefreshWarnings(obs.warnings, KnownWarnings(stored), t) ==> c.kind == Warning
  {
    assert forall c :: c in Kept(stored, obs, t) ==> c.kind != Warning by { KeptMembers(stored, obs, t); }
    assert forall c :: c in Added(order, KnownKinds(stored), obs, t) ==> c.kind != Warning by {
      AddedMembers(order, KnownKinds(stored), obs, t);
    }
    KnownWarningsProperties(stored);
  }

  /** Stability at work: warnings end their class, so taking them out and appending them again is invisible. */
  lemma ResortKeepsOrder(front: seq<Condition>, warned: seq<Condition>)
    requires forall c :: c in front ==> c.kind != Warning
    requires forall c :: c in warned ==> c.kind == Warning
    ensures StableSort(Before, NonWarnings(StableSort(Before, front + warned)) + warned)
            == StableSort(Before, front + warned)
  {
    var once := StableSort(Before, front + warned);
    SortByOrder(front + warned);
    forall x ensures Class(Before, NonWarnings(once) + warned, x) == Class(Before, front + warned, x) {
      var f, w := Class(Before, front, x), Class(Before, warned, x);
      ClassConcat(Before, front, warned, x);
      ClassConcat(Before, NonWarnings(once), warned, x);
      ClassOfNonWarnings(once, x);
      assert Class(Before, once, x) == f + w;
      assert NonWarnings(f + w) == f by {
        ClassOf(front, x);
        ClassOf(warned, x);
        NonWarningsConcat(f, w);
        NonWarningsUniform(f);
        NonWarningsUniform(w);
      }
    }
    SameClassesSameOrder(NonWarnings(once) + warned, front + warned);
  }

  lemma SettledConditions(stored: seq<Condition>, obs: Observed, order: seq<ConditionType>, t: int, later: int)
    requires Enumerates(order, obs)
    ensures forall c :: c in Synced(stored, obs, order, t) && c.kind != Warning ==> Refresh(c, obs, later) == c
  {
    forall c | c in Synced(stored, obs, order, t) && c.kind != Warning ensures Refresh(c, obs, later) == c {
      SyncMember(stored, obs, order, t, c);
      KnownWarningsProperties(stored);
    }
  }

  lemma EveryObservedKindIsKnown(stored: seq<Condition>, obs: Observed, order: seq<ConditionType>, t: int,
                                 k: ConditionType)
    requires Enumerates(order, obs) && k in obs.conditions && k != Warning
    ensures k in KnownKinds(Synced(stored, obs, order, t))
  {
    SyncMembers(stored, obs, order, t);
    if k in KnownKinds(stored) {
      var c :| c in stored && c.kind != Warning && c.kind == k;
      assert Arises(Refresh(c, obs, t), stored, obs, t);
    } else {
      assert Arises(NewCondition(k, obs.conditions[k], t), stored, obs, t);
    }
  }

  /** The stored warning for an observed message is what the first run made of some observed warning with it. */
  lemma WarningAfterSync(stored: seq<Condition>, obs: Observed, order: seq<ConditionType>, t: int, w: Condition)
    returns (v: Condition)
    requires Enumerates(order, obs) && Warning !in obs.conditions && w in obs.warnings
    ensures v in obs.warnings && v.message == w.message
    ensures var known := KnownWarnings(Synced(stored, obs, order, t));
            w.message in known && known[w.message] == RefreshWarning(v, KnownWarnings(stored), t)
  {
    var once, known := Synced(stored, obs, order, t), KnownWarnings(stored);
    var first := RefreshWarning(w, known, t);
    KnownWarning(stored, w.message);
    SyncMember(stored, obs, order, t, first);
    assert w.message in KnownWarnings(once) by { KnownWarningsProperties(once); }
    KnownWarning(once, w.message);
    var e := KnownWarnings(once)[w.message];
    SyncMember(stored, obs, order, t, e);
    v :| v in obs.warnings && e == RefreshWarning(v, known, t);
    KnownWarning(stored, v.message);
  }

  lemma WarningSettled(stored: seq<Condition>, obs: Observed, order: seq<ConditionType>, t: int, later: int,
                       w: Condition)
    requires Enumerates(order, obs) && Settles(stored, obs) && w in obs.warnings
    ensures RefreshWarning(w, KnownWarnings(Synced(stored, obs, order, t)), later)
            == RefreshWarning(w, KnownWarnings(stored), t)
  {
    var v := WarningAfterSync(stored, obs, order, t, w);
  }

  /** Without `Settles` the second run stamps some condition with its own clock. */
  lemma UnsettledRunMoves(stored: seq<Condition>, obs: Observed, order: seq<ConditionType>, t: int,
                          again: seq<ConditionType>, later: int) returns (moved: Condition)
    requires Enumerates(order, obs) && Enumerates(again, obs) && !Settles(stored, obs)
    ensures moved in Synced(Synced(stored, obs, order, t), obs, again, later) && moved.time == later
  {
    var once := Synced(stored, obs, order, t);
    SyncMembers(once, obs, again, later);
    if Warning in obs.conditions {
      moved := NewCondition(Warning, obs.conditions[Warning], later);
    } else {
      var w := UnsettledWarning(stored, obs, order, t);
      moved := RefreshWarning(w, KnownWarnings(once), later);
    }
    assert Arises(moved, once, obs, later);
  }

  lemma UnsettledWarning(stored: seq<Condition>, obs: Observed, order: seq<ConditionType>, t: int)
    returns (w: Condition)
    requires Enumerates(order, obs) && !Settles(stored, obs) && Warning !in obs.conditions
    ensures w in obs.warnings
    ensures var known := KnownWarnings(Synced(stored, obs, order, t));
            w.message in known && (known[w.message].status != w.status || known[w.message].reason != w.reason)
  {
    var once := Synced(stored, obs, order, t);
    if v, w' :| v in obs.warnings && w' in obs.warnings && v.message == w'.message &&
                !(v.status == w'.status && v.reason == w'.reason) {
      var _ := WarningAfterSync(stored, obs, order, t, v);
      var e := KnownWarnings(once)[v.message];
      w := if e.status != v.status || e.reason != v.reason then v else w';
    } else {
      w :| w in obs.warnings && w.status != True && w.message !in KnownWarnings(stored);
      var _ := WarningAfterSync(stored, obs, order, t, w);
    }
  }

  lemma TimesBounded(stored: seq<Condition>, obs: Observed, order: seq<ConditionType>, t: int, d: Condition)
    requires Enumerates(order, obs) && forall c :: c in stored ==> c.time <= t
    ensures d in Synced(stored, obs, order, t) ==> d.time <= t
  {
    SyncMembers(stored, obs, order, t);
    KnownWarningsProperties(stored);
  }

  /**
   Exactly when synchronising again, with the same observations and a later clock, changes
   nothing at all, order of conditions included.
   */
  lemma SyncIdempotentExactlyWhenSettled(
      stored: seq<Condition>, obs: Observed, order: seq<ConditionType>, t: int, again: seq<ConditionType>, later: int)
    requires Enumerates(order, obs) && Enumerates(again, obs)
    requires t < later && forall c :: c in stored ==> c.time <= t
    ensures Synced(Synced(stored, obs, order, t), obs, again, later) == Synced(stored, obs, order, t)
            <==> Settles(stored, obs)
  {
    if Settles(stored, obs) {
      SettledRunIsNoOp(stored, obs, order, t, again, later);
    } else {
      var moved := UnsettledRunMoves(stored, obs, order, t, again, later);
      TimesBounded(stored, obs, order, t, moved);
    }
  }

  // ----- independence of map iteration order -----

  /** No two types new to the status and outside CONDITION_ORDER are observed with one message. */
  ghost predicate NewMessagesDiffer(stored: seq<Condition>, obs: Observed) {
    forall j, k :: j in obs.conditions && k in obs.conditions && j != k
                   && j !in KnownKinds(stored) && k !in KnownKinds(stored)
                   && OrderIndex(j) == OrderIndex(k) == -1
                   ==> obs.conditions[j].message != obs.conditions[k].message
  }

  lemma {:induction false} AddedDistinct(order: seq<ConditionType>, known: set<ConditionType>, obs: Observed, now: int)
    requires forall k :: k in order ==> k in obs.conditions
    requires Distinct(order)
    ensures Distinct(Added(order, known, obs, now))
  {
    if order != [] {
      var init, last := order[..|order| - 1], order[|order| - 1];
      var a := Added(init, known, obs, now);
      AddedDistinct(init, known, obs, now);
      AddedMembers(init, known, obs, now);
      assert last !in init;
      DistinctSnoc(a, NewCondition(last, obs.conditions[last], now));
    }
  }

  lemma OrderIndependent(stored: seq<Condition>, obs: Observed, a: seq<ConditionType>, b: seq<ConditionType>, now: int)
    requires Enumerates(a, obs) && Enumerates(b, obs) && NewMessagesDiffer(stored, obs)
    ensures Synced(stored, obs, a, now) == Synced(stored, obs, b, now)
  {
    var known := KnownKinds(stored);
    var kept, warned := Kept(stored, obs, now), RefreshWarnings(obs.warnings, KnownWarnings(stored), now);
    var fromA, fromB := Added(a, known, obs, now), Added(b, known, obs, now);
    forall x ensures Class(Before, kept + fromA + warned, x) == Class(Before, kept + fromB + warned, x) {
      ClassConcat(Before, kept + fromA, warned, x);
      ClassConcat(Before, kept, fromA, x);
      ClassConcat(Before, kept + fromB, warned, x);
      ClassConcat(Before, kept, fromB, x);
      AddedClass(stored, obs, a, b, now, x);
    }
    SameClassesSameOrder(kept + fromA + warned, kept + fromB + warned);
  }

  lemma AddedClass(stored: seq<Condition>, obs: Observed, a: seq<ConditionType>, b: seq<ConditionType>, now: int,
                   x: Condition)
    requires Enumerates(a, obs) && Enumerates(b, obs) && NewMessagesDiffer(stored, obs)
    ensures Class(Before, Added(a, KnownKinds(stored), obs, now), x) ==
            Class(Before, Added(b, KnownKinds(stored), obs, now), x)
  {
    var known := KnownKinds(stored);
    var fromA, fromB := Added(a, known, obs, now), Added(b, known, obs, now);
    AddedDistinct(a, known, obs, now);
    AddedDistinct(b, known, obs, now);
    ClassDistinct(Before, fromA, x);
    ClassDistinct(Before, fromB, x);
    ClassOf(fromA, x);
    ClassOf(fromB, x);
    AddedMembers(a, known, obs, now);
    AddedMembers(b, known, obs, now);
    SameSingleton(Class(Before, fromA, x), Class(Before, fromB, x));
  }

  lemma EnumerationExists(keys: set<ConditionType>) returns (order: seq<ConditionType>)
    ensures forall k :: k in order <==> k in keys
    ensures Distinct(order)
  {
    order := [];
    var rest := keys;
    while rest != {}
      invariant rest <= keys && forall k :: k in order <==> k in keys - rest
      invariant Distinct(order)
      decreases rest
    {
      var k :| k in rest;
      DistinctSnoc(order, k);
      order, rest := order + [k], rest - {k};
    }
  }

  lemma ConcatAssociates<T>(a: seq<T>, b: seq<T>, c: seq<T>)
    ensures a + (b + c) == a + b + c
  {
  }

  lemma EnumerateWithLast(obs: Observed, rest: seq<ConditionType>, j: ConditionType, k: ConditionType)
    requires j in obs.conditions && k in obs.conditions && j != k && Distinct(rest)
    requires forall i :: i in rest <==> i in obs.conditions.Keys - {j, k}
    ensures Enumerates(rest + [j, k], obs)
  {
    DistinctSnoc(rest, j);
    DistinctSnoc(rest + [j], k);
    assert rest + [j] + [k] == rest + [j, k];
  }

  lemma SwapLastTwo(stored: seq<Condition>, obs: Observed, now: int, rest: seq<ConditionType>, j: ConditionType,
                    k: ConditionType)
    requires forall i :: i in rest + [j, k] ==> i in obs.conditions
    requires j != k && j !in KnownKinds(stored) && k !in KnownKinds(stored)
    requires OrderIndex(j) == OrderIndex(k) && obs.conditions[j].message == obs.conditions[k].message
    requires forall i :: i in rest + [k, j] ==> i in obs.conditions
    ensures Synced(stored, obs, rest + [j, k], now) != Synced(stored, obs, rest + [k, j], now)
  {
    var known := KnownKinds(stored);
    var kept, mid := Kept(stored, obs, now), Added(rest, known, obs, now);
    var warned := RefreshWarnings(obs.warnings, KnownWarnings(stored), now);
    var cj, ck := NewCondition(j, obs.conditions[j], now), NewCondition(k, obs.conditions[k], now);
    AddedTwo(rest, j, k, known, obs, now);
    AddedTwo(rest, k, j, known, obs, now);
    SwapIsVisible(kept + mid, cj, ck, warned);
    ConcatAssociates(kept, mid, [cj, ck]);
    ConcatAssociates(kept, mid, [ck, cj]);
  }

  /** When the messages clash, swapping the two types in the iteration order changes the result. */
  lemma OrderMatters(stored: seq<Condition>, obs: Observed, now: int)
    returns (a: seq<ConditionType>, b: seq<ConditionType>)
    requires !NewMessagesDiffer(stored, obs)
    ensures Enumerates(a, obs) && Enumerates(b, obs)
    ensures Synced(stored, obs, a, now) != Synced(stored, obs, b, now)
  {
    var known := KnownKinds(stored);
    var j, k :| j in obs.conditions && k in obs.conditions && j != k && j !in known && k !in known
                && OrderIndex(j) == OrderIndex(k) == -1
                && obs.conditions[j].message == obs.conditions[k].message;
    var rest := EnumerationExists(obs.conditions.Keys - {j, k});
    a, b := rest + [j, k], rest + [k, j];
    EnumerateWithLast(obs, rest, j, k);
    EnumerateWithLast(obs, rest, k, j);
    SwapLastTwo(stored, obs, now, rest, j, k);
  }

  lemma AddedTwo(rest: seq<ConditionType>, j: ConditionType, k: ConditionType, known: set<ConditionType>,
                 obs: Observed, now: int)
    requires forall i :: i in rest ==> i in obs.conditions
    requires j in obs.conditions && k in obs.conditions && j !in known && k !in known
    ensures Added(rest + [j, k], known, obs, now) ==
            Added(rest, known, obs, now) +
            [NewCondition(j, obs.conditions[j], now), NewCondition(k, obs.conditions[k], now)]
  {
    assert (rest + [j, k])[..|rest| + 1] == rest + [j];
    assert (rest + [j])[..|rest|] == rest;
    assert Added(rest + [j], known, obs, now) ==
           Added(rest, known, obs, now) + [NewCondition(j, obs.conditions[j], now)];
  }

  lemma SwapIsVisible(front: seq<Condition>, c: Condition, d: Condition, back: seq<Condition>)
    requires c != d && OrderIndex(c.kind) == OrderIndex(d.kind) && c.message == d.message
    ensures StableSort(Before, front + [c, d] + back) != StableSort(Before, front + [d, c] + back)
  {
    SortByOrder(front + [c, d] + back);
    SortByOrder(front + [d, c] + back);
    assert Class(Before, front + [c, d] + back, c) != Class(Before, front + [d, c] + back, c) by {
      ClassAroundPair(front, c, d, back, c);
      ClassAroundPair(front, d, c, back, c);
      var n := |Class(Before, front, c)|;
      assert Class(Before, front + [c, d] + back, c)[n] == c;
      assert Class(Before, front + [d, c] + back, c)[n] == d;
    }
  }

  lemma ClassAroundPair(front: seq<Condition>, c: Condition, d: Condition, back: seq<Condition>, x: Condition)
    requires OrderIndex(c.kind) == OrderIndex(d.kind) == OrderIndex(x.kind) && c.message == d.message == x.message
    ensures Class(Before, front + [c, d] + back, x) ==
            Class(Before, front, x) + [c, d] + Class(Before, back, x)
  {
    ClassConcat(Before, front + [c, d], back, x);
    ClassConcat(Before, front, [c, d], x);
    assert Equivalent(Before, c, x) && Equivalent(Before, d, x) by { BeforeIsStrictWeakOrder(); }
    ClassOfTwo(Before, c, d, x);
  }

  /** The result is the same for every map iteration order exactly when new messages differ. */
  lemma OrderIndependentExactlyWhenMessagesDiffer(stored: seq<Condition>, obs: Observed, now: int)
    ensures (forall a, b :: Enumerates(a, obs) && Enumerates(b, obs) ==>
               Synced(stored, obs, a, now) == Synced(stored, obs, b, now))
            <==> NewMessagesDiffer(stored, obs)
  {
    if NewMessagesDiffer(stored, obs) {
      forall a, b | Enumerates(a, obs) && Enumerates(b, obs)
        ensures Synced(stored, obs, a, now) == Synced(stored, obs, b, now) {
        OrderIndependent(stored, obs, a, b, now);
      }
    } else {
      var a, b := OrderMatters(stored, obs, now);
    }
  }

  // ----- the start timeout -----

  function LatestTransition(s: seq<Condition>): int {
    if s == [] then 0
    else
      var m := LatestTransition(s[..|s| - 1]);
      if s[|s| - 1].time > m then s[|s| - 1].time else m
  }

  lemma {:induction false} LatestTransitionIsMaximum(s: seq<Condition>)
    ensures LatestTransition(s) >= 0 && forall c :: c in s ==> c.time <= LatestTransition(s)
    ensures LatestTransition(s) > 0 ==> exists c :: c in s && c.time == LatestTransition(s)
  {
    if s != [] {
      LatestTransitionIsMaximum(s[..|s| - 1]);
      assert s == s[..|s| - 1] + [s[|s| - 1]];
    }
  }

  /** Times out when some condition has a time and none is more recent than `timeout` ago. */
  method StartTimedOut(starting: bool, conditions: seq<Condition>, timeout: int, now: int) returns (timedOut: bool)
    ensures timedOut <==>
            && starting
            && (exists c :: c in conditions && c.time > 0)
            && (forall c :: c in conditions ==> c.time + timeout < now || c.time <= 0)
  {
    if !starting { return false; }
    var last := 0;
    for i := 0 to |conditions|
      invariant last == LatestTransition(conditions[..i])
    {
      assert conditions[..i + 1][..i] == conditions[..i];
      if conditions[i].time > last { last := conditions[i].time; }
    }
    assert conditions[..|conditions|] == conditions;
    LatestTransitionIsMaximum(conditions);
    timedOut := last != 0 && last + timeout < now;
  }

  /** The failing timeout counts from the last stored FailedStart condition. */
  method FailingTimedOut(failing: bool, conditions: seq<Condition>, timeout: int, now: int) returns (timedOut: bool)
    ensures timedOut <==>
            && failing
            && exists i :: 0 <= i < |conditions| && conditions[i].kind == FailedStart
                           && (forall j :: i < j < |conditions| ==> conditions[j].kind != FailedStart)
                           && conditions[i].time != 0 && conditions[i].time + timeout < now
  {
    if !failing { return false; }
    var failed, at := 0, -1;
    for i := 0 to |conditions|
      invariant -1 <= at < i
      invariant at == -1 ==> failed == 0
      invariant at >= 0 ==> conditions[at].kind == FailedStart && failed == conditions[at].time
      invariant forall j :: at < j < i ==> conditions[j].kind != FailedStart
    {
      if conditions[i].kind == FailedStart { failed, at := conditions[i].time, i; }
    }
    timedOut := failed != 0 && failed + timeout < now;
  }

  /** Repeating an observation never postpones the start timeout. */
  lemma RepeatedObservationKeepsStartTimeout(
      stored: seq<Condition>, obs: Observed, order: seq<ConditionType>, t: int, again: seq<ConditionType>, later: int)
    requires Enumerates(order, obs) && Enumerates(again, obs) && Settles(stored, obs)
    ensures LatestTransition(Synced(Synced(stored, obs, order, t), obs, again, later))
            == LatestTransition(Synced(stored, obs, order, t))
  {
    SettledRunIsNoOp(stored, obs, order, t, again, later);
  }

  /** An observation whose result depends on it: a failure and an error with one message. */
  lemma OrderCanMatter(now: int)
    ensures var obs := Observed(map[FailedStart := Condition(FailedStart, True, "m", "", 0),
                                    Error := Condition(Error, True, "m", "", 0)], []);
            exists a, b :: Enumerates(a, obs) && Enumerates(b, obs)
                && Synced([], obs, a, now) != Synced([], obs, b, now)
  {
    var obs := Observed(map[FailedStart := Condition(FailedStart, True, "m", "", 0),
                            Error := Condition(Error, True, "m", "", 0)], []);
    assert FailedStart in obs.conditions && Error in obs.conditions;
    assert obs.conditions[FailedStart].message == obs.conditions[Error].message;
    assert !NewMessagesDiffer([], obs);
    OrderIndependentExactlyWhenMessagesDiffer([], obs, now);
  }
}
