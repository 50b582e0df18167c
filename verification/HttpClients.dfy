/**
 The HTTP client cache shared by concurrent reconciles (controllers/workspace/http.go):
 `GetHttpClient` checks the cached client under a read lock and, if it has to build a new
 one, checks again under the write lock.

 Any number of calls interleave. Each transition is one access to the shared fields or to
 the RWMutex, so the three cached fields are read and written one at a time.
 */
module HttpClients {
  import opened Options

  datatype ConfigMap = ConfigMap(name: string, namespace: string, resourceVersion: string, data: map<string, string>)

  datatype Ref = Ref(name: string, namespace: string)

  /** What the cache compares: the resource version and the reference, or their absence. */
  datatype Key = Key(version: string, ref: Option<Ref>)

  function KeyOf(certs: Option<ConfigMap>): Key {
    match certs
    case None => Key("", None)
    case Some(cm) => Key(cm.resourceVersion, Some(Ref(cm.name, cm.namespace)))
  }

  /** An http.Client, identified by the order of its construction. */
  datatype Client = Client(id: nat, builtFrom: Option<ConfigMap>)

  type Call = nat

  /** Where a call is. `certs` is the ConfigMap the call read; `locked` is set under the write lock. */
  datatype Local =
    | AwaitRead(certs: Option<ConfigMap>)
    | CheckClient(certs: Option<ConfigMap>, locked: bool)
    | CheckVersion(certs: Option<ConfigMap>, locked: bool)
    | CheckRef(certs: Option<ConfigMap>, locked: bool)
    | LeaveRead(certs: Option<ConfigMap>)
    | AwaitWrite(certs: Option<ConfigMap>)
    | StoreClient(certs: Option<ConfigMap>)
    | StoreVersion(certs: Option<ConfigMap>)
    | StoreRef(certs: Option<ConfigMap>)
    | LoadResult(certs: Option<ConfigMap>, locked: bool)
    | Release(certs: Option<ConfigMap>, locked: bool, result: Option<Client>)
    | Done(certs: Option<ConfigMap>, result: Option<Client>)

  /** The factory's fields, the RWMutex, the calls in progress, and the log of clients built. */
  datatype State = State(
    client: Option<Client>, version: string, ref: Option<Ref>,
    readers: set<Call>, writer: Option<Call>,
    calls: map<Call, Local>, builds: seq<Option<ConfigMap>>)

  ghost predicate Init(s: State) {
    s == State(None, "", None, {}, None, map[], [])
  }

  predicate Enabled(s: State, c: Call)
    requires c in s.calls
  {
    match s.calls[c]
    case AwaitRead(_) => s.writer == None
    case AwaitWrite(_) => s.writer == None && s.readers == {}
    case Done(_, _) => false
    case _ => true
  }

  /** `shouldCreateHttpClient` answered yes: build if it was asked under the write lock. */
  function Missed(certs: Option<ConfigMap>, locked: bool): Local {
    if locked then StoreClient(certs) else LeaveRead(certs)
  }

  /** One atomic step of call `c`. */
  function Advance(s: State, c: Call): State
    requires c in s.calls && Enabled(s, c)
  {
    match s.calls[c]
    case AwaitRead(certs) =>
      s.(readers := s.readers + {c}, calls := s.calls[c := CheckClient(certs, false)])
    case CheckClient(certs, locked) =>
      s.(calls := s.calls[c := if s.client == None then Missed(certs, locked) else CheckVersion(certs, locked)])
    case CheckVersion(certs, locked) =>
      var next := if KeyOf(certs).version != s.version then Missed(certs, locked) else CheckRef(certs, locked);
      s.(calls := s.calls[c := next])
    case CheckRef(certs, locked) =>
      s.(calls := s.calls[c := if KeyOf(certs).ref != s.ref then Missed(certs, locked) else LoadResult(certs, locked)])
    case LeaveRead(certs) =>
      s.(readers := s.readers - {c}, calls := s.calls[c := AwaitWrite(certs)])
    case AwaitWrite(certs) =>
      s.(writer := Some(c), calls := s.calls[c := CheckClient(certs, true)])
    case StoreClient(certs) =>
      s.(client := Some(Client(|s.builds|, certs)), builds := s.builds + [certs],
         calls := s.calls[c := StoreVersion(certs)])
    case StoreVersion(certs) =>
      s.(version := KeyOf(certs).version, calls := s.calls[c := StoreRef(certs)])
    case StoreRef(certs) =>
      s.(ref := KeyOf(certs).ref, calls := s.calls[c := LoadResult(certs, true)])
    case LoadResult(certs, locked) =>
      s.(calls := s.calls[c := Release(certs, locked, s.client)])
    case Release(certs, locked, result) =>
      if locked then s.(writer := None, calls := s.calls[c := Done(certs, result)])
      else s.(readers := s.readers - {c}, calls := s.calls[c := Done(certs, result)])
  }

  /** A new call arrives, having read some ConfigMap or none. */
  function Begin(s: State, c: Call, certs: Option<ConfigMap>): State
    requires c !in s.calls
  {
    s.(calls := s.calls[c := AwaitRead(certs)])
  }

  ghost predicate Next(s: State, s': State) {
    || (exists c, certs :: c !in s.calls && s' == Begin(s, c, certs))
    || (exists c :: c in s.calls && Enabled(s, c) && s' == Advance(s, c))
  }

  ghost predicate IsRun(run: seq<State>) {
    |run| > 0 && Init(run[0]) && forall i :: 0 <= i < |run| - 1 ==> Next(run[i], run[i + 1])
  }

  // ----- the invariant -----

  predicate InRead(l: Local) {
    match l
    case CheckClient(_, locked) => !locked
    case CheckVersion(_, locked) => !locked
    case CheckRef(_, locked) => !locked
    case LeaveRead(_) => true
    case LoadResult(_, locked) => !locked
    case Release(_, locked, _) => !locked
    case _ => false
  }

  predicate InWrite(l: Local) {
    match l
    case CheckClient(_, locked) => locked
    case CheckVersion(_, locked) => locked
    case CheckRef(_, locked) => locked
    case StoreClient(_) => true
    case StoreVersion(_) => true
    case StoreRef(_) => true
    case LoadResult(_, locked) => locked
    case Release(_, locked, _) => locked
    case _ => false
  }

  predicate MidWrite(l: Local) {
    l.StoreVersion? || l.StoreRef?
  }

  ghost predicate LocksMatch(s: State) {
    && (forall c :: c in s.readers <==> c in s.calls && InRead(s.calls[c]))
    && (forall c :: s.writer == Some(c) <==> c in s.calls && InWrite(s.calls[c]))
    && (s.writer != None ==> s.readers == {})
  }

  predicate Coherent(s: State) {
    s.client.Some? ==> Key(s.version, s.ref) == KeyOf(s.client.value.builtFrom)
  }

  predicate Matches(result: Option<Client>, certs: Option<ConfigMap>) {
    result.Some? && KeyOf(result.value.builtFrom) == KeyOf(certs)
  }

  /** What each call may rely on where it stands. */
  predicate CallOk(s: State, l: Local) {
    match l
    case CheckVersion(_, _) => s.client.Some?
    case CheckRef(certs, _) => s.client.Some? && s.version == KeyOf(certs).version
    case StoreClient(certs) => !Matches(s.client, certs)
    case StoreVersion(certs) => s.client.Some? && s.client.value.builtFrom == certs
    case StoreRef(certs) => s.client.Some? && s.client.value.builtFrom == certs && s.version == KeyOf(certs).version
    case LoadResult(certs, _) => Matches(s.client, certs)
    case Release(certs, _, result) => Matches(result, certs)
    case Done(certs, result) => Matches(result, certs)
    case _ => true
  }

  ghost predicate BuildLogOk(s: State) {
    && (s.client.None? <==> s.builds == [])
    && (s.client.Some? ==> s.client.value.builtFrom == s.builds[|s.builds| - 1])
    && (forall i :: 0 <= i < |s.builds| - 1 ==> KeyOf(s.builds[i]) != KeyOf(s.builds[i + 1]))
    && (forall certs :: certs in s.builds ==> exists c :: c in s.calls && s.calls[c].certs == certs)
  }

  ghost predicate Inv(s: State) {
    && LocksMatch(s)
    && (forall c :: c in s.calls ==> CallOk(s, s.calls[c]))
    && ((forall c :: c in s.calls ==> !MidWrite(s.calls[c])) ==> Coherent(s))
    && BuildLogOk(s)
  }

  lemma BeginKeepsInv(s: State, c: Call, certs: Option<ConfigMap>)
    requires Inv(s) && c !in s.calls
    ensures Inv(Begin(s, c, certs))
  {
    var s' := Begin(s, c, certs);
    forall x | x in s.builds ensures exists d :: d in s'.calls && s'.calls[d].certs == x {
      var d :| d in s.calls && s.calls[d].certs == x;
      assert s'.calls[d].certs == x;
    }
    if forall d :: d in s'.calls ==> !MidWrite(s'.calls[d]) {
      forall d | d in s.calls ensures !MidWrite(s.calls[d]) { assert s'.calls[d] == s.calls[d]; }
    }
  }

  /** Mutual exclusion: a call that is about to write is alone with the shared fields. */
  lemma WriterIsAlone(s: State, c: Call, d: Call)
    requires LocksMatch(s) && c in s.calls && d in s.calls && c != d && InWrite(s.calls[c])
    ensures !InRead(s.calls[d]) && !InWrite(s.calls[d])
  {
    assert s.writer == Some(c);
    assert d !in s.readers;
  }

  /** What a step of call `c` does to the lock: what its place before and after the step says. */
  ghost predicate LockStep(s: State, s': State, c: Call) {
    && c in s.calls && c in s'.calls && s'.calls == s.calls[c := s'.calls[c]]
    && var l, l' := s.calls[c], s'.calls[c];
       && s'.readers == (if InRead(l) && !InRead(l') then s.readers - {c}
                         else if !InRead(l) && InRead(l') then s.readers + {c} else s.readers)
       && s'.writer == (if InWrite(l) && !InWrite(l') then None
                        else if !InWrite(l) && InWrite(l') then Some(c) else s.writer)
       && (!InRead(l) && InRead(l') ==> s.writer == None && !InWrite(l'))
       && (!InWrite(l) && InWrite(l') ==> s.writer == None && s.readers == {} && !InRead(l'))
       && (InWrite(l) ==> !InRead(l'))
  }

  lemma AdvanceIsLockStep(s: State, c: Call)
    requires c in s.calls && Enabled(s, c)
    ensures LockStep(s, Advance(s, c), c)
  {
  }

  lemma LockStepKeepsLocks(s: State, s': State, c: Call)
    requires LocksMatch(s) && LockStep(s, s', c)
    ensures LocksMatch(s')
  {
    assert c in s.readers <==> InRead(s.calls[c]);
    assert s.writer == Some(c) <==> InWrite(s.calls[c]);
    forall d ensures d in s'.readers <==> d in s'.calls && InRead(s'.calls[d]) {
      assert d in s.readers <==> d in s.calls && InRead(s.calls[d]);
    }
    forall d ensures s'.writer == Some(d) <==> d in s'.calls && InWrite(s'.calls[d]) {
      assert s.writer == Some(d) <==> d in s.calls && InWrite(s.calls[d]);
    }
  }

  lemma AdvanceKeepsLocks(s: State, c: Call)
    requires Inv(s) && c in s.calls && Enabled(s, c)
    ensures LocksMatch(Advance(s, c))
  {
    AdvanceIsLockStep(s, c);
    LockStepKeepsLocks(s, Advance(s, c), c);
  }

  lemma NobodyElseMidWrite(s: State, c: Call)
    requires Inv(s) && c in s.calls && (InRead(s.calls[c]) || InWrite(s.calls[c])) && !MidWrite(s.calls[c])
    ensures Coherent(s)
  {
    forall d | d in s.calls ensures !MidWrite(s.calls[d]) {
      if d != c && MidWrite(s.calls[d]) { WriterIsAlone(s, d, c); }
    }
  }

  lemma AdvanceKeepsOwnCall(s: State, c: Call)
    requires Inv(s) && c in s.calls && Enabled(s, c)
    ensures CallOk(Advance(s, c), Advance(s, c).calls[c])
  {
    assert CallOk(s, s.calls[c]);
    if (InRead(s.calls[c]) || InWrite(s.calls[c])) && !MidWrite(s.calls[c]) {
      NobodyElseMidWrite(s, c);
    }
  }

  lemma AdvanceKeepsOtherCall(s: State, c: Call, d: Call)
    requires Inv(s) && c in s.calls && Enabled(s, c) && d in s.calls && c != d
    ensures CallOk(Advance(s, c), s.calls[d])
  {
    assert CallOk(s, s.calls[d]);
    if InWrite(s.calls[c]) { WriterIsAlone(s, c, d); }
  }

  lemma AdvanceKeepsCoherence(s: State, c: Call)
    requires Inv(s) && c in s.calls && Enabled(s, c)
    ensures var s' := Advance(s, c);
            (forall d :: d in s'.calls ==> !MidWrite(s'.calls[d])) ==> Coherent(s')
  {
    var s' := Advance(s, c);
    if forall d :: d in s'.calls ==> !MidWrite(s'.calls[d]) {
      assert !MidWrite(s'.calls[c]);
      if s.calls[c].StoreRef? {
        assert CallOk(s, s.calls[c]);
      } else {
        forall d | d in s.calls ensures !MidWrite(s.calls[d]) {
          if d != c { assert s'.calls[d] == s.calls[d]; }
        }
      }
    }
  }

  /** What a step of call `c` does to the client and the log. */
  ghost predicate BuildStep(s: State, s': State, c: Call) {
    && c in s.calls && c in s'.calls && s'.calls == s.calls[c := s'.calls[c]] && s'.calls[c].certs == s.calls[c].certs
    && if s.calls[c].StoreClient? then
         s'.builds == s.builds + [s.calls[c].certs] && s'.client == Some(Client(|s.builds|, s.calls[c].certs))
       else s'.builds == s.builds && s'.client == s.client
  }

  lemma AdvanceIsBuildStep(s: State, c: Call)
    requires c in s.calls && Enabled(s, c)
    ensures BuildStep(s, Advance(s, c), c)
  {
  }

  lemma BuildStepKeepsLog(s: State, s': State, c: Call)
    requires BuildLogOk(s) && BuildStep(s, s', c) && CallOk(s, s.calls[c])
    ensures BuildLogOk(s')
  {
    forall x | x in s'.builds ensures exists d :: d in s'.calls && s'.calls[d].certs == x {
      if x in s.builds {
        var d :| d in s.calls && s.calls[d].certs == x;
        assert s'.calls[d].certs == x;
      } else {
        assert s'.calls[c].certs == x;
      }
    }
  }

  lemma AdvanceKeepsBuildLog(s: State, c: Call)
    requires Inv(s) && c in s.calls && Enabled(s, c)
    ensures BuildLogOk(Advance(s, c))
  {
    AdvanceIsBuildStep(s, c);
    BuildStepKeepsLog(s, Advance(s, c), c);
  }

  lemma AdvanceKeepsCalls(s: State, c: Call, d: Call)
    requires Inv(s) && c in s.calls && Enabled(s, c) && d in Advance(s, c).calls
    ensures CallOk(Advance(s, c), Advance(s, c).calls[d])
  {
    AdvanceIsBuildStep(s, c);
    if d == c { AdvanceKeepsOwnCall(s, c); } else { AdvanceKeepsOtherCall(s, c, d); }
  }

  lemma AdvanceKeepsInv(s: State, c: Call)
    requires Inv(s) && c in s.calls && Enabled(s, c)
    ensures Inv(Advance(s, c))
  {
    var s' := Advance(s, c);
    assert LocksMatch(s') by { AdvanceKeepsLocks(s, c); }
    assert BuildLogOk(s') by { AdvanceKeepsBuildLog(s, c); }
    assert (forall d :: d in s'.calls ==> !MidWrite(s'.calls[d])) ==> Coherent(s') by { AdvanceKeepsCoherence(s, c); }
    forall d | d in s'.calls ensures CallOk(s', s'.calls[d]) { AdvanceKeepsCalls(s, c, d); }
  }

  lemma NextKeepsInv(s: State, s': State)
    requires Inv(s) && Next(s, s')
    ensures Inv(s')
  {
    if c, certs :| c !in s.calls && s' == Begin(s, c, certs) {
      BeginKeepsInv(s, c, certs);
    } else {
      var c :| c in s.calls && Enabled(s, c) && s' == Advance(s, c);
      AdvanceKeepsInv(s, c);
    }
  }

  lemma {:induction false} RunKeepsInv(run: seq<State>, n: nat)
    requires IsRun(run) && n < |run|
    ensures Inv(run[n])
  {
    if n > 0 {
      RunKeepsInv(run, n - 1);
      NextKeepsInv(run[n - 1], run[n]);
    }
  }

  // ----- the theorems -----

  /** The same ConfigMap in the same version, or none in both cases. */
  ghost predicate SameSnapshot(a: Option<ConfigMap>, b: Option<ConfigMap>) {
    && (a.None? <==> b.None?)
    && (a.Some? && b.Some? ==>
          && a.value.name == b.value.name && a.value.namespace == b.value.namespace
          && a.value.resourceVersion == b.value.resourceVersion)
  }

  lemma SameKeySameSnapshot(a: Option<ConfigMap>, b: Option<ConfigMap>)
    ensures KeyOf(a) == KeyOf(b) <==> SameSnapshot(a, b)
  {
  }

  /**
   Whatever the interleaving, a call that returned got a client built from a ConfigMap with
   the name, namespace and resource version it read itself, or built without one if it read none.
   */
  lemma EveryCallGetsItsOwnCertificates(run: seq<State>, n: nat, c: Call)
    requires IsRun(run) && n < |run| && c in run[n].calls && run[n].calls[c].Done?
    ensures var call := run[n].calls[c];
            && call.result.Some?
            && var built := call.result.value.builtFrom;
               && (built.None? <==> call.certs.None?)
               && (built.Some? ==>
                     && built.value.name == call.certs.value.name && built.value.namespace == call.certs.value.namespace
                     && built.value.resourceVersion == call.certs.value.resourceVersion)
  {
    RunKeepsInv(run, n);
    assert CallOk(run[n], run[n].calls[c]);
    SameKeySameSnapshot(run[n].calls[c].result.value.builtFrom, run[n].calls[c].certs);
  }

  /** A client is never rebuilt for the certificates it was just built for ... */
  lemma ConsecutiveBuildsDiffer(run: seq<State>, n: nat, i: nat)
    requires IsRun(run) && n < |run| && i + 1 < |run[n].builds|
    ensures !SameSnapshot(run[n].builds[i], run[n].builds[i + 1])
  {
    RunKeepsInv(run, n);
    SameKeySameSnapshot(run[n].builds[i], run[n].builds[i + 1]);
  }

  /** ... so if every call so far read the same snapshot, at most one client was ever built. */
  lemma OneSnapshotOneClient(run: seq<State>, n: nat, snapshot: Option<ConfigMap>)
    requires IsRun(run) && n < |run|
    requires forall c :: c in run[n].calls ==> SameSnapshot(run[n].calls[c].certs, snapshot)
    ensures |run[n].builds| <= 1
  {
    var builds := run[n].builds;
    RunKeepsInv(run, n);
    forall i | 0 <= i < |builds| ensures SameSnapshot(builds[i], snapshot) { assert builds[i] in builds; }
    forall i | 0 <= i < |builds| - 1 ensures !SameSnapshot(builds[i], builds[i + 1]) {
      ConsecutiveBuildsDiffer(run, n, i);
    }
    BuiltOnce(builds, snapshot);
  }

  lemma BuiltOnce(builds: seq<Option<ConfigMap>>, snapshot: Option<ConfigMap>)
    requires forall i :: 0 <= i < |builds| ==> SameSnapshot(builds[i], snapshot)
    requires forall i :: 0 <= i < |builds| - 1 ==> !SameSnapshot(builds[i], builds[i + 1])
    ensures |builds| <= 1
  {
    assert |builds| > 1 ==> SameSnapshot(builds[0], builds[0 + 1]);
  }

  /** The locking cannot deadlock: while a call is unfinished, some call can move. */
  lemma NoDeadlock(run: seq<State>, n: nat, c: Call) returns (mover: Call)
    requires IsRun(run) && n < |run| && c in run[n].calls && !run[n].calls[c].Done?
    ensures mover in run[n].calls && Enabled(run[n], mover)
  {
    RunKeepsInv(run, n);
    var s := run[n];
    if s.writer.Some? {
      mover := s.writer.value;
    } else if s.readers != {} {
      mover :| mover in s.readers;
    } else {
      mover := c;
    }
  }
}
