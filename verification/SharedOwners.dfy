/**
 Several workspaces synchronising one shared ServiceAccount that exists and is visible to all
 of them (serviceAccountUpdateFunc in pkg/provision/sync/update.go, updateObjectGeneric in
 pkg/provision/sync/sync.go). A sync reads the object from a cache, which may lag behind the
 server, and writes with the resource version it read; the server rejects a stale version.
 */
module SharedOwners {
  import opened Options
  import opened ClusterSync

  type Workspace = nat

  /** Where a workspace's sync stands; `at` is the version of the object it read. */
  datatype Progress = Idle | Writing(spec: Object, at: nat)

  /** Every version of the object so far, the syncs in progress, and what each in-sync answer was given for. */
  datatype State = State(versions: seq<Object>, progress: map<Workspace, Progress>, answered: map<Workspace, Object>)

  function Current(s: State): Object
    requires s.versions != []
  {
    s.versions[|s.versions| - 1]
  }

  function ProgressOf(s: State, w: Workspace): Progress {
    if w in s.progress then s.progress[w] else Idle
  }

  ghost predicate Init(s: State) {
    |s.versions| == 1 && s.versions[0].content.ServiceAccount? && s.progress == map[] && s.answered == map[]
  }

  /** The workspace reads version `at` from the cache and is in sync, or will send an update. */
  ghost predicate ReadStep(s: State, s': State, w: Workspace, spec: Object, at: nat) {
    && ProgressOf(s, w).Idle? && at < |s.versions| && spec.content.ServiceAccount?
    && s' == if MetadataCovers(s.versions[at], spec) then s.(answered := s.answered[w := spec])
             else s.(progress := s.progress[w := Writing(spec, at)])
  }

  /** The update it sends replaces the current version if that is the one it read. */
  ghost predicate WriteStep(s: State, s': State, w: Workspace) {
    && s.versions != [] && ProgressOf(s, w).Writing?
    && var Writing(spec, at) := ProgressOf(s, w);
       at < |s.versions| && s.versions[at].content.ServiceAccount? && spec.content.ServiceAccount?
       && var sent := UpdateRequest(spec, Some(s.versions[at])).value.obj;
          s' == State(if at == |s.versions| - 1 then s.versions + [sent] else s.versions,
                      s.progress[w := Idle], s.answered)
  }

  /** Some other controller changes the object but not its owners. */
  ghost predicate TouchStep(s: State, s': State, o: Object) {
    && s.versions != [] && o.content.ServiceAccount? && o.owners == Current(s).owners
    && s' == s.(versions := s.versions + [o])
  }

  ghost predicate Next(s: State, s': State) {
    || (exists w: Workspace, spec: Object, at: nat :: ReadStep(s, s', w, spec, at))
    || (exists w: Workspace :: WriteStep(s, s', w))
    || (exists o :: TouchStep(s, s', o))
  }

  ghost predicate IsRun(run: seq<State>) {
    |run| > 0 && Init(run[0]) && forall i :: 0 <= i < |run| - 1 ==> Next(run[i], run[i + 1])
  }

  ghost predicate Inv(s: State) {
    && s.versions != [] && (forall o :: o in s.versions ==> o.content.ServiceAccount?)
    && (forall i, j :: 0 <= i <= j < |s.versions| ==>
        OwnerKeys(s.versions[i].owners) <= OwnerKeys(s.versions[j].owners))
    && (forall w :: w in s.answered ==> OwnerKeys(s.answered[w].owners) <= OwnerKeys(Current(s).owners))
  }

  lemma AppendKeepsInv(s: State, s': State, o: Object)
    requires Inv(s) && s'.versions == s.versions + [o] && s'.answered == s.answered
    requires o.content.ServiceAccount? && OwnerKeys(Current(s).owners) <= OwnerKeys(o.owners)
    ensures Inv(s')
  {
    forall i, j | 0 <= i <= j < |s'.versions|
      ensures OwnerKeys(s'.versions[i].owners) <= OwnerKeys(s'.versions[j].owners) {
      if i < |s.versions| {
        assert OwnerKeys(s.versions[i].owners) <= OwnerKeys(Current(s).owners);
      }
    }
  }

  lemma NextKeepsInv(s: State, s': State)
    requires Inv(s) && Next(s, s')
    ensures Inv(s')
  {
    if w: Workspace, spec: Object, at: nat :| ReadStep(s, s', w, spec, at) {
      assert OwnerKeys(s.versions[at].owners) <= OwnerKeys(Current(s).owners);
    } else if w: Workspace :| WriteStep(s, s', w) {
      var Writing(spec, at) := ProgressOf(s, w);
      var sent := UpdateRequest(spec, Some(s.versions[at])).value.obj;
      if at == |s.versions| - 1 {
        MergedOwnersKeys(spec.owners, Current(s).owners);
        AppendKeepsInv(s, s', sent);
      }
    } else {
      var o :| TouchStep(s, s', o);
      AppendKeepsInv(s, s', o);
    }
  }

  lemma {:induction false} RunKeepsInv(run: seq<State>, n: nat)
    requires IsRun(run) && n < |run|
    ensures Inv(run[n])
  {
    if n > 0 {
      RunKeepsInv(run, n - 1);
      NextKeepsInv(run[n - 1], run[n]);
    }
  }

  lemma {:induction false} VersionsGrow(run: seq<State>, m: nat, n: nat)
    requires IsRun(run) && m <= n < |run|
    ensures run[m].versions <= run[n].versions
  {
    if m < n {
      VersionsGrow(run, m, n - 1);
      assert Next(run[n - 1], run[n]);
    }
  }

  /** No owner is ever dropped, whatever the interleaving and however stale the reads. */
  lemma OwnersAreNeverDropped(run: seq<State>, m: nat, n: nat)
    requires IsRun(run) && m <= n < |run|
    ensures run[m].versions != [] && run[n].versions != []
    ensures OwnerKeys(Current(run[m]).owners) <= OwnerKeys(Current(run[n]).owners)
    ensures forall r :: r in Current(run[m]).owners ==> exists q :: q in Current(run[n]).owners && SameOwner(r, q)
  {
    RunKeepsInv(run, m);
    RunKeepsInv(run, n);
    VersionsGrow(run, m, n);
    assert Current(run[m]) == run[n].versions[|run[m].versions| - 1];
    OwnersIncluded(Current(run[m]).owners, Current(run[n]).owners);
  }

  /** A workspace that was told it is in sync is an owner, then and ever after. */
  lemma InSyncWorkspacesRemainOwners(run: seq<State>, m: nat, n: nat, w: Workspace)
    requires IsRun(run) && m <= n < |run| && w in run[m].answered
    ensures run[n].versions != []
    ensures forall r :: r in run[m].answered[w].owners ==> exists q :: q in Current(run[n]).owners && SameOwner(r, q)
  {
    RunKeepsInv(run, m);
    OwnersAreNeverDropped(run, m, n);
    OwnersIncluded(run[m].answered[w].owners, Current(run[n]).owners);
  }
}
