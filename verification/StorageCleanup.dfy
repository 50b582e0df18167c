/**
 Cleaning up after deleted workspaces on a claim that other workspaces of the namespace
 share (CleanupWorkspaceStorage in pkg/provision/storage/commonStorage.go, the cleanup job in
 pkg/provision/storage/cleanup.go, the count in pkg/provision/storage/shared.go).

 A run interleaves workspaces being created, writing files and being deleted with finalizer
 reconciles and with the steps of the cleanup jobs they start.
 */
module StorageCleanup {
  import opened Options
  import opened CleanupJob

  // ----- counting the workspaces that share the claim -----

  datatype Workspace = Workspace(terminating: bool, storageClass: string)

  predicate UsesClaim(w: Workspace) {
    w.storageClass == "async" || w.storageClass == "common" || w.storageClass == "per-user" || w.storageClass == ""
  }

  predicate Live(w: Workspace) {
    !w.terminating && UsesClaim(w)
  }

  /** getSharedPVCWorkspaceCount */
  method CountShared(workspaces: seq<Workspace>) returns (total: nat)
    ensures total == |set i | 0 <= i < |workspaces| && !workspaces[i].terminating
                                && workspaces[i].storageClass in ["async", "common", "per-user", ""]|
    ensures total == 0 <==> forall w :: w in workspaces ==> !Live(w)
  {
    total := 0;
    ghost var counted: set<int> := {};
    for i := 0 to |workspaces|
      invariant counted == set j | 0 <= j < i && Live(workspaces[j])
      invariant total == |counted|
    {
      if workspaces[i].terminating { continue; }
      if UsesClaim(workspaces[i]) {
        counted := counted + {i};
        total := total + 1;
      }
    }
    assert counted == set i | 0 <= i < |workspaces| && !workspaces[i].terminating
                                && workspaces[i].storageClass in ["async", "common", "per-user", ""];
    assert total == 0 ==> counted == {};
    assert forall w :: w in workspaces && Live(w) ==>
        exists i :: 0 <= i < |workspaces| && workspaces[i] == w && i in counted;
    assert counted != {} ==> exists i :: i in counted && workspaces[i] in workspaces;
  }

  // ----- runs -----

  datatype Job = Running | Complete | Failed

  /** The namespace: its workspaces, the files on the claim if it exists, and the cleanup jobs. */
  datatype State = State(workspaces: map<Id, Workspace>, claim: Option<set<string>>, jobs: map<Id, Job>, used: set<Id>)

  ghost predicate Init(s: State) {
    s == State(map[], None, map[], {})
  }

  ghost predicate AnyLive(s: State) {
    exists id :: id in s.workspaces && Live(s.workspaces[id])
  }

  /** A new workspace, with a slash-free ID that no workspace of the namespace has; one that is gone may have had it. */
  ghost predicate CreateStep(s: State, s': State, id: Id, storageClass: string) {
    && '/' !in id && id !in s.workspaces
    && s' == s.(workspaces := s.workspaces[id := Workspace(false, storageClass)], used := s.used + {id})
  }

  /**
   Provisioning creates the claim if it is missing; the workspace writes files under its
   sub-path. It cannot once its job was started: its deployment is deleted before that.
   */
  ghost predicate WriteStep(s: State, s': State, id: Id, files: set<string>) {
    && id in s.workspaces && UsesClaim(s.workspaces[id]) && id !in s.jobs
        && (forall f :: f in files ==> BelongsTo(f, id))
    && s' == s.(claim := Some((if s.claim.Some? then s.claim.value else {}) + files))
  }

  ghost predicate DeleteStep(s: State, s': State, id: Id) {
    id in s.workspaces && s' == s.(workspaces := s.workspaces[id := s.workspaces[id].(terminating := true)])
  }

  /**
   CleanupWorkspaceStorage in one finalizer reconcile of a terminating workspace. It changes
   nothing if a call to the API server fails, or while the job has not completed.
   */
  ghost predicate FinalizeStep(s: State, s': State, id: Id, answered: bool) {
    && id in s.workspaces && s.workspaces[id].terminating
    && s' == if !answered then s
             else if AnyLive(s) then
               if s.claim.None? then Finalized(s, id)
               else if id !in s.jobs then s.(jobs := s.jobs[id := Running])
               else if s.jobs[id] == Complete then Finalized(s, id)
               else s
             else Finalized(s.(claim := None), id)
  }

  /** The finalizer is removed and the workspace is gone, and with it the job it owns. */
  ghost function Finalized(s: State, id: Id): State {
    s.(workspaces := s.workspaces - {id}, jobs := s.jobs - {id})
  }

  /** The directory of the claim that a file lies in. */
  function Directory(file: string): string {
    if file == "" || file[0] == '/' then "" else [file[0]] + Directory(file[1..])
  }

  ghost function Directories(files: set<string>): set<string> {
    set f | f in files :: Directory(f)
  }

  /** A running job removes some of what its command may remove; it completes when all it must is gone. */
  ghost predicate JobStep(s: State, s': State, id: Id, removed: set<string>) {
    && id in s.jobs && s.jobs[id] == Running && s.claim.Some?
    && var names, left := Directories(s.claim.value), s.claim.value - removed;
       && (forall f :: f in removed ==> MayRemove(id, names, f))
       && s' == s.(claim := Some(left),
                   jobs := if exists f :: f in left && MustRemove(id, names, f) then s.jobs else s.jobs[id := Complete])
  }

  ghost predicate JobFailStep(s: State, s': State, id: Id) {
    id in s.jobs && s.jobs[id] == Running && s' == s.(jobs := s.jobs[id := Failed])
  }

  /** The namespace as a finalizer reconcile changes it; `listed` is what listing its workspaces returned. */
  class Namespace {
    var state: State

    constructor (state: State)
      ensures this.state == state
    {
      this.state := state;
    }

    /** Answers whether the workspace's clean-up is over. */
    method CleanupWorkspaceStorage(id: Id, listed: seq<Workspace>, answered: bool) returns (finalized: bool)
      requires id in state.workspaces && state.workspaces[id].terminating
      requires forall w :: w in listed <==> exists i :: i in state.workspaces && state.workspaces[i] == w
      modifies this
      ensures FinalizeStep(old(state), state, id, answered)
      ensures finalized <==> id !in state.workspaces
      ensures state.claim != old(state).claim ==> !AnyLive(old(state))
    {
      if !answered { return false; }
      var total := CountShared(listed);
      if total > 0 {
        if state.claim.Some? {
          if id !in state.jobs {
            state := state.(jobs := state.jobs[id := Running]);
            return false;
          }
          if state.jobs[id] != Complete { return false; }
        }
      } else {
        state := state.(claim := None);
      }
      state := state.(workspaces := state.workspaces - {id}, jobs := state.jobs - {id});
      return true;
    }
  }

  ghost predicate Next(s: State, s': State) {
    || (exists id, storageClass :: CreateStep(s, s', id, storageClass))
    || (exists id, files :: WriteStep(s, s', id, files))
    || (exists id :: DeleteStep(s, s', id))
    || (exists id, answered :: FinalizeStep(s, s', id, answered))
    || (exists id, removed :: JobStep(s, s', id, removed))
    || (exists id :: JobFailStep(s, s', id))
  }

  ghost predicate IsRun(run: seq<State>) {
    |run| > 0 && Init(run[0]) && forall i :: 0 <= i < |run| - 1 ==> Next(run[i], run[i + 1])
  }

  ghost predicate OnClaim(s: State, file: string) {
    s.claim.Some? && file in s.claim.value
  }

  /** Whether workspace `id` has any file on the claim. */
  ghost predicate HasFiles(s: State, id: Id) {
    exists f :: OnClaim(s, f) && BelongsTo(f, id)
  }

  /** Jobs exist only for workspaces that are being deleted, so never for a live one. */
  ghost predicate Bookkeeping(s: State) {
    && s.workspaces.Keys <= s.used
    && (forall id :: id in s.used ==> '/' !in id)
    && (forall id :: id in s.jobs ==> id in s.workspaces && s.workspaces[id].terminating)
  }

  ghost predicate Inv(s: State) {
    && Bookkeeping(s)
    && (forall id :: id in s.jobs && s.jobs[id] == Complete && Plain(id) ==> !HasFiles(s, id))
    && (forall id :: id in s.used && id !in s.workspaces && Plain(id) ==> !HasFiles(s, id))
  }

  lemma FilesCameFrom(s: State, s': State, id: Id)
    requires Inv(s) && Next(s, s') && HasFiles(s', id) && '/' !in id
    ensures HasFiles(s, id) || (id in s.workspaces && id !in s.jobs)
  {
    var f :| OnClaim(s', f) && BelongsTo(f, id);
    if other, files :| WriteStep(s, s', other, files) {
      if f in files { OneOwner(f, id, other); }
    }
  }

  lemma CompleteJobLeavesNothing(s: State, s': State, id: Id, removed: set<string>)
    requires Inv(s) && JobStep(s, s', id, removed) && s'.jobs[id] == Complete && Plain(id)
    ensures !HasFiles(s', id)
  {
    forall f | OnClaim(s', f) ensures !BelongsTo(f, id) {
      if BelongsTo(f, id) { PlainJobRemoves(id, Directories(s.claim.value), id, f); }
    }
  }

  lemma NextKeepsBookkeeping(s: State, s': State)
    requires Bookkeeping(s) && Next(s, s')
    ensures Bookkeeping(s')
  {
  }

  lemma CompleteStaysClean(s: State, s': State, id: Id)
    requires Inv(s) && Next(s, s') && id in s'.jobs && s'.jobs[id] == Complete && Plain(id)
    ensures !HasFiles(s', id)
  {
    NextKeepsBookkeeping(s, s');
    if id in s.jobs && s.jobs[id] == Complete {
      if HasFiles(s', id) { FilesCameFrom(s, s', id); }
    } else {
      var removed :| JobStep(s, s', id, removed);
      CompleteJobLeavesNothing(s, s', id, removed);
    }
  }

  lemma GoneStaysClean(s: State, s': State, id: Id)
    requires Inv(s) && Next(s, s') && id in s'.used && id !in s'.workspaces && Plain(id)
    ensures !HasFiles(s', id)
  {
    NextKeepsBookkeeping(s, s');
    if id in s.workspaces {
      assert FinalizeStep(s, s', id, true);
      assert s'.claim.None? || (s'.claim == s.claim && id in s.jobs && s.jobs[id] == Complete);
    } else if HasFiles(s', id) {
      FilesCameFrom(s, s', id);
    }
  }

  lemma NextKeepsInv(s: State, s': State)
    requires Inv(s) && Next(s, s')
    ensures Inv(s')
  {
    NextKeepsBookkeeping(s, s');
    forall id | id in s'.jobs && s'.jobs[id] == Complete && Plain(id)
      ensures !HasFiles(s', id) { CompleteStaysClean(s, s', id); }
    forall id | id in s'.used && id !in s'.workspaces && Plain(id)
      ensures !HasFiles(s', id) { GoneStaysClean(s, s', id); }
  }

  lemma {:induction false} RunKeepsInv(run: seq<State>, n: nat)
    requires IsRun(run) && n < |run|
    ensures Inv(run[n])
  {
    if n > 0 {
      RunKeepsInv(run, n - 1);
      NextKeepsInv(run[n - 1], run[n]);
    }
  }

  /** Every job started so far leaves other workspaces alone. */
  ghost predicate JobsIsolated(s: State) {
    forall id :: id in s.jobs ==> Isolated(id)
  }

  /** No step removes a file of a live workspace. */
  lemma StepKeepsLiveFiles(s: State, s': State, id: Id, file: string)
    requires Inv(s) && JobsIsolated(s) && Next(s, s') && id in s.workspaces && Live(s.workspaces[id])
    requires BelongsTo(file, id) && OnClaim(s, file)
    ensures OnClaim(s', file)
  {
    if other, removed :| JobStep(s, s', other, removed) {
      assert other != id && '/' !in id;
      assert Isolated(other);
      assert !MayRemove(other, Directories(s.claim.value), file);
    } else if other, answered :| FinalizeStep(s, s', other, answered) {
      assert AnyLive(s);
    }
  }

  ghost predicate LiveThroughout(run: seq<State>, m: nat, n: nat, id: Id)
    requires m <= n < |run|
  {
    forall i :: m <= i < n ==>
      && id in run[i].workspaces && !run[i].workspaces[id].terminating
      && run[i].workspaces[id].storageClass in ["async", "common", "per-user", ""]
  }

  /**
   Over any run whose jobs are those of plain or refused IDs: what a workspace wrote stays on the
   claim as long as the workspace is live.
   */
  lemma {:induction false} LiveFilesSurvive(run: seq<State>, m: nat, n: nat, id: Id, file: string)
    requires IsRun(run) && m <= n < |run| && LiveThroughout(run, m, n, id)
    requires forall i, other :: m <= i < n && other in run[i].jobs ==> Plain(other) || JobRefused(other)
    requires BelongsTo(file, id) && OnClaim(run[m], file)
    ensures OnClaim(run[n], file)
  {
    if m < n {
      LiveFilesSurvive(run, m, n - 1, id, file);
      RunKeepsInv(run, n - 1);
      forall other | other in run[n - 1].jobs ensures Isolated(other) { IsolatedWhenPlainOrRefused(other); }
      StepKeepsLiveFiles(run[n - 1], run[n], id, file);
    }
  }

  lemma {:induction false} DirectoryOf(id: Id, rest: string)
    requires '/' !in id
    ensures Directory(id + "/" + rest) == id
  {
    var file := id + "/" + rest;
    if id == "" {
      assert file[0] == '/';
    } else {
      DirectoryOf(id[1..], rest);
      assert file[1..] == id[1..] + "/" + rest && id == [id[0]] + id[1..] && file[0] == id[0];
    }
  }

  /**
   No other ID whose reading settles what rm runs on is safe: there is a run in which a live
   workspace loses a file that the job is sure to remove.
   */
  lemma OtherIdsDestroyFiles(id: Id) returns (run: seq<State>, owner: Id, file: string)
    requires '/' !in id && JobOperand(id).Some? && !Plain(id) && !DotOperand(id)
    ensures |run| == 7 && IsRun(run) && run[6].used == {owner, id} && owner != id
    ensures LiveThroughout(run, 3, 6, owner) && BelongsTo(file, owner)
    ensures OnClaim(run[3], file) && !OnClaim(run[6], file)
    ensures id in run[5].jobs && run[5].claim.Some? && MustRemove(id, Directories(run[5].claim.value), file)
  {
    owner := OtherJobRemoves(id);
    file := owner + "/";
    var live, gone := Workspace(false, "common"), Workspace(true, "common");
    var s0 := State(map[], None, map[], {});
    var s1 := State(map[owner := live], None, map[], {owner});
    var s2 := State(map[owner := live, id := live], None, map[], {owner, id});
    var s3 := s2.(claim := Some({file}));
    var s4 := s3.(workspaces := map[owner := live, id := gone]);
    var s5 := s4.(jobs := map[id := Running]);
    DirectoryOf(owner, "");
    assert owner + "/" + "" == file;
    assert Directories({file}) == {owner};
    assert s5.jobs[id] == Running;
    var s6 := s5.(claim := Some({}), jobs := map[id := Complete]);
    run := [s0, s1, s2, s3, s4, s5, s6];
    assert CreateStep(s0, s1, owner, "common");
    assert CreateStep(s1, s2, id, "common");
    var nothing: set<string> := {};
    assert nothing + {file} == {file};
    assert WriteStep(s2, s3, owner, {file});
    assert DeleteStep(s3, s4, id);
    assert AnyLive(s4) by { assert Live(s4.workspaces[owner]); }
    assert FinalizeStep(s4, s5, id, true);
    JobTakes(s5, id, file);
  }

  /** Some workspace that is not being deleted has a storage class that uses the shared claim. */
  ghost predicate InUse(s: State) {
    exists id :: id in s.workspaces && !s.workspaces[id].terminating
                 && s.workspaces[id].storageClass in ["async", "common", "per-user", ""]
  }

  lemma InUseMeansLive(s: State)
    ensures InUse(s) <==> AnyLive(s)
  {
    if id :| id in s.workspaces && Live(s.workspaces[id]) {
      assert s.workspaces[id].storageClass in ["async", "common", "per-user", ""];
    }
  }

  ghost predicate UsedThroughout(run: seq<State>, m: nat, n: nat)
    requires m <= n < |run|
  {
    forall i :: m <= i < n ==> InUse(run[i])
  }

  /** A job that is sure to remove the one file of the claim completes by removing it. */
  lemma JobTakes(s: State, id: Id, file: string)
    requires s.jobs == map[id := Running] && s.claim == Some({file}) && MustRemove(id, Directories({file}), file)
    ensures JobStep(s, s.(claim := Some({}), jobs := map[id := Complete]), id, {file})
  {
    assert {file} - {file} == {};
    assert s.jobs[id := Complete] == map[id := Complete];
    assert MayRemove(id, Directories({file}), file);
  }

  /** The claim lasts as long as there is at every moment some live workspace that uses it, whichever that is. */
  lemma {:induction false} ClaimLastsWhileUsed(run: seq<State>, m: nat, n: nat)
    requires IsRun(run) && m <= n < |run| && UsedThroughout(run, m, n) && run[m].claim.Some?
    ensures run[n].claim.Some?
  {
    if m < n {
      ClaimLastsWhileUsed(run, m, n - 1);
      InUseMeansLive(run[n - 1]);
      assert Next(run[n - 1], run[n]) && InUse(run[n - 1]);
    }
  }

  /** And clean-up is complete: a workspace with a plain ID that is gone has left no file on the claim. */
  lemma GoneWorkspacesLeaveNothing(run: seq<State>, n: nat, id: Id, file: string)
    requires IsRun(run) && n < |run| && id in run[n].used && id !in run[n].workspaces && Plain(id)
    requires BelongsTo(file, id)
    ensures !OnClaim(run[n], file)
  {
    RunKeepsInv(run, n);
    assert !HasFiles(run[n], id);
  }
}
