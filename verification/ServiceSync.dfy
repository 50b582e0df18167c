/**
 Synchronising the set of services of one workspace (syncServices and getServicesToDelete in
 controllers/controller/devworkspacerouting/sync_services.go). Each name has a server cell as in
 ClusterSync; the workspace's services are the ones labelled with its ID.
 */
module ServiceSync {
  import opened Options
  import opened ClusterSync

  type Cells = map<string, Server>

  datatype Named = Named(name: string, obj: Object)

  function Cell(m: Cells, name: string): Server {
    if name in m then m[name] else Server(None, 0)
  }

  predicate Listed(s: Server, id: string) {
    s.obj.Some? && WORKSPACE_ID_LABEL in s.obj.value.labels && s.obj.value.labels[WORKSPACE_ID_LABEL] == id
  }

  predicate Specified(specs: seq<Named>, name: string) {
    exists s :: s in specs && s.name == name
  }

  predicate OnlyServices(m: Cells) {
    forall n :: n in m && m[n].obj.Some? ==> m[n].obj.value.content.Service?
  }

  predicate ServiceSpecs(specs: seq<Named>) {
    forall s :: s in specs ==> s.obj.content.Service?
  }

  /** Listed, but not asked for. */
  predicate Stale(m: Cells, id: string, specs: seq<Named>, name: string) {
    name in m && Listed(m[name], id) && !Specified(specs, name)
  }

  function DeleteStale(m: Cells, id: string, specs: seq<Named>): Cells {
    map n | n in m :: if Stale(m, id, specs, n) then Delete(m[n]) else m[n]
  }

  function DeleteNames(m: Cells, names: set<string>): Cells {
    map n | n in m :: if n in names then Delete(m[n]) else m[n]
  }

  /** Some of what is stale is deleted, and nothing else is touched. */
  ghost predicate PartlyDeleted(m: Cells, m': Cells, id: string, specs: seq<Named>, refused: set<string>) {
    exists done: set<string> ::
      m' == DeleteNames(m, done) && forall n :: n in done ==> Stale(m, id, specs, n) && n !in refused
  }

  /** The first specified service whose call fails, or the end. */
  function FirstFailing(specs: seq<Named>, failing: set<string>): (n: nat)
    ensures n <= |specs| && forall i :: 0 <= i < n ==> specs[i].name !in failing
    ensures n < |specs| ==> specs[n].name in failing
  {
    if specs == [] || specs[0].name in failing then 0 else 1 + FirstFailing(specs[1..], failing)
  }

  /** What the calls for `specs`, in order, leave; whether all were in sync; and what they returned. */
  datatype Swept = Swept(cells: Cells, inSync: bool, found: seq<Object>)

  function SyncEach(m: Cells, specs: seq<Named>): (r: Swept)
    requires OnlyServices(m) && ServiceSpecs(specs)
    ensures OnlyServices(r.cells)
  {
    if specs == [] then Swept(m, true, [])
    else
      var before, s := SyncEach(m, specs[..|specs| - 1]), specs[|specs| - 1];
      var (cell, outcome) := Sync(s.obj, Cell(before.cells, s.name));
      SyncKeepsKind(s.obj, Cell(before.cells, s.name));
      Swept(before.cells[s.name := cell],
            before.inSync && outcome.InSync?,
            if outcome.InSync? then before.found + [outcome.obj] else before.found)
  }

  function SweepServices(m: Cells, id: string, specs: seq<Named>): (r: Swept)
    requires OnlyServices(m) && ServiceSpecs(specs)
    ensures OnlyServices(r.cells)
  {
    var swept := SyncEach(DeleteStale(m, id, specs), specs);
    swept.(inSync := swept.inSync && forall n :: n in m ==> !Stale(m, id, specs, n))
  }

  // ----- the loops -----

  method ServicesToDelete(m: Cells, id: string, specs: seq<Named>) returns (stale: set<string>)
    ensures forall n :: n in stale <==> Stale(m, id, specs, n)
  {
    stale := {};
    var todo := m.Keys;
    while todo != {}
      invariant todo <= m.Keys
      invariant forall n :: n in stale <==> n in m.Keys - todo && Stale(m, id, specs, n)
      decreases todo
    {
      var n :| n in todo;
      if Listed(m[n], id) {
        var contains := ListContainsByName(n, specs);
        if !contains { stale := stale + {n}; }
      }
      todo := todo - {n};
    }
  }

  method ListContainsByName(name: string, specs: seq<Named>) returns (found: bool)
    ensures found <==> Specified(specs, name)
  {
    for i := 0 to |specs|
      invariant forall j :: 0 <= j < i ==> specs[j].name != name
    {
      if specs[i].name == name { return true; }
    }
    return false;
  }

  class Reconciler {
    var cells: Cells

    constructor (cells: Cells)
      ensures this.cells == cells
    {
      this.cells := cells;
    }

    /** Deletes what is stale, until a deletion is refused. */
    method DeleteServices(id: string, specs: seq<Named>, refused: set<string>) returns (deleted: bool, failed: bool)
      modifies this
      ensures failed <==> exists n :: n in refused && Stale(old(cells), id, specs, n)
      ensures !failed ==> cells == DeleteStale(old(cells), id, specs)
      ensures failed ==> PartlyDeleted(old(cells), cells, id, specs, refused)
      ensures deleted <==> exists n :: n in old(cells) && Stale(old(cells), id, specs, n)
    {
      var todo := ServicesToDelete(cells, id, specs);
      ghost var stale := todo;
      deleted := todo != {};
      while todo != {}
        invariant todo <= stale && stale - todo !! refused
        invariant cells.Keys == old(cells).Keys
        invariant forall n :: n in cells ==>
                    cells[n] == if n in stale - todo then Delete(old(cells)[n]) else old(cells)[n]
        decreases todo
      {
        var n :| n in todo;
        if n in refused {
          assert cells == DeleteNames(old(cells), stale - todo);
          return deleted, true;
        }
        cells := cells[n := Delete(cells[n])];
        todo := todo - {n};
      }
      failed := false;
    }

    /** None stands for an error: the list, a deletion or the call for a service in `failing` failed. */
    method SyncServices(id: string, specs: seq<Named>, listed: bool, refused: set<string>, failing: set<string>)
      returns (r: Option<(bool, seq<Object>)>)
      requires OnlyServices(cells) && ServiceSpecs(specs)
      modifies this
      ensures r.None? <==>
                || !listed || (exists n :: n in refused && Stale(old(cells), id, specs, n))
                || FirstFailing(specs, failing) < |specs|
      ensures r.Some? ==> Swept(cells, r.value.0, r.value.1) == SweepServices(old(cells), id, specs)
      ensures !listed ==> cells == old(cells)
      ensures listed && (exists n :: n in refused && Stale(old(cells), id, specs, n)) ==>
                PartlyDeleted(old(cells), cells, id, specs, refused)
      ensures listed && (forall n :: n in refused ==> !Stale(old(cells), id, specs, n)) ==>
                cells == SyncEach(DeleteStale(old(cells), id, specs), specs[..FirstFailing(specs, failing)]).cells
    {
      if !listed { return None; }
      var deleted, failed := DeleteServices(id, specs, refused);
      if failed { return None; }
      assert specs[..|specs|] == specs;
      var inSync, found, error := SyncSpecified(specs, failing);
      return if error then None else Some((inSync && !deleted, found));
    }

    method SyncSpecified(specs: seq<Named>, failing: set<string>)
      returns (inSync: bool, found: seq<Object>, error: bool)
      requires OnlyServices(cells) && ServiceSpecs(specs)
      modifies this
      ensures error <==> FirstFailing(specs, failing) < |specs|
      ensures Swept(cells, inSync, found) == SyncEach(old(cells), specs[..FirstFailing(specs, failing)])
    {
      inSync, found, error := true, [], false;
      for i := 0 to |specs|
        invariant i <= FirstFailing(specs, failing)
        invariant Swept(cells, inSync, found) == SyncEach(old(cells), specs[..i])
      {
        if specs[i].name in failing {
          return inSync, found, true;
        }
        assert specs[..i + 1][..i] == specs[..i];
        var (cell, outcome) := Sync(specs[i].obj, Cell(cells, specs[i].name));
        cells := cells[specs[i].name := cell];
        if outcome.InSync? { found := found + [outcome.obj]; } else { inSync := false; }
      }
    }
  }

  // ----- what a call does to each service -----

  ghost predicate DistinctSpecs(specs: seq<Named>) {
    forall i, j :: 0 <= i < j < |specs| ==> specs[i].name != specs[j].name
  }

  /** A service that is not specified is not touched by the calls for the specified ones. */
  lemma {:induction false} UnspecifiedUntouched(m: Cells, specs: seq<Named>, name: string)
    requires OnlyServices(m) && ServiceSpecs(specs) && !Specified(specs, name)
    ensures Cell(SyncEach(m, specs).cells, name) == Cell(m, name)
    ensures name in SyncEach(m, specs).cells <==> name in m
  {
    if specs != [] {
      assert specs == specs[..|specs| - 1] + [specs[|specs| - 1]];
      UnspecifiedUntouched(m, specs[..|specs| - 1], name);
    }
  }

  /** A specified service is synchronised once. */
  lemma {:induction false} SpecifiedSynced(m: Cells, specs: seq<Named>, s: Named)
    requires OnlyServices(m) && ServiceSpecs(specs) && DistinctSpecs(specs) && s in specs
    ensures s.name in SyncEach(m, specs).cells
    ensures SyncEach(m, specs).cells[s.name] == Sync(s.obj, Cell(m, s.name)).0
  {
    var init, last := specs[..|specs| - 1], specs[|specs| - 1];
    assert specs == init + [last];
    if s == last {
      UnspecifiedUntouched(m, init, s.name);
    } else {
      SpecifiedSynced(m, init, s);
      var i :| 0 <= i < |init| && init[i] == s;
      assert specs[i].name != specs[|specs| - 1].name;
    }
  }

  /** Services of other workspaces, and services without the label, are left alone. */
  lemma OtherServicesUntouched(m: Cells, id: string, specs: seq<Named>, name: string)
    requires OnlyServices(m) && ServiceSpecs(specs)
    requires forall s :: s in specs ==> s.name != name
    requires name in m && m[name].obj.Some? && WORKSPACE_ID_LABEL in m[name].obj.value.labels ==>
               m[name].obj.value.labels[WORKSPACE_ID_LABEL] != id
    ensures var m' := SweepServices(m, id, specs).cells;
      (name in m' <==> name in m) && (name in m' ==> m'[name] == m[name])
  {
    UnspecifiedUntouched(DeleteStale(m, id, specs), specs, name);
  }

  // ----- in sync -----

  ghost predicate AllSettled(m: Cells, specs: seq<Named>)
    requires OnlyServices(m) && ServiceSpecs(specs)
  {
    forall s :: s in specs ==> Settled(s.obj, Cell(m, s.name))
  }

  lemma NotSettledNotInSync(spec: Object, s: Server)
    requires ForSpec(spec, s)
    ensures Sync(spec, s).1.InSync? <==> Settled(spec, s)
    ensures Settled(spec, s) ==> Sync(spec, s).0 == s
  {
    if Settled(spec, s) { SettledStays(spec, s); }
  }

  lemma {:induction false} EachInSync(m: Cells, specs: seq<Named>)
    requires OnlyServices(m) && ServiceSpecs(specs)
    ensures SyncEach(m, specs).inSync <==> AllSettled(m, specs)
    ensures SyncEach(m, specs).inSync ==> SyncEach(m, specs).cells == m
  {
    if specs != [] {
      var init, s := specs[..|specs| - 1], specs[|specs| - 1];
      assert specs == init + [s];
      EachInSync(m, init);
      var before := SyncEach(m, init);
      NotSettledNotInSync(s.obj, Cell(before.cells, s.name));
      if before.inSync && Settled(s.obj, Cell(m, s.name)) { assert m[s.name := m[s.name]] == m; }
    }
  }

  /**
   A call reports in sync exactly when the workspace's listed services are all specified and every
   specified one is on the cluster, visible and matching; and then it changes nothing.
   */
  lemma InSyncExactlyWhenSettled(m: Cells, id: string, specs: seq<Named>)
    requires OnlyServices(m) && ServiceSpecs(specs)
    ensures SweepServices(m, id, specs).inSync <==>
            (forall n :: n in m && Listed(m[n], id) ==> Specified(specs, n)) && AllSettled(m, specs)
    ensures SweepServices(m, id, specs).inSync ==> SweepServices(m, id, specs).cells == m
  {
    var cleared := DeleteStale(m, id, specs);
    EachInSync(cleared, specs);
    if forall n :: n in m ==> !Stale(m, id, specs, n) { assert cleared == m; }
  }

  lemma SettledMeans(spec: Object, s: Server)
    requires spec.content.Service? && ForSpec(spec, s)
    ensures Settled(spec, s) <==>
            s.obj.Some? && WORKSPACE_ID_LABEL in s.obj.value.labels && Fulfils(s.obj.value, spec)
  {
    NotSettledNotInSync(spec, s);
    InSyncExactlyWhenFulfilled(spec, s);
  }

  /** The same in terms of labels and fields. */
  lemma InSyncExactly(m: Cells, id: string, specs: seq<Named>)
    requires OnlyServices(m) && ServiceSpecs(specs)
    ensures SweepServices(m, id, specs).inSync <==>
            && (forall n ::
                  (&& n in m && m[n].obj.Some? && WORKSPACE_ID_LABEL in m[n].obj.value.labels
                   && m[n].obj.value.labels[WORKSPACE_ID_LABEL] == id) ==> exists s :: s in specs && s.name == n)
            && (forall s :: s in specs ==>
                  && s.name in m && m[s.name].obj.Some? && WORKSPACE_ID_LABEL in m[s.name].obj.value.labels
                  && Fulfils(m[s.name].obj.value, s.obj))
  {
    InSyncExactlyWhenSettled(m, id, specs);
    forall s | s in specs
      ensures Settled(s.obj, Cell(m, s.name)) <==>
              && s.name in m && m[s.name].obj.Some? && WORKSPACE_ID_LABEL in m[s.name].obj.value.labels
              && Fulfils(m[s.name].obj.value, s.obj) {
      SettledMeans(s.obj, Cell(m, s.name));
    }
  }

  ghost predicate FoundFor(m: Cells, specs: seq<Named>, found: seq<Object>) {
    |found| == |specs| && forall i :: 0 <= i < |specs| ==>
      specs[i].name in m && m[specs[i].name].obj == Some(found[i])
  }

  lemma FoundSnoc(m: Cells, init: seq<Named>, found: seq<Object>, s: Named, o: Object)
    requires FoundFor(m, init, found) && s.name in m && m[s.name].obj == Some(o)
    ensures FoundFor(m, init + [s], found + [o])
  {
  }

  /** In sync, a call returns the services on the cluster, in the order of the specifications. */
  lemma {:induction false} FoundInOrder(m: Cells, specs: seq<Named>)
    requires OnlyServices(m) && ServiceSpecs(specs) && SyncEach(m, specs).inSync
    ensures FoundFor(m, specs, SyncEach(m, specs).found)
  {
    if specs != [] {
      var init, s := specs[..|specs| - 1], specs[|specs| - 1];
      assert specs == init + [s];
      FoundInOrder(m, init);
      EachInSync(m, init);
      NotSettledNotInSync(s.obj, Cell(m, s.name));
      InSyncMeansMatches(s.obj, Cell(m, s.name));
      FoundSnoc(m, init, SyncEach(m, init).found, s, Cell(m, s.name).obj.value);
    }
  }

  // ----- convergence -----

  /** The cells after `n` calls. */
  function AfterCalls(m: Cells, id: string, specs: seq<Named>, n: nat): (r: Cells)
    requires OnlyServices(m) && ServiceSpecs(specs)
    ensures OnlyServices(r)
  {
    if n == 0 then m else SweepServices(AfterCalls(m, id, specs, n - 1), id, specs).cells
  }

  lemma CellAfterCall(m: Cells, id: string, specs: seq<Named>, s: Named)
    requires OnlyServices(m) && ServiceSpecs(specs) && DistinctSpecs(specs) && s in specs
    ensures Cell(SweepServices(m, id, specs).cells, s.name) == Sync(s.obj, Cell(m, s.name)).0
  {
    SpecifiedSynced(DeleteStale(m, id, specs), specs, s);
    assert Specified(specs, s.name);
  }

  lemma SettledAfterTwo(m: Cells, id: string, specs: seq<Named>, s: Named)
    requires OnlyServices(m) && ServiceSpecs(specs) && DistinctSpecs(specs) && s in specs && Visible(s.obj)
    ensures Settled(s.obj, Cell(AfterCalls(m, id, specs, 2), s.name))
  {
    var m1 := AfterCalls(m, id, specs, 1);
    assert m1 == SweepServices(AfterCalls(m, id, specs, 0), id, specs).cells;
    CellAfterCall(m, id, specs, s);
    CellAfterCall(m1, id, specs, s);
    var c := Cell(m, s.name);
    assert After(s.obj, c, 1) == Sync(s.obj, After(s.obj, c, 0)).0;
    SettledWithinTwoCalls(s.obj, c);
  }

  /** After a call, only specified services are listed. */
  lemma NothingStaleAfter(m: Cells, id: string, specs: seq<Named>, name: string)
    requires OnlyServices(m) && ServiceSpecs(specs)
    ensures var m' := SweepServices(m, id, specs).cells; name in m' && Listed(m'[name], id) ==> Specified(specs, name)
  {
    if !Specified(specs, name) {
      UnspecifiedUntouched(DeleteStale(m, id, specs), specs, name);
    }
  }

  ghost predicate Converged(m: Cells, id: string, specs: seq<Named>)
    requires OnlyServices(m) && ServiceSpecs(specs)
  {
    && SweepServices(m, id, specs).inSync && SweepServices(m, id, specs).cells == m
    && AllSettled(m, specs)
    && forall name :: Listed(Cell(m, name), id) <==> Specified(specs, name)
  }

  lemma SettledIsListed(s: Named, c: Server, id: string)
    requires s.obj.content.Service? && ForSpec(s.obj, c) && Settled(s.obj, c) && Listed(Server(Some(s.obj), 0), id)
    ensures Listed(c, id)
  {
    assert Read(c.obj.value.labels, WORKSPACE_ID_LABEL) == s.obj.labels[WORKSPACE_ID_LABEL];
  }

  lemma SettledConverged(m: Cells, id: string, specs: seq<Named>)
    requires OnlyServices(m) && ServiceSpecs(specs) && AllSettled(m, specs)
    requires forall s :: s in specs ==> Listed(Server(Some(s.obj), 0), id)
    requires forall name :: name in m && Listed(m[name], id) ==> Specified(specs, name)
    ensures Converged(m, id, specs)
  {
    InSyncExactlyWhenSettled(m, id, specs);
    forall name | Specified(specs, name) ensures Listed(Cell(m, name), id) {
      var s :| s in specs && s.name == name;
      SettledIsListed(s, Cell(m, name), id);
    }
  }

  lemma ConvergedAfterTwo(m: Cells, id: string, specs: seq<Named>)
    requires OnlyServices(m) && ServiceSpecs(specs) && DistinctSpecs(specs)
    requires forall s :: s in specs ==> Listed(Server(Some(s.obj), 0), id)
    ensures Converged(AfterCalls(m, id, specs, 2), id, specs)
  {
    var m1, m2 := AfterCalls(m, id, specs, 1), AfterCalls(m, id, specs, 2);
    forall s | s in specs ensures Settled(s.obj, Cell(m2, s.name)) { SettledAfterTwo(m, id, specs, s); }
    forall name | name in m2 && Listed(m2[name], id) ensures Specified(specs, name) {
      NothingStaleAfter(m1, id, specs, name);
    }
    SettledConverged(m2, id, specs);
  }

  /**
   For distinct, labelled specifications and no other writer, from every state: the third call and
   all later ones report in sync and change nothing, and then the services listed for the
   workspace are exactly the specified ones, each matching its specification.
   */
  lemma {:induction false} ServicesConverge(m: Cells, id: string, specs: seq<Named>, n: nat)
    requires OnlyServices(m) && ServiceSpecs(specs) && DistinctSpecs(specs) && n >= 2
    requires forall s :: s in specs ==> Listed(Server(Some(s.obj), 0), id)
    ensures AfterCalls(m, id, specs, n) == AfterCalls(m, id, specs, 2)
    ensures Converged(AfterCalls(m, id, specs, n), id, specs)
  {
    ConvergedAfterTwo(m, id, specs);
    if n > 2 { ServicesConverge(m, id, specs, n - 1); }
  }

  /**
   The same in terms of labels and fields: from the second call on the services labelled for the workspace
   are those specified, and each has the fields asked for.
   */
  lemma ServicesConvergeToSpecs(m: Cells, id: string, specs: seq<Named>, n: nat, name: string)
    requires OnlyServices(m) && ServiceSpecs(specs) && DistinctSpecs(specs) && n >= 2
    requires forall s :: s in specs ==>
               WORKSPACE_ID_LABEL in s.obj.labels && s.obj.labels[WORKSPACE_ID_LABEL] == id
    ensures var m' := AfterCalls(m, id, specs, n);
      && ((name in m' && m'[name].obj.Some? && WORKSPACE_ID_LABEL in m'[name].obj.value.labels
           && m'[name].obj.value.labels[WORKSPACE_ID_LABEL] == id) <==> exists s :: s in specs && s.name == name)
      && (forall s :: s in specs && s.name == name ==>
            name in m' && m'[name].obj.Some? && Fulfils(m'[name].obj.value, s.obj))
  {
    ServicesConverge(m, id, specs, n);
    var m' := AfterCalls(m, id, specs, n);
    assert Listed(Cell(m', name), id) <==> Specified(specs, name);
    forall s | s in specs && s.name == name
      ensures name in m' && m'[name].obj.Some? && Fulfils(m'[name].obj.value, s.obj) {
      SettledMeans(s.obj, Cell(m', name));
    }
  }

  /** Nor does any number of calls touch a service that is neither specified nor labelled for the workspace. */
  lemma {:induction false} OthersUntouchedThroughout(m: Cells, id: string, specs: seq<Named>, n: nat, name: string)
    requires OnlyServices(m) && ServiceSpecs(specs)
    requires forall s :: s in specs ==> s.name != name
    requires name in m && m[name].obj.Some? && WORKSPACE_ID_LABEL in m[name].obj.value.labels ==>
               m[name].obj.value.labels[WORKSPACE_ID_LABEL] != id
    ensures var m' := AfterCalls(m, id, specs, n);
      (name in m' <==> name in m) && (name in m' ==> m'[name] == m[name])
  {
    if n > 0 {
      OthersUntouchedThroughout(m, id, specs, n - 1, name);
      OtherServicesUntouched(AfterCalls(m, id, specs, n - 1), id, specs, name);
    }
  }
}
