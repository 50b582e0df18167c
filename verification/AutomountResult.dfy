/**
 What a merge of automounted resources returns, told by the mounts and volumes that go in
 (mergeProjectedVolumes in pkg/provision/automount/projected.go): which input is refused and
 with what error, the order of the mounts, what stands at a path with one mount and at a path
 with several, and the order of the sources projected there.
 */
module AutomountResult {
  import opened Options
  import opened Sorting
  import opened Automount

  /** A mount's volume is the last one of the name it gives. */
  lemma {:induction false} LookupIsLast(volumes: seq<Volume>, name: string) returns (i: nat)
    ensures i <= |volumes| && (i < |volumes| ==> volumes[i].name == name && Lookup(volumes, name) == volumes[i])
    ensures forall j :: i < j < |volumes| ==> volumes[j].name != name
    ensures i == |volumes| ==> Lookup(volumes, name).source == UnknownSource && forall v :: v in volumes ==>
            v.name != name
  {
    if volumes == [] { return 0; }
    var init, last := volumes[..|volumes| - 1], volumes[|volumes| - 1];
    assert volumes == init + [last];
    if last.name == name { return |init|; }
    i := LookupIsLast(init, name);
    if i == |init| { i := |volumes|; }
  }

  ghost predicate Shared(mounts: seq<VolumeMount>, path: string) {
    exists i, j :: 0 <= i < j < |mounts| && mounts[i].path == path && mounts[j].path == path
  }

  lemma SharedIsContested(mounts: seq<VolumeMount>, path: string)
    ensures Shared(mounts, path) <==> Contested(mounts, path)
  {
    if Shared(mounts, path) {
      var i, j :| 0 <= i < j < |mounts| && mounts[i].path == path && mounts[j].path == path;
      CollisionContests(mounts, i, j);
    }
    if Contested(mounts, path) { ContestedIsShared(mounts, path); }
  }

  lemma {:induction false} ContestedIsShared(mounts: seq<VolumeMount>, path: string)
    requires Contested(mounts, path)
    ensures Shared(mounts, path)
  {
    if mounts != [] {
      var init, last := mounts[..|mounts| - 1], mounts[|mounts| - 1];
      assert mounts == init + [last];
      if Contested(init, path) {
        ContestedIsShared(init, path);
        var i, j :| 0 <= i < j < |init| && init[i].path == path && init[j].path == path;
        assert mounts[i].path == path && mounts[j].path == path;
      } else {
        PathUsed(init, path);
        var i :| 0 <= i < |init| && init[i].path == path;
        assert mounts[i].path == path && mounts[|init|].path == path;
      }
    }
  }

  // ----- refusal -----

  /**
   A merge is refused exactly when two mounts share a path and one of them has a sub-path, or has
   a volume that is neither a secret nor a configmap.
   */
  lemma RefusedExactly(r: Resources, naming: string -> string)
    ensures MergeProjected(r, naming).Err? <==>
            exists vm :: vm in r.mounts && Shared(r.mounts, vm.path)
                         && (vm.subPath != "" || vm.subPathExpr != ""
                             || (!Lookup(r.volumes, vm.name).source.Secret?
                                 && !Lookup(r.volumes, vm.name).source.ConfigMap?))
  {
    FailsExactlyWhenUnmergeable(r, naming);
    forall p ensures Shared(r.mounts, p) <==> Contested(r.mounts, p) { SharedIsContested(r.mounts, p); }
  }

  /** A mount that uses a sub-path or a claim. */
  ghost predicate Fixed(vm: VolumeMount, volumes: seq<Volume>) {
    vm.subPath != "" || vm.subPathExpr != "" || Lookup(volumes, vm.name).source.PersistentVolumeClaim?
  }

  /** What an error says is so: its path is shared, by a mount that is fixed, or else of an unknown type. */
  ghost predicate Explains(e: AutomountError, r: Resources) {
    && Shared(r.mounts, e.path)
    && (e.SamePath? <==> exists vm :: vm in r.mounts && vm.path == e.path && Fixed(vm, r.volumes))
    && (e.UnknownVolumeType? ==>
          exists vm :: vm in r.mounts && vm.path == e.path
                       && !Lookup(r.volumes, vm.name).source.Secret? && !Lookup(r.volumes, vm.name).source.ConfigMap?)
  }

  lemma ProjectionExplains(path: string, r: Resources, naming: string -> string)
    requires Contested(r.mounts, path)
    ensures var p := Projection(path, MountsAt(r.mounts, path), r.volumes, naming); p.Err? ==> Explains(p.error, r)
  {
    SharedIsContested(r.mounts, path);
    MountsAtMembers(r.mounts, path);
    var at := MountsAt(r.mounts, path);
    forall vm ensures Blocks(vm, r.volumes) <==> Fixed(vm, r.volumes) {}
    assert (exists vm :: vm in at && Blocks(vm, r.volumes)) <==>
           (exists vm :: vm in r.mounts && vm.path == path && Fixed(vm, r.volumes));
    if vm :| vm in at && !Projectable(vm, r.volumes) {
      assert vm in r.mounts && vm.path == path;
    }
  }

  lemma {:induction false} AssembleExplains(paths: seq<string>, r: Resources, naming: string -> string)
    ensures var a := Assemble(paths, r.mounts, r.volumes, naming); a.Err? ==> Explains(a.error, r)
  {
    if paths != [] {
      AssembleExplains(paths[..|paths| - 1], r, naming);
      var path := paths[|paths| - 1];
      if Contested(r.mounts, path) { ProjectionExplains(path, r, naming); }
    }
  }

  /** The error of a refused merge holds of the input. */
  lemma ErrorExplains(r: Resources, naming: string -> string)
    requires MergeProjected(r, naming).Err?
    ensures Explains(MergeProjected(r, naming).error, r)
  {
    AssembleExplains(StableSort(StringLess, Paths(r.mounts)), r, naming);
  }

  // ----- the mounts -----

  /** Without a shared path nothing changes. */
  lemma UnsharedIsUnchanged(r: Resources, naming: string -> string)
    requires forall i, j :: 0 <= i < j < |r.mounts| ==> r.mounts[i].path != r.mounts[j].path
    ensures MergeProjected(r, naming) == Ok(r)
  {
  }

  lemma SortedPathAt(s: seq<string>, i: nat, j: nat)
    requires i < j < |StableSort(StringLess, s)|
    ensures NotAbove(StableSort(StringLess, s)[i], StableSort(StringLess, s)[j])
  {
    StringLessIsTotalOrder();
    StableSortCorrect(StringLess, s);
    StringLessMeans(StableSort(StringLess, s)[i], StableSort(StringLess, s)[j]);
  }

  /** With one, the mounts come in ascending order of their paths, one for each path of the input. */
  lemma MergedMountsAscend(r: Resources, naming: string -> string, i: nat, j: nat)
    requires MergeProjected(r, naming).Ok? && Collides(r.mounts)
    requires i < j < |MergeProjected(r, naming).value.mounts|
    ensures var mounts := MergeProjected(r, naming).value.mounts;
      NotAbove(mounts[i].path, mounts[j].path) && mounts[i].path != mounts[j].path
  {
    var paths := StableSort(StringLess, Paths(r.mounts));
    SortedPathsUsed(r.mounts);
    OneMountPerPath(paths, r.mounts, r.volumes, naming);
    SortedPathAt(Paths(r.mounts), i, j);
  }

  lemma MountsForPaths(mounts: seq<VolumeMount>, paths: seq<string>, path: string)
    requires MountsFor(mounts, paths)
    ensures (exists vm :: vm in mounts && vm.path == path) <==> path in paths
  {
    if path in paths {
      var i :| 0 <= i < |paths| && paths[i] == path;
      assert mounts[i] in mounts && mounts[i].path == path;
    }
  }

  lemma SamePaths(r: Resources, naming: string -> string, path: string)
    requires MergeProjected(r, naming).Ok?
    ensures var out := MergeProjected(r, naming).value;
      && out.envFrom == r.envFrom
      && ((exists vm :: vm in out.mounts && vm.path == path) <==> (exists vm :: vm in r.mounts && vm.path == path))
  {
    if Collides(r.mounts) {
      var paths := StableSort(StringLess, Paths(r.mounts));
      SortedPathsUsed(r.mounts);
      OneMountPerPath(paths, r.mounts, r.volumes, naming);
      MountsForPaths(MergeProjected(r, naming).value.mounts, paths, path);
    }
  }

  /** What stands at a path that several mounts share: a read-only mount of the volume named for the path. */
  lemma {:induction false} MountStands(paths: seq<string>, r: Resources, naming: string -> string, vm: VolumeMount)
    requires Assemble(paths, r.mounts, r.volumes, naming).Ok?
             && vm in Assemble(paths, r.mounts, r.volumes, naming).value.mounts
    ensures if Contested(r.mounts, vm.path) then vm == VolumeMount(naming(vm.path), vm.path, "", "", true)
            else vm in r.mounts
  {
    if paths != [] {
      var init, path := paths[..|paths| - 1], paths[|paths| - 1];
      var before, at := Assemble(init, r.mounts, r.volumes, naming).value.mounts, MountsAt(r.mounts, path);
      MountsAtMembers(r.mounts, path);
      FirstTwoAreMembers(at);
      if vm in before { MountStands(init, r, naming, vm); }
    }
  }

  /**
   At a path of its own a mount stays as it is; mounts that share a path are replaced by a read-only
   mount of a volume named for the path.
   */
  lemma MergedMount(r: Resources, naming: string -> string, vm: VolumeMount)
    requires MergeProjected(r, naming).Ok? && vm in MergeProjected(r, naming).value.mounts
    ensures if Shared(r.mounts, vm.path) then vm == VolumeMount(naming(vm.path), vm.path, "", "", true)
            else vm in r.mounts
  {
    SharedIsContested(r.mounts, vm.path);
    if Collides(r.mounts) {
      MountStands(StableSort(StringLess, Paths(r.mounts)), r, naming, vm);
    } else {
      ContestedCollides(r.mounts, vm.path);
    }
  }

  // ----- the projected volume -----

  /** Configmaps come before all else, and what is of one kind in ascending order of its name. */
  ghost predicate InOrder(sources: seq<VolumeSource>) {
    && (forall i, j :: 0 <= i < j < |sources| && sources[j].ConfigMap? ==> sources[i].ConfigMap?)
    && (forall i, j :: 0 <= i < j < |sources| && sources[i].ConfigMap? && sources[j].ConfigMap? ==>
          NotAbove(sources[i].name, sources[j].name))
    && (forall i, j :: 0 <= i < j < |sources| && sources[i].Secret? && sources[j].Secret? ==>
          NotAbove(sources[i].name, sources[j].name))
  }

  lemma SortedSourcesInOrder(s: seq<VolumeSource>)
    ensures InOrder(StableSort(SourceLess, s))
  {
    var sorted := StableSort(SourceLess, s);
    forall i, j | 0 <= i < j < |sorted|
      ensures sorted[j].ConfigMap? ==> sorted[i].ConfigMap?
      ensures sorted[i].ConfigMap? && sorted[j].ConfigMap? ==> NotAbove(sorted[i].name, sorted[j].name)
      ensures sorted[i].Secret? && sorted[j].Secret? ==> NotAbove(sorted[i].name, sorted[j].name)
    {
      SourceAt(s, i, j);
      StringLessMeans(NameOf(sorted[i]), NameOf(sorted[j]));
    }
  }

  lemma SourceAt(s: seq<VolumeSource>, i: nat, j: nat)
    requires i < j < |StableSort(SourceLess, s)|
    ensures !SourceLess(StableSort(SourceLess, s)[j], StableSort(SourceLess, s)[i])
  {
    SourceLessIsStrictWeakOrder();
    StableSortCorrect(SourceLess, s);
  }

  /** How many mounts at the path have a volume of this source. */
  function Uses(mounts: seq<VolumeMount>, volumes: seq<Volume>, path: string, source: VolumeSource): nat {
    if mounts == [] then 0
    else
      var last := mounts[|mounts| - 1];
      Uses(mounts[..|mounts| - 1], volumes, path, source)
      + if last.path == path && Lookup(volumes, last.name).source == source then 1 else 0
  }

  lemma {:induction false} SourcesCount(mounts: seq<VolumeMount>, volumes: seq<Volume>, path: string,
                                        source: VolumeSource)
    ensures multiset(SourcesOf(MountsAt(mounts, path), volumes))[source] == Uses(mounts, volumes, path, source)
  {
    if mounts != [] {
      var init, last := mounts[..|mounts| - 1], mounts[|mounts| - 1];
      SourcesCount(init, volumes, path, source);
      if last.path == path {
        assert SourcesOf(MountsAt(mounts, path), volumes) ==
               SourcesOf(MountsAt(init, path), volumes) + [Lookup(volumes, last.name).source];
      } else {
        assert MountsAt(mounts, path) == MountsAt(init, path);
      }
    }
  }

  /**
   The volume named for a shared path projects, in order, the source of each mount that asked for the
   path, as often as it was asked for.
   */
  lemma ProjectedVolume(r: Resources, naming: string -> string, path: string) returns (sources: seq<VolumeSource>)
    requires MergeProjected(r, naming).Ok? && Shared(r.mounts, path)
    ensures Volume(naming(path), Projected(sources)) in MergeProjected(r, naming).value.volumes
    ensures InOrder(sources)
    ensures forall s :: multiset(sources)[s] == Uses(r.mounts, r.volumes, path, s)
  {
    SharedIsContested(r.mounts, path);
    var v := ProjectedVolumeInResult(r, naming, path);
    var unsorted := SourcesOf(MountsAt(r.mounts, path), r.volumes);
    sources := StableSort(SourceLess, unsorted);
    SortedSourcesInOrder(unsorted);
    SortedSourcesMultiset(unsorted);
    forall s ensures multiset(sources)[s] == Uses(r.mounts, r.volumes, path, s) {
      SourcesCount(r.mounts, r.volumes, path, s);
    }
  }
}
