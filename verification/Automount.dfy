/**
 Merging of automounted configmaps and secrets that ask for the same mount path into
 projected volumes (pkg/provision/automount/projected.go). The name of a projected volume,
 a hash of its mount path, is the argument `naming`.
 */
module Automount {
  import opened Options
  import opened Sorting

  datatype VolumeSource =
    | Secret(name: string, items: seq<string>)
    | ConfigMap(name: string, items: seq<string>)
    | PersistentVolumeClaim(claim: string)
    | Projected(sources: seq<VolumeSource>)
    | UnknownSource

  datatype Volume = Volume(name: string, source: VolumeSource)

  datatype VolumeMount = VolumeMount(name: string, path: string, subPath: string, subPathExpr: string, readOnly: bool)

  datatype Resources = Resources(volumes: seq<Volume>, mounts: seq<VolumeMount>, envFrom: seq<string>)

  datatype AutomountError = SamePath(path: string) | UnknownVolumeType(path: string)

  // ----- what merging computes -----

  /** volumeNameToVolume: the last volume of that name, or the zero Volume. */
  function Lookup(volumes: seq<Volume>, name: string): Volume {
    if volumes == [] then Volume("", UnknownSource)
    else if volumes[|volumes| - 1].name == name then volumes[|volumes| - 1]
    else Lookup(volumes[..|volumes| - 1], name)
  }

  function MountsAt(mounts: seq<VolumeMount>, path: string): seq<VolumeMount> {
    if mounts == [] then []
    else
      var last := mounts[|mounts| - 1];
      MountsAt(mounts[..|mounts| - 1], path) + (if last.path == path then [last] else [])
  }

  /** The mount paths, each once, in order of first use. */
  function Paths(mounts: seq<VolumeMount>): seq<string> {
    if mounts == [] then []
    else
      var before, last := Paths(mounts[..|mounts| - 1]), mounts[|mounts| - 1];
      if last.path in before then before else before + [last.path]
  }

  predicate Collides(mounts: seq<VolumeMount>) {
    exists i, j :: 0 <= i < j < |mounts| && mounts[i].path == mounts[j].path
  }

  /** checkCanUseProjectedVolumes, for one mount. */
  predicate Blocks(vm: VolumeMount, volumes: seq<Volume>) {
    vm.subPath != "" || vm.subPathExpr != "" || Lookup(volumes, vm.name).source.PersistentVolumeClaim?
  }

  predicate Projectable(vm: VolumeMount, volumes: seq<Volume>) {
    var source := Lookup(volumes, vm.name).source;
    source.Secret? || source.ConfigMap?
  }

  /** ConfigMaps first, then by name. */
  predicate SourceLess(a: VolumeSource, b: VolumeSource) {
    if a.ConfigMap? != b.ConfigMap? then a.ConfigMap?
    else StringLess(NameOf(a), NameOf(b))
  }

  function NameOf(s: VolumeSource): string {
    if s.Secret? || s.ConfigMap? then s.name else ""
  }

  function SourcesOf(mounts: seq<VolumeMount>, volumes: seq<Volume>): seq<VolumeSource> {
    seq(|mounts|, i requires 0 <= i < |mounts| => Lookup(volumes, mounts[i].name).source)
  }

  /** generateProjectedVolume */
  function Projection(path: string, mounts: seq<VolumeMount>, volumes: seq<Volume>, naming: string -> string):
    Result<(VolumeMount, Volume), AutomountError>
  {
    if exists vm :: vm in mounts && Blocks(vm, volumes) then Err(SamePath(path))
    else if exists vm :: vm in mounts && !Projectable(vm, volumes) then Err(UnknownVolumeType(path))
    else Ok((VolumeMount(naming(path), path, "", "", true),
             Volume(naming(path), Projected(StableSort(SourceLess, SourcesOf(mounts, volumes))))))
  }

  datatype Merged = Merged(volumes: seq<Volume>, mounts: seq<VolumeMount>, single: set<string>)

  /** The merged volumes and mounts for the given paths; `single` names the volumes kept as they are. */
  function Assemble(paths: seq<string>, mounts: seq<VolumeMount>, volumes: seq<Volume>, naming: string -> string):
    Result<Merged, AutomountError>
  {
    if paths == [] then Ok(Merged([], [], {}))
    else
      match Assemble(paths[..|paths| - 1], mounts, volumes, naming)
      case Err(e) => Err(e)
      case Ok(m) => Extend(m, paths[|paths| - 1], MountsAt(mounts, paths[|paths| - 1]), volumes, naming)
  }

  function Extend(m: Merged, path: string, at: seq<VolumeMount>, volumes: seq<Volume>, naming: string -> string):
    Result<Merged, AutomountError>
  {
    if |at| == 0 then Ok(m)
    else if |at| == 1 then
      var volume := Lookup(volumes, at[0].name);
      Ok(Merged(if volume.name in m.single then m.volumes else m.volumes + [volume],
                m.mounts + [at[0]], m.single + {volume.name}))
    else
      match Projection(path, at, volumes, naming)
      case Err(e) => Err(e)
      case Ok((vm, volume)) => Ok(Merged(m.volumes + [volume], m.mounts + [vm], m.single))
  }

  /** mergeProjectedVolumes */
  function MergeProjected(r: Resources, naming: string -> string): Result<Resources, AutomountError> {
    if !Collides(r.mounts) then Ok(r)
    else
      match Assemble(StableSort(StringLess, Paths(r.mounts)), r.mounts, r.volumes, naming)
      case Err(e) => Err(e)
      case Ok(m) => Ok(Resources(m.volumes, m.mounts, r.envFrom))
  }

  // ----- the code -----

  method GenerateProjectedVolume(path: string, mounts: seq<VolumeMount>, volumes: seq<Volume>, naming: string -> string)
    returns (r: Result<(VolumeMount, Volume), AutomountError>)
    ensures r == Projection(path, mounts, volumes, naming)
  {
    var sources: seq<VolumeSource> := [];
    for i := 0 to |mounts|
      invariant |sources| == i && forall j :: 0 <= j < i ==> sources[j] == Lookup(volumes, mounts[j].name).source
      invariant forall j :: 0 <= j < i ==> Projectable(mounts[j], volumes)
      invariant i > 0 ==> forall vm :: vm in mounts ==> !Blocks(vm, volumes)
    {
      var problem := CheckCanUseProjectedVolumes(mounts, volumes);
      if problem { return Err(SamePath(path)); }
      var source := Lookup(volumes, mounts[i].name).source;
      if !source.Secret? && !source.ConfigMap? {
        assert mounts[i] in mounts && !Projectable(mounts[i], volumes);
        return Err(UnknownVolumeType(path));
      }
      sources := sources + [source];
    }
    assert sources == SourcesOf(mounts, volumes);
    return Ok((VolumeMount(naming(path), path, "", "", true),
               Volume(naming(path), Projected(StableSort(SourceLess, sources)))));
  }

  method CheckCanUseProjectedVolumes(mounts: seq<VolumeMount>, volumes: seq<Volume>) returns (problem: bool)
    ensures problem <==> exists vm :: vm in mounts && Blocks(vm, volumes)
  {
    problem := false;
    for i := 0 to |mounts|
      invariant problem <==> exists j :: 0 <= j < i && Blocks(mounts[j], volumes)
    {
      if mounts[i].subPath != "" || mounts[i].subPathExpr != "" { problem := true; }
      if Lookup(volumes, mounts[i].name).source.PersistentVolumeClaim? { problem := true; }
    }
  }

  function At(byPath: map<string, seq<VolumeMount>>, path: string): seq<VolumeMount> {
    if path in byPath then byPath[path] else []
  }

  /** `byPath` holds, for every path, its mounts among `mounts`. */
  ghost predicate Groups(byPath: map<string, seq<VolumeMount>>, mounts: seq<VolumeMount>) {
    forall p :: At(byPath, p) == MountsAt(mounts, p)
  }

  /** First loop: mounts by path, the paths in order of first use, and whether any path repeats. */
  method GroupByPath(mounts: seq<VolumeMount>)
    returns (byPath: map<string, seq<VolumeMount>>, order: seq<string>, collision: bool)
    ensures order == Paths(mounts)
    ensures Groups(byPath, mounts)
    ensures collision <==> Collides(mounts)
  {
    byPath, order, collision := map[], [], false;
    ghost var front: seq<VolumeMount> := [];
    for i := 0 to |mounts|
      invariant front == mounts[..i] && Grouped(byPath, order, collision, front)
    {
      byPath, order, collision := GroupOne(byPath, order, collision, mounts[i], front);
      front := front + [mounts[i]];
    }
    assert front == mounts;
  }

  /** One iteration. */
  method GroupOne(byPath: map<string, seq<VolumeMount>>, order: seq<string>, collision: bool, vm: VolumeMount,
                  ghost front: seq<VolumeMount>)
    returns (byPath': map<string, seq<VolumeMount>>, order': seq<string>, collision': bool)
    requires Grouped(byPath, order, collision, front)
    ensures Grouped(byPath', order', collision', front + [vm])
  {
    GroupNext(byPath, order, collision, front, vm);
    order', collision' := order, collision;
    var soFar := At(byPath, vm.path);
    if |soFar| == 0 { order' := order + [vm.path]; } else { collision' := true; }
    byPath' := byPath[vm.path := soFar + [vm]];
  }

  ghost predicate Grouped(byPath: map<string, seq<VolumeMount>>, order: seq<string>, collision: bool,
                          front: seq<VolumeMount>) {
    order == Paths(front) && Groups(byPath, front) && (collision <==> Collides(front))
  }

  /** What one more mount changes. */
  lemma GroupNext(byPath: map<string, seq<VolumeMount>>, order: seq<string>, collision: bool,
                  front: seq<VolumeMount>, vm: VolumeMount)
    requires Grouped(byPath, order, collision, front)
    ensures var soFar := At(byPath, vm.path);
            Grouped(byPath[vm.path := soFar + [vm]], if soFar == [] then order + [vm.path] else order,
                    collision || soFar != [], front + [vm])
  {
    GroupStep(front, vm);
    assert At(byPath, vm.path) == MountsAt(front, vm.path);
    assert (front + [vm])[..|front|] == front;
    GroupsNext(byPath, front, vm);
  }

  lemma GroupsNext(byPath: map<string, seq<VolumeMount>>, front: seq<VolumeMount>, vm: VolumeMount)
    requires Groups(byPath, front)
    ensures Groups(byPath[vm.path := At(byPath, vm.path) + [vm]], front + [vm])
  {
    var byPath' := byPath[vm.path := At(byPath, vm.path) + [vm]];
    forall p ensures At(byPath', p) == MountsAt(front + [vm], p) {
      MountsAtSnoc(front, vm, p);
      assert At(byPath, p) == MountsAt(front, p);
    }
  }

  lemma {:induction false} MountsAtMembers(mounts: seq<VolumeMount>, path: string)
    ensures forall vm :: vm in MountsAt(mounts, path) <==> vm in mounts && vm.path == path
  {
    if mounts != [] {
      MountsAtMembers(mounts[..|mounts| - 1], path);
      assert mounts == mounts[..|mounts| - 1] + [mounts[|mounts| - 1]];
    }
  }

  lemma {:induction false} PathsMembers(mounts: seq<VolumeMount>)
    ensures forall p :: p in Paths(mounts) <==> exists vm :: vm in mounts && vm.path == p
    ensures Distinct(Paths(mounts))
  {
    if mounts != [] {
      var init, last := mounts[..|mounts| - 1], mounts[|mounts| - 1];
      PathsMembers(init);
      assert mounts == init + [last];
      if last.path !in Paths(init) { DistinctSnoc(Paths(init), last.path); }
    }
  }

  lemma GroupStep(front: seq<VolumeMount>, vm: VolumeMount)
    ensures MountsAt(front, vm.path) == [] <==> vm.path !in Paths(front)
    ensures Collides(front + [vm]) <==> Collides(front) || MountsAt(front, vm.path) != []
  {
    PathUsed(front, vm.path);
    CollidesNext(front, vm);
  }

  /** A path has mounts if and only if it is listed, and if and only if some mount has it. */
  lemma PathUsed(mounts: seq<VolumeMount>, path: string)
    ensures MountsAt(mounts, path) == [] <==> path !in Paths(mounts)
    ensures MountsAt(mounts, path) != [] <==> exists i :: 0 <= i < |mounts| && mounts[i].path == path
  {
    MountsAtMembers(mounts, path);
    PathsMembers(mounts);
    FirstTwoAreMembers(MountsAt(mounts, path));
    if i :| 0 <= i < |mounts| && mounts[i].path == path { assert mounts[i] in MountsAt(mounts, path); }
  }

  lemma CollidesNext(front: seq<VolumeMount>, vm: VolumeMount)
    ensures Collides(front + [vm]) <==> Collides(front) || MountsAt(front, vm.path) != []
  {
    var all := front + [vm];
    PathUsed(front, vm.path);
    assert forall i :: 0 <= i < |front| ==> all[i] == front[i];
    if Collides(front) {
      var i, j :| 0 <= i < j < |front| && front[i].path == front[j].path;
      assert all[i].path == all[j].path;
    }
    if i :| 0 <= i < |front| && front[i].path == vm.path { assert all[i].path == all[|front|].path; }
  }

  lemma {:induction false} AssembleErrorPersists(paths: seq<string>, i: nat, mounts: seq<VolumeMount>,
                                                 volumes: seq<Volume>,
                                                 naming: string -> string)
    requires i <= |paths| && Assemble(paths[..i], mounts, volumes, naming).Err?
    ensures Assemble(paths, mounts, volumes, naming) == Assemble(paths[..i], mounts, volumes, naming)
  {
    if i == |paths| { assert paths[..i] == paths; }
    else {
      assert paths[..|paths| - 1][..i] == paths[..i];
      AssembleErrorPersists(paths[..|paths| - 1], i, mounts, volumes, naming);
    }
  }

  lemma AssembleStep(paths: seq<string>, i: nat, mounts: seq<VolumeMount>, volumes: seq<Volume>,
                     naming: string -> string, m: Merged)
    requires i < |paths| && Assemble(paths[..i], mounts, volumes, naming) == Ok(m)
    ensures Assemble(paths[..i + 1], mounts, volumes, naming) ==
            Extend(m, paths[i], MountsAt(mounts, paths[i]), volumes, naming)
  {
    assert paths[..i + 1][..i] == paths[..i];
  }

  /** The switch on the number of mounts at one path. */
  method MergePath(m: Merged, path: string, at: seq<VolumeMount>, volumes: seq<Volume>, naming: string -> string)
    returns (r: Result<Merged, AutomountError>)
    ensures r == Extend(m, path, at, volumes, naming)
  {
    if |at| == 0 { return Ok(m); }
    if |at| == 1 {
      var volume := Lookup(volumes, at[0].name);
      var kept := m.volumes;
      if volume.name !in m.single { kept := kept + [volume]; }
      return Ok(Merged(kept, m.mounts + [at[0]], m.single + {volume.name}));
    }
    var projected := GenerateProjectedVolume(path, at, volumes, naming);
    if projected.Err? { return Err(projected.error); }
    return Ok(Merged(m.volumes + [projected.value.1], m.mounts + [projected.value.0], m.single));
  }

  /** The loop over the sorted paths. */
  method MergePaths(order: seq<string>, byPath: map<string, seq<VolumeMount>>, ghost mounts: seq<VolumeMount>,
                    volumes: seq<Volume>, naming: string -> string)
    returns (r: Result<Merged, AutomountError>)
    requires Groups(byPath, mounts)
    ensures r == Assemble(order, mounts, volumes, naming)
  {
    var merged := Merged([], [], {});
    for i := 0 to |order|
      invariant Assemble(order[..i], mounts, volumes, naming) == Ok(merged)
    {
      AssembleStep(order, i, mounts, volumes, naming, merged);
      assert At(byPath, order[i]) == MountsAt(mounts, order[i]);
      r := MergePath(merged, order[i], At(byPath, order[i]), volumes, naming);
      if r.Err? {
        AssembleErrorPersists(order, i + 1, mounts, volumes, naming);
        return;
      }
      merged := r.value;
    }
    assert order[..|order|] == order;
    r := Ok(merged);
  }

  method MergeProjectedVolumes(r: Resources, naming: string -> string)
    returns (result: Result<Resources, AutomountError>)
    ensures result == MergeProjected(r, naming)
  {
    var byPath, order, collision := GroupByPath(r.mounts);
    if !collision { return Ok(r); }
    var merged := MergePaths(StableSort(StringLess, order), byPath, r.mounts, r.volumes, naming);
    if merged.Err? { return Err(merged.error); }
    return Ok(Resources(merged.value.volumes, merged.value.mounts, r.envFrom));
  }

  // ----- what is assumed of the input -----

  ghost predicate DistinctNames(volumes: seq<Volume>) {
    forall i, j :: 0 <= i < j < |volumes| ==> volumes[i].name != volumes[j].name
  }

  ghost predicate Names(volumes: seq<Volume>, name: string) {
    exists v :: v in volumes && v.name == name
  }

  /** Every mount names a listed volume. */
  ghost predicate Closed(r: Resources) {
    forall vm :: vm in r.mounts ==> Names(r.volumes, vm.name)
  }

  /** Projected volumes get names of their own. */
  ghost predicate FreshNaming(naming: string -> string, volumes: seq<Volume>) {
    && (forall p, q :: naming(p) == naming(q) ==> p == q)
    && (forall p, v :: v in volumes ==> naming(p) != v.name)
  }

  ghost predicate WellFormed(r: Resources, naming: string -> string) {
    DistinctNames(r.volumes) && Closed(r) && FreshNaming(naming, r.volumes)
  }

  lemma {:induction false} LookupFinds(volumes: seq<Volume>, v: Volume)
    requires DistinctNames(volumes) && v in volumes
    ensures Lookup(volumes, v.name) == v
  {
    var init, last := volumes[..|volumes| - 1], volumes[|volumes| - 1];
    assert volumes == init + [last];
    if v != last {
      var i :| 0 <= i < |volumes| && volumes[i] == v;
      assert v in init;
      LookupFinds(init, v);
    }
  }

  lemma LookupNamed(volumes: seq<Volume>, name: string)
    requires DistinctNames(volumes) && Names(volumes, name)
    ensures Lookup(volumes, name) in volumes && Lookup(volumes, name).name == name
  {
    var v :| v in volumes && v.name == name;
    LookupFinds(volumes, v);
  }

  // ----- when merging fails -----

  predicate Contested(mounts: seq<VolumeMount>, path: string) {
    |MountsAt(mounts, path)| >= 2
  }

  /** A mount that cannot share its path. */
  predicate Unmergeable(vm: VolumeMount, volumes: seq<Volume>) {
    Blocks(vm, volumes) || !Projectable(vm, volumes)
  }

  /** Mounts of which one cannot share. */
  ghost predicate Blocked(at: seq<VolumeMount>, volumes: seq<Volume>) {
    |at| > 1 && exists vm :: vm in at && Unmergeable(vm, volumes)
  }

  lemma ExtendFails(m: Merged, path: string, at: seq<VolumeMount>, volumes: seq<Volume>, naming: string -> string)
    ensures Extend(m, path, at, volumes, naming).Err? <==> Blocked(at, volumes)
  {
  }

  /** Whether some path is blocked. */
  ghost predicate SomeBlocked(paths: seq<string>, mounts: seq<VolumeMount>, volumes: seq<Volume>) {
    paths != [] &&
    (SomeBlocked(paths[..|paths| - 1], mounts, volumes) || Blocked(MountsAt(mounts, paths[|paths| - 1]), volumes))
  }

  lemma {:induction false} AssembleFailsExactly(paths: seq<string>, mounts: seq<VolumeMount>, volumes: seq<Volume>,
                                                naming: string -> string)
    ensures Assemble(paths, mounts, volumes, naming).Err? <==> SomeBlocked(paths, mounts, volumes)
  {
    if paths != [] {
      var front, last := Assemble(paths[..|paths| - 1], mounts, volumes, naming), paths[|paths| - 1];
      AssembleFailsExactly(paths[..|paths| - 1], mounts, volumes, naming);
      if front.Ok? { ExtendFails(front.value, last, MountsAt(mounts, last), volumes, naming); }
    }
  }

  lemma {:induction false} BlockedPath(paths: seq<string>, mounts: seq<VolumeMount>, volumes: seq<Volume>)
    returns (path: string)
    requires SomeBlocked(paths, mounts, volumes)
    ensures Blocked(MountsAt(mounts, path), volumes)
  {
    path := paths[|paths| - 1];
    if SomeBlocked(paths[..|paths| - 1], mounts, volumes) {
      path := BlockedPath(paths[..|paths| - 1], mounts, volumes);
    }
  }

  lemma {:induction false} PathBlocked(paths: seq<string>, i: nat, mounts: seq<VolumeMount>, volumes: seq<Volume>)
    requires i < |paths| && Blocked(MountsAt(mounts, paths[i]), volumes)
    ensures SomeBlocked(paths, mounts, volumes)
  {
    if i < |paths| - 1 { PathBlocked(paths[..|paths| - 1], i, mounts, volumes); }
  }

  lemma ContestedCollides(mounts: seq<VolumeMount>, path: string)
    ensures Contested(mounts, path) ==> Collides(mounts) && path in Paths(mounts)
  {
    if mounts != [] && Contested(mounts, path) {
      var init, last := mounts[..|mounts| - 1], mounts[|mounts| - 1];
      assert mounts == init + [last];
      GroupStep(init, last);
      ContestedCollides(init, path);
      MountsAtMembers(mounts, path);
      PathsMembers(mounts);
      assert MountsAt(mounts, path)[0] in MountsAt(mounts, path);
    }
  }

  // ----- the merged mounts and volumes -----

  ghost predicate Used(paths: seq<string>, mounts: seq<VolumeMount>) {
    forall p :: p in paths ==> MountsAt(mounts, p) != []
  }

  lemma ExtendAddsMount(m: Merged, path: string, mounts: seq<VolumeMount>, volumes: seq<Volume>,
                        naming: string -> string)
    returns (vm: VolumeMount)
    requires Extend(m, path, MountsAt(mounts, path), volumes, naming).Ok? && MountsAt(mounts, path) != []
    ensures Extend(m, path, MountsAt(mounts, path), volumes, naming).value.mounts == m.mounts + [vm]
    ensures vm.path == path
  {
    var at := MountsAt(mounts, path);
    MountsAtMembers(mounts, path);
    assert at[0] in at;
    vm := if |at| == 1 then at[0] else VolumeMount(naming(path), path, "", "", true);
  }

  ghost predicate MountsFor(mounts: seq<VolumeMount>, paths: seq<string>) {
    |mounts| == |paths| && forall i :: 0 <= i < |paths| ==> mounts[i].path == paths[i]
  }

  lemma MountsForSnoc(mounts: seq<VolumeMount>, paths: seq<string>, vm: VolumeMount)
    requires MountsFor(mounts, paths)
    ensures MountsFor(mounts + [vm], paths + [vm.path])
  {
  }

  lemma AssembleLast(paths: seq<string>, mounts: seq<VolumeMount>, volumes: seq<Volume>, naming: string -> string)
    returns (vm: VolumeMount)
    requires paths != [] && Assemble(paths, mounts, volumes, naming).Ok? && MountsAt(mounts, paths[|paths| - 1]) != []
    ensures var front := Assemble(paths[..|paths| - 1], mounts, volumes, naming);
            front.Ok? && Assemble(paths, mounts, volumes, naming).value.mounts == front.value.mounts + [vm]
    ensures vm.path == paths[|paths| - 1]
  {
    var front := Assemble(paths[..|paths| - 1], mounts, volumes, naming).value;
    vm := ExtendAddsMount(front, paths[|paths| - 1], mounts, volumes, naming);
  }

  /** One mount for each path, in the order of the paths. */
  lemma {:induction false} OneMountPerPath(paths: seq<string>, mounts: seq<VolumeMount>, volumes: seq<Volume>,
                                           naming: string -> string)
    requires Assemble(paths, mounts, volumes, naming).Ok? && Used(paths, mounts)
    ensures MountsFor(Assemble(paths, mounts, volumes, naming).value.mounts, paths)
  {
    if paths != [] {
      var init, last := paths[..|paths| - 1], paths[|paths| - 1];
      assert paths == init + [last] && last in paths && forall p :: p in init ==> p in paths;
      var vm := AssembleLast(paths, mounts, volumes, naming);
      OneMountPerPath(init, mounts, volumes, naming);
      MountsForSnoc(Assemble(init, mounts, volumes, naming).value.mounts, init, vm);
    }
  }

  lemma SortedPathsUsed(mounts: seq<VolumeMount>)
    ensures var paths := StableSort(StringLess, Paths(mounts));
            && Distinct(paths) && Used(paths, mounts)
            && forall p :: p in paths <==> exists vm :: vm in mounts && vm.path == p
  {
    var paths := StableSort(StringLess, Paths(mounts));
    PathsMembers(mounts);
    SortedStrings(Paths(mounts));
    forall p | p in paths ensures MountsAt(mounts, p) != [] {
      MountsAtMembers(mounts, p);
      var vm :| vm in mounts && vm.path == p;
      assert vm in MountsAt(mounts, p);
    }
  }

  lemma FailsOnUsedPaths(paths: seq<string>, mounts: seq<VolumeMount>, volumes: seq<Volume>, naming: string -> string)
    requires forall p :: p in paths <==> exists vm :: vm in mounts && vm.path == p
    ensures Assemble(paths, mounts, volumes, naming).Err? <==>
            exists vm :: vm in mounts && Contested(mounts, vm.path) && Unmergeable(vm, volumes)
  {
    AssembleFailsExactly(paths, mounts, volumes, naming);
    if SomeBlocked(paths, mounts, volumes) {
      var path := BlockedPath(paths, mounts, volumes);
      BlockedHasMount(mounts, volumes, path);
    }
    if vm :| vm in mounts && Contested(mounts, vm.path) && Unmergeable(vm, volumes) {
      MountBlocks(mounts, volumes, vm);
      assert vm.path in paths;
      var i :| 0 <= i < |paths| && paths[i] == vm.path;
      PathBlocked(paths, i, mounts, volumes);
    }
  }

  lemma BlockedHasMount(mounts: seq<VolumeMount>, volumes: seq<Volume>, path: string)
    requires Blocked(MountsAt(mounts, path), volumes)
    ensures exists vm :: vm in mounts && Contested(mounts, vm.path) && Unmergeable(vm, volumes)
  {
    MountsAtMembers(mounts, path);
    var vm :| vm in MountsAt(mounts, path) && Unmergeable(vm, volumes);
  }

  lemma MountBlocks(mounts: seq<VolumeMount>, volumes: seq<Volume>, vm: VolumeMount)
    requires vm in mounts && Contested(mounts, vm.path) && Unmergeable(vm, volumes)
    ensures Blocked(MountsAt(mounts, vm.path), volumes)
  {
    MountsAtMembers(mounts, vm.path);
  }

  /** Merging fails exactly when a contested path has a mount with a sub-path, a claim or an unknown volume type. */
  lemma FailsExactlyWhenUnmergeable(r: Resources, naming: string -> string)
    ensures MergeProjected(r, naming).Err? <==>
            exists vm :: vm in r.mounts && Contested(r.mounts, vm.path) && Unmergeable(vm, r.volumes)
  {
    SortedPathsUsed(r.mounts);
    FailsOnUsedPaths(StableSort(StringLess, Paths(r.mounts)), r.mounts, r.volumes, naming);
    forall p: string ensures Contested(r.mounts, p) ==> Collides(r.mounts) { ContestedCollides(r.mounts, p); }
  }

  /** No two mounts of the result share a path. */
  lemma MergedPathsAreDistinct(r: Resources, naming: string -> string, i: nat, j: nat)
    requires MergeProjected(r, naming).Ok? && i < j < |MergeProjected(r, naming).value.mounts|
    ensures var mounts := MergeProjected(r, naming).value.mounts; mounts[i].path != mounts[j].path
  {
    if Collides(r.mounts) {
      var paths := StableSort(StringLess, Paths(r.mounts));
      SortedPathsUsed(r.mounts);
      OneMountPerPath(paths, r.mounts, r.volumes, naming);
    }
  }

  /** A merged volume is a listed one kept for a single mount, or the projected volume of a contested path. */
  ghost predicate Accounted(v: Volume, m: Merged, paths: seq<string>, r: Resources, naming: string -> string) {
    || (v.name in m.single && v in r.volumes)
    || (exists p :: p in paths && Contested(r.mounts, p) && Projection(p, MountsAt(r.mounts, p), r.volumes, naming).Ok?
                    && v == Projection(p, MountsAt(r.mounts, p), r.volumes, naming).value.1)
  }

  ghost predicate MergedOk(m: Merged, paths: seq<string>, r: Resources, naming: string -> string) {
    && (forall vm :: vm in m.mounts ==> Names(m.volumes, vm.name))
    && DistinctNames(m.volumes)
    && (forall v :: v in m.volumes ==> Accounted(v, m, paths, r, naming))
    && (forall n :: n in m.single ==> Names(m.volumes, n) && Names(r.volumes, n))
  }

  lemma NamesSnoc(volumes: seq<Volume>, v: Volume, n: string)
    ensures Names(volumes + [v], n) <==> Names(volumes, n) || v.name == n
  {
    if Names(volumes, n) {
      var w :| w in volumes && w.name == n;
      assert w in volumes + [v];
    }
    if v.name == n { assert v in volumes + [v]; }
  }

  lemma AppendVolume(volumes: seq<Volume>, v: Volume)
    requires DistinctNames(volumes) && !Names(volumes, v.name)
    ensures DistinctNames(volumes + [v])
  {
    forall i | 0 <= i < |volumes| ensures volumes[i].name != v.name { assert volumes[i] in volumes; }
  }

  lemma {:induction false} AssembleOk(paths: seq<string>, r: Resources, naming: string -> string)
    requires WellFormed(r, naming) && Distinct(paths) && Assemble(paths, r.mounts, r.volumes, naming).Ok?
    ensures MergedOk(Assemble(paths, r.mounts, r.volumes, naming).value, paths, r, naming)
  {
    if paths != [] {
      var init, last := paths[..|paths| - 1], paths[|paths| - 1];
      assert paths == init + [last] && last !in init;
      AssembleOk(init, r, naming);
      var m, m' := Assemble(init, r.mounts, r.volumes, naming).value,
          Assemble(paths, r.mounts, r.volumes, naming).value;
      var at := MountsAt(r.mounts, last);
      MountsAtMembers(r.mounts, last);
      FirstTwoAreMembers(at);
      forall v | v in m.volumes ensures Accounted(v, m', paths, r, naming) {
        assert Accounted(v, m, init, r, naming);
      }
      if |at| == 1 {
        ExtendSingle(m, m', init, last, at[0], r, naming);
      } else if |at| >= 2 {
        ExtendProjected(m, m', init, last, r, naming);
      }
    }
  }

  lemma ExtendSingle(m: Merged, m': Merged, init: seq<string>, path: string, vm: VolumeMount, r: Resources,
                     naming: string -> string)
    requires WellFormed(r, naming) && MergedOk(m, init, r, naming) && vm in r.mounts
    requires Extend(m, path, [vm], r.volumes, naming) == Ok(m')
    requires forall v :: v in m.volumes ==> Accounted(v, m', init + [path], r, naming)
    ensures MergedOk(m', init + [path], r, naming)
  {
    var volume := Lookup(r.volumes, vm.name);
    LookupNamed(r.volumes, vm.name);
    assert volume.name == vm.name;
    if volume.name !in m.single {
      assert !Names(m.volumes, volume.name) by {
        forall v | v in m.volumes ensures v.name != volume.name {
          assert Accounted(v, m, init, r, naming);
        }
      }
      AppendVolume(m.volumes, volume);
      forall n ensures Names(m'.volumes, n) <==> Names(m.volumes, n) || n == volume.name {
        NamesSnoc(m.volumes, volume, n);
      }
    }
  }

  lemma ExtendProjected(m: Merged, m': Merged, init: seq<string>, path: string, r: Resources, naming: string -> string)
    requires WellFormed(r, naming) && MergedOk(m, init, r, naming) && path !in init && Contested(r.mounts, path)
    requires Extend(m, path, MountsAt(r.mounts, path), r.volumes, naming) == Ok(m')
    requires forall v :: v in m.volumes ==> Accounted(v, m', init + [path], r, naming)
    ensures MergedOk(m', init + [path], r, naming)
  {
    var (vm, volume) := Projection(path, MountsAt(r.mounts, path), r.volumes, naming).value;
    assert !Names(m.volumes, volume.name) by {
      forall v | v in m.volumes ensures v.name != volume.name {
        assert Accounted(v, m, init, r, naming);
      }
    }
    AppendVolume(m.volumes, volume);
    forall n ensures Names(m'.volumes, n) <==> Names(m.volumes, n) || n == volume.name {
      NamesSnoc(m.volumes, volume, n);
    }
    assert Accounted(volume, m', init + [path], r, naming) by { assert path in init + [path]; }
  }

  lemma DistinctMergedIsClosed(r: Resources, naming: string -> string)
    requires WellFormed(r, naming) && MergeProjected(r, naming).Ok?
    ensures Closed(MergeProjected(r, naming).value) && DistinctNames(MergeProjected(r, naming).value.volumes)
  {
    if Collides(r.mounts) {
      SortedPathsUsed(r.mounts);
      AssembleOk(StableSort(StringLess, Paths(r.mounts)), r, naming);
    }
  }

  // ----- conservation -----

  type Exposure = (string, VolumeSource)

  function Pairs(path: string, sources: seq<VolumeSource>): seq<Exposure> {
    seq(|sources|, i requires 0 <= i < |sources| => (path, sources[i]))
  }

  /** What a mount makes visible at its path: its volume's source, or the sources projected into it. */
  function Exposed(vm: VolumeMount, volumes: seq<Volume>): seq<Exposure> {
    var source := Lookup(volumes, vm.name).source;
    if source.Projected? then Pairs(vm.path, source.sources) else [(vm.path, source)]
  }

  /** Everything a list of mounts makes visible, with multiplicity. */
  function Bag(mounts: seq<VolumeMount>, volumes: seq<Volume>): multiset<Exposure> {
    if mounts == [] then multiset{}
    else Bag(mounts[..|mounts| - 1], volumes) + multiset(Exposed(mounts[|mounts| - 1], volumes))
  }

  function BagByPath(paths: seq<string>, mounts: seq<VolumeMount>, volumes: seq<Volume>): multiset<Exposure> {
    if paths == [] then multiset{}
    else BagByPath(paths[..|paths| - 1], mounts, volumes) + Bag(MountsAt(mounts, paths[|paths| - 1]), volumes)
  }

  lemma BagSnoc(mounts: seq<VolumeMount>, vm: VolumeMount, volumes: seq<Volume>)
    ensures Bag(mounts + [vm], volumes) == Bag(mounts, volumes) + multiset(Exposed(vm, volumes))
  {
    assert (mounts + [vm])[..|mounts|] == mounts;
  }

  lemma MountsAtSnoc(front: seq<VolumeMount>, vm: VolumeMount, path: string)
    ensures MountsAt(front + [vm], path) == MountsAt(front, path) + (if vm.path == path then [vm] else [])
  {
    assert (front + [vm])[..|front|] == front;
  }

  lemma BagAtSnoc(front: seq<VolumeMount>, vm: VolumeMount, path: string, volumes: seq<Volume>)
    ensures Bag(MountsAt(front + [vm], path), volumes) ==
            if vm.path == path then Bag(MountsAt(front, path), volumes) + multiset(Exposed(vm, volumes))
            else Bag(MountsAt(front, path), volumes)
  {
    MountsAtSnoc(front, vm, path);
    if vm.path == path {
      BagSnoc(MountsAt(front, path), vm, volumes);
    } else {
      assert MountsAt(front + [vm], path) == MountsAt(front, path);
    }
  }

  lemma Reassociate<T>(a: multiset<T>, b: multiset<T>, e: multiset<T>)
    ensures a + e + b == a + b + e && a + (b + e) == a + b + e
  {
  }

  lemma {:induction false} BagByPathSnoc(paths: seq<string>, front: seq<VolumeMount>, vm: VolumeMount,
                                         volumes: seq<Volume>)
    requires Distinct(paths)
    ensures BagByPath(paths, front + [vm], volumes) ==
            if vm.path in paths then BagByPath(paths, front, volumes) + multiset(Exposed(vm, volumes))
            else BagByPath(paths, front, volumes)
  {
    if paths != [] {
      var init, last := paths[..|paths| - 1], paths[|paths| - 1];
      assert paths == init + [last];
      DistinctPrefix(init, last);
      BagByPathSnoc(init, front, vm, volumes);
      BagAtSnoc(front, vm, last, volumes);
      Reassociate(BagByPath(init, front, volumes), Bag(MountsAt(front, last), volumes), multiset(Exposed(vm, volumes)));
    }
  }

  lemma {:induction false} BagOfNothing(paths: seq<string>, volumes: seq<Volume>)
    ensures BagByPath(paths, [], volumes) == multiset{}
  {
    if paths != [] { BagOfNothing(paths[..|paths| - 1], volumes); }
  }

  lemma {:induction false} BagSplitsByPath(paths: seq<string>, mounts: seq<VolumeMount>, volumes: seq<Volume>)
    requires Distinct(paths) && forall vm :: vm in mounts ==> vm.path in paths
    ensures Bag(mounts, volumes) == BagByPath(paths, mounts, volumes)
  {
    if mounts == [] {
      BagOfNothing(paths, volumes);
    } else {
      var init, last := mounts[..|mounts| - 1], mounts[|mounts| - 1];
      assert mounts == init + [last];
      BagSplitsByPath(paths, init, volumes);
      BagByPathSnoc(paths, init, last, volumes);
    }
  }

  lemma {:induction false} PairsMultiset(path: string, s: seq<VolumeSource>, e: Exposure)
    ensures multiset(Pairs(path, s))[e] == if e.0 == path then multiset(s)[e.1] else 0
  {
    if s != [] {
      var init, last := s[..|s| - 1], s[|s| - 1];
      PairsMultiset(path, init, e);
      assert s == init + [last];
      assert Pairs(path, s) == Pairs(path, init) + [(path, last)];
      SnocMultiset(init, last);
      SnocMultiset(Pairs(path, init), (path, last));
    }
  }

  /** Mounts that can be projected expose the sources that the projection lists. */
  lemma {:induction false} BagOfProjectable(path: string, at: seq<VolumeMount>, volumes: seq<Volume>)
    requires forall vm :: vm in at ==> vm.path == path && Projectable(vm, volumes)
    ensures Bag(at, volumes) == multiset(Pairs(path, SourcesOf(at, volumes)))
  {
    if at != [] {
      var init, last := at[..|at| - 1], at[|at| - 1];
      assert at == init + [last] && last in at;
      BagOfProjectable(path, init, volumes);
      assert Projectable(last, volumes);
      PairsStep(path, at, volumes);
      SnocMultiset(Pairs(path, SourcesOf(init, volumes)), (path, Lookup(volumes, last.name).source));
    }
  }

  lemma PairsStep(path: string, at: seq<VolumeMount>, volumes: seq<Volume>)
    requires at != []
    ensures Pairs(path, SourcesOf(at, volumes)) ==
            Pairs(path, SourcesOf(at[..|at| - 1], volumes)) + [(path, Lookup(volumes, at[|at| - 1].name).source)]
  {
    var init, source := at[..|at| - 1], Lookup(volumes, at[|at| - 1].name).source;
    assert SourcesOf(at, volumes) == SourcesOf(init, volumes) + [source];
  }

  lemma SourceLessIsStrictWeakOrder()
    ensures StrictWeakOrder(SourceLess)
    ensures forall a, b :: Equivalent(SourceLess, a, b) <==> SameKey(a, b)
  {
    forall a, b ensures SourceLess(a, b) ==> !SourceLess(b, a)
                ensures Equivalent(SourceLess, a, b) <==> SameKey(a, b) {
      StringLessAsymmetric(NameOf(a), NameOf(b));
      StringLessTotal(NameOf(a), NameOf(b));
    }
    forall a, b, c ensures !SourceLess(a, b) && !SourceLess(b, c) ==> !SourceLess(a, c) {
      StringLessNegTransitive(NameOf(a), NameOf(b), NameOf(c));
    }
  }

  predicate SameKey(a: VolumeSource, b: VolumeSource) {
    a.ConfigMap? == b.ConfigMap? && NameOf(a) == NameOf(b)
  }

  lemma SortedSourcesMultiset(s: seq<VolumeSource>)
    ensures multiset(StableSort(SourceLess, s)) == multiset(s)
  {
    SourceLessIsStrictWeakOrder();
    StableSortCorrect(SourceLess, s);
  }

  /** The projected volume of a contested path exposes what its mounts exposed. */
  lemma ProjectionConserves(path: string, at: seq<VolumeMount>, volumes: seq<Volume>, naming: string -> string,
                            out: seq<Volume>)
    requires Projection(path, at, volumes, naming).Ok? && forall vm :: vm in at ==> vm.path == path
    requires var (vm, volume) := Projection(path, at, volumes, naming).value; Lookup(out, vm.name) == volume
    ensures var (vm, volume) := Projection(path, at, volumes, naming).value;
            multiset(Exposed(vm, out)) == Bag(at, volumes)
  {
    var sources := SourcesOf(at, volumes);
    SortedSourcesMultiset(sources);
    BagOfProjectable(path, at, volumes);
    var sorted := StableSort(SourceLess, sources);
    forall e ensures multiset(Pairs(path, sorted))[e] == multiset(Pairs(path, sources))[e] {
      PairsMultiset(path, sorted, e);
      PairsMultiset(path, sources, e);
    }
    assert multiset(Pairs(path, sorted)) == multiset(Pairs(path, sources));
  }

  lemma {:induction false} AssembledVolumesPersist(paths: seq<string>, i: nat, mounts: seq<VolumeMount>,
                                                   volumes: seq<Volume>,
                                                   naming: string -> string)
    requires i <= |paths| && Assemble(paths, mounts, volumes, naming).Ok?
    ensures Assemble(paths[..i], mounts, volumes, naming).Ok?
    ensures Assemble(paths[..i], mounts, volumes, naming).value.volumes <=
            Assemble(paths, mounts, volumes, naming).value.volumes
  {
    if i < |paths| {
      AssembledVolumesPersist(paths[..|paths| - 1], i, mounts, volumes, naming);
      assert paths[..|paths| - 1][..i] == paths[..i];
    } else {
      assert paths[..i] == paths;
    }
  }

  lemma {:induction false} AssembleConserves(paths: seq<string>, i: nat, r: Resources, naming: string -> string,
                                             out: seq<Volume>)
    requires WellFormed(r, naming) && Distinct(paths) && Used(paths, r.mounts) && i <= |paths|
    requires Assemble(paths, r.mounts, r.volumes, naming).Ok?
             && Assemble(paths, r.mounts, r.volumes, naming).value.volumes == out
    ensures Assemble(paths[..i], r.mounts, r.volumes, naming).Ok?
    ensures Bag(Assemble(paths[..i], r.mounts, r.volumes, naming).value.mounts, out) ==
            BagByPath(paths[..i], r.mounts, r.volumes)
  {
    AssembledVolumesPersist(paths, i, r.mounts, r.volumes, naming);
    if i > 0 {
      AssembleConserves(paths, i - 1, r, naming, out);
      var m := Assemble(paths[..i - 1], r.mounts, r.volumes, naming).value;
      AssembleStep(paths, i - 1, r.mounts, r.volumes, naming, m);
      assert paths[..i][..i - 1] == paths[..i - 1] && paths[i - 1] in paths;
      var m' := Assemble(paths[..i], r.mounts, r.volumes, naming).value;
      var vm := StepConserves(paths, i, m, m', r, naming, out);
      BagSnoc(m.mounts, vm, out);
    }
  }

  /** The mount added for one path exposes, in the final volumes, what the path's mounts exposed. */
  lemma StepConserves(paths: seq<string>, i: nat, m: Merged, m': Merged, r: Resources, naming: string -> string,
                      out: seq<Volume>)
    returns (vm: VolumeMount)
    requires WellFormed(r, naming) && Distinct(paths) && 0 < i <= |paths| && MountsAt(r.mounts, paths[i - 1]) != []
    requires Assemble(paths, r.mounts, r.volumes, naming).Ok?
             && Assemble(paths, r.mounts, r.volumes, naming).value.volumes == out
    requires m'.volumes <= out && Assemble(paths[..i - 1], r.mounts, r.volumes, naming) == Ok(m)
    requires Extend(m, paths[i - 1], MountsAt(r.mounts, paths[i - 1]), r.volumes, naming) == Ok(m')
    ensures m'.mounts == m.mounts + [vm]
    ensures multiset(Exposed(vm, out)) == Bag(MountsAt(r.mounts, paths[i - 1]), r.volumes)
  {
    var path := paths[i - 1];
    var at := MountsAt(r.mounts, path);
    assert DistinctNames(out) by { AssembleOk(paths, r, naming); }
    MountsAtMembers(r.mounts, path);
    if |at| == 1 {
      vm := at[0];
      assert at == [vm] && vm in at;
      SingleVolumeKept(paths, i, m, m', r, naming, out, vm);
      SingleConserves(r, vm, out);
    } else {
      vm := Projection(path, at, r.volumes, naming).value.0;
      ProjectedConserves(path, at, m, m', r.volumes, naming, out);
    }
  }

  lemma SingleConserves(r: Resources, vm: VolumeMount, out: seq<Volume>)
    requires Lookup(out, vm.name) == Lookup(r.volumes, vm.name)
    ensures multiset(Exposed(vm, out)) == Bag([vm], r.volumes)
  {
    assert [] + [vm] == [vm];
    BagSnoc([], vm, r.volumes);
  }

  lemma ProjectedConserves(path: string, at: seq<VolumeMount>, m: Merged, m': Merged, volumes: seq<Volume>,
                           naming: string -> string, out: seq<Volume>)
    requires |at| > 1 && Extend(m, path, at, volumes, naming) == Ok(m') && m'.volumes <= out && DistinctNames(out)
    requires forall vm :: vm in at ==> vm.path == path
    ensures Projection(path, at, volumes, naming).Ok?
    ensures multiset(Exposed(Projection(path, at, volumes, naming).value.0, out)) == Bag(at, volumes)
  {
    var volume := Projection(path, at, volumes, naming).value.1;
    assert m'.volumes[|m.volumes|] == volume;
    assert volume in out;
    LookupFinds(out, volume);
    ProjectionConserves(path, at, volumes, naming, out);
  }

  lemma SingleVolumeKept(paths: seq<string>, i: nat, m: Merged, m': Merged, r: Resources, naming: string -> string,
                         out: seq<Volume>, vm: VolumeMount)
    requires WellFormed(r, naming) && Distinct(paths) && 0 < i <= |paths| && vm in r.mounts && m'.volumes <= out
    requires Assemble(paths[..i - 1], r.mounts, r.volumes, naming) == Ok(m)
    requires Extend(m, paths[i - 1], [vm], r.volumes, naming) == Ok(m')
    requires DistinctNames(out)
    ensures Lookup(out, vm.name) == Lookup(r.volumes, vm.name)
  {
    var volume := Lookup(r.volumes, vm.name);
    LookupNamed(r.volumes, vm.name);
    var front := paths[..i - 1];
    assert Distinct(front);
    AssembleOk(front, r, naming);
    assert volume in out by {
      if volume.name in m.single {
        var v :| v in m.volumes && v.name == volume.name;
        assert Accounted(v, m, front, r, naming);
        assert v in r.volumes;
        LookupFinds(r.volumes, v);
        assert v in m'.volumes;
      } else {
        assert m'.volumes[|m.volumes|] == volume;
      }
    }
    LookupFinds(out, volume);
  }

  lemma DistinctMergingConserves(r: Resources, naming: string -> string)
    requires WellFormed(r, naming) && MergeProjected(r, naming).Ok?
    ensures var out := MergeProjected(r, naming).value; Bag(out.mounts, out.volumes) == Bag(r.mounts, r.volumes)
  {
    if Collides(r.mounts) {
      SortedPathsUsed(r.mounts);
      PathsConserve(StableSort(StringLess, Paths(r.mounts)), r, naming);
    }
  }

  lemma PathsConserve(paths: seq<string>, r: Resources, naming: string -> string)
    requires WellFormed(r, naming) && Assemble(paths, r.mounts, r.volumes, naming).Ok?
    requires Distinct(paths) && Used(paths, r.mounts)
    requires forall p :: p in paths <==> exists vm :: vm in r.mounts && vm.path == p
    ensures var m := Assemble(paths, r.mounts, r.volumes, naming).value;
            Bag(m.mounts, m.volumes) == Bag(r.mounts, r.volumes)
  {
    BagSplitsByPath(paths, r.mounts, r.volumes);
    assert paths[..|paths|] == paths;
    AssembleConserves(paths, |paths|, r, naming, Assemble(paths, r.mounts, r.volumes, naming).value.volumes);
  }

  // ----- independence of the input order -----

  ghost predicate Permuted(r: Resources, r': Resources) {
    multiset(r.mounts) == multiset(r'.mounts) && multiset(r.volumes) == multiset(r'.volumes) && r.envFrom == r'.envFrom
  }

  /** Sources projected into one path that look alike to the sort are the same. */
  ghost predicate SourcesDetermined(r: Resources) {
    forall a, b :: a in r.mounts && b in r.mounts && a.path == b.path
                   && SameKey(Lookup(r.volumes, a.name).source, Lookup(r.volumes, b.name).source)
                   ==> Lookup(r.volumes, a.name).source == Lookup(r.volumes, b.name).source
  }

  lemma {:induction false} LookupMissing(volumes: seq<Volume>, name: string)
    requires !Names(volumes, name)
    ensures Lookup(volumes, name) == Volume("", UnknownSource)
  {
    if volumes != [] {
      var init, last := volumes[..|volumes| - 1], volumes[|volumes| - 1];
      assert volumes == init + [last] && last in volumes;
      forall v | v in init ensures v.name != name { assert v in volumes; }
      LookupMissing(init, name);
    }
  }

  lemma DistinctNamesPermuted(a: seq<Volume>, b: seq<Volume>)
    requires DistinctNames(a) && multiset(a) == multiset(b)
    ensures DistinctNames(b)
  {
    assert Distinct(a);
    DistinctAsMultiset(a);
    DistinctAsMultiset(b);
    SameMultisetSameMembers(a, b);
    forall i, j | 0 <= i < j < |b| ensures b[i].name != b[j].name {
      assert b[i] in a && b[j] in a && b[i] != b[j];
      LookupFinds(a, b[i]);
      LookupFinds(a, b[j]);
    }
  }

  lemma LookupPermuted(a: seq<Volume>, b: seq<Volume>, name: string)
    requires DistinctNames(a) && multiset(a) == multiset(b)
    ensures Lookup(a, name) == Lookup(b, name)
  {
    DistinctNamesPermuted(a, b);
    SameMultisetSameMembers(a, b);
    if v :| v in a && v.name == name {
      LookupFinds(a, v);
      LookupFinds(b, v);
    } else {
      LookupMissing(a, name);
      LookupMissing(b, name);
    }
  }

  lemma {:induction false} MountsAtMultiset(mounts: seq<VolumeMount>, path: string, vm: VolumeMount)
    ensures multiset(MountsAt(mounts, path))[vm] == if vm.path == path then multiset(mounts)[vm] else 0
  {
    if mounts != [] {
      var init, last := mounts[..|mounts| - 1], mounts[|mounts| - 1];
      MountsAtMultiset(init, path, vm);
      assert mounts == init + [last];
      SnocMultiset(init, last);
      SnocMultiset(MountsAt(init, path), last);
    }
  }

  lemma MountsAtPermuted(a: seq<VolumeMount>, b: seq<VolumeMount>, path: string)
    requires multiset(a) == multiset(b)
    ensures multiset(MountsAt(a, path)) == multiset(MountsAt(b, path))
    ensures |MountsAt(a, path)| == |MountsAt(b, path)|
  {
    forall vm ensures multiset(MountsAt(a, path))[vm] == multiset(MountsAt(b, path))[vm] {
      MountsAtMultiset(a, path, vm);
      MountsAtMultiset(b, path, vm);
    }
    assert multiset(MountsAt(a, path)) == multiset(MountsAt(b, path));
    assert |multiset(MountsAt(a, path))| == |MountsAt(a, path)| && |multiset(MountsAt(b, path))| == |MountsAt(b, path)|;
  }

  lemma SourcesAround(front: seq<VolumeMount>, vm: VolumeMount, back: seq<VolumeMount>, volumes: seq<Volume>)
    ensures multiset(SourcesOf(front + [vm] + back, volumes)) ==
            multiset(SourcesOf(front + back, volumes)) + multiset{Lookup(volumes, vm.name).source}
  {
    var source := Lookup(volumes, vm.name).source;
    assert SourcesOf(front + [vm] + back, volumes) == SourcesOf(front, volumes) + [source] + SourcesOf(back, volumes);
    assert SourcesOf(front + back, volumes) == SourcesOf(front, volumes) + SourcesOf(back, volumes);
    MiddleMultiset(SourcesOf(front, volumes), source, SourcesOf(back, volumes));
  }

  lemma SplitAt<T>(b: seq<T>, x: T) returns (front: seq<T>, back: seq<T>)
    requires x in multiset(b)
    ensures b == front + [x] + back && multiset(b) == multiset(front + back) + multiset{x}
  {
    var k :| 0 <= k < |b| && b[k] == x;
    front, back := b[..k], b[k + 1..];
    MiddleMultiset(front, x, back);
  }

  lemma SameRest(a: multiset<VolumeMount>, b: multiset<VolumeMount>, x: VolumeMount)
    requires a + multiset{x} == b + multiset{x}
    ensures a == b
  {
    assert a + multiset{x} - multiset{x} == a && b + multiset{x} - multiset{x} == b;
  }

  lemma {:induction false} SourcesMultiset(a: seq<VolumeMount>, b: seq<VolumeMount>, volumes: seq<Volume>)
    requires multiset(a) == multiset(b)
    ensures multiset(SourcesOf(a, volumes)) == multiset(SourcesOf(b, volumes))
  {
    if a == [] {
      assert |multiset(b)| == 0;
      assert b == [];
    } else {
      var init, last := a[..|a| - 1], a[|a| - 1];
      assert a == init + [last] + [] && init + [] == init;
      assert multiset(a) == multiset(init) + multiset{last} by { MiddleMultiset(init, last, []); }
      var front, back := SplitAt(b, last);
      SameRest(multiset(init), multiset(front + back), last);
      SourcesMultiset(init, front + back, volumes);
      SourcesAround(init, last, [], volumes);
      SourcesAround(front, last, back, volumes);
    }
  }

  lemma SourcesOfAgree(at: seq<VolumeMount>, v: seq<Volume>, w: seq<Volume>)
    requires forall n :: Lookup(v, n) == Lookup(w, n)
    ensures SourcesOf(at, v) == SourcesOf(at, w)
  {
  }

  lemma ProjectionPermuted(path: string, a: seq<VolumeMount>, b: seq<VolumeMount>, v: seq<Volume>, w: seq<Volume>,
                           naming: string -> string)
    requires multiset(a) == multiset(b) && forall n :: Lookup(v, n) == Lookup(w, n)
    requires forall x, y :: x in SourcesOf(a, v) && y in SourcesOf(a, v) && SameKey(x, y) ==> x == y
    ensures Projection(path, a, v, naming) == Projection(path, b, w, naming)
  {
    SameMultisetSameMembers(a, b);
    forall vm: VolumeMount ensures Blocks(vm, v) == Blocks(vm, w) && Projectable(vm, v) == Projectable(vm, w) {}
    SourcesMultiset(a, b, v);
    SourcesOfAgree(b, v, w);
    SourceLessIsStrictWeakOrder();
    SortOfPermutation(SourceLess, SourcesOf(a, v), SourcesOf(b, v));
  }

  lemma DeterminedAt(r: Resources, path: string)
    requires SourcesDetermined(r)
    ensures var s := SourcesOf(MountsAt(r.mounts, path), r.volumes);
            forall x, y :: x in s && y in s && SameKey(x, y) ==> x == y
  {
    MountsAtMembers(r.mounts, path);
    var at := MountsAt(r.mounts, path);
    var s := SourcesOf(at, r.volumes);
    forall x, y | x in s && y in s && SameKey(x, y) ensures x == y {
      var i :| 0 <= i < |s| && s[i] == x;
      var j :| 0 <= j < |s| && s[j] == y;
      assert at[i] in at && at[j] in at;
    }
  }

  /** Looking up a name gives the same volume in both. */
  ghost predicate SameLookups(v: seq<Volume>, w: seq<Volume>) {
    forall n :: Lookup(v, n) == Lookup(w, n)
  }

  lemma ExtendPermuted(m: Merged, path: string, r: Resources, r': Resources, naming: string -> string)
    requires multiset(r.mounts) == multiset(r'.mounts) && SameLookups(r.volumes, r'.volumes) && SourcesDetermined(r)
    ensures Extend(m, path, MountsAt(r.mounts, path), r.volumes, naming) ==
            Extend(m, path, MountsAt(r'.mounts, path), r'.volumes, naming)
  {
    var a, b := MountsAt(r.mounts, path), MountsAt(r'.mounts, path);
    MountsAtPermuted(r.mounts, r'.mounts, path);
    assert |a| == |b| by { assert |a| == |multiset(a)| && |b| == |multiset(b)|; }
    if |a| == 1 {
      assert a == b by {
        SameMultisetSameMembers(a, b);
        assert a[0] in a && a[0] in b;
      }
    } else {
      DeterminedAt(r, path);
      ProjectionPermuted(path, a, b, r.volumes, r'.volumes, naming);
    }
  }

  lemma {:induction false} AssemblePermuted(paths: seq<string>, r: Resources, r': Resources, naming: string -> string)
    requires multiset(r.mounts) == multiset(r'.mounts) && SameLookups(r.volumes, r'.volumes) && SourcesDetermined(r)
    ensures Assemble(paths, r.mounts, r.volumes, naming) == Assemble(paths, r'.mounts, r'.volumes, naming)
  {
    if paths != [] {
      AssemblePermuted(paths[..|paths| - 1], r, r', naming);
      var before := Assemble(paths[..|paths| - 1], r.mounts, r.volumes, naming);
      if before.Ok? { ExtendPermuted(before.value, paths[|paths| - 1], r, r', naming); }
    }
  }

  lemma CollidesByCount(mounts: seq<VolumeMount>)
    ensures Collides(mounts) <==> exists p :: Contested(mounts, p)
  {
    forall p ensures Contested(mounts, p) ==> Collides(mounts) { ContestedCollides(mounts, p); }
    if Collides(mounts) {
      var i, j :| 0 <= i < j < |mounts| && mounts[i].path == mounts[j].path;
      CollisionContests(mounts, i, j);
    }
  }

  lemma {:induction false} CollisionContests(mounts: seq<VolumeMount>, i: nat, j: nat)
    requires i < j < |mounts| && mounts[i].path == mounts[j].path
    ensures Contested(mounts, mounts[i].path)
  {
    var init, last := mounts[..|mounts| - 1], mounts[|mounts| - 1];
    assert mounts == init + [last];
    MountsAtSnoc(init, last, mounts[i].path);
    if j < |init| {
      CollisionContests(init, i, j);
    } else {
      MountsAtMembers(init, mounts[i].path);
      assert init[i] in init && init[i] in MountsAt(init, mounts[i].path);
    }
  }

  /** On colliding input, with sources the sort can tell apart, the order of mounts and volumes does not matter. */
  lemma OrderDoesNotMatter(r: Resources, r': Resources, naming: string -> string)
    requires DistinctNames(r.volumes) && Permuted(r, r') && SourcesDetermined(r) && Collides(r.mounts)
    ensures MergeProjected(r, naming) == MergeProjected(r', naming)
  {
    forall n ensures Lookup(r.volumes, n) == Lookup(r'.volumes, n) { LookupPermuted(r.volumes, r'.volumes, n); }
    LookupsDecide(r, r', naming);
  }

  /** Of the volumes, merging sees only what looking up their names gives. */
  lemma LookupsDecide(r: Resources, r': Resources, naming: string -> string)
    requires multiset(r.mounts) == multiset(r'.mounts) && SameLookups(r.volumes, r'.volumes) && r.envFrom == r'.envFrom
    requires SourcesDetermined(r) && Collides(r.mounts)
    ensures MergeProjected(r, naming) == MergeProjected(r', naming)
  {
    CollidesByCount(r.mounts);
    CollidesByCount(r'.mounts);
    var p :| Contested(r.mounts, p);
    MountsAtPermuted(r.mounts, r'.mounts, p);
    assert Contested(r'.mounts, p);
    PathsMembers(r.mounts);
    PathsMembers(r'.mounts);
    SameMultisetSameMembers(r.mounts, r'.mounts);
    SortedStringsDetermined(Paths(r.mounts), Paths(r'.mounts));
    AssemblePermuted(StableSort(StringLess, Paths(r.mounts)), r, r', naming);
  }

  lemma {:induction false} ContestedVolumePresent(paths: seq<string>, r: Resources, naming: string -> string,
                                                  path: string)
    requires Assemble(paths, r.mounts, r.volumes, naming).Ok? && path in paths && Contested(r.mounts, path)
    ensures Projection(path, MountsAt(r.mounts, path), r.volumes, naming).Ok?
    ensures Projection(path, MountsAt(r.mounts, path), r.volumes, naming).value.1
            in Assemble(paths, r.mounts, r.volumes, naming).value.volumes
  {
    var init, last := paths[..|paths| - 1], paths[|paths| - 1];
    assert paths == init + [last];
    if path != last {
      ContestedVolumePresent(init, r, naming, path);
    } else {
      var v := Assemble(paths, r.mounts, r.volumes, naming).value.volumes;
      assert v[|v| - 1] == Projection(path, MountsAt(r.mounts, path), r.volumes, naming).value.1;
    }
  }

  /** The projected volume of a contested path is in the result, under the name derived from the path. */
  lemma ProjectedVolumeInResult(r: Resources, naming: string -> string, path: string) returns (v: Volume)
    requires MergeProjected(r, naming).Ok? && Contested(r.mounts, path)
    ensures v in MergeProjected(r, naming).value.volumes
    ensures v == Volume(naming(path), Projected(StableSort(SourceLess, SourcesOf(MountsAt(r.mounts, path), r.volumes))))
  {
    ContestedCollides(r.mounts, path);
    SortedStrings(Paths(r.mounts));
    ContestedVolumePresent(StableSort(StringLess, Paths(r.mounts)), r, naming, path);
    v := Projection(path, MountsAt(r.mounts, path), r.volumes, naming).value.1;
  }

  lemma SourcesAtFront(a: VolumeMount, b: VolumeMount, rest: seq<VolumeMount>, volumes: seq<Volume>)
    requires a.path == b.path
    ensures var s := SourcesOf(MountsAt(rest, a.path), volumes);
            SourcesOf(MountsAt([a, b] + rest, a.path), volumes) ==
            [Lookup(volumes, a.name).source, Lookup(volumes, b.name).source] + s
    ensures Contested([a, b] + rest, a.path)
  {
    MountsAtConcat([a, b], rest, a.path);
    assert [a, b] == [] + [a] + [b];
    MountsAtSnoc([], a, a.path);
    MountsAtSnoc([] + [a], b, a.path);
    assert MountsAt([a, b], a.path) == [a, b];
  }

  lemma {:induction false} MountsAtConcat(s: seq<VolumeMount>, t: seq<VolumeMount>, path: string)
    ensures MountsAt(s + t, path) == MountsAt(s, path) + MountsAt(t, path)
  {
    if t == [] {
      assert s + t == s;
    } else {
      var init, last := t[..|t| - 1], t[|t| - 1];
      MountsAtConcat(s, init, path);
      assert s + t == s + init + [last] && t == init + [last];
      MountsAtSnoc(s + init, last, path);
      MountsAtSnoc(init, last, path);
    }
  }

  /** Two alike but different sources at one path: swapping their mounts gives a different result. */
  lemma SwappedMountsDiffer(r: Resources, naming: string -> string, a: VolumeMount, b: VolumeMount,
                            rest: seq<VolumeMount>)
    requires WellFormed(r, naming) && r.mounts == [a, b] + rest && a.path == b.path
    requires SameKey(Lookup(r.volumes, a.name).source, Lookup(r.volumes, b.name).source)
    requires Lookup(r.volumes, a.name).source != Lookup(r.volumes, b.name).source
    requires MergeProjected(r, naming).Ok?
    ensures MergeProjected(r, naming) != MergeProjected(r.(mounts := [b, a] + rest), naming)
  {
    var r' := r.(mounts := [b, a] + rest);
    if MergeProjected(r, naming) == MergeProjected(r', naming) {
      SourcesAtFront(a, b, rest, r.volumes);
      SourcesAtFront(b, a, rest, r.volumes);
      var v := ProjectedVolumeInResult(r, naming, a.path);
      var w := ProjectedVolumeInResult(r', naming, a.path);
      DistinctMergedIsClosed(r, naming);
      LookupFinds(MergeProjected(r, naming).value.volumes, v);
      LookupFinds(MergeProjected(r, naming).value.volumes, w);
      SourceLessIsStrictWeakOrder();
      SwapIsVisible(SourceLess, Lookup(r.volumes, a.name).source, Lookup(r.volumes, b.name).source,
                    SourcesOf(MountsAt(rest, a.path), r.volumes));
    }
  }

  lemma PullToFront<T>(s: seq<T>, a: T, b: T) returns (rest: seq<T>)
    requires a in s && b in s && a != b
    ensures multiset(s) == multiset([a, b] + rest) == multiset([b, a] + rest)
  {
    var front, back := SplitAt(s, a);
    assert b in multiset(front + back);
    var front', back' := SplitAt(front + back, b);
    rest := front' + back';
    PairMultiset(a, b, rest);
    PairMultiset(b, a, rest);
  }

  lemma PairMultiset<T>(a: T, b: T, rest: seq<T>)
    ensures multiset([a, b] + rest) == multiset(rest) + multiset{b} + multiset{a}
  {
    assert multiset([a, b] + rest) == multiset([a, b]) + multiset(rest);
    assert multiset([a, b]) == multiset{a, b} == multiset{b} + multiset{a};
  }

  /**
   On colliding input that merges, the result is the same for every order of mounts exactly
   when sources that compare equal at one path are equal.
   */
  lemma OrderIndependentExactlyWhenDetermined(r: Resources, naming: string -> string)
    requires WellFormed(r, naming) && Collides(r.mounts) && MergeProjected(r, naming).Ok?
    ensures (forall r' :: Permuted(r, r') ==> MergeProjected(r', naming) == MergeProjected(r, naming))
            <==> SourcesDetermined(r)
  {
    if SourcesDetermined(r) {
      forall r' | Permuted(r, r') ensures MergeProjected(r', naming) == MergeProjected(r, naming) {
        OrderDoesNotMatter(r, r', naming);
      }
    } else {
      var a, b :| a in r.mounts && b in r.mounts && a.path == b.path
                  && SameKey(Lookup(r.volumes, a.name).source, Lookup(r.volumes, b.name).source)
                  && Lookup(r.volumes, a.name).source != Lookup(r.volumes, b.name).source;
      OrderMatters(r, naming, a, b);
    }
  }

  lemma OrderMatters(r: Resources, naming: string -> string, a: VolumeMount, b: VolumeMount)
    requires WellFormed(r, naming) && a in r.mounts && b in r.mounts && a.path == b.path
    requires SameKey(Lookup(r.volumes, a.name).source, Lookup(r.volumes, b.name).source)
    requires Lookup(r.volumes, a.name).source != Lookup(r.volumes, b.name).source
    requires MergeProjected(r, naming).Ok?
    ensures exists r' :: Permuted(r, r') && MergeProjected(r', naming) != MergeProjected(r, naming)
  {
    var rest := PullToFront(r.mounts, a, b);
    var r1, r2 := r.(mounts := [a, b] + rest), r.(mounts := [b, a] + rest);
    assert Permuted(r, r1) && Permuted(r, r2);
    if MergeProjected(r1, naming) == MergeProjected(r, naming) {
      SameMultisetSameMembers(r.mounts, r1.mounts);
      SwappedMountsDiffer(r1, naming, a, b, rest);
      assert r1.(mounts := [b, a] + rest) == r2;
    }
  }

  /** An input whose result depends on the order: one configmap projected twice with different items. */
  lemma OrderCanMatter(naming: string -> string)
    requires FreshNaming(naming, [Volume("a", ConfigMap("cm", ["x"])), Volume("b", ConfigMap("cm", ["y"]))])
    ensures var r := Resources([Volume("a", ConfigMap("cm", ["x"])), Volume("b", ConfigMap("cm", ["y"]))],
                               [VolumeMount("a", "/p", "", "", true), VolumeMount("b", "/p", "", "", true)], []);
            && MergeProjected(r, naming).Ok?
            && exists r' :: Permuted(r, r') && MergeProjected(r', naming) != MergeProjected(r, naming)
  {
    var va, vb := Volume("a", ConfigMap("cm", ["x"])), Volume("b", ConfigMap("cm", ["y"]));
    var ma, mb := VolumeMount("a", "/p", "", "", true), VolumeMount("b", "/p", "", "", true);
    var r := Resources([va, vb], [ma, mb], []);
    LookupFinds(r.volumes, va);
    LookupFinds(r.volumes, vb);
    assert va in r.volumes && vb in r.volumes && ma in r.mounts && mb in r.mounts;
    assert WellFormed(r, naming);
    FailsExactlyWhenUnmergeable(r, naming);
    OrderMatters(r, naming, ma, mb);
  }

  /**
   sort.Slice need not be stable. Where sources that compare equal are equal, every sort gives
   what the stable one does.
   */
  lemma AnySortAgrees(sources: seq<VolumeSource>, sorted: seq<VolumeSource>)
    requires multiset(sorted) == multiset(sources) && Sorted(SourceLess, sorted)
    requires forall a, b :: a in sources && b in sources && SameKey(a, b) ==> a == b
    ensures sorted == StableSort(SourceLess, sources)
  {
    SourceLessIsStrictWeakOrder();
    StableSortCorrect(SourceLess, sources);
    forall x ensures Class(SourceLess, sources, x) == Class(SourceLess, sorted, x) {
      ClassOfPermutation(SourceLess, sources, sorted, x);
    }
    SortedIsDetermined(SourceLess, sorted, StableSort(SourceLess, sources));
  }

  /** And only there: a sort has one possible result if and only if sources that compare equal are equal. */
  lemma SortIsUniqueExactlyWhenDetermined(sources: seq<VolumeSource>)
    ensures (forall s, t :: SortOf(sources, s) && SortOf(sources, t) ==> s == t)
            <==> forall a, b :: a in sources && b in sources && SameKey(a, b) ==> a == b
  {
    if a, b :| a in sources && b in sources && SameKey(a, b) && a != b {
      SourceLessIsStrictWeakOrder();
      var rest := PullToFront(sources, a, b);
      SwapIsVisible(SourceLess, a, b, rest);
      StableSortCorrect(SourceLess, [a, b] + rest);
      StableSortCorrect(SourceLess, [b, a] + rest);
      assert SortOf(sources, StableSort(SourceLess, [a, b] + rest));
      assert SortOf(sources, StableSort(SourceLess, [b, a] + rest));
    } else {
      forall s, t | SortOf(sources, s) && SortOf(sources, t) ensures s == t {
        AnySortAgrees(sources, s);
        AnySortAgrees(sources, t);
      }
    }
  }

  ghost predicate SortOf(sources: seq<VolumeSource>, sorted: seq<VolumeSource>) {
    multiset(sorted) == multiset(sources) && Sorted(SourceLess, sorted)
  }

  // ----- volumes that share a name -----

  /** Closed, with fresh names for projected volumes; volume names need not be distinct. */
  ghost predicate Usable(r: Resources, naming: string -> string) {
    Closed(r) && FreshNaming(naming, r.volumes)
  }

  function Without(volumes: seq<Volume>, name: string): seq<Volume> {
    if volumes == [] then []
    else
      var last := volumes[|volumes| - 1];
      Without(volumes[..|volumes| - 1], name) + if last.name == name then [] else [last]
  }

  /** The last volume of each name. */
  function LastOfEach(volumes: seq<Volume>): seq<Volume> {
    if volumes == [] then []
    else
      var last := volumes[|volumes| - 1];
      Without(LastOfEach(volumes[..|volumes| - 1]), last.name) + [last]
  }

  lemma {:induction false} WithoutMember(volumes: seq<Volume>, name: string, v: Volume)
    ensures v in Without(volumes, name) <==> v in volumes && v.name != name
  {
    if volumes != [] {
      WithoutMember(volumes[..|volumes| - 1], name, v);
      assert volumes == volumes[..|volumes| - 1] + [volumes[|volumes| - 1]];
    }
  }

  lemma {:induction false} WithoutDistinct(volumes: seq<Volume>, name: string)
    requires DistinctNames(volumes)
    ensures DistinctNames(Without(volumes, name))
  {
    if volumes != [] {
      var init, last := volumes[..|volumes| - 1], volumes[|volumes| - 1];
      WithoutDistinct(init, name);
      if last.name != name {
        forall v | v in Without(init, name) ensures v.name != last.name {
          WithoutMember(init, name, v);
          var i :| 0 <= i < |init| && init[i] == v;
        }
        AppendVolume(Without(init, name), last);
      } else {
        assert Without(volumes, name) == Without(init, name);
      }
    }
  }

  lemma WithoutNames(volumes: seq<Volume>, name: string)
    ensures forall v :: v in Without(volumes, name) <==> v in volumes && v.name != name
    ensures DistinctNames(volumes) ==> DistinctNames(Without(volumes, name))
  {
    forall v ensures v in Without(volumes, name) <==> v in volumes && v.name != name {
      WithoutMember(volumes, name, v);
    }
    if DistinctNames(volumes) { WithoutDistinct(volumes, name); }
  }

  lemma {:induction false} WithoutLookup(volumes: seq<Volume>, name: string, n: string)
    ensures n != name ==> Lookup(Without(volumes, name), n) == Lookup(volumes, n)
  {
    if volumes != [] {
      var init, last := volumes[..|volumes| - 1], volumes[|volumes| - 1];
      WithoutLookup(init, name, n);
      if last.name != name { LookupSnoc(Without(init, name), last, n); }
      else { assert Without(volumes, name) == Without(init, name); }
    }
  }

  lemma LookupSnoc(volumes: seq<Volume>, v: Volume, n: string)
    ensures Lookup(volumes + [v], n) == if v.name == n then v else Lookup(volumes, n)
  {
    assert (volumes + [v])[..|volumes|] == volumes;
  }

  lemma {:induction false} LastOfEachNames(volumes: seq<Volume>)
    ensures DistinctNames(LastOfEach(volumes))
    ensures forall v :: v in LastOfEach(volumes) ==> v in volumes
    ensures forall n :: Names(volumes, n) ==> Names(LastOfEach(volumes), n)
  {
    if volumes != [] {
      var init, last := volumes[..|volumes| - 1], volumes[|volumes| - 1];
      var rest := LastOfEach(init);
      LastOfEachNames(init);
      WithoutNames(rest, last.name);
      AppendVolume(Without(rest, last.name), last);
      assert volumes == init + [last];
      forall n | Names(volumes, n) ensures Names(LastOfEach(volumes), n) {
        LastOfEachName(init, last, n);
      }
    }
  }

  lemma LastOfEachName(init: seq<Volume>, last: Volume, n: string)
    requires Names(init + [last], n) && (Names(init, n) ==> Names(LastOfEach(init), n))
    ensures Names(Without(LastOfEach(init), last.name) + [last], n)
  {
    var kept := Without(LastOfEach(init), last.name) + [last];
    if n == last.name {
      assert last in kept;
    } else {
      var v :| v in init + [last] && v.name == n;
      assert v in init;
      var w :| w in LastOfEach(init) && w.name == n;
      WithoutNames(LastOfEach(init), last.name);
      assert w in kept;
    }
  }

  lemma {:induction false} LastOfEachLookup(volumes: seq<Volume>, n: string)
    ensures Lookup(LastOfEach(volumes), n) == Lookup(volumes, n)
  {
    if volumes != [] {
      var init, last := volumes[..|volumes| - 1], volumes[|volumes| - 1];
      LastOfEachLookup(init, n);
      WithoutLookup(LastOfEach(init), last.name, n);
      LookupSnoc(Without(LastOfEach(init), last.name), last, n);
    }
  }

  lemma ProjectionByLookup(path: string, at: seq<VolumeMount>, v: seq<Volume>, w: seq<Volume>, naming: string -> string)
    requires SameLookups(v, w)
    ensures Projection(path, at, v, naming) == Projection(path, at, w, naming)
  {
    forall vm: VolumeMount ensures Blocks(vm, v) == Blocks(vm, w) && Projectable(vm, v) == Projectable(vm, w) {}
    SourcesOfAgree(at, v, w);
  }

  lemma {:induction false} AssembleByLookup(paths: seq<string>, mounts: seq<VolumeMount>, v: seq<Volume>,
                                            w: seq<Volume>,
                                            naming: string -> string)
    requires SameLookups(v, w)
    ensures Assemble(paths, mounts, v, naming) == Assemble(paths, mounts, w, naming)
  {
    if paths != [] {
      AssembleByLookup(paths[..|paths| - 1], mounts, v, w, naming);
      ProjectionByLookup(paths[|paths| - 1], MountsAt(mounts, paths[|paths| - 1]), v, w, naming);
    }
  }

  lemma {:induction false} BagByLookup(mounts: seq<VolumeMount>, v: seq<Volume>, w: seq<Volume>)
    requires SameLookups(v, w)
    ensures Bag(mounts, v) == Bag(mounts, w)
  {
    if mounts != [] { BagByLookup(mounts[..|mounts| - 1], v, w); }
  }

  /** Merging with only the last volume of each name: the same, where paths collide. */
  lemma MergeWithLast(r: Resources, naming: string -> string) returns (last: Resources)
    requires Usable(r, naming)
    ensures last == r.(volumes := LastOfEach(r.volumes)) && WellFormed(last, naming)
    ensures SameLookups(r.volumes, last.volumes)
    ensures Collides(r.mounts) ==> MergeProjected(last, naming) == MergeProjected(r, naming)
    ensures !Collides(r.mounts) ==> MergeProjected(last, naming) == Ok(last) && MergeProjected(r, naming) == Ok(r)
  {
    last := r.(volumes := LastOfEach(r.volumes));
    LastOfEachNames(r.volumes);
    forall n ensures Lookup(r.volumes, n) == Lookup(last.volumes, n) { LastOfEachLookup(r.volumes, n); }
    AssembleByLookup(StableSort(StringLess, Paths(r.mounts)), r.mounts, r.volumes, last.volumes, naming);
  }

  /** Every (path, source) of the input is exposed by the result exactly as often, as a mount or inside a projection. */
  lemma MergingConserves(r: Resources, naming: string -> string)
    requires Usable(r, naming) && MergeProjected(r, naming).Ok?
    ensures var out := MergeProjected(r, naming).value; Bag(out.mounts, out.volumes) == Bag(r.mounts, r.volumes)
  {
    var last := MergeWithLast(r, naming);
    DistinctMergingConserves(last, naming);
    BagByLookup(r.mounts, r.volumes, last.volumes);
  }

  /** Every mount of the result names a volume of the result; merged or given so, those have distinct names. */
  lemma MergedIsClosed(r: Resources, naming: string -> string)
    requires Usable(r, naming) && MergeProjected(r, naming).Ok?
    ensures Closed(MergeProjected(r, naming).value)
    ensures Collides(r.mounts) || DistinctNames(r.volumes) ==> DistinctNames(MergeProjected(r, naming).value.volumes)
  {
    var last := MergeWithLast(r, naming);
    DistinctMergedIsClosed(last, naming);
  }
}
