/**
 The common storage strategy: every persistent volume of every workspace in a namespace is a
 sub-path of one shared claim (pkg/provision/storage/commonStorage.go and
 pkg/provision/storage/shared.go). The claim's own lifecycle - looking for an alternate claim,
 waiting for a terminating one, creating it - is the argument `claim`.
 */
module Storage {
  import opened Options
  import opened Devfile

  datatype VolumeMount = VolumeMount(name: string, path: string, subPath: string)

  datatype Container = Container(name: string, mounts: seq<VolumeMount>)

  datatype PodVolume = EmptyDir(name: string, limit: Option<int>) | Claim(name: string) | OtherVolume(name: string)

  datatype StorageError =
    | BadEphemeralSize | ClaimNotReady | BadPodOverride
    | DuplicateVolume(name: string) | UndefinedVolume(name: string)

  const PROJECTS := "projects"

  predicate IsEphemeral(v: Volume) {
    v.ephemeral == Some(true)
  }

  // ----- what storage a workspace needs -----

  method WorkspaceNeedsStorage(components: seq<Component>, anyMountSources: bool) returns (needs: bool)
    ensures needs <==>
            || (exists c :: c in components && c.body.VolumeBody? && c.body.volume.ephemeral != Some(true))
            || (anyMountSources && !exists c :: c in components && c.body.VolumeBody? && c.name == "projects")
  {
    var projectsVolumeIsEphemeral := false;
    for i := 0 to |components|
      invariant forall j :: 0 <= j < i && IsVolume(components[j]) ==> IsEphemeral(components[j].body.volume)
      invariant projectsVolumeIsEphemeral <==>
                exists j :: 0 <= j < i && IsVolume(components[j]) && components[j].name == PROJECTS
    {
      var c := components[i];
      assert c in components;
      if c.body.VolumeBody? {
        if !IsEphemeral(c.body.volume) { return true; }
        if c.name == PROJECTS { projectsVolumeIsEphemeral := true; }
      }
    }
    return !projectsVolumeIsEphemeral && anyMountSources;
  }

  // ----- the volumes of the devfile -----

  function VolumesOf(cs: seq<Component>): map<string, Volume> {
    if cs == [] then map[]
    else
      var m, c := VolumesOf(cs[..|cs| - 1]), cs[|cs| - 1];
      if IsVolume(c) then m[c.name := c.body.volume] else m
  }

  /** The devfile's volumes and the implicit, persistent projects volume. */
  function DevfileVolumes(cs: seq<Component>): map<string, Volume> {
    if PROJECTS in VolumesOf(cs) then VolumesOf(cs) else VolumesOf(cs)[PROJECTS := Volume(None, NoSize)]
  }

  lemma {:induction false} VolumesOfMembers(cs: seq<Component>)
    ensures forall n :: n in VolumesOf(cs) <==> exists c :: c in cs && IsVolume(c) && c.name == n
    ensures forall n :: n in VolumesOf(cs) ==>
            exists c :: c in cs && IsVolume(c) && c.name == n && c.body.volume == VolumesOf(cs)[n]
  {
    if cs != [] {
      VolumesOfMembers(cs[..|cs| - 1]);
      assert cs == cs[..|cs| - 1] + [cs[|cs| - 1]];
    }
  }

  method CollectVolumes(components: seq<Component>) returns (r: Result<map<string, Volume>, StorageError>)
    ensures r.Ok? <==> DistinctVolumes(components)
    ensures r.Ok? ==> r.value == VolumesOf(components)
    ensures r.Err? ==> r.error.DuplicateVolume?
  {
    var volumes: map<string, Volume> := map[];
    for i := 0 to |components|
      invariant volumes == VolumesOf(components[..i]) && DistinctVolumes(components[..i])
    {
      var c := components[i];
      assert components[..i + 1] == components[..i] + [c];
      CollectNext(components[..i], c);
      if c.body.VolumeBody? {
        if c.name in volumes {
          assert !DistinctVolumes(components[..i + 1]);
          return Err(DuplicateVolume(c.name));
        }
        volumes := volumes[c.name := c.body.volume];
      }
    }
    assert components[..|components|] == components;
    return Ok(volumes);
  }

  lemma CollectNext(front: seq<Component>, c: Component)
    ensures VolumesOf(front + [c]) ==
            if IsVolume(c) then VolumesOf(front)[c.name := c.body.volume] else VolumesOf(front)
    ensures DistinctVolumes(front + [c]) <==> DistinctVolumes(front) && !(IsVolume(c) && c.name in VolumesOf(front))
  {
    var all := front + [c];
    assert all[..|front|] == front;
    VolumesOfMembers(front);
    assert forall i :: 0 <= i < |front| ==> all[i] == front[i];
    if DistinctVolumes(all) {
      forall d | d in front && IsVolume(d) && IsVolume(c) ensures d.name != c.name {
        var i :| 0 <= i < |front| && front[i] == d;
        assert all[i] == d && all[|front|] == c;
      }
    }
  }

  // ----- rewriting mounts -----

  function Rewrite(vm: VolumeMount, volumes: map<string, Volume>, id: string, claim: string): VolumeMount {
    if vm.name in volumes && !IsEphemeral(volumes[vm.name]) then
      vm.(name := claim, subPath := id + "/" + vm.name)
    else vm
  }

  predicate Undefined(vm: VolumeMount, volumes: map<string, Volume>, additional: set<string>) {
    vm.name !in volumes && vm.name !in additional
  }

  function RewriteMounts(mounts: seq<VolumeMount>, volumes: map<string, Volume>, id: string,
                         claim: string): seq<VolumeMount> {
    seq(|mounts|, i requires 0 <= i < |mounts| => Rewrite(mounts[i], volumes, id, claim))
  }

  function RewriteAll(cs: seq<Container>, volumes: map<string, Volume>, id: string, claim: string): seq<Container> {
    seq(|cs|, i requires 0 <= i < |cs| => cs[i].(mounts := RewriteMounts(cs[i].mounts, volumes, id, claim)))
  }

  ghost predicate AllDefined(cs: seq<Container>, volumes: map<string, Volume>, additional: set<string>) {
    forall c, vm :: c in cs && vm in c.mounts ==> !Undefined(vm, volumes, additional)
  }

  predicate MountsDefined(mounts: seq<VolumeMount>, volumes: map<string, Volume>, additional: set<string>) {
    forall i :: 0 <= i < |mounts| ==> !Undefined(mounts[i], volumes, additional)
  }

  /** The place of the first mount that names no known volume, or the end. */
  function FirstUndefined(mounts: seq<VolumeMount>, volumes: map<string, Volume>, additional: set<string>): (n: nat)
    ensures n <= |mounts| && forall i :: 0 <= i < n ==> !Undefined(mounts[i], volumes, additional)
    ensures n < |mounts| ==> Undefined(mounts[n], volumes, additional)
  {
    if mounts == [] || Undefined(mounts[0], volumes, additional) then 0
    else 1 + FirstUndefined(mounts[1..], volumes, additional)
  }

  /** The mounts before that one are rewritten. */
  function RewriteUntil(mounts: seq<VolumeMount>, volumes: map<string, Volume>, additional: set<string>, id: string,
                        claim: string): seq<VolumeMount>
  {
    var n := FirstUndefined(mounts, volumes, additional);
    seq(|mounts|, i requires 0 <= i < |mounts| => if i < n then Rewrite(mounts[i], volumes, id, claim) else mounts[i])
  }

  /** The first container with such a mount, or the end. */
  function FirstBroken(cs: seq<Container>, volumes: map<string, Volume>, additional: set<string>): (n: nat)
    ensures n <= |cs| && forall i :: 0 <= i < n ==> MountsDefined(cs[i].mounts, volumes, additional)
    ensures n < |cs| ==> !MountsDefined(cs[n].mounts, volumes, additional)
  {
    if cs == [] || !MountsDefined(cs[0].mounts, volumes, additional) then 0
    else 1 + FirstBroken(cs[1..], volumes, additional)
  }

  /** The containers up to that one are rewritten, that one in part. */
  function RewriteContainersUntil(cs: seq<Container>, volumes: map<string, Volume>, additional: set<string>, id: string,
                                  claim: string): seq<Container>
  {
    var n := FirstBroken(cs, volumes, additional);
    seq(|cs|, i requires 0 <= i < |cs| =>
      if i <= n then cs[i].(mounts := RewriteUntil(cs[i].mounts, volumes, additional, id, claim)) else cs[i])
  }

  lemma RewriteContainersAll(cs: seq<Container>, volumes: map<string, Volume>, additional: set<string>, id: string,
                             claim: string)
    requires AllDefined(cs, volumes, additional)
    ensures RewriteContainersUntil(cs, volumes, additional, id, claim) == RewriteAll(cs, volumes, id, claim)
  {
    forall i | 0 <= i < |cs| ensures MountsDefined(cs[i].mounts, volumes, additional) {
      forall j | 0 <= j < |cs[i].mounts| ensures !Undefined(cs[i].mounts[j], volumes, additional) {
        assert cs[i] in cs && cs[i].mounts[j] in cs[i].mounts;
      }
    }
    assert FirstBroken(cs, volumes, additional) == |cs|;
    forall i | 0 <= i < |cs|
      ensures RewriteUntil(cs[i].mounts, volumes, additional, id, claim) ==
              RewriteMounts(cs[i].mounts, volumes, id, claim)
    {
      assert FirstUndefined(cs[i].mounts, volumes, additional) == |cs[i].mounts|;
    }
  }

  method RewriteContainerMounts(mounts: seq<VolumeMount>, volumes: map<string, Volume>, additional: set<string>,
                                id: string, claim: string)
    returns (out: seq<VolumeMount>, undefined: Option<string>)
    ensures out == RewriteUntil(mounts, volumes, additional, id, claim)
    ensures undefined.None? <==> MountsDefined(mounts, volumes, additional)
  {
    out, undefined := mounts, None;
    for m := 0 to |mounts|
      invariant |out| == |mounts| && undefined.None?
      invariant forall i :: 0 <= i < m ==> out[i] == Rewrite(mounts[i], volumes, id, claim)
      invariant forall i :: m <= i < |mounts| ==> out[i] == mounts[i]
      invariant forall i :: 0 <= i < m ==> !Undefined(mounts[i], volumes, additional)
    {
      var vm := mounts[m];
      if vm.name !in volumes {
        if vm.name in additional { continue; }
        assert FirstUndefined(mounts, volumes, additional) == m;
        return out, Some(vm.name);
      }
      if !IsEphemeral(volumes[vm.name]) {
        out := out[m := vm.(subPath := id + "/" + vm.name, name := claim)];
      }
    }
  }

  /** The closure that rewrites one list of containers, mount by mount, until a mount names no known volume. */
  method RewriteVolumeMounts(containers: seq<Container>, volumes: map<string, Volume>, additional: set<string>,
                             id: string, claim: string)
    returns (out: seq<Container>, undefined: Option<string>)
    ensures undefined.None? <==> AllDefined(containers, volumes, additional)
    ensures out == RewriteContainersUntil(containers, volumes, additional, id, claim)
  {
    out, undefined := containers, None;
    for c := 0 to |containers|
      invariant |out| == |containers| && undefined.None?
      invariant forall i :: 0 <= i < c ==>
                  out[i] == containers[i].(mounts := RewriteUntil(containers[i].mounts, volumes, additional, id, claim))
      invariant forall i :: c <= i < |containers| ==> out[i] == containers[i]
      invariant forall i :: 0 <= i < c ==> MountsDefined(containers[i].mounts, volumes, additional)
    {
      var mounts;
      mounts, undefined := RewriteContainerMounts(containers[c].mounts, volumes, additional, id, claim);
      out := out[c := containers[c].(mounts := mounts)];
      if undefined.Some? {
        assert FirstBroken(containers, volumes, additional) == c;
        UndefinedMount(containers, c, volumes, additional);
        return;
      }
    }
    forall k | k in containers ensures MountsDefined(k.mounts, volumes, additional) {
      var i :| 0 <= i < |containers| && containers[i] == k;
    }
  }

  lemma UndefinedMount(containers: seq<Container>, c: nat, volumes: map<string, Volume>, additional: set<string>)
    requires c < |containers| && !MountsDefined(containers[c].mounts, volumes, additional)
    ensures !AllDefined(containers, volumes, additional)
  {
    var i :| 0 <= i < |containers[c].mounts| && Undefined(containers[c].mounts[i], volumes, additional);
    assert containers[c] in containers && containers[c].mounts[i] in containers[c].mounts;
  }

  // ----- ephemeral volumes -----

  /** The volumes other than `projects` that are ephemeral, or that are not, in order. */
  function OtherVolumes(cs: seq<Component>, ephemeral: bool): seq<Component> {
    if cs == [] then []
    else
      var c := cs[|cs| - 1];
      OtherVolumes(cs[..|cs| - 1], ephemeral) +
      (if IsVolume(c) && c.name != PROJECTS && IsEphemeral(c.body.volume) == ephemeral then [c] else [])
  }

  /** The last volume named `projects`. */
  function ProjectsVolume(cs: seq<Component>): Option<Component> {
    if cs == [] then None
    else if IsVolume(cs[|cs| - 1]) && cs[|cs| - 1].name == PROJECTS then Some(cs[|cs| - 1])
    else ProjectsVolume(cs[..|cs| - 1])
  }

  predicate EphemeralComponent(c: Component) {
    IsVolume(c) && IsEphemeral(c.body.volume)
  }

  /** The volumes that get an emptyDir: `projects` comes last. */
  function EphemeralVolumes(cs: seq<Component>): seq<Component> {
    var projects := ProjectsVolume(cs);
    OtherVolumes(cs, true) + if projects.Some? && EphemeralComponent(projects.value) then [projects.value] else []
  }

  lemma {:induction false} OtherVolumesMembers(cs: seq<Component>, ephemeral: bool)
    ensures forall c :: c in OtherVolumes(cs, ephemeral) <==>
              c in cs && IsVolume(c) && c.name != PROJECTS && IsEphemeral(c.body.volume) == ephemeral
  {
    if cs != [] {
      OtherVolumesMembers(cs[..|cs| - 1], ephemeral);
      assert cs == cs[..|cs| - 1] + [cs[|cs| - 1]];
    }
  }

  lemma {:induction false} ProjectsVolumeFound(cs: seq<Component>)
    ensures ProjectsVolume(cs).Some? ==>
              var c := ProjectsVolume(cs).value; c in cs && IsVolume(c) && c.name == PROJECTS
    ensures ProjectsVolume(cs).None? ==> forall c :: c in cs && IsVolume(c) ==> c.name != PROJECTS
  {
    if cs != [] {
      ProjectsVolumeFound(cs[..|cs| - 1]);
      assert cs == cs[..|cs| - 1] + [cs[|cs| - 1]];
    }
  }

  /** With distinct names, the volumes that get an emptyDir are exactly the ephemeral ones. */
  lemma EphemeralVolumesMembers(cs: seq<Component>)
    ensures forall c :: c in EphemeralVolumes(cs) ==>
              c in cs && c.body.VolumeBody? && c.body.volume.ephemeral == Some(true)
    ensures DistinctVolumes(cs) ==>
              forall c :: c in cs && c.body.VolumeBody? && c.body.volume.ephemeral == Some(true) ==>
                c in EphemeralVolumes(cs)
  {
    OtherVolumesMembers(cs, true);
    ProjectsVolumeFound(cs);
    if DistinctVolumes(cs) {
      forall c | c in cs && IsVolume(c) && c.name == PROJECTS ensures ProjectsVolume(cs) == Some(c) {
        SameVolume(cs, c, ProjectsVolume(cs).value);
      }
    }
  }

  /** getWorkspaceVolumes: persistent and ephemeral volumes in order, and the last component named projects. */
  method GetWorkspaceVolumes(components: seq<Component>)
    returns (persistent: seq<Component>, ephemeral: seq<Component>, projects: Option<Component>)
    ensures persistent == OtherVolumes(components, false) && ephemeral == OtherVolumes(components, true)
    ensures projects == ProjectsVolume(components)
  {
    persistent, ephemeral, projects := [], [], None;
    for i := 0 to |components|
      invariant persistent == OtherVolumes(components[..i], false) && ephemeral == OtherVolumes(components[..i], true)
      invariant projects == ProjectsVolume(components[..i])
    {
      var c := components[i];
      assert components[..i + 1][..i] == components[..i];
      if c.body.VolumeBody? {
        if c.name == PROJECTS {
          projects := Some(c);
        } else if IsEphemeral(c.body.volume) {
          ephemeral := ephemeral + [c];
        } else {
          persistent := persistent + [c];
        }
      }
    }
    assert components[..|components|] == components;
  }

  ghost predicate Declares(volumes: seq<PodVolume>, name: string) {
    exists v :: v in volumes && v.name == name
  }

  predicate BadlySized(c: Component) {
    IsVolume(c) && c.body.volume.size == BadSize
  }

  /** An emptyDir of the volume's size; one without a size has no limit. */
  function EmptyDirFor(c: Component): PodVolume {
    EmptyDir(c.name,
             if c.body.VolumeBody? && c.body.volume.size.Size? then Some(c.body.volume.size.quantity) else None)
  }

  /** The emptyDirs for the components before the first whose size does not parse. */
  function EmptyDirs(cs: seq<Component>): seq<PodVolume> {
    if cs == [] then []
    else if BadlySized(cs[0]) then []
    else [EmptyDirFor(cs[0])] + EmptyDirs(cs[1..])
  }

  lemma {:induction false} EmptyDirsOfAll(cs: seq<Component>)
    requires forall c :: c in cs ==> !BadlySized(c)
    ensures EmptyDirs(cs) == seq(|cs|, i requires 0 <= i < |cs| => EmptyDirFor(cs[i]))
  {
    if cs != [] {
      assert cs[0] in cs;
      EmptyDirsOfAll(cs[1..]);
    }
  }

  lemma {:induction false} EmptyDirsConcat(a: seq<Component>, b: seq<Component>)
    ensures (exists c :: c in a && BadlySized(c)) ==> EmptyDirs(a + b) == EmptyDirs(a)
    ensures (forall c :: c in a ==> !BadlySized(c)) ==> EmptyDirs(a + b) == EmptyDirs(a) + EmptyDirs(b)
  {
    if a == [] {
      assert a + b == b;
    } else {
      EmptyDirsConcat(a[1..], b);
      assert (a + b)[1..] == a[1..] + b && a == [a[0]] + a[1..];
    }
  }

  method AddEmptyDirs(volumes: seq<PodVolume>, components: seq<Component>) returns (added: seq<PodVolume>, ok: bool)
    requires forall c :: c in components ==> IsVolume(c)
    ensures added == volumes + EmptyDirs(components)
    ensures ok <==> forall c :: c in components ==> !BadlySized(c)
  {
    added, ok := volumes, true;
    for i := 0 to |components|
      invariant forall j :: 0 <= j < i ==> !BadlySized(components[j])
      invariant added + EmptyDirs(components[i..]) == volumes + EmptyDirs(components)
    {
      assert components[i] in components && components[i..][1..] == components[i + 1..];
      if components[i].body.volume.size == BadSize { return added, false; }
      assert added + EmptyDirs(components[i..]) ==
          added + [EmptyDirFor(components[i])] + EmptyDirs(components[i + 1..]);
      added := added + [EmptyDirFor(components[i])];
    }
  }

  // ----- provisioning -----

  /** The pod parts that provisioning rewrites. */
  class PodAdditions {
    var containers: seq<Container>
    var initContainers: seq<Container>
    var volumes: seq<PodVolume>

    constructor (containers: seq<Container>, initContainers: seq<Container>, volumes: seq<PodVolume>)
      ensures this.containers == containers && this.initContainers == initContainers && this.volumes == volumes
    {
      this.containers, this.initContainers, this.volumes := containers, initContainers, volumes;
    }

    /** Appends an emptyDir for every ephemeral volume, up to the first whose size does not parse. */
    method AddEphemeralVolumes(components: seq<Component>) returns (error: Option<StorageError>)
      modifies this`volumes
      ensures volumes == old(volumes) + EmptyDirs(EphemeralVolumes(components))
      ensures error.None? <==> forall c :: c in EphemeralVolumes(components) ==> !BadlySized(c)
      ensures error.Some? ==> error.value == BadEphemeralSize
    {
      var _, ephemeral, projects := GetWorkspaceVolumes(components);
      OtherVolumesMembers(components, true);
      ProjectsVolumeFound(components);
      var ok;
      volumes, ok := AddEmptyDirs(volumes, ephemeral);
      if projects.Some? && IsEphemeral(projects.value.body.volume) {
        EmptyDirsConcat(ephemeral, [projects.value]);
        if !ok { return Some(BadEphemeralSize); }
        volumes, ok := AddEmptyDirs(volumes, [projects.value]);
      } else {
        assert EphemeralVolumes(components) == ephemeral;
      }
      return if ok then None else Some(BadEphemeralSize);
    }

    /**
     ProvisionStorage when persistent storage is needed; `overrides` are the volumes named in pod
     overrides, None if those cannot be read, and `claim` the shared claim, None if it is not ready.
     It succeeds exactly when the claim is ready, the overrides can be read, volume names are
     distinct, ephemeral sizes parse and every mount names a known volume; then every mount was
     rewritten and names a volume the pod or its overrides declare. After an error the mounts before
     the undefined one, if that was it, are rewritten.
     */
    method ProvisionStorage(components: seq<Component>, overrides: Option<set<string>>, id: string,
                            claim: Option<string>)
      returns (error: Option<StorageError>)
      modifies this
      ensures error.None? <==>
                && claim.Some? && overrides.Some? && DistinctVolumes(components)
                && (forall c :: c in components && IsVolume(c) && IsEphemeral(c.body.volume) ==> !BadlySized(c))
                && AllDefined(old(containers), DevfileVolumes(components), Known(old(volumes), overrides.value))
                && AllDefined(old(initContainers), DevfileVolumes(components), Known(old(volumes), overrides.value))
      ensures error.None? ==>
                && claim.Some? && overrides.Some? && DistinctVolumes(components)
                && containers == RewriteAll(old(containers), DevfileVolumes(components), id, claim.value)
                && initContainers == RewriteAll(old(initContainers), DevfileVolumes(components), id, claim.value)
                && volumes == old(volumes) + EmptyDirs(EphemeralVolumes(components)) + [Claim(claim.value)]
      ensures error.None? ==> forall c, vm :: c in containers + initContainers && vm in c.mounts ==>
                Declares(volumes, vm.name) || vm.name in overrides.value
      ensures error.Some? ==> volumes == old(volumes) + EmptyDirs(EphemeralVolumes(components))
      ensures error.Some? && !error.value.UndefinedVolume? ==>
                containers == old(containers) && initContainers == old(initContainers)
      ensures error.Some? && error.value.UndefinedVolume? ==>
                && claim.Some? && overrides.Some?
                && var known := Known(volumes, overrides.value);
                   var devfile := DevfileVolumes(components);
                   && containers == RewriteContainersUntil(old(containers), devfile, known, id, claim.value)
                   && initContainers == if !AllDefined(old(containers), devfile, known) then old(initContainers)
                                        else RewriteContainersUntil(old(initContainers), devfile, known, id,
                                            claim.value)
    {
      EphemeralVolumesMembers(components);
      error := AddEphemeralVolumes(components);
      if error.Some? { return; }
      if claim.None? { return Some(ClaimNotReady); }
      var devfile := CollectVolumes(components);
      if devfile.Err? { return Some(devfile.error); }
      if overrides.None? { return Some(BadPodOverride); }
      var devfileVolumes := devfile.value;
      if PROJECTS !in devfileVolumes { devfileVolumes := devfileVolumes[PROJECTS := Volume(None, NoSize)]; }
      var additional := Known(volumes, overrides.value);
      ghost var pod := volumes;
      PodWithEmptyDirs(components, old(volumes), pod);
      AddedNamesAreDevfileNames(old(containers), components, old(volumes), pod, overrides.value);
      AddedNamesAreDevfileNames(old(initContainers), components, old(volumes), pod, overrides.value);
      var undefined;
      containers, undefined := RewriteVolumeMounts(containers, devfileVolumes, additional, id, claim.value);
      if undefined.Some? { return Some(UndefinedVolume(undefined.value)); }
      initContainers, undefined := RewriteVolumeMounts(initContainers, devfileVolumes, additional, id, claim.value);
      if undefined.Some? { return Some(UndefinedVolume(undefined.value)); }
      RewriteContainersAll(old(containers), devfileVolumes, additional, id, claim.value);
      RewriteContainersAll(old(initContainers), devfileVolumes, additional, id, claim.value);
      volumes := volumes + [Claim(claim.value)];
      assert Claim(claim.value) in volumes;
      RewrittenMountsDeclared(old(containers), components, pod, volumes, overrides.value, id, claim.value);
      RewrittenMountsDeclared(old(initContainers), components, pod, volumes, overrides.value, id, claim.value);
    }
  }

  /** What adding the emptyDirs declares. */
  lemma PodWithEmptyDirs(components: seq<Component>, before: seq<PodVolume>, pod: seq<PodVolume>)
    requires DistinctVolumes(components) && pod == before + EmptyDirs(EphemeralVolumes(components))
    requires forall c :: c in EphemeralVolumes(components) ==> !BadlySized(c)
    ensures forall v :: v in pod ==> v in before || exists c :: c in components && IsVolume(c) && c.name == v.name
    ensures forall c :: c in components && IsVolume(c) && IsEphemeral(c.body.volume) ==> Declares(pod, c.name)
  {
    var cs, dirs := EphemeralVolumes(components), EmptyDirs(EphemeralVolumes(components));
    EphemeralVolumesMembers(components);
    EmptyDirsOfAll(cs);
    forall v | v in dirs ensures exists c :: c in components && IsVolume(c) && c.name == v.name {
      var i :| 0 <= i < |dirs| && dirs[i] == v;
      assert cs[i] in cs;
    }
    forall c | c in cs ensures Declares(pod, c.name) {
      var i :| 0 <= i < |cs| && cs[i] == c;
      assert dirs[i] in pod;
    }
  }

  /** The volume names a mount may use besides the devfile's. */
  function Known(volumes: seq<PodVolume>, overrideVolumes: set<string>): set<string> {
    (set v | v in volumes :: v.name) + overrideVolumes
  }

  lemma AddedNamesAreDevfileNames(cs: seq<Container>, components: seq<Component>, before: seq<PodVolume>,
                                  after: seq<PodVolume>,
                                  overrideVolumes: set<string>)
    requires before <= after
    requires forall v :: v in after ==> v in before || exists c :: c in components && IsVolume(c) && c.name == v.name
    ensures AllDefined(cs, DevfileVolumes(components), Known(before, overrideVolumes))
            <==> AllDefined(cs, DevfileVolumes(components), Known(after, overrideVolumes))
  {
    VolumesOfMembers(components);
    assert Known(before, overrideVolumes) <= Known(after, overrideVolumes) by {
      assert forall v :: v in before ==> v in after;
    }
    var volumes := DevfileVolumes(components);
    assert Known(after, overrideVolumes) <= Known(before, overrideVolumes) + volumes.Keys;
    forall c, vm | c in cs && vm in c.mounts
      ensures Undefined(vm, volumes, Known(before, overrideVolumes)) <==>
              Undefined(vm, volumes, Known(after, overrideVolumes)) {
    }
  }

  lemma SameVolume(cs: seq<Component>, c: Component, d: Component)
    requires DistinctVolumes(cs) && c in cs && d in cs && IsVolume(c) && IsVolume(d) && c.name == d.name
    ensures c == d
  {
    var i :| 0 <= i < |cs| && cs[i] == c;
    var j :| 0 <= j < |cs| && cs[j] == d;
  }

  lemma RewrittenMountsDeclared(cs: seq<Container>, components: seq<Component>, before: seq<PodVolume>,
                                after: seq<PodVolume>,
                                overrideVolumes: set<string>, id: string, claim: string)
    requires AllDefined(cs, DevfileVolumes(components), Known(before, overrideVolumes))
    requires DistinctVolumes(components) && before <= after && Declares(after, claim)
    requires forall c :: c in components && IsVolume(c) && IsEphemeral(c.body.volume) ==> Declares(before, c.name)
    ensures forall c, vm :: c in RewriteAll(cs, DevfileVolumes(components), id, claim) && vm in c.mounts ==>
              Declares(after, vm.name) || vm.name in overrideVolumes
  {
    var volumes := DevfileVolumes(components);
    VolumesOfMembers(components);
    forall i, j | 0 <= i < |cs| && 0 <= j < |cs[i].mounts|
      ensures var vm := Rewrite(cs[i].mounts[j], volumes, id, claim);
              Declares(after, vm.name) || vm.name in overrideVolumes {
      var vm := cs[i].mounts[j];
      assert cs[i] in cs && vm in cs[i].mounts && !Undefined(vm, volumes, Known(before, overrideVolumes));
      if vm.name in volumes && IsEphemeral(volumes[vm.name]) {
        var c :| c in components && IsVolume(c) && c.name == vm.name && c.body.volume == volumes[vm.name];
        var v :| v in before && v.name == vm.name;
        assert v in after;
      } else if vm.name !in volumes && vm.name !in overrideVolumes {
        var v :| v in before && v.name == vm.name;
        assert v in after;
      }
    }
    forall c, vm | c in RewriteAll(cs, volumes, id, claim) && vm in c.mounts
      ensures Declares(after, vm.name) || vm.name in overrideVolumes {
      var i :| 0 <= i < |cs| && RewriteAll(cs, volumes, id, claim)[i] == c;
      var j :| 0 <= j < |c.mounts| && c.mounts[j] == vm;
    }
  }

  // ----- who shares storage -----

  /** Where a mount's data lives: the pod volume and the path inside it. */
  datatype Location = Location(volume: string, subPath: string)

  function LocationOf(vm: VolumeMount): Location {
    Location(vm.name, vm.subPath)
  }

  /**
   Two mounts of devfile volumes share a backing location exactly when they named the same
   devfile volume before rewriting.
   */
  lemma MountsShareExactlyByVolume(a: VolumeMount, b: VolumeMount, volumes: map<string, Volume>, id: string,
                                   claim: string)
    requires a.name in volumes && b.name in volumes && a.subPath == b.subPath == ""
    ensures LocationOf(Rewrite(a, volumes, id, claim)) == LocationOf(Rewrite(b, volumes, id, claim)) <==>
            a.name == b.name
  {
    if !IsEphemeral(volumes[a.name]) && !IsEphemeral(volumes[b.name]) && id + "/" + a.name == id + "/" + b.name {
      assert (id + "/" + a.name)[|id| + 1..] == a.name;
      assert (id + "/" + b.name)[|id| + 1..] == b.name;
    }
    assert |id + "/" + a.name| > 0 && |id + "/" + b.name| > 0;
  }

  /** Sub-paths of different workspaces never coincide, even when one ID starts with the other. */
  lemma WorkspacesDoNotShare(id: string, name: string, other: string, otherName: string)
    requires '/' !in id && '/' !in other
    requires id + "/" + name == other + "/" + otherName
    ensures id == other && name == otherName
  {
    var p, q := id + "/" + name, other + "/" + otherName;
    FirstSlash(id, name);
    FirstSlash(other, otherName);
    assert p[..|id|] == id && q[..|other|] == other;
    assert |id| == |other|;
    assert p[|id| + 1..] == name && q[|other| + 1..] == otherName;
  }

  lemma FirstSlash(id: string, name: string)
    requires '/' !in id
    ensures (id + "/" + name)[|id|] == '/' && forall i :: 0 <= i < |id| ==> (id + "/" + name)[i] != '/'
  {
    assert forall i :: 0 <= i < |id| ==> (id + "/" + name)[i] == id[i] && id[i] in id;
  }

  // ----- in terms of the devfile -----

  /** The devfile has a persistent volume of this name: it says so, or the name is projects and it says nothing. */
  ghost predicate Persists(cs: seq<Component>, name: string) {
    || (exists c :: c in cs && c.body.VolumeBody? && c.name == name && c.body.volume.ephemeral != Some(true))
    || (name == "projects" && forall c :: c in cs && c.body.VolumeBody? ==> c.name != name)
  }

  /**
   A mount of a persistent volume becomes a mount of the claim, at the same path, with the sub-path that the
   workspace's ID and the volume's name make; every other mount stays as it is.
   */
  lemma RewrittenMount(cs: seq<Component>, vm: VolumeMount, id: string, claim: string)
    requires DistinctVolumes(cs)
    ensures Rewrite(vm, DevfileVolumes(cs), id, claim) ==
            if Persists(cs, vm.name) then VolumeMount(claim, vm.path, id + "/" + vm.name) else vm
  {
    VolumesOfMembers(cs);
    if c :| c in cs && c.body.VolumeBody? && c.name == vm.name {
      var d :| d in cs && IsVolume(d) && d.name == vm.name && d.body.volume == VolumesOf(cs)[vm.name];
      forall e | e in cs && e.body.VolumeBody? && e.name == vm.name ensures e == d { SameVolume(cs, e, d); }
    }
  }

  /** Mounts of one claim in two workspaces share data only if they are of one workspace and one volume. */
  lemma ClaimMountsDoNotShare(cs: seq<Component>, a: VolumeMount, id: string, ds: seq<Component>, b: VolumeMount,
                              other: string, claim: string)
    requires DistinctVolumes(cs) && DistinctVolumes(ds) && '/' !in id && '/' !in other
    requires Persists(cs, a.name) && Persists(ds, b.name)
    ensures var x, y := Rewrite(a, DevfileVolumes(cs), id, claim), Rewrite(b, DevfileVolumes(ds), other, claim);
      x.name == y.name == claim && (x.subPath == y.subPath <==> id == other && a.name == b.name)
  {
    RewrittenMount(cs, a, id, claim);
    RewrittenMount(ds, b, other, claim);
    if id + "/" + a.name == other + "/" + b.name { WorkspacesDoNotShare(id, a.name, other, b.name); }
  }

  /** Each ephemeral volume gets an emptyDir of its name and size. */
  lemma EphemeralGetsEmptyDir(cs: seq<Component>, c: Component)
    requires DistinctVolumes(cs) && c in cs && c.body.VolumeBody? && c.body.volume.ephemeral == Some(true)
    requires forall d :: d in cs && d.body.VolumeBody? && d.body.volume.ephemeral == Some(true) ==>
               d.body.volume.size != BadSize
    ensures EmptyDir(c.name, if c.body.volume.size == NoSize then None else Some(c.body.volume.size.quantity))
            in EmptyDirs(EphemeralVolumes(cs))
    ensures |EmptyDirs(EphemeralVolumes(cs))| == |EphemeralVolumes(cs)|
  {
    EphemeralVolumesMembers(cs);
    EmptyDirsOfAll(EphemeralVolumes(cs));
    var i :| 0 <= i < |EphemeralVolumes(cs)| && EphemeralVolumes(cs)[i] == c;
    assert EmptyDirs(EphemeralVolumes(cs))[i] == EmptyDirFor(c);
  }

  /** A mount names a known volume: projects, one of the devfile's, one of the pod's or one of the overrides'. */
  ghost predicate KnownVolume(name: string, cs: seq<Component>, volumes: seq<PodVolume>, overrides: set<string>) {
    || name == "projects"
    || (exists c :: c in cs && c.body.VolumeBody? && c.name == name)
    || (exists v :: v in volumes && v.name == name)
    || name in overrides
  }

  lemma AllDefinedMeans(containers: seq<Container>, cs: seq<Component>, volumes: seq<PodVolume>,
                        overrides: set<string>)
    ensures AllDefined(containers, DevfileVolumes(cs), Known(volumes, overrides)) <==>
            forall c, vm :: c in containers && vm in c.mounts ==> KnownVolume(vm.name, cs, volumes, overrides)
  {
    VolumesOfMembers(cs);
    forall vm: VolumeMount
      ensures Undefined(vm, DevfileVolumes(cs), Known(volumes, overrides)) <==>
              !KnownVolume(vm.name, cs, volumes, overrides) {
    }
  }
}
