/**
 What the operator passes to the merge of automounted volumes: the configmaps, then the secrets it
 lists, each with a volume named after it (pkg/provision/automount/common.go,
 pkg/provision/automount/configmap.go and pkg/provision/automount/secret.go). A configmap and a
 secret of one name thus get volumes of one name.
 */
module AutomountListing {
  import opened Options
  import opened Sorting
  import opened Automount

  /** A configmap or secret with the places it is to be mounted at. */
  datatype Object = Object(source: VolumeSource, mounts: seq<VolumeMount>)

  /** Objects of one kind, as the cluster lists them: names are distinct, and mounts name the object's volume. */
  ghost predicate Kind(os: seq<Object>, configMaps: bool) {
    && (forall o :: o in os ==> if configMaps then o.source.ConfigMap? else o.source.Secret?)
    && (forall o, m :: o in os && m in o.mounts ==> m.name == NameOf(o.source))
    && (forall i, j :: 0 <= i < j < |os| ==> NameOf(os[i].source) != NameOf(os[j].source))
  }

  function VolumeFor(o: Object): Volume {
    Volume(NameOf(o.source), o.source)
  }

  function VolumesOf(os: seq<Object>): seq<Volume> {
    seq(|os|, i requires 0 <= i < |os| => VolumeFor(os[i]))
  }

  function MountsOf(os: seq<Object>): seq<VolumeMount> {
    if os == [] then [] else MountsOf(os[..|os| - 1]) + os[|os| - 1].mounts
  }

  function Listing(configMaps: seq<Object>, secrets: seq<Object>): Resources {
    Resources(VolumesOf(configMaps) + VolumesOf(secrets), MountsOf(configMaps + secrets), [])
  }

  function Placed(mounts: seq<VolumeMount>, source: VolumeSource): multiset<Exposure> {
    if mounts == [] then multiset{}
    else Placed(mounts[..|mounts| - 1], source) + multiset{(mounts[|mounts| - 1].path, source)}
  }

  /** What mounting the objects is meant to make visible. */
  function Intended(os: seq<Object>): multiset<Exposure> {
    if os == [] then multiset{} else Intended(os[..|os| - 1]) + Placed(os[|os| - 1].mounts, os[|os| - 1].source)
  }

  /** Some mounted configmap has the name of a listed secret. */
  ghost predicate Hidden(configMaps: seq<Object>, secrets: seq<Object>) {
    exists c, s :: c in configMaps && c.mounts != [] && s in secrets && NameOf(s.source) == NameOf(c.source)
  }

  // ----- volumes of a listing -----

  lemma VolumesMembers(os: seq<Object>)
    ensures forall v :: v in VolumesOf(os) <==> exists o :: o in os && VolumeFor(o) == v
  {
    forall o | o in os ensures VolumeFor(o) in VolumesOf(os) {
      var i :| 0 <= i < |os| && os[i] == o;
      assert VolumesOf(os)[i] == VolumeFor(o);
    }
  }

  lemma VolumesDistinct(os: seq<Object>, configMaps: bool)
    requires Kind(os, configMaps)
    ensures DistinctNames(VolumesOf(os))
  {
  }

  lemma {:induction false} LookupConcat(a: seq<Volume>, b: seq<Volume>, n: string)
    ensures Lookup(a + b, n) == if Names(b, n) then Lookup(b, n) else Lookup(a, n)
  {
    if b == [] {
      assert a + b == a;
    } else {
      var init, last := b[..|b| - 1], b[|b| - 1];
      LookupConcat(a, init, n);
      LookupSnoc(a + init, last, n);
      LookupSnoc(init, last, n);
      assert a + b == a + init + [last] && b == init + [last];
      NamesSnoc(init, last, n);
    }
  }

  /** Secrets come last, so theirs is the volume that a name stands for. */
  lemma ListedLookup(configMaps: seq<Object>, secrets: seq<Object>, o: Object)
    requires Kind(configMaps, true) && Kind(secrets, false)
    ensures o in secrets ==> Lookup(Listing(configMaps, secrets).volumes, NameOf(o.source)) == VolumeFor(o)
    ensures o in configMaps && (forall s :: s in secrets ==> NameOf(s.source) != NameOf(o.source)) ==>
              Lookup(Listing(configMaps, secrets).volumes, NameOf(o.source)) == VolumeFor(o)
  {
    var a, b, n := VolumesOf(configMaps), VolumesOf(secrets), NameOf(o.source);
    LookupConcat(a, b, n);
    VolumesMembers(configMaps);
    VolumesMembers(secrets);
    VolumesDistinct(configMaps, true);
    VolumesDistinct(secrets, false);
    if o in secrets {
      assert VolumeFor(o) in b;
      LookupFinds(b, VolumeFor(o));
    } else if o in configMaps {
      assert VolumeFor(o) in a;
      LookupFinds(a, VolumeFor(o));
    }
  }

  lemma {:induction false} MountsMembers(os: seq<Object>)
    ensures forall m :: m in MountsOf(os) <==> exists o :: o in os && m in o.mounts
  {
    if os != [] {
      var init, last := os[..|os| - 1], os[|os| - 1];
      MountsMembers(init);
      assert os == init + [last];
      assert forall o :: o in os <==> o in init || o == last;
    }
  }

  /** Looking up the name of any mount finds a source of that name. */
  lemma MountSource(configMaps: seq<Object>, secrets: seq<Object>, vm: VolumeMount)
    requires Kind(configMaps, true) && Kind(secrets, false) && vm in Listing(configMaps, secrets).mounts
    ensures Names(Listing(configMaps, secrets).volumes, vm.name)
    ensures var s := Lookup(Listing(configMaps, secrets).volumes, vm.name).source;
            (s.ConfigMap? || s.Secret?) && NameOf(s) == vm.name
    ensures Lookup(Listing(configMaps, secrets).volumes, vm.name).source.ConfigMap? ==>
              forall s :: s in secrets ==> NameOf(s.source) != vm.name
  {
    MountsMembers(configMaps + secrets);
    var o :| o in configMaps + secrets && vm in o.mounts;
    var volumes := Listing(configMaps, secrets).volumes;
    VolumesMembers(configMaps);
    VolumesMembers(secrets);
    assert o in configMaps || o in secrets;
    assert VolumeFor(o) in volumes;
    assert vm.name == NameOf(o.source) == VolumeFor(o).name;
    if s :| s in secrets && NameOf(s.source) == vm.name {
      ListedLookup(configMaps, secrets, s);
    } else {
      ListedLookup(configMaps, secrets, o);
    }
  }

  lemma ListingClosed(configMaps: seq<Object>, secrets: seq<Object>)
    requires Kind(configMaps, true) && Kind(secrets, false)
    ensures Closed(Listing(configMaps, secrets))
  {
    forall vm | vm in Listing(configMaps, secrets).mounts ensures Names(Listing(configMaps, secrets).volumes, vm.name) {
      MountSource(configMaps, secrets, vm);
    }
  }

  // ----- what is meant and what is exposed -----

  lemma {:induction false} BagConcat(a: seq<VolumeMount>, b: seq<VolumeMount>, volumes: seq<Volume>)
    ensures Bag(a + b, volumes) == Bag(a, volumes) + Bag(b, volumes)
  {
    if b == [] {
      BagNothing(a, b, volumes);
    } else {
      var init, last := b[..|b| - 1], b[|b| - 1];
      assert b == init + [last];
      BagConcat(a, init, volumes);
      BagStep(a, init, last, volumes);
    }
  }

  lemma BagNothing(a: seq<VolumeMount>, b: seq<VolumeMount>, volumes: seq<Volume>)
    requires b == []
    ensures Bag(a + b, volumes) == Bag(a, volumes) + Bag(b, volumes)
  {
    assert a + b == a;
    assert Bag(a, volumes) + multiset{} == Bag(a, volumes);
  }

  lemma SnocAssociates<T>(a: seq<T>, b: seq<T>, x: T)
    ensures a + (b + [x]) == a + b + [x]
  {
  }

  lemma BagStep(a: seq<VolumeMount>, init: seq<VolumeMount>, last: VolumeMount, volumes: seq<Volume>)
    requires Bag(a + init, volumes) == Bag(a, volumes) + Bag(init, volumes)
    ensures Bag(a + (init + [last]), volumes) == Bag(a, volumes) + Bag(init + [last], volumes)
  {
    SnocAssociates(a, init, last);
    BagSnoc(a + init, last, volumes);
    BagSnoc(init, last, volumes);
    Reassociate(Bag(a, volumes), Bag(init, volumes), multiset(Exposed(last, volumes)));
  }

  lemma {:induction false} BagPlaced(mounts: seq<VolumeMount>, volumes: seq<Volume>, source: VolumeSource)
    requires !source.Projected? && forall m :: m in mounts ==> Lookup(volumes, m.name).source == source
    ensures Bag(mounts, volumes) == Placed(mounts, source)
  {
    if mounts != [] {
      assert mounts[|mounts| - 1] in mounts;
      BagPlaced(mounts[..|mounts| - 1], volumes, source);
    }
  }

  lemma {:induction false} BagIntended(os: seq<Object>, volumes: seq<Volume>)
    requires forall o :: o in os ==> !o.source.Projected?
    requires forall o, m :: o in os && m in o.mounts ==> Lookup(volumes, m.name).source == o.source
    ensures Bag(MountsOf(os), volumes) == Intended(os)
  {
    if os != [] {
      var init, last := os[..|os| - 1], os[|os| - 1];
      assert forall o :: o in init ==> o in os;
      assert last in os;
      BagIntended(init, volumes);
      BagPlaced(last.mounts, volumes, last.source);
      BagConcat(MountsOf(init), last.mounts, volumes);
    }
  }

  lemma {:induction false} BagMember(mounts: seq<VolumeMount>, volumes: seq<Volume>, e: Exposure)
    requires forall m :: m in mounts ==> !Lookup(volumes, m.name).source.Projected?
    ensures e in Bag(mounts, volumes) ==>
              exists m :: m in mounts && e == (m.path, Lookup(volumes, m.name).source)
  {
    if mounts != [] {
      var init, last := mounts[..|mounts| - 1], mounts[|mounts| - 1];
      assert mounts == init + [last] && last in mounts;
      BagMember(init, volumes, e);
    }
  }

  lemma {:induction false} PlacedMember(mounts: seq<VolumeMount>, source: VolumeSource, m: VolumeMount)
    requires m in mounts
    ensures (m.path, source) in Placed(mounts, source)
  {
    if m != mounts[|mounts| - 1] { PlacedMember(mounts[..|mounts| - 1], source, m); }
  }

  lemma {:induction false} IntendedMember(os: seq<Object>, o: Object, m: VolumeMount)
    requires o in os && m in o.mounts
    ensures (m.path, o.source) in Intended(os)
  {
    if o == os[|os| - 1] { PlacedMember(o.mounts, o.source, m); } else { IntendedMember(os[..|os| - 1], o, m); }
  }

  lemma NotHiddenExposesAll(configMaps: seq<Object>, secrets: seq<Object>)
    requires Kind(configMaps, true) && Kind(secrets, false) && !Hidden(configMaps, secrets)
    ensures var r := Listing(configMaps, secrets); Bag(r.mounts, r.volumes) == Intended(configMaps + secrets)
  {
    var os, volumes := configMaps + secrets, Listing(configMaps, secrets).volumes;
    forall o, m | o in os && m in o.mounts ensures Lookup(volumes, m.name).source == o.source {
      assert o in configMaps || o in secrets;
      ListedLookup(configMaps, secrets, o);
    }
    BagIntended(os, volumes);
  }

  lemma HiddenIsNotExposed(configMaps: seq<Object>, secrets: seq<Object>, c: Object, s: Object)
    requires Kind(configMaps, true) && Kind(secrets, false)
    requires c in configMaps && c.mounts != [] && s in secrets && NameOf(s.source) == NameOf(c.source)
    ensures var r := Listing(configMaps, secrets); Bag(r.mounts, r.volumes) != Intended(configMaps + secrets)
  {
    var r, m := Listing(configMaps, secrets), c.mounts[0];
    var e := (m.path, c.source);
    assert c in configMaps + secrets && m in c.mounts;
    IntendedMember(configMaps + secrets, c, m);
    forall vm | vm in r.mounts ensures Lookup(r.volumes, vm.name).source != c.source
                               ensures !Lookup(r.volumes, vm.name).source.Projected? {
      MountSource(configMaps, secrets, vm);
    }
    BagMember(r.mounts, r.volumes, e);
  }

  /**
   For everything the operator can list: the merged volumes make visible exactly what was meant, each
   as often as meant, if and only if no mounted configmap has the name of a listed secret.
   */
  lemma ListingConservedExactlyUnlessHidden(configMaps: seq<Object>, secrets: seq<Object>, naming: string -> string)
    requires Kind(configMaps, true) && Kind(secrets, false)
    requires FreshNaming(naming, Listing(configMaps, secrets).volumes)
    requires MergeProjected(Listing(configMaps, secrets), naming).Ok?
    ensures var out := MergeProjected(Listing(configMaps, secrets), naming).value;
            Bag(out.mounts, out.volumes) == Intended(configMaps + secrets) <==> !Hidden(configMaps, secrets)
  {
    ListingClosed(configMaps, secrets);
    MergingConserves(Listing(configMaps, secrets), naming);
    if c, s :| c in configMaps && c.mounts != [] && s in secrets && NameOf(s.source) == NameOf(c.source) {
      HiddenIsNotExposed(configMaps, secrets, c, s);
    } else {
      NotHiddenExposesAll(configMaps, secrets);
    }
  }

  /** A configmap and a secret of one name, to be mounted at one path. */
  ghost predicate Clash(c: Object, s: Object, vm: VolumeMount, naming: string -> string) {
    && c.source.ConfigMap? && s.source.Secret? && NameOf(c.source) == NameOf(s.source) == vm.name
    && c.mounts == [vm] && s.mounts == [vm] && vm.subPath == "" && vm.subPathExpr == ""
    && FreshNaming(naming, [VolumeFor(c), VolumeFor(s)])
  }

  lemma ClashMerges(c: Object, s: Object, vm: VolumeMount, naming: string -> string)
    requires Clash(c, s, vm, naming)
    ensures Kind([c], true) && Kind([s], false)
    ensures var r := Listing([c], [s]);
            && r.volumes == [VolumeFor(c), VolumeFor(s)] && r.mounts == [vm, vm]
            && Lookup(r.volumes, vm.name) == VolumeFor(s) && MergeProjected(r, naming).Ok?
            && MountsAt(r.mounts, vm.path) == [vm, vm] && Contested(r.mounts, vm.path)
  {
    var r := Listing([c], [s]);
    assert r.volumes == [VolumeFor(c), VolumeFor(s)];
    MountsOfTwo(c, s);
    assert r.mounts == [vm, vm];
    assert Lookup(r.volumes, vm.name) == VolumeFor(s) by { ListedLookup([c], [s], s); }
    MergesTwice(r, vm, naming);
  }

  /** They are merged, but the secret is projected twice and the configmap not at all. */
  lemma ClashHides(c: Object, s: Object, vm: VolumeMount, naming: string -> string) returns (v: Volume)
    requires Clash(c, s, vm, naming)
    ensures MergeProjected(Listing([c], [s]), naming).Ok?
    ensures v in MergeProjected(Listing([c], [s]), naming).value.volumes && v.source == Projected([s.source, s.source])
  {
    ClashMerges(c, s, vm, naming);
    var r := Listing([c], [s]);
    v := ProjectedVolumeInResult(r, naming, vm.path);
    assert SourcesOf([vm, vm], r.volumes) == [s.source, s.source];
    SortPair(s.source);
  }

  lemma MergesTwice(r: Resources, vm: VolumeMount, naming: string -> string)
    requires r.mounts == [vm, vm] && !Unmergeable(vm, r.volumes)
    ensures MergeProjected(r, naming).Ok? && MountsAt(r.mounts, vm.path) == [vm, vm] && Contested(r.mounts, vm.path)
  {
    FailsExactlyWhenUnmergeable(r, naming);
    MountsAtTwo(vm);
  }

  /** A listing that hides. */
  lemma SameNameHidesConfigMap(naming: string -> string)
    requires FreshNaming(naming, [Volume("x", ConfigMap("x", [])), Volume("x", Secret("x", []))])
    ensures var vm := VolumeMount("x", "/p", "", "", true);
            var c, s := Object(ConfigMap("x", []), [vm]), Object(Secret("x", []), [vm]);
            var merged := MergeProjected(Listing([c], [s]), naming);
            && Kind([c], true) && Kind([s], false) && merged.Ok?
            && Bag(merged.value.mounts, merged.value.volumes) != Intended([c] + [s])
  {
    var vm := VolumeMount("x", "/p", "", "", true);
    var c, s := Object(ConfigMap("x", []), [vm]), Object(Secret("x", []), [vm]);
    assert Clash(c, s, vm, naming);
    ClashMerges(c, s, vm, naming);
    assert Hidden([c], [s]) by { assert c in [c] && s in [s]; }
    ListingConservedExactlyUnlessHidden([c], [s], naming);
  }

  lemma MountsOfTwo(c: Object, s: Object)
    ensures MountsOf([c] + [s]) == c.mounts + s.mounts
  {
    var both := [c] + [s];
    assert both[..1] == [c] && [c][..0] == [];
    assert MountsOf([c]) == [] + c.mounts == c.mounts;
  }

  lemma MountsAtTwo(vm: VolumeMount)
    ensures MountsAt([vm, vm], vm.path) == [vm, vm]
  {
    assert [vm, vm][..1] == [vm] && [vm][..0] == [];
    assert MountsAt([vm], vm.path) == [vm];
  }

  lemma SortPair(s: VolumeSource)
    ensures StableSort(SourceLess, [s, s]) == [s, s]
  {
    StringLessAsymmetric(NameOf(s), NameOf(s));
    assert [s, s][..1] == [s] && [s][..0] == [];
    assert StableSort(SourceLess, [s]) == [s];
  }

  // ----- the order of the listing -----

  lemma {:induction false} MountsPermuted(a: seq<Object>, b: seq<Object>)
    requires multiset(a) == multiset(b)
    ensures multiset(MountsOf(a)) == multiset(MountsOf(b))
  {
    if a == [] {
      assert |multiset(b)| == 0;
      assert b == [];
    } else {
      var init, last := a[..|a| - 1], a[|a| - 1];
      assert a == init + [last];
      var front, back := SplitAt(b, last);
      RestPermuted(init, last, front + back, a, b);
      MountsPermuted(init, front + back);
      MountsAround(front, last, back);
    }
  }

  lemma RestPermuted(init: seq<Object>, last: Object, rest: seq<Object>, a: seq<Object>, b: seq<Object>)
    requires a == init + [last] && multiset(a) == multiset(b) && multiset(b) == multiset(rest) + multiset{last}
    ensures multiset(init) == multiset(rest)
  {
    assert multiset(a) == multiset(init) + multiset{last};
    assert multiset(init) == multiset(a) - multiset{last} && multiset(rest) == multiset(b) - multiset{last};
  }

  lemma {:induction false} MountsConcat(a: seq<Object>, b: seq<Object>)
    ensures MountsOf(a + b) == MountsOf(a) + MountsOf(b)
  {
    if b == [] {
      assert a + b == a;
    } else {
      var init, last := b[..|b| - 1], b[|b| - 1];
      MountsConcat(a, init);
      SnocAssociates(a, init, last);
      assert b == init + [last];
      MountsSnoc(a + init, last);
      MountsSnoc(init, last);
    }
  }

  lemma MountsSnoc(os: seq<Object>, o: Object)
    ensures MountsOf(os + [o]) == MountsOf(os) + o.mounts
  {
    assert (os + [o])[..|os|] == os;
  }

  lemma MountsAround(front: seq<Object>, o: Object, back: seq<Object>)
    ensures multiset(MountsOf(front + [o] + back)) == multiset(MountsOf(front + back)) + multiset(o.mounts)
  {
    MountsConcat(front + [o], back);
    MountsConcat(front, [o]);
    MountsConcat(front, back);
    assert [o][..0] == [] && MountsOf([o]) == [] + o.mounts == o.mounts;
  }

  lemma LookupByMembers(a: seq<Volume>, b: seq<Volume>, n: string)
    requires DistinctNames(a) && DistinctNames(b) && forall v :: v in a <==> v in b
    ensures Lookup(a, n) == Lookup(b, n) && (Names(a, n) <==> Names(b, n))
  {
    if v :| v in a && v.name == n {
      LookupFinds(a, v);
      LookupFinds(b, v);
    } else {
      LookupMissing(a, n);
      LookupMissing(b, n);
    }
  }

  lemma SameVolumesOf(a: seq<Object>, b: seq<Object>, configMaps: bool, n: string)
    requires Kind(a, configMaps) && Kind(b, configMaps) && multiset(a) == multiset(b)
    ensures Lookup(VolumesOf(a), n) == Lookup(VolumesOf(b), n) && (Names(VolumesOf(a), n) <==> Names(VolumesOf(b), n))
  {
    VolumesDistinct(a, configMaps);
    VolumesDistinct(b, configMaps);
    VolumesMembers(a);
    VolumesMembers(b);
    SameMultisetSameMembers(a, b);
    LookupByMembers(VolumesOf(a), VolumesOf(b), n);
  }

  lemma ListingDetermined(configMaps: seq<Object>, secrets: seq<Object>)
    requires Kind(configMaps, true) && Kind(secrets, false)
    ensures SourcesDetermined(Listing(configMaps, secrets))
  {
    var r := Listing(configMaps, secrets);
    forall a, b | a in r.mounts && b in r.mounts && a.path == b.path
                  && SameKey(Lookup(r.volumes, a.name).source, Lookup(r.volumes, b.name).source)
      ensures Lookup(r.volumes, a.name).source == Lookup(r.volumes, b.name).source {
      MountSource(configMaps, secrets, a);
      MountSource(configMaps, secrets, b);
    }
  }

  /** The orders in which the cluster lists configmaps and secrets never show in a merged result. */
  lemma ListingOrderDoesNotMatter(configMaps: seq<Object>, secrets: seq<Object>, configMaps': seq<Object>,
                                  secrets': seq<Object>, naming: string -> string)
    requires Kind(configMaps, true) && Kind(secrets, false) && Kind(configMaps', true) && Kind(secrets', false)
    requires multiset(configMaps) == multiset(configMaps') && multiset(secrets) == multiset(secrets')
    requires Collides(Listing(configMaps, secrets).mounts)
    ensures MergeProjected(Listing(configMaps, secrets), naming) ==
            MergeProjected(Listing(configMaps', secrets'), naming)
  {
    var r, r' := Listing(configMaps, secrets), Listing(configMaps', secrets');
    MountsPermuted(configMaps + secrets, configMaps' + secrets');
    forall n ensures Lookup(r.volumes, n) == Lookup(r'.volumes, n) {
      SameVolumesOf(configMaps, configMaps', true, n);
      SameVolumesOf(secrets, secrets', false, n);
      LookupConcat(VolumesOf(configMaps), VolumesOf(secrets), n);
      LookupConcat(VolumesOf(configMaps'), VolumesOf(secrets'), n);
    }
    ListingDetermined(configMaps, secrets);
    LookupsDecide(r, r', naming);
  }
}
