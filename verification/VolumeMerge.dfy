/**
 Merging of volume components that a devfile, its parent and its plugins define under one
 name (mergeVolumeComponents and mergeVolume in pkg/library/flatten/merge.go).

 The value functions say what merging computes for any number of component lists, the
 devfile's own list first; `MergeVolumeComponents` is the code, which updates the surviving
 volume through the pointer it shares with the component list.
 */
module VolumeMerge {
  import opened Options
  import opened Devfile

  // ----- what merging computes -----

  function Quantity(size: SizeField): int {
    if size.Size? then size.quantity else 0
  }

  predicate Persistent(v: Volume) {
    v.ephemeral != Some(true)
  }

  function Absorb(into: Volume, from: Volume): Volume {
    Volume(
      if from.ephemeral == Some(true) then into.ephemeral else from.ephemeral,
      if Quantity(from.size) > Quantity(into.size) then from.size else into.size)
  }

  function Combine(defs: seq<Volume>): Volume
    requires defs != []
  {
    if |defs| == 1 then defs[0] else Absorb(Combine(defs[..|defs| - 1]), defs[|defs| - 1])
  }

  function Definitions(cs: seq<Component>, name: string): seq<Volume> {
    if cs == [] then []
    else
      var c := cs[|cs| - 1];
      Definitions(cs[..|cs| - 1], name) + (if IsVolume(c) && c.name == name then [c.body.volume] else [])
  }

  predicate Defined(cs: seq<Component>, name: string) {
    exists c :: c in cs && IsVolume(c) && c.name == name
  }

  /** `cs` without the volumes already defined in `earlier` or before in `cs`. */
  function Survivors(earlier: seq<Component>, cs: seq<Component>): seq<Component> {
    if cs == [] then []
    else
      var init, c := cs[..|cs| - 1], cs[|cs| - 1];
      Survivors(earlier, init) + (if IsVolume(c) && Defined(earlier + init, c.name) then [] else [c])
  }

  function Settle(c: Component, all: seq<Component>): Component {
    if IsVolume(c) && Definitions(all, c.name) != [] then c.(body := VolumeBody(Combine(Definitions(all, c.name))))
    else c
  }

  function SettleAll(cs: seq<Component>, all: seq<Component>): seq<Component> {
    seq(|cs|, i requires 0 <= i < |cs| => Settle(cs[i], all))
  }

  function Concat(lists: seq<seq<Component>>): seq<Component> {
    if lists == [] then [] else Concat(lists[..|lists| - 1]) + lists[|lists| - 1]
  }

  predicate DuplicateVolumes(cs: seq<Component>) {
    exists i, j :: 0 <= i < j < |cs| && IsVolume(cs[i]) && IsVolume(cs[j]) && cs[i].name == cs[j].name
  }

  /** Some name has several definitions, one of them with an unreadable size. */
  predicate Unmergeable(all: seq<Component>) {
    exists c :: c in all && IsVolume(c) && c.body.volume.size == BadSize && |Definitions(all, c.name)| > 1
  }

  function Merged(lists: seq<seq<Component>>, k: nat): seq<Component>
    requires k < |lists|
  {
    SettleAll(Survivors(Concat(lists[..k]), lists[k]), Concat(lists))
  }

  datatype MergeError = DuplicateVolume | InvalidSize

  function MergeVolumes(lists: seq<seq<Component>>): Result<seq<seq<Component>>, MergeError>
    requires lists != []
  {
    if DuplicateVolumes(lists[0]) then Err(DuplicateVolume)
    else if Unmergeable(Concat(lists)) then Err(InvalidSize)
    else Ok(seq(|lists|, k requires 0 <= k < |lists| => Merged(lists, k)))
  }

  // ----- facts about definitions and survivors -----

  lemma {:induction false} DefinitionsConcat(a: seq<Component>, b: seq<Component>, name: string)
    ensures Definitions(a + b, name) == Definitions(a, name) + Definitions(b, name)
  {
    if b == [] { assert a + b == a; }
    else {
      assert (a + b)[..|a + b| - 1] == a + b[..|b| - 1];
      DefinitionsConcat(a, b[..|b| - 1], name);
    }
  }

  lemma {:induction false} DefinitionsMembers(cs: seq<Component>, name: string)
    ensures forall v :: v in Definitions(cs, name) <==>
              exists c :: c in cs && IsVolume(c) && c.name == name && c.body.volume == v
    ensures Definitions(cs, name) != [] <==> Defined(cs, name)
  {
    if cs != [] {
      var init, last := cs[..|cs| - 1], cs[|cs| - 1];
      DefinitionsMembers(init, name);
      assert cs == init + [last];
      assert forall c :: c in cs <==> c in init || c == last;
    }
  }

  /** Size: the largest of all definitions. Persistence: whether any definition is persistent. */
  lemma {:induction false} CombineIsMaximum(defs: seq<Volume>)
    requires defs != []
    ensures forall v :: v in defs ==>
              (if v.size.Size? then v.size.quantity else 0) <=
              (if Combine(defs).size.Size? then Combine(defs).size.quantity else 0)
    ensures exists v :: v in defs && v.size == Combine(defs).size
    ensures Combine(defs).ephemeral != Some(true) <==> exists v :: v in defs && v.ephemeral != Some(true)
  {
    if |defs| > 1 {
      var init, last := defs[..|defs| - 1], defs[|defs| - 1];
      CombineIsMaximum(init);
      assert defs == init + [last];
      assert last in defs && forall v :: v in init ==> v in defs;
      assert forall v :: v in defs ==> v in init || v == last;
      assert Persistent(Combine(defs)) <==> Persistent(Combine(init)) || Persistent(last);
    } else {
      assert defs[0] in defs;
    }
  }

  lemma {:induction false} SurvivorsMembers(earlier: seq<Component>, cs: seq<Component>)
    ensures forall c :: c in Survivors(earlier, cs) ==> c in cs && !(IsVolume(c) && Defined(earlier, c.name))
    ensures forall c :: c in cs && !IsVolume(c) ==> c in Survivors(earlier, cs)
    ensures forall n :: Defined(earlier + cs, n) <==> Defined(earlier, n) || Defined(Survivors(earlier, cs), n)
  {
    if cs == [] {
      assert earlier + cs == earlier;
    } else {
      var init, last := cs[..|cs| - 1], cs[|cs| - 1];
      SurvivorsMembers(earlier, init);
      assert cs == init + [last];
      var s := Survivors(earlier, cs);
      forall n ensures Defined(earlier + cs, n) <==> Defined(earlier, n) || Defined(s, n) {
        DefinedSnoc(earlier + init, last, n);
        assert earlier + init + [last] == earlier + cs;
        DefinedSnoc(Survivors(earlier, init), last, n);
        assert Defined(earlier + init, n) <==> Defined(earlier, n) || Defined(Survivors(earlier, init), n);
      }
      DefinedPrefix(earlier, init, last.name);
    }
  }

  lemma DefinedSnoc(cs: seq<Component>, c: Component, n: string)
    ensures Defined(cs + [c], n) <==> Defined(cs, n) || (IsVolume(c) && c.name == n)
  {
    if Defined(cs + [c], n) {
      var d :| d in cs + [c] && IsVolume(d) && d.name == n;
      assert d in cs || d == c;
    }
    if Defined(cs, n) {
      var d :| d in cs && IsVolume(d) && d.name == n;
      assert d in cs + [c];
    }
    if IsVolume(c) && c.name == n { assert c in cs + [c]; }
  }

  lemma DefinedPrefix(a: seq<Component>, b: seq<Component>, n: string)
    ensures Defined(a, n) ==> Defined(a + b, n)
  {
    if Defined(a, n) {
      var c :| c in a && IsVolume(c) && c.name == n;
      assert c in a + b;
    }
  }

  lemma {:induction false} SurvivorsDistinct(earlier: seq<Component>, cs: seq<Component>)
    ensures DistinctVolumes(Survivors(earlier, cs))
  {
    if cs != [] {
      var init, last := cs[..|cs| - 1], cs[|cs| - 1];
      SurvivorsDistinct(earlier, init);
      SurvivorsMembers(earlier, init);
      var s := Survivors(earlier, init);
      if IsVolume(last) && !Defined(earlier + init, last.name) {
        forall i | 0 <= i < |s| && IsVolume(s[i]) ensures s[i].name != last.name {
          assert s[i] in s;
        }
      }
    }
  }

  function NonVolumes(cs: seq<Component>): seq<Component> {
    if cs == [] then []
    else NonVolumes(cs[..|cs| - 1]) + (if IsVolume(cs[|cs| - 1]) then [] else [cs[|cs| - 1]])
  }

  lemma {:induction false} SurvivorsKeepNonVolumes(earlier: seq<Component>, cs: seq<Component>)
    ensures NonVolumes(Survivors(earlier, cs)) == NonVolumes(cs)
  {
    if cs != [] {
      SurvivorsKeepNonVolumes(earlier, cs[..|cs| - 1]);
      var s := Survivors(earlier, cs[..|cs| - 1]);
      assert (s + [cs[|cs| - 1]])[..|s|] == s && s + [] == s;
    }
  }

  lemma {:induction false} SettleKeepsNonVolumes(cs: seq<Component>, all: seq<Component>)
    ensures NonVolumes(SettleAll(cs, all)) == NonVolumes(cs)
  {
    if cs != [] {
      SettleKeepsNonVolumes(cs[..|cs| - 1], all);
      assert SettleAll(cs, all)[..|cs| - 1] == SettleAll(cs[..|cs| - 1], all);
    }
  }

  lemma {:induction false} ConcatMembers(lists: seq<seq<Component>>)
    ensures forall c :: c in Concat(lists) <==> exists k :: 0 <= k < |lists| && c in lists[k]
  {
    if lists != [] {
      var init := lists[..|lists| - 1];
      ConcatMembers(init);
      forall c ensures c in Concat(lists) <==> exists k :: 0 <= k < |lists| && c in lists[k] {
        if k :| 0 <= k < |lists| && c in lists[k] {
          if k < |init| { assert c in init[k]; }
        }
        if c in Concat(init) {
          var k :| 0 <= k < |init| && c in init[k];
          assert c in lists[k];
        }
        if c in lists[|lists| - 1] {}
      }
    }
  }

  // ----- the theorems -----

  /** A volume has the largest size, and the disjunction of the persistence, of all its definitions. */
  ghost predicate MergedValue(all: seq<Component>, c: Component)
    requires IsVolume(c)
  {
    var v, defs := c.body.volume, Definitions(all, c.name);
    && (forall d :: d in defs ==> Quantity(d.size) <= Quantity(v.size))
    && (exists d :: d in defs && d.size == v.size)
    && (Persistent(v) <==> exists d :: d in defs && Persistent(d))
  }

  /** A surviving volume was not defined in an earlier list and has its merged value. */
  lemma MergedVolume(lists: seq<seq<Component>>, k: nat, c: Component)
    requires k < |lists| && c in Merged(lists, k) && IsVolume(c)
    ensures !Defined(Concat(lists[..k]), c.name) && MergedValue(Concat(lists), c)
  {
    var earlier, all := Concat(lists[..k]), Concat(lists);
    var s := Survivors(earlier, lists[k]);
    var i :| 0 <= i < |s| && c == Settle(s[i], all);
    var o := s[i];
    assert o in s;
    assert o in lists[k] && !Defined(earlier, o.name) by { SurvivorsMembers(earlier, lists[k]); }
    assert o in all by { ConcatMembers(lists); }
    SettledValue(o, all);
  }

  lemma SettledValue(o: Component, all: seq<Component>)
    requires o in all && IsVolume(o)
    ensures Settle(o, all).name == o.name && IsVolume(Settle(o, all)) && MergedValue(all, Settle(o, all))
  {
    DefinitionsMembers(all, o.name);
    CombineIsMaximum(Definitions(all, o.name));
  }

  /**
   The same over the lists themselves: no earlier list defines the volume's name; of all the volumes
   of the name in any list, none asks for more, one asks for just that size, and the volume persists
   exactly if one of them does.
   */
  lemma MergedVolumeMeans(lists: seq<seq<Component>>, k: nat, c: Component)
    requires k < |lists| && c in Merged(lists, k) && c.body.VolumeBody?
    ensures forall l, d :: 0 <= l < |lists| && d in lists[l] && d.body.VolumeBody? && d.name == c.name ==>
              && l >= k
              && (if d.body.volume.size.Size? then d.body.volume.size.quantity else 0) <=
                 (if c.body.volume.size.Size? then c.body.volume.size.quantity else 0)
    ensures exists l, d :: 0 <= l < |lists| && d in lists[l] && d.body.VolumeBody? && d.name == c.name
                           && d.body.volume.size == c.body.volume.size
    ensures c.body.volume.ephemeral != Some(true) <==>
            exists l, d :: 0 <= l < |lists| && d in lists[l] && d.body.VolumeBody? && d.name == c.name
                           && d.body.volume.ephemeral != Some(true)
  {
    var all := Concat(lists);
    MergedVolume(lists, k, c);
    DefinitionsMembers(all, c.name);
    ConcatMembers(lists);
    forall l, d | 0 <= l < |lists| && d in lists[l] && d.body.VolumeBody? && d.name == c.name
      ensures d.body.volume in Definitions(all, c.name)
      ensures l >= k
    {
      DefinedInList(lists, k, l, d);
    }
    DefinedSomewhere(lists, c.name);
  }

  lemma DefinedInList(lists: seq<seq<Component>>, k: nat, l: nat, d: Component)
    requires k <= |lists| && l < |lists| && d in lists[l] && IsVolume(d) && !Defined(Concat(lists[..k]), d.name)
    ensures d.body.volume in Definitions(Concat(lists), d.name) && l >= k
  {
    ConcatMembers(lists);
    DefinitionsMembers(Concat(lists), d.name);
    if l < k { DefinedEarlier(lists, k, l, d); }
  }

  lemma DefinedEarlier(lists: seq<seq<Component>>, k: nat, l: nat, d: Component)
    requires l < k <= |lists| && d in lists[l] && IsVolume(d)
    ensures Defined(Concat(lists[..k]), d.name)
  {
    ConcatMembers(lists[..k]);
    assert lists[..k][l] == lists[l];
    assert d in Concat(lists[..k]);
  }

  lemma DefinedSomewhere(lists: seq<seq<Component>>, n: string)
    ensures forall v :: v in Definitions(Concat(lists), n) ==>
              exists l, d :: 0 <= l < |lists| && d in lists[l] && d.body.VolumeBody? && d.name == n
                             && d.body.volume == v
  {
    DefinitionsMembers(Concat(lists), n);
    ConcatMembers(lists);
  }

  /** Within one list: non-volumes keep their order, and volume names are distinct. */
  lemma MergedList(lists: seq<seq<Component>>, k: nat)
    requires k < |lists|
    ensures NonVolumes(Merged(lists, k)) == NonVolumes(lists[k])
    ensures DistinctVolumes(Merged(lists, k))
  {
    var earlier, all := Concat(lists[..k]), Concat(lists);
    var s := Survivors(earlier, lists[k]);
    SurvivorsKeepNonVolumes(earlier, lists[k]);
    SettleKeepsNonVolumes(s, all);
    SurvivorsDistinct(earlier, lists[k]);
  }

  /** Merging changes nothing but the values of volumes and drops nothing but volumes. */
  lemma MergedCameFrom(lists: seq<seq<Component>>, k: nat, c: Component) returns (o: Component)
    requires k < |lists| && c in Merged(lists, k)
    ensures o in lists[k] && c == o.(body := c.body) && IsVolume(c) == IsVolume(o) && (!IsVolume(o) ==> c == o)
  {
    var earlier, all := Concat(lists[..k]), Concat(lists);
    var s := Survivors(earlier, lists[k]);
    var i :| 0 <= i < |s| && c == Settle(s[i], all);
    o := s[i];
    assert o in s;
    SurvivorsMembers(earlier, lists[k]);
  }

  lemma MergedKeepsNonVolumes(lists: seq<seq<Component>>, k: nat, o: Component)
    requires k < |lists| && o in lists[k] && !IsVolume(o)
    ensures o in Merged(lists, k)
  {
    var earlier, all := Concat(lists[..k]), Concat(lists);
    SurvivorsMembers(earlier, lists[k]);
    var s := Survivors(earlier, lists[k]);
    var i :| 0 <= i < |s| && s[i] == o;
    assert Merged(lists, k)[i] == o;
  }

  /** Across lists: no name is left in two lists, and no defined name is lost. */
  lemma MergedAcrossLists(lists: seq<seq<Component>>, i: nat, j: nat, c: Component, d: Component)
    requires i < j < |lists|
    requires c in Merged(lists, i) && d in Merged(lists, j) && IsVolume(c) && IsVolume(d)
    ensures c.name != d.name
  {
    MergedVolume(lists, j, d);
    SurvivorsMembers(Concat(lists[..i]), lists[i]);
    var s := Survivors(Concat(lists[..i]), lists[i]);
    var p :| 0 <= p < |s| && Settle(s[p], Concat(lists)) == c;
    ConcatMembers(lists[..j]);
    assert lists[..j][i] == lists[i];
    assert s[p] in s && s[p] in Concat(lists[..j]);
    assert Defined(Concat(lists[..j]), c.name);
  }

  lemma {:induction false} EveryNameSurvives(lists: seq<seq<Component>>, n: string) returns (k: nat)
    requires Defined(Concat(lists), n)
    ensures k < |lists| && Defined(Merged(lists, k), n)
  {
    k := FirstDefining(lists, n);
    SurvivorsMembers(Concat(lists[..k]), lists[k]);
    var s := Survivors(Concat(lists[..k]), lists[k]);
    var c :| c in s && IsVolume(c) && c.name == n;
    var p :| 0 <= p < |s| && s[p] == c;
    assert Merged(lists, k)[p] in Merged(lists, k);
  }

  lemma {:induction false} FirstDefining(lists: seq<seq<Component>>, n: string) returns (k: nat)
    requires Defined(Concat(lists), n)
    ensures k < |lists| && Defined(Concat(lists[..k]) + lists[k], n) && !Defined(Concat(lists[..k]), n)
  {
    var init := lists[..|lists| - 1];
    if Defined(Concat(init), n) {
      k := FirstDefining(init, n);
      assert init[..k] == lists[..k];
    } else {
      k := |lists| - 1;
    }
  }

  /** Size and persistence of every volume are the same however the component lists are ordered. */
  lemma ListOrderDoesNotMatter(a: seq<seq<Component>>, b: seq<seq<Component>>, i: nat, j: nat, c: Component,
                               d: Component)
    requires multiset(a) == multiset(b)
    requires i < |a| && j < |b| && c in Merged(a, i) && d in Merged(b, j)
    requires IsVolume(c) && IsVolume(d) && c.name == d.name
    ensures Quantity(c.body.volume.size) == Quantity(d.body.volume.size)
    ensures Persistent(c.body.volume) <==> Persistent(d.body.volume)
  {
    MergedVolume(a, i, c);
    MergedVolume(b, j, d);
    PermutedDefinitions(a, b, c.name);
    PermutedDefinitions(b, a, c.name);
  }

  lemma PermutedDefinitions(a: seq<seq<Component>>, b: seq<seq<Component>>, n: string)
    requires multiset(a) == multiset(b)
    ensures forall v :: v in Definitions(Concat(a), n) ==> v in Definitions(Concat(b), n)
  {
    ConcatMembers(a);
    ConcatMembers(b);
    DefinitionsMembers(Concat(a), n);
    DefinitionsMembers(Concat(b), n);
    forall c | c in Concat(a) ensures c in Concat(b) {
      var k :| 0 <= k < |a| && c in a[k];
      assert a[k] in multiset(a);
      assert a[k] in b;
      var l :| 0 <= l < |b| && b[l] == a[k];
    }
  }

  // ----- when merging fails -----

  /** Two volumes at different places have this name. */
  ghost predicate Twice(cs: seq<Component>, name: string) {
    exists i, j :: 0 <= i < j < |cs| && cs[i].body.VolumeBody? && cs[j].body.VolumeBody?
                   && cs[i].name == cs[j].name == name
  }

  lemma TwiceSnoc(init: seq<Component>, last: Component, name: string)
    ensures Twice(init + [last], name) <==>
            Twice(init, name) || (IsVolume(last) && last.name == name && Defined(init, name))
  {
    var cs := init + [last];
    if Twice(cs, name) {
      var i, j :| 0 <= i < j < |cs| && cs[i].body.VolumeBody? && cs[j].body.VolumeBody?
                  && cs[i].name == cs[j].name == name;
      assert cs[i] == init[i] && init[i] in init;
      assert j < |init| ==> cs[j] == init[j];
    }
    if Twice(init, name) {
      var i, j :| 0 <= i < j < |init| && init[i].body.VolumeBody? && init[j].body.VolumeBody?
                  && init[i].name == init[j].name == name;
      assert cs[i] == init[i] && cs[j] == init[j];
    }
    if IsVolume(last) && last.name == name && Defined(init, name) {
      var c :| c in init && IsVolume(c) && c.name == name;
      var i :| 0 <= i < |init| && init[i] == c;
      assert cs[i] == c && cs[|init|] == last;
    }
  }

  lemma {:induction false} DefinedTwice(cs: seq<Component>, name: string)
    ensures |Definitions(cs, name)| > 1 <==> Twice(cs, name)
  {
    if cs != [] {
      var init, last := cs[..|cs| - 1], cs[|cs| - 1];
      DefinedTwice(init, name);
      DefinedOnce(init, name);
      TwiceSnoc(init, last, name);
      assert cs == init + [last];
    }
  }

  lemma DefinedOnce(cs: seq<Component>, name: string)
    ensures |Definitions(cs, name)| > 0 <==> Defined(cs, name)
  {
    DefinitionsMembers(cs, name);
  }

  /**
   Merging fails exactly when the devfile itself has two volumes of one name, or, over all lists, a name has
   two volumes and one of them a size that does not parse.
   */
  lemma MergeFailsExactly(lists: seq<seq<Component>>)
    requires lists != []
    ensures MergeVolumes(lists) == Err(DuplicateVolume) <==> exists n :: Twice(lists[0], n)
    ensures MergeVolumes(lists).Err? <==>
            || (exists n :: Twice(lists[0], n))
            || (exists c :: c in Concat(lists) && c.body.VolumeBody? && c.body.volume.size == BadSize
                            && Twice(Concat(lists), c.name))
  {
    forall n ensures |Definitions(Concat(lists), n)| > 1 <==> Twice(Concat(lists), n) {
      DefinedTwice(Concat(lists), n);
    }
    if DuplicateVolumes(lists[0]) {
      var i, j :| 0 <= i < j < |lists[0]| && IsVolume(lists[0][i]) && IsVolume(lists[0][j])
                  && lists[0][i].name == lists[0][j].name;
      assert Twice(lists[0], lists[0][i].name);
    }
  }

  // ----- the code: volumes behind shared pointers -----

  /** A dw.VolumeComponent on the heap. */
  class VolumeCell {
    var volume: Volume

    constructor (volume: Volume)
      ensures this.volume == volume
    {
      this.volume := volume;
    }
  }

  /** A dw.Component, whose volume (if it has one) is a pointer. */
  datatype Slot =
    | VolumeSlot(name: string, attributes: Attributes, settings: int, cell: VolumeCell)
    | PlainSlot(component: Component)

  ghost function Cells(slots: seq<Slot>): set<VolumeCell> {
    set s | s in slots && s.VolumeSlot? :: s.cell
  }

  ghost predicate WellFormed(slots: seq<Slot>) {
    && (forall s :: s in slots && s.PlainSlot? ==> !IsVolume(s.component))
    && (forall i, j :: 0 <= i < j < |slots| && slots[i].VolumeSlot? && slots[j].VolumeSlot? ==>
          slots[i].cell != slots[j].cell)
  }

  ghost function ViewSlot(s: Slot): Component
    reads if s.VolumeSlot? then {s.cell} else {}
  {
    if s.VolumeSlot? then Component(s.name, s.attributes, s.settings, VolumeBody(s.cell.volume)) else s.component
  }

  method MergeVolume(into: VolumeCell, from: VolumeCell) returns (ok: bool)
    requires into != from
    modifies into
    ensures ok <==> old(into.volume).size != BadSize && from.volume.size != BadSize
    ensures ok ==> into.volume == Absorb(old(into.volume), from.volume)
    ensures !ok ==> into.volume == Absorb(old(into.volume), from.volume).(size := old(into.volume).size)
  {
    if from.volume.ephemeral == None {
      into.volume := into.volume.(ephemeral := None);
    } else if !from.volume.ephemeral.value {
      into.volume := into.volume.(ephemeral := Some(false));
    }
    if into.volume.size == BadSize || from.volume.size == BadSize { return false; }
    if Quantity(from.volume.size) > Quantity(into.volume.size) {
      into.volume := into.volume.(size := from.volume.size);
    }
    return true;
  }

  // ----- a running form of the specification, one component at a time -----

  /** The value of each volume after the components of `cs` were merged in order. */
  function Running(cs: seq<Component>): map<string, Volume> {
    if cs == [] then map[]
    else
      var m, c := Running(cs[..|cs| - 1]), cs[|cs| - 1];
      if !IsVolume(c) then m
      else m[c.name := if c.name in m then Absorb(m[c.name], c.body.volume) else c.body.volume]
  }

  /** Whether merging the components of `cs` in order hits an unreadable size. */
  predicate Stuck(cs: seq<Component>) {
    cs != [] &&
    var init, c := cs[..|cs| - 1], cs[|cs| - 1];
    || Stuck(init)
    || (IsVolume(c) && c.name in Running(init) &&
        (Running(init)[c.name].size == BadSize || c.body.volume.size == BadSize))
  }

  lemma {:induction false} RunningIsCombine(cs: seq<Component>, n: string)
    ensures n in Running(cs) <==> Definitions(cs, n) != []
    ensures n in Running(cs) ==> Running(cs)[n] == Combine(Definitions(cs, n))
  {
    if cs != [] {
      var init, c := cs[..|cs| - 1], cs[|cs| - 1];
      RunningIsCombine(init, n);
      if IsVolume(c) && c.name == n {
        var defs := Definitions(init, n);
        assert Definitions(cs, n) == defs + [c.body.volume];
        assert (defs + [c.body.volume])[..|defs|] == defs;
      } else {
        assert Definitions(cs, n) == Definitions(init, n);
      }
    }
  }

  lemma StuckMeansUnmergeable(cs: seq<Component>)
    requires Stuck(cs)
    ensures Unmergeable(cs)
  {
    var init, c := cs[..|cs| - 1], cs[|cs| - 1];
    assert cs == init + [c];
    if Stuck(init) {
      StuckMeansUnmergeable(init);
      var b :| b in init && IsVolume(b) && b.body.volume.size == BadSize && |Definitions(init, b.name)| > 1;
      DefinitionsConcat(init, [c], b.name);
      assert b in cs;
    } else {
      var defs := Definitions(init, c.name);
      RunningIsCombine(init, c.name);
      CombineIsMaximum(defs);
      DefinitionsMembers(init, c.name);
      assert |Definitions(cs, c.name)| == |defs| + 1;
      if c.body.volume.size == BadSize {
        assert c in cs;
      } else {
        var v :| v in defs && v.size == Combine(defs).size;
        var b :| b in init && IsVolume(b) && b.name == c.name && b.body.volume == v;
        assert b in cs;
      }
    }
  }

  lemma {:induction false} UnmergeableMeansStuck(cs: seq<Component>, b: Component)
    requires b in cs && IsVolume(b) && b.body.volume.size == BadSize && |Definitions(cs, b.name)| > 1
    ensures Stuck(cs)
  {
    var init, c := cs[..|cs| - 1], cs[|cs| - 1];
    assert cs == init + [c];
    var defs := Definitions(init, b.name);
    if b in init && |defs| > 1 {
      UnmergeableMeansStuck(init, b);
    } else {
      assert IsVolume(c) && c.name == b.name by {
        if b !in init { assert c == b; } else { DefinitionsMembers(init, b.name); }
      }
      assert |Definitions(cs, b.name)| == |defs| + 1;
      if c != b {
        DefinitionsMembers(init, b.name);
        assert b.body.volume in defs && |defs| == 1;
      }
      LastMakesStuck(init, c, b);
    }
  }

  lemma LastMakesStuck(init: seq<Component>, c: Component, b: Component)
    requires IsVolume(b) && b.body.volume.size == BadSize
    requires IsVolume(c) && c.name == b.name && Definitions(init, c.name) != []
    requires c == b || Definitions(init, c.name) == [b.body.volume]
    ensures Stuck(init + [c])
  {
    assert (init + [c])[..|init|] == init;
    RunningIsCombine(init, c.name);
  }

  lemma StuckExactlyWhenUnmergeable(cs: seq<Component>)
    ensures Stuck(cs) <==> Unmergeable(cs)
  {
    if Stuck(cs) { StuckMeansUnmergeable(cs); }
    if b :| b in cs && IsVolume(b) && b.body.volume.size == BadSize && |Definitions(cs, b.name)| > 1 {
      UnmergeableMeansStuck(cs, b);
    }
  }

  lemma {:induction false} StuckPersists(cs: seq<Component>, i: nat, j: nat)
    requires i <= j <= |cs| && Stuck(cs[..i])
    ensures Stuck(cs[..j])
  {
    if i < j {
      StuckPersists(cs, i, j - 1);
      assert cs[..j][..j - 1] == cs[..j - 1];
    }
  }

  /** The cell kept for each name: that of its first definition. */
  function FirstCells(slots: seq<Slot>): map<string, VolumeCell> {
    if slots == [] then map[]
    else
      var m, s := FirstCells(slots[..|slots| - 1]), slots[|slots| - 1];
      if s.VolumeSlot? && s.name !in m then m[s.name := s.cell] else m
  }

  lemma {:induction false} FirstCellsAreCells(slots: seq<Slot>, n: string)
    ensures n in FirstCells(slots) ==>
              exists i :: 0 <= i < |slots| && slots[i].VolumeSlot? && slots[i].name == n && slots[i].cell ==
                  FirstCells(slots)[n]
  {
    if slots != [] {
      var init := slots[..|slots| - 1];
      FirstCellsAreCells(init, n);
      if n in FirstCells(init) {
        var i :| 0 <= i < |init| && init[i].VolumeSlot? && init[i].name == n && init[i].cell == FirstCells(init)[n];
        assert slots[i].cell == FirstCells(slots)[n];
      } else if n in FirstCells(slots) {
        assert slots[|slots| - 1].cell == FirstCells(slots)[n];
      }
    }
  }

  /** The kept cells are distinct, and none of them belongs to a later component. */
  lemma FirstCellsSeparate(slots: seq<Slot>, i: nat, n: string)
    requires WellFormed(slots) && i <= |slots| && n in FirstCells(slots[..i])
    ensures FirstCells(slots[..i])[n] in Cells(slots)
    ensures forall j :: i <= j < |slots| && slots[j].VolumeSlot? ==> slots[j].cell != FirstCells(slots[..i])[n]
    ensures forall m :: m in FirstCells(slots[..i]) && m != n ==> FirstCells(slots[..i])[m] != FirstCells(slots[..i])[n]
  {
    var first := FirstCells(slots[..i]);
    FirstCellsAreCells(slots[..i], n);
    var k :| 0 <= k < i && slots[k].VolumeSlot? && slots[k].name == n && slots[k].cell == first[n];
    assert slots[k] in slots;
    forall m | m in first && m != n ensures first[m] != first[n] {
      FirstCellsAreCells(slots[..i], m);
      var l :| 0 <= l < i && slots[l].VolumeSlot? && slots[l].name == m && slots[l].cell == first[m];
    }
  }

  /** Component `i` is a volume whose name was defined before. */
  predicate Repeats(before: seq<Component>, i: nat)
    requires i < |before|
  {
    IsVolume(before[i]) && before[i].name in Running(before[..i])
  }

  /** The slots kept among positions `from` to `n` of all the components. */
  ghost function KeptSlots(all: seq<Slot>, before: seq<Component>, from: nat, n: nat): seq<Slot>
    requires from <= n <= |all| == |before|
    decreases n
  {
    if n == from then []
    else
      KeptSlots(all, before, from, n - 1) + (if Repeats(before, n - 1) then [] else [all[n - 1]])
  }

  /** The heap agrees with the specification after the first `n` components. */
  ghost predicate Agrees(vols: map<string, VolumeCell>, all: seq<Slot>, before: seq<Component>, n: nat)
    reads vols.Values, Cells(all)
    requires n <= |all| == |before|
  {
    && vols == FirstCells(all[..n])
    && (forall m :: m in vols <==> m in Running(before[..n]))
    && (forall m :: m in vols ==> vols[m].volume == Running(before[..n])[m])
    && (forall i :: n <= i < |all| && all[i] in all ==> ViewSlot(all[i]) == before[i])
  }

  /** One iteration of the closure's loop: component `n` of all the components. */
  method MergeSlot(s: Slot, vols: map<string, VolumeCell>, ghost all: seq<Slot>, ghost before: seq<Component>,
                   ghost n: nat)
    returns (ok: bool, keep: bool, vols': map<string, VolumeCell>)
    requires WellFormed(all) && n < |all| == |before| && all[n] == s
    requires Agrees(vols, all, before, n) && !Stuck(before[..n])
    modifies Cells(all)
    ensures ok <==> !Stuck(before[..n + 1])
    ensures ok ==> Agrees(vols', all, before, n + 1)
    ensures keep <==> !Repeats(before, n)
  {
    ok, vols' := true, vols;
    keep := s.PlainSlot? || s.name !in vols;
    assert before[..n + 1][..n] == before[..n] && all[..n + 1][..n] == all[..n];
    assert ViewSlot(s) == before[n];
    if s.PlainSlot? { return; }
    if s.name in vols {
      FirstCellsSeparate(all, n, s.name);
      ok := MergeVolume(vols[s.name], s.cell);
    } else {
      vols' := vols[s.name := s.cell];
    }
  }

  /** The closure that merges one content's components, `spec`, at positions `from` to `to`. */
  method MergeContent(spec: seq<Slot>, vols: map<string, VolumeCell>,
                      ghost all: seq<Slot>, ghost before: seq<Component>, ghost from: nat, ghost to: nat,
                      ghost cells: set<VolumeCell>)
    returns (ok: bool, kept: seq<Slot>, vols': map<string, VolumeCell>)
    requires WellFormed(all) && from + |spec| == to <= |all| == |before|
    requires forall i :: 0 <= i < |spec| ==> all[from + i] == spec[i]
    requires Progress(vols, [], all, before, from, from)
    requires cells == Cells(all)
    modifies cells
    ensures if ok then Progress(vols', kept, all, before, from, to) else Stuck(before[..to])
  {
    ok, kept, vols' := true, [], vols;
    for i := 0 to |spec|
      invariant ok && Progress(vols', kept, all, before, from, from + i)
    {
      ok, kept, vols' := MergeNext(spec[i], kept, vols', all, before, from, from + i, to, cells);
      if !ok { return; }
    }
  }

  ghost predicate Progress(vols: map<string, VolumeCell>, kept: seq<Slot>, all: seq<Slot>, before: seq<Component>,
                           from: nat, n: nat)
    reads vols.Values, Cells(all)
    requires from <= n <= |all| == |before|
  {
    Agrees(vols, all, before, n) && !Stuck(before[..n]) && kept == KeptSlots(all, before, from, n)
  }

  method MergeNext(s: Slot, kept: seq<Slot>, vols: map<string, VolumeCell>,
                   ghost all: seq<Slot>, ghost before: seq<Component>, ghost from: nat, ghost n: nat, ghost to: nat,
                   ghost cells: set<VolumeCell>)
    returns (ok: bool, kept': seq<Slot>, vols': map<string, VolumeCell>)
    requires WellFormed(all) && from <= n < to <= |all| == |before| && all[n] == s
    requires Progress(vols, kept, all, before, from, n)
    requires cells == Cells(all)
    modifies cells
    ensures ok ==> Progress(vols', kept', all, before, from, n + 1)
    ensures !ok ==> Stuck(before[..to])
  {
    var keep;
    ok, keep, vols' := MergeSlot(s, vols, all, before, n);
    if !ok {
      StuckPersists(before, n + 1, to);
      return ok, kept, vols';
    }
    KeptSlotsStep(all, before, from, n);
    kept' := if keep then kept + [s] else kept;
  }

  lemma KeptSlotsStep(all: seq<Slot>, before: seq<Component>, from: nat, n: nat)
    requires from <= n < |all| == |before|
    ensures KeptSlots(all, before, from, n + 1) ==
            if Repeats(before, n) then KeptSlots(all, before, from, n) else KeptSlots(all, before, from, n) + [all[n]]
  {
  }

  // ----- from the running form back to the merged lists -----

  /** What a slot and its component's value have in common whatever the heap holds. */
  ghost predicate SameShape(s: Slot, c: Component) {
    match s
    case PlainSlot(component) => component == c && !IsVolume(c)
    case VolumeSlot(name, attributes, settings, _) =>
      IsVolume(c) && name == c.name && attributes == c.attributes && settings == c.settings
  }

  ghost predicate SameShapes(all: seq<Slot>, before: seq<Component>) {
    |all| == |before| && forall i :: 0 <= i < |all| ==> SameShape(all[i], before[i])
  }

  lemma {:induction false} FirstCellsTrackRunning(all: seq<Slot>, before: seq<Component>, n: nat, name: string)
    requires SameShapes(all, before) && n <= |all|
    ensures name in FirstCells(all[..n]) <==> name in Running(before[..n])
  {
    if n > 0 {
      FirstCellsTrackRunning(all, before, n - 1, name);
      assert all[..n][..n - 1] == all[..n - 1] && before[..n][..n - 1] == before[..n - 1];
      assert SameShape(all[n - 1], before[n - 1]);
    }
  }

  lemma {:induction false} FirstCellsPersist(all: seq<Slot>, i: nat, n: nat, name: string)
    requires i <= n <= |all| && name in FirstCells(all[..i])
    ensures name in FirstCells(all[..n]) && FirstCells(all[..n])[name] == FirstCells(all[..i])[name]
  {
    if i < n {
      FirstCellsPersist(all, i, n - 1, name);
      assert all[..n][..n - 1] == all[..n - 1];
    }
  }

  /** Each kept slot is the survivor at the same place, at the cell of its name. */
  ghost predicate KeptAs(kept: seq<Slot>, cs: seq<Component>, vols: map<string, VolumeCell>) {
    && |kept| == |cs|
    && forall i :: 0 <= i < |kept| ==>
         && SameShape(kept[i], cs[i])
         && (IsVolume(cs[i]) ==> cs[i].name in vols && kept[i].cell == vols[cs[i].name])
  }

  lemma SurvivorsStep(before: seq<Component>, from: nat, i: nat)
    requires from <= i < |before|
    ensures Survivors(before[..from], before[from..i + 1]) ==
            Survivors(before[..from], before[from..i]) + (if Repeats(before, i) then [] else [before[i]])
  {
    assert before[from..i + 1][..i - from] == before[from..i];
    assert before[..from] + before[from..i] == before[..i];
    DefinitionsMembers(before[..i], before[i].name);
    RunningIsCombine(before[..i], before[i].name);
  }

  lemma CellOfFirstDefinition(all: seq<Slot>, before: seq<Component>, i: nat)
    requires SameShapes(all, before) && i < |all| && IsVolume(before[i]) && !Repeats(before, i)
    ensures before[i].name in FirstCells(all[..|all|]) && FirstCells(all[..|all|])[before[i].name] == all[i].cell
  {
    var name := before[i].name;
    assert SameShape(all[i], before[i]);
    FirstCellsTrackRunning(all, before, i, name);
    assert all[..i + 1][..i] == all[..i];
    FirstCellsPersist(all, i + 1, |all|, name);
  }

  /** The components that survive among positions `from` to `n`. */
  ghost function SurvivorsTo(before: seq<Component>, from: nat, n: nat): seq<Component>
    requires from <= n <= |before|
    decreases n
  {
    if n == from then []
    else SurvivorsTo(before, from, n - 1) + (if Repeats(before, n - 1) then [] else [before[n - 1]])
  }

  lemma {:induction false} SurvivorsToUnique(g: nat -> seq<Component>, before: seq<Component>, from: nat, n: nat)
    requires from <= n <= |before| && g(from) == []
    requires forall i :: from <= i < n ==> g(i + 1) == g(i) + if Repeats(before, i) then [] else [before[i]]
    ensures g(n) == SurvivorsTo(before, from, n)
    decreases n
  {
    if from < n {
      SurvivorsToUnique(g, before, from, n - 1);
      assert g(n - 1 + 1) == g(n);
    }
  }

  lemma SurvivorsToIsSurvivors(before: seq<Component>, from: nat, n: nat)
    requires from <= n <= |before|
    ensures SurvivorsTo(before, from, n) == Survivors(before[..from], before[from..n])
  {
    var g := (i: nat) => if from <= i <= n then Survivors(before[..from], before[from..i]) else [];
    assert before[from..from] == [];
    forall i | from <= i < n ensures g(i + 1) == g(i) + if Repeats(before, i) then [] else [before[i]] {
      SurvivorsStep(before, from, i);
    }
    SurvivorsToUnique(g, before, from, n);
  }

  lemma {:induction false} KeptSlotsAreSurvivors(all: seq<Slot>, before: seq<Component>, from: nat, n: nat)
    requires SameShapes(all, before) && from <= n <= |all|
    ensures KeptAs(KeptSlots(all, before, from, n), SurvivorsTo(before, from, n), FirstCells(all[..|all|]))
    decreases n
  {
    if from < n {
      var i := n - 1;
      KeptSlotsAreSurvivors(all, before, from, i);
      if !Repeats(before, i) {
        if IsVolume(before[i]) { CellOfFirstDefinition(all, before, i); }
        KeptAsSnoc(KeptSlots(all, before, from, i), SurvivorsTo(before, from, i), FirstCells(all[..|all|]),
                   all[i], before[i]);
      }
    }
  }

  lemma KeptAsSnoc(kept: seq<Slot>, cs: seq<Component>, vols: map<string, VolumeCell>, s: Slot, c: Component)
    requires KeptAs(kept, cs, vols) && SameShape(s, c)
    requires IsVolume(c) ==> c.name in vols && s.cell == vols[c.name]
    ensures KeptAs(kept + [s], cs + [c], vols)
  {
  }

  ghost predicate Views(slots: seq<Slot>, cs: seq<Component>)
    reads Cells(slots)
  {
    |slots| == |cs| && forall i :: 0 <= i < |slots| && slots[i] in slots ==> ViewSlot(slots[i]) == cs[i]
  }

  /** With every component merged, the kept slots show the merged components. */
  lemma KeptShowMerged(vols: map<string, VolumeCell>, all: seq<Slot>, before: seq<Component>, kept: seq<Slot>,
                       cs: seq<Component>)
    requires SameShapes(all, before) && Agrees(vols, all, before, |all|)
    requires KeptAs(kept, cs, FirstCells(all[..|all|]))
    ensures Views(kept, SettleAll(cs, before))
  {
    assert before[..|all|] == before;
    forall i | 0 <= i < |kept| ensures ViewSlot(kept[i]) == SettleAll(cs, before)[i] {
      RunningIsCombine(before, cs[i].name);
    }
  }

  function ConcatSlots(lists: seq<seq<Slot>>): seq<Slot> {
    if lists == [] then [] else ConcatSlots(lists[..|lists| - 1]) + lists[|lists| - 1]
  }

  /** Where list `k` lies in the concatenation. */
  lemma {:induction false} PlaceOf(lists: seq<seq<Slot>>, before: seq<seq<Component>>, k: nat)
    requires |lists| == |before| && k < |lists| && forall i :: 0 <= i < |lists| ==> |lists[i]| == |before[i]|
    ensures var from := |Concat(before[..k])|; var to := from + |lists[k]|;
            && to <= |ConcatSlots(lists)| == |Concat(before)|
            && to == |Concat(before[..k + 1])|
            && ConcatSlots(lists)[from..to] == lists[k]
            && Concat(before)[from..to] == before[k]
            && Concat(before)[..from] == Concat(before[..k])
  {
    var l, b := lists[..|lists| - 1], before[..|lists| - 1];
    if k == |lists| - 1 {
      PlaceOfLast(lists, before);
    } else {
      PlaceOf(l, b, k);
      assert b[..k] == before[..k] && b[..k + 1] == before[..k + 1];
      assert |ConcatSlots(lists)| == |ConcatSlots(l)| + |lists[|lists| - 1]|;
      assert |Concat(before)| == |Concat(b)| + |before[|lists| - 1]|;
    }
  }

  lemma PlaceOfLast(lists: seq<seq<Slot>>, before: seq<seq<Component>>)
    requires |lists| == |before| > 0 && forall i :: 0 <= i < |lists| ==> |lists[i]| == |before[i]|
    ensures var k := |lists| - 1; var from := |Concat(before[..k])|; var to := from + |lists[k]|;
            && to == |ConcatSlots(lists)| == |Concat(before)| == |Concat(before[..k + 1])|
            && ConcatSlots(lists)[from..to] == lists[k]
            && Concat(before)[from..to] == before[k]
            && Concat(before)[..from] == Concat(before[..k])
  {
    SameLength(lists[..|lists| - 1], before[..|lists| - 1]);
    assert before[..|lists|] == before;
  }

  lemma {:induction false} SameLength(lists: seq<seq<Slot>>, before: seq<seq<Component>>)
    requires |lists| == |before| && forall i :: 0 <= i < |lists| ==> |lists[i]| == |before[i]|
    ensures |ConcatSlots(lists)| == |Concat(before)|
  {
    if lists != [] { SameLength(lists[..|lists| - 1], before[..|lists| - 1]); }
  }

  lemma RepeatIsDuplicate(before: seq<Component>, i: nat)
    requires i < |before| && Repeats(before, i)
    ensures DuplicateVolumes(before)
  {
    RunningIsCombine(before[..i], before[i].name);
    DefinitionsMembers(before[..i], before[i].name);
    var c :| c in before[..i] && IsVolume(c) && c.name == before[i].name;
    var p :| 0 <= p < i && before[p] == c;
  }

  lemma NoRepeatNoDuplicate(before: seq<Component>, i: nat, j: nat)
    requires i < j < |before| && IsVolume(before[i]) && !Repeats(before, j)
    ensures !(IsVolume(before[j]) && before[j].name == before[i].name)
  {
    RunningIsCombine(before[..j], before[i].name);
    DefinitionsMembers(before[..j], before[i].name);
    assert before[..j][i] in before[..j];
  }

  lemma {:induction false} KeptAll(all: seq<Slot>, before: seq<Component>, n: nat)
    requires n <= |all| == |before| && forall i :: 0 <= i < n ==> !Repeats(before, i)
    ensures KeptSlots(all, before, 0, n) == all[..n]
  {
    if n > 0 { KeptAll(all, before, n - 1); }
  }

  /** First loop of the code: register the devfile's own volumes, refusing a duplicate. */
  method RegisterMain(main: seq<Slot>, ghost all: seq<Slot>, ghost before: seq<Component>)
    returns (duplicate: bool, vols: map<string, VolumeCell>)
    requires |main| <= |all| == |before| && forall i :: 0 <= i < |main| ==> all[i] == main[i]
    requires SameShapes(all, before) && forall i :: 0 <= i < |all| ==> ViewSlot(all[i]) == before[i]
    ensures duplicate <==> exists i :: 0 <= i < |main| && Repeats(before, i)
    ensures !duplicate ==> Agrees(vols, all, before, |main|) && !Stuck(before[..|main|])
  {
    duplicate, vols := false, map[];
    for i := 0 to |main|
      invariant forall j :: 0 <= j < i ==> !Repeats(before, j)
      invariant Agrees(vols, all, before, i) && !Stuck(before[..i])
    {
      var s := main[i];
      RegisterNext(vols, all, before, i);
      if s.VolumeSlot? {
        if s.name in vols { return true, vols; }
        vols := vols[s.name := s.cell];
      }
    }
  }

  lemma RegisterNext(vols: map<string, VolumeCell>, all: seq<Slot>, before: seq<Component>, i: nat)
    requires SameShapes(all, before) && i < |all| && ViewSlot(all[i]) == before[i]
    requires Agrees(vols, all, before, i) && !Stuck(before[..i])
    ensures var s := all[i];
      if s.VolumeSlot? && s.name in vols then Repeats(before, i)
      else
        var vols' := if s.VolumeSlot? then vols[s.name := s.cell] else vols;
        !Repeats(before, i) && Agrees(vols', all, before, i + 1) && !Stuck(before[..i + 1])
  {
    assert SameShape(all[i], before[i]);
    assert before[..i + 1][..i] == before[..i] && all[..i + 1][..i] == all[..i];
  }

  ghost predicate KeptFor(kept: seq<Slot>, all: seq<Slot>, flat: seq<Component>, before: seq<seq<Component>>, k: nat)
    requires k < |before|
  {
    var lo, hi := |Concat(before[..k])|, |Concat(before[..k + 1])|;
    lo <= hi <= |all| == |flat| && kept == KeptSlots(all, flat, lo, hi)
  }

  /** The lists after the devfile's own: the parent's and the plugins', in turn. */
  method MergeOtherContents(lists: seq<seq<Slot>>, vols: map<string, VolumeCell>,
                            ghost all: seq<Slot>, ghost flat: seq<Component>, ghost before: seq<seq<Component>>)
    returns (ok: bool, kept: seq<seq<Slot>>, vols': map<string, VolumeCell>)
    requires lists != [] && |lists| == |before| && forall k :: 0 <= k < |lists| ==> |lists[k]| == |before[k]|
    requires all == ConcatSlots(lists) && flat == Concat(before) && WellFormed(all) && |all| == |flat|
    requires MergedUpTo(vols, all, flat, before, 1) && KeptFor(lists[0], all, flat, before, 0)
    modifies Cells(all)
    ensures !ok ==> Stuck(flat)
    ensures ok ==> MergedUpTo(vols', all, flat, before, |before|)
    ensures ok ==> |kept| == |lists| && forall k :: 0 <= k < |lists| ==> KeptFor(kept[k], all, flat, before, k)
  {
    ok, kept, vols' := true, [lists[0]], vols;
    for k := 1 to |lists|
      invariant |kept| == k && ok && MergedUpTo(vols', all, flat, before, k)
      invariant forall j :: 0 <= j < k ==> KeptFor(kept[j], all, flat, before, j)
    {
      var more;
      ok, more, vols' := MergeOtherContent(lists, k, vols', all, flat, before);
      if !ok { return; }
      kept := kept + [more];
    }
  }

  /** The first `k` lists were merged without trouble. */
  ghost predicate MergedUpTo(vols: map<string, VolumeCell>, all: seq<Slot>, flat: seq<Component>,
                             before: seq<seq<Component>>, k: nat)
    reads vols.Values, Cells(all)
    requires k <= |before| && |all| == |flat|
  {
    var n := |Concat(before[..k])|;
    n <= |all| && Agrees(vols, all, flat, n) && !Stuck(flat[..n])
  }

  /** One of them. */
  method MergeOtherContent(lists: seq<seq<Slot>>, k: nat, vols: map<string, VolumeCell>,
                           ghost all: seq<Slot>, ghost flat: seq<Component>, ghost before: seq<seq<Component>>)
    returns (ok: bool, kept: seq<Slot>, vols': map<string, VolumeCell>)
    requires k < |lists| == |before| && forall k :: 0 <= k < |lists| ==> |lists[k]| == |before[k]|
    requires all == ConcatSlots(lists) && flat == Concat(before) && WellFormed(all) && |all| == |flat|
    requires MergedUpTo(vols, all, flat, before, k)
    modifies Cells(all)
    ensures !ok ==> Stuck(flat)
    ensures ok ==> KeptFor(kept, all, flat, before, k) && MergedUpTo(vols', all, flat, before, k + 1)
  {
    ghost var from := |Concat(before[..k])|;
    ghost var to := |Concat(before[..k + 1])|;
    ContentPlace(lists, before, k);
    assert Progress(vols, [], all, flat, from, from);
    ok, kept, vols' := MergeContent(lists[k], vols, all, flat, from, to, Cells(all));
    if !ok {
      StuckPersists(flat, to, |flat|);
      assert flat[..|flat|] == flat;
    }
  }

  /** Where list `k` lies, position by position. */
  lemma ContentPlace(lists: seq<seq<Slot>>, before: seq<seq<Component>>, k: nat)
    requires |lists| == |before| && k < |lists| && forall i :: 0 <= i < |lists| ==> |lists[i]| == |before[i]|
    ensures var from, to := |Concat(before[..k])|, |Concat(before[..k + 1])|;
      && from + |lists[k]| == to <= |ConcatSlots(lists)| == |Concat(before)|
      && forall i :: 0 <= i < |lists[k]| ==> ConcatSlots(lists)[from + i] == lists[k][i]
  {
    PlaceOf(lists, before, k);
    var all, from, to := ConcatSlots(lists), |Concat(before[..k])|, |Concat(before[..k + 1])|;
    forall i | 0 <= i < |lists[k]| ensures all[from + i] == lists[k][i] { assert all[from..to][i] == all[from + i]; }
  }

  lemma KeptListsShowMerged(lists: seq<seq<Slot>>, before: seq<seq<Component>>, vols: map<string, VolumeCell>,
                            all: seq<Slot>, flat: seq<Component>, kept: seq<Slot>, k: nat)
    requires |lists| == |before| && k < |lists| && forall i :: 0 <= i < |lists| ==> |lists[i]| == |before[i]|
    requires all == ConcatSlots(lists) && flat == Concat(before) && SameShapes(all, flat)
    requires Agrees(vols, all, flat, |all|) && KeptFor(kept, all, flat, before, k)
    ensures Views(kept, Merged(before, k))
  {
    var lo, hi := |Concat(before[..k])|, |Concat(before[..k + 1])|;
    MergedIsSurvivors(lists, before, k);
    KeptSlotsAreSurvivors(all, flat, lo, hi);
    KeptShowMerged(vols, all, flat, kept, SurvivorsTo(flat, lo, hi));
  }

  lemma MergedIsSurvivors(lists: seq<seq<Slot>>, before: seq<seq<Component>>, k: nat)
    requires |lists| == |before| && k < |lists| && forall i :: 0 <= i < |lists| ==> |lists[i]| == |before[i]|
    ensures var lo, hi, flat := |Concat(before[..k])|, |Concat(before[..k + 1])|, Concat(before);
      lo <= hi <= |flat| && Merged(before, k) == SettleAll(SurvivorsTo(flat, lo, hi), flat)
  {
    PlaceOf(lists, before, k);
    SurvivorsToIsSurvivors(Concat(before), |Concat(before[..k])|, |Concat(before[..k + 1])|);
  }

  lemma AllListsShowMerged(lists: seq<seq<Slot>>, before: seq<seq<Component>>, vols: map<string, VolumeCell>,
                           all: seq<Slot>, flat: seq<Component>, kept: seq<seq<Slot>>)
    requires |lists| == |before| == |kept| && forall i :: 0 <= i < |lists| ==> |lists[i]| == |before[i]|
    requires all == ConcatSlots(lists) && flat == Concat(before) && SameShapes(all, flat)
    requires Agrees(vols, all, flat, |all|) && forall k :: 0 <= k < |kept| ==> KeptFor(kept[k], all, flat, before, k)
    ensures forall k :: 0 <= k < |kept| ==> Views(kept[k], Merged(before, k))
  {
    forall k | 0 <= k < |kept| ensures Views(kept[k], Merged(before, k)) {
      KeptListsShowMerged(lists, before, vols, all, flat, kept[k], k);
    }
  }

  /**
   mergeVolumeComponents: afterwards every list shows, through its pointers, exactly what
   `MergeVolumes` says of the lists' old values; the error is the same one, too.
   */
  method MergeVolumeComponents(lists: seq<seq<Slot>>, ghost before: seq<seq<Component>>)
    returns (r: Result<seq<seq<Slot>>, MergeError>)
    requires lists != [] && |lists| == |before| && WellFormed(ConcatSlots(lists))
    requires SameShapes(ConcatSlots(lists), Concat(before)) && forall k :: 0 <= k < |lists| ==>
             |lists[k]| == |before[k]|
    requires forall i :: 0 <= i < |ConcatSlots(lists)| ==> ViewSlot(ConcatSlots(lists)[i]) == Concat(before)[i]
    modifies Cells(ConcatSlots(lists))
    ensures r.Err? <==> MergeVolumes(before).Err?
    ensures r.Err? ==> r.error == MergeVolumes(before).error
    ensures r.Ok? ==> |r.value| == |lists| && forall k :: 0 <= k < |lists| ==> Views(r.value[k], Merged(before, k))
  {
    ghost var all, flat := ConcatSlots(lists), Concat(before);
    MainIsPrefix(lists, before);
    StuckExactlyWhenUnmergeable(flat);
    var duplicate, vols := RegisterMain(lists[0], all, flat);
    if duplicate { return Err(DuplicateVolume); }
    MainIsMerged(lists, before, vols, all, flat);
    var ok, kept, vols' := MergeOtherContents(lists, vols, all, flat, before);
    if !ok { return Err(InvalidSize); }
    assert before[..|before|] == before && flat[..|flat|] == flat;
    AllListsShowMerged(lists, before, vols', all, flat, kept);
    return Ok(kept);
  }

  lemma MainIsPrefix(lists: seq<seq<Slot>>, before: seq<seq<Component>>)
    requires lists != [] && |lists| == |before| && forall k :: 0 <= k < |lists| ==> |lists[k]| == |before[k]|
    ensures |lists[0]| <= |ConcatSlots(lists)| == |Concat(before)|
    ensures forall i :: 0 <= i < |lists[0]| ==> ConcatSlots(lists)[i] == lists[0][i]
    ensures DuplicateVolumes(before[0]) <==> exists i :: 0 <= i < |before[0]| && Repeats(Concat(before), i)
  {
    var all, flat, n := ConcatSlots(lists), Concat(before), |lists[0]|;
    PlaceOf(lists, before, 0);
    assert before[..0] == [] && Concat(before[..0]) == [];
    forall i | 0 <= i < n ensures all[i] == lists[0][i] { assert all[0..n][i] == all[i]; }
    assert flat[0..n] == flat[..n];
    MainDuplicates(before[0], flat);
  }

  lemma MainIsMerged(lists: seq<seq<Slot>>, before: seq<seq<Component>>, vols: map<string, VolumeCell>,
                     all: seq<Slot>, flat: seq<Component>)
    requires lists != [] && |lists| == |before| && forall k :: 0 <= k < |lists| ==> |lists[k]| == |before[k]|
    requires all == ConcatSlots(lists) && flat == Concat(before) && |lists[0]| <= |all| == |flat|
    requires forall i :: 0 <= i < |lists[0]| ==> !Repeats(flat, i)
    requires Agrees(vols, all, flat, |lists[0]|) && !Stuck(flat[..|lists[0]|])
    ensures MergedUpTo(vols, all, flat, before, 1) && KeptFor(lists[0], all, flat, before, 0)
  {
    PlaceOf(lists, before, 0);
    assert before[..0] == [] && Concat(before[..0]) == [];
    KeptAll(all, flat, |lists[0]|);
    assert all[0..|lists[0]|] == all[..|lists[0]|];
  }

  lemma MainDuplicates(main: seq<Component>, flat: seq<Component>)
    requires |main| <= |flat| && flat[..|main|] == main
    ensures DuplicateVolumes(main) <==> exists i :: 0 <= i < |main| && Repeats(flat, i)
  {
    forall i | 0 <= i < |main| ensures Repeats(flat, i) <==> Repeats(main, i) {
      assert flat[..i] == main[..i] && flat[i] == main[i];
    }
    if i :| 0 <= i < |main| && Repeats(flat, i) { RepeatIsDuplicate(main, i); }
    if DuplicateVolumes(main) {
      var i, j :| 0 <= i < j < |main| && IsVolume(main[i]) && IsVolume(main[j]) && main[i].name == main[j].name;
      if !Repeats(main, j) { NoRepeatNoDuplicate(main, i, j); }
    }
  }
}
