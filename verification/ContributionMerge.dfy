/**
 Merging of container contributions into one container of a flattened devfile
 (needsContainerContributionMerge to updateCommandTargetsAfterMerge in
 pkg/library/flatten/merge.go).

 The devfile/api override of a container's other settings is the argument `combine`, which
 may fail; it does not see the component's name or resources.
 */
module ContributionMerge {
  import opened Options
  import opened Devfile
  import opened Resources

  datatype ContributionError =
    | UnreadableAttribute | MultipleTargets | NoTarget
    | InvalidResources | OverrideFailed | ApplyUsesContribution(command: string)

  type Combine = (int, seq<int>) -> Option<int>

  predicate IsContainer(c: Component) {
    c.body.ContainerBody?
  }

  predicate IsContribution(c: Component) {
    IsContainer(c) && c.attributes.contribution == Yes
  }

  predicate ImportedByPlugin(c: Component) {
    c.attributes.importedBy.Some? && c.attributes.importedBy.value != "" && c.attributes.importedBy.value != "parent"
  }

  predicate ExplicitTarget(c: Component) {
    IsContainer(c) && c.attributes.mergeContribution == Yes
  }

  predicate ImplicitTarget(c: Component) {
    IsContainer(c) && c.attributes.mergeContribution == Absent && !ImportedByPlugin(c)
  }

  // ----- is a merge needed? -----

  predicate Unreadable(c: Component) {
    IsContainer(c) &&
    (c.attributes.contribution == Flag.Unreadable ||
     (c.attributes.contribution == Absent && c.attributes.mergeContribution == Flag.Unreadable))
  }

  /** A container that `needsContainerContributionMerge` counts as a target. */
  predicate CountsAsTarget(c: Component) {
    c.attributes.contribution == Absent && (ExplicitTarget(c) || ImplicitTarget(c))
  }

  predicate CountsAsExplicit(c: Component) {
    c.attributes.contribution == Absent && ExplicitTarget(c)
  }

  /** Scans the containers in order, stopping at the first error. */
  method NeedsMerge(components: seq<Component>) returns (r: Result<bool, ContributionError>)
    ensures r.Ok? <==>
            && (forall c :: c in components && c.body.ContainerBody? ==>
                  && c.attributes.contribution != Flag.Unreadable
                  && (c.attributes.contribution == Absent ==> c.attributes.mergeContribution != Flag.Unreadable))
            && (forall i, j :: 0 <= i < j < |components| ==>
                !(CountsAsExplicit(components[i]) && CountsAsExplicit(components[j])))
    ensures r.Ok? ==>
              (r.value <==>
               && (exists c :: c in components && c.body.ContainerBody? && c.attributes.contribution == Yes)
               && (exists c :: c in components && CountsAsTarget(c)))
    ensures forall c :: CountsAsExplicit(c) <==>
              c.body.ContainerBody? && c.attributes.contribution == Absent && c.attributes.mergeContribution == Yes
    ensures forall c :: CountsAsTarget(c) <==>
              && c.body.ContainerBody? && c.attributes.contribution == Absent
              && (c.attributes.mergeContribution == Yes
                  || (c.attributes.mergeContribution == Absent
                      && c.attributes.importedBy in [None, Some(""), Some("parent")]))
  {
    var hasContribution, hasTarget, explicitTarget := false, false, false;
    for i := 0 to |components|
      invariant Scanned(components, i, hasContribution, hasTarget, explicitTarget)
    {
      var c := components[i];
      ScanNext(components, i, hasContribution, hasTarget, explicitTarget);
      if !IsContainer(c) { continue; }
      if c.attributes.contribution != Absent {
        if c.attributes.contribution == Yes { hasContribution := true; }
        if c.attributes.contribution == Flag.Unreadable { return Err(UnreadableAttribute); }
      } else if c.attributes.mergeContribution != Absent {
        if c.attributes.mergeContribution == Yes {
          if explicitTarget { return Err(MultipleTargets); }
          explicitTarget, hasTarget := true, true;
        }
        if c.attributes.mergeContribution == Flag.Unreadable { return Err(UnreadableAttribute); }
      } else if !ImportedByPlugin(c) {
        hasTarget := true;
      }
    }
    return Ok(hasContribution && hasTarget);
  }

  /** What the scan knows after `n` components without an error. */
  ghost predicate Scanned(cs: seq<Component>, n: nat, hasContribution: bool, hasTarget: bool, explicitTarget: bool)
    requires n <= |cs|
  {
    && (hasContribution <==> exists j :: 0 <= j < n && IsContribution(cs[j]))
    && (hasTarget <==> exists j :: 0 <= j < n && CountsAsTarget(cs[j]))
    && (explicitTarget <==> exists j :: 0 <= j < n && CountsAsExplicit(cs[j]))
    && (forall i, j :: 0 <= i < j < n ==> !(CountsAsExplicit(cs[i]) && CountsAsExplicit(cs[j])))
    && (forall j :: 0 <= j < n ==> !Unreadable(cs[j]))
  }

  lemma ScanNext(cs: seq<Component>, n: nat, hasContribution: bool, hasTarget: bool, explicitTarget: bool)
    requires n < |cs| && Scanned(cs, n, hasContribution, hasTarget, explicitTarget)
    ensures cs[n] in cs
    ensures explicitTarget && CountsAsExplicit(cs[n]) ==>
              exists i, j :: 0 <= i < j < |cs| && CountsAsExplicit(cs[i]) && CountsAsExplicit(cs[j])
    ensures !Unreadable(cs[n]) && !(explicitTarget && CountsAsExplicit(cs[n])) ==>
              Scanned(cs, n + 1, hasContribution || IsContribution(cs[n]), hasTarget || CountsAsTarget(cs[n]),
                      explicitTarget || CountsAsExplicit(cs[n]))
  {
  }

  // ----- the target -----

  function FirstExplicit(cs: seq<Component>): Option<string> {
    if cs == [] then None
    else
      var earlier, c := FirstExplicit(cs[..|cs| - 1]), cs[|cs| - 1];
      if earlier.Some? then earlier else if ExplicitTarget(c) then Some(c.name) else None
  }

  function FirstImplicit(cs: seq<Component>): string {
    if cs == [] then ""
    else
      var earlier, c := FirstImplicit(cs[..|cs| - 1]), cs[|cs| - 1];
      if earlier != "" then earlier else if ImplicitTarget(c) then c.name else ""
  }

  function MergeTarget(cs: seq<Component>): Option<string> {
    if FirstExplicit(cs).Some? then FirstExplicit(cs)
    else if FirstImplicit(cs) != "" then Some(FirstImplicit(cs))
    else None
  }

  lemma {:induction false} FirstExplicitPersists(cs: seq<Component>, i: nat)
    requires i <= |cs| && FirstExplicit(cs[..i]).Some?
    ensures FirstExplicit(cs) == FirstExplicit(cs[..i])
  {
    if i == |cs| { assert cs[..i] == cs; }
    else {
      assert cs[..|cs| - 1][..i] == cs[..i];
      FirstExplicitPersists(cs[..|cs| - 1], i);
    }
  }

  method FindMergeTarget(components: seq<Component>) returns (target: Option<string>)
    ensures target == MergeTarget(components)
  {
    var firstComponent := "";
    for i := 0 to |components|
      invariant firstComponent == FirstImplicit(components[..i]) && FirstExplicit(components[..i]) == None
    {
      var c := components[i];
      assert components[..i + 1][..i] == components[..i];
      if !IsContainer(c) { continue; }
      if c.attributes.mergeContribution != Absent {
        if c.attributes.mergeContribution == Yes {
          FirstExplicitPersists(components, i + 1);
          return Some(c.name);
        }
        continue;
      }
      if ImportedByPlugin(c) { continue; }
      if firstComponent == "" { firstComponent := c.name; }
    }
    assert components[..|components|] == components;
    return if firstComponent != "" then Some(firstComponent) else None;
  }

  lemma {:induction false} FirstExplicitFound(cs: seq<Component>)
    ensures FirstExplicit(cs).Some? ==> exists c :: c in cs && ExplicitTarget(c) && FirstExplicit(cs) == Some(c.name)
    ensures FirstExplicit(cs).None? ==> forall c :: c in cs ==> !ExplicitTarget(c)
  {
    if cs != [] {
      FirstExplicitFound(cs[..|cs| - 1]);
      assert cs == cs[..|cs| - 1] + [cs[|cs| - 1]];
    }
  }

  lemma {:induction false} FirstImplicitFound(cs: seq<Component>)
    ensures FirstImplicit(cs) != "" ==> exists c :: c in cs && ImplicitTarget(c) && FirstImplicit(cs) == c.name
    ensures FirstImplicit(cs) == "" ==> forall c :: c in cs && ImplicitTarget(c) ==> c.name == ""
  {
    if cs != [] {
      FirstImplicitFound(cs[..|cs| - 1]);
      assert cs == cs[..|cs| - 1] + [cs[|cs| - 1]];
    }
  }

  /** A container marked as the target. */
  ghost predicate Marked(c: Component) {
    c.body.ContainerBody? && c.attributes.mergeContribution == Yes
  }

  /** A named container that says nothing about merging and was not imported by a plugin. */
  ghost predicate Unmarked(c: Component) {
    && c.body.ContainerBody? && c.attributes.mergeContribution == Absent && c.name != ""
    && c.attributes.importedBy in [None, Some(""), Some("parent")]
  }

  /** The target is the first marked container; failing that, the first unmarked one; failing that, there is none. */
  lemma {:induction false} TargetIsTheFirst(cs: seq<Component>) returns (e: nat, m: nat)
    ensures e <= |cs| && (e < |cs| ==> Marked(cs[e])) && forall j :: 0 <= j < e ==> !Marked(cs[j])
    ensures m <= |cs| && (m < |cs| ==> Unmarked(cs[m])) && forall j :: 0 <= j < m ==> !Unmarked(cs[j])
    ensures MergeTarget(cs) == if e < |cs| then Some(cs[e].name) else if m < |cs| then Some(cs[m].name) else None
  {
    e := FirstMarked(cs);
    m := FirstUnmarked(cs);
  }

  lemma {:induction false} FirstMarked(cs: seq<Component>) returns (e: nat)
    ensures e <= |cs| && (e < |cs| ==> Marked(cs[e])) && forall j :: 0 <= j < e ==> !Marked(cs[j])
    ensures FirstExplicit(cs) == if e < |cs| then Some(cs[e].name) else None
  {
    if cs == [] { return 0; }
    e := FirstMarked(cs[..|cs| - 1]);
    if e == |cs| - 1 && !Marked(cs[e]) { e := |cs|; }
  }

  lemma {:induction false} FirstUnmarked(cs: seq<Component>) returns (m: nat)
    ensures m <= |cs| && (m < |cs| ==> Unmarked(cs[m])) && forall j :: 0 <= j < m ==> !Unmarked(cs[j])
    ensures FirstImplicit(cs) == if m < |cs| then cs[m].name else ""
  {
    if cs == [] { return 0; }
    m := FirstUnmarked(cs[..|cs| - 1]);
    if m == |cs| - 1 && !Unmarked(cs[m]) { m := |cs|; }
  }

  // ----- merging into the target -----

  function Contributions(cs: seq<Component>): seq<Component> {
    if cs == [] then []
    else Contributions(cs[..|cs| - 1]) + (if IsContribution(cs[|cs| - 1]) then [cs[|cs| - 1]] else [])
  }

  /** The defaulted target's resources plus those of the contributions, or None if one does not parse. */
  function Total(base: Requirements, contributions: seq<Component>): Option<Requirements>
    requires forall c :: c in contributions ==> IsContainer(c)
  {
    if contributions == [] then Some(base)
    else
      var c := contributions[|contributions| - 1];
      assert c in contributions && IsContainer(c);
      var before := Total(base, contributions[..|contributions| - 1]);
      if before.None? || c.body.resources.None? then None else Some(Add(before.value, c.body.resources.value))
  }

  function SetNonZero(m: ResourceList, total: ResourceList, k: ResourceName): ResourceList {
    if Get(total, k) != 0 then m[k := total[k]] else m
  }

  /** ApplyResourceRequirementsToComponent: only memory and CPU, and only non-zero values. */
  function ApplyTotal(r: Requirements, total: Requirements): Requirements {
    Requirements(
      SetNonZero(SetNonZero(r.limits, total.limits, Memory), total.limits, CPU),
      SetNonZero(SetNonZero(r.requests, total.requests, Memory), total.requests, CPU))
  }

  function SettingsOf(cs: seq<Component>): seq<int> {
    seq(|cs|, i requires 0 <= i < |cs| => cs[i].settings)
  }

  /** mergeContributionsInto */
  function MergeInto(target: Component, contributions: seq<Component>, defaults: Option<Requirements>,
                     combine: Combine):
    Result<Component, ContributionError>
    requires IsContainer(target) && forall c :: c in contributions ==> IsContainer(c)
  {
    match target.body.resources
    case None => Err(InvalidResources)
    case Some(own) =>
      match Total(WithDefaults(own, defaults), contributions)
      case None => Err(InvalidResources)
      case Some(total) =>
        match combine(target.settings, SettingsOf(contributions))
        case None => Err(OverrideFailed)
        case Some(settings) =>
          Ok(target.(
            settings := settings,
            attributes := target.attributes.(contribution := Absent, mergeContribution := Absent),
            body := ContainerBody(Some(ApplyTotal(own, total)))))
  }

  /** A component that receives the contributions if no earlier one did. */
  predicate Receives(c: Component, target: string) {
    IsContainer(c) && !IsContribution(c) && c.name == target
  }

  predicate MergeDone(cs: seq<Component>, target: string) {
    exists c :: c in cs && Receives(c, target)
  }

  /** The new component list: contributions dropped, the target merged, the rest as it was. */
  function Rebuilt(cs: seq<Component>, target: string, contributions: seq<Component>, defaults: Option<Requirements>,
                   combine: Combine): Result<seq<Component>, ContributionError>
    requires forall c :: c in contributions ==> IsContainer(c)
  {
    if cs == [] then Ok([])
    else
      var init, c := cs[..|cs| - 1], cs[|cs| - 1];
      match Rebuilt(init, target, contributions, defaults, combine)
      case Err(e) => Err(e)
      case Ok(front) =>
        if IsContribution(c) then Ok(front)
        else if Receives(c, target) && !MergeDone(init, target) then
          match MergeInto(c, contributions, defaults, combine)
          case Err(e) => Err(e)
          case Ok(m) => Ok(front + [m])
        else Ok(front + [c])
  }

  predicate UsesContribution(action: Option<Action>, names: set<string>) {
    action.Some? && !action.value.Composite? && action.value.component in names
  }

  function Retarget(i: Item, target: string, names: set<string>): Item {
    if UsesContribution(i.action, names) && i.action.value.Exec? then i.(action := Some(Exec(target))) else i
  }

  /** updateCommandTargetsAfterMerge */
  function Retargeted(items: seq<Item>, target: string, names: set<string>): Result<seq<Item>, ContributionError> {
    if items == [] then Ok([])
    else
      var i := items[|items| - 1];
      match Retargeted(items[..|items| - 1], target, names)
      case Err(e) => Err(e)
      case Ok(front) =>
        if UsesContribution(i.action, names) && i.action.value.Apply? then Err(ApplyUsesContribution(i.name))
        else Ok(front + [Retarget(i, target, names)])
  }

  /** The commands as the loop leaves them: exec commands before a refused apply command are redirected in place. */
  function Redirected(items: seq<Item>, target: string, names: set<string>): seq<Item> {
    if items == [] then []
    else
      var init, i := items[..|items| - 1], items[|items| - 1];
      Redirected(init, target, names) + [if Retargeted(init, target, names).Err? then i else Retarget(i, target, names)]
  }

  function Names(cs: seq<Component>): set<string> {
    set c | c in cs :: c.name
  }

  lemma {:induction false} ContributionsMembers(cs: seq<Component>)
    ensures forall c :: c in Contributions(cs) <==>
              c in cs && c.body.ContainerBody? && c.attributes.contribution == Yes
  {
    if cs != [] {
      ContributionsMembers(cs[..|cs| - 1]);
      assert cs == cs[..|cs| - 1] + [cs[|cs| - 1]];
    }
  }

  function MergeContributions(spec: Spec, defaults: Option<Requirements>,
                              combine: Combine): Result<Spec, ContributionError> {
    ContributionsMembers(spec.components);
    var contributions := Contributions(spec.components);
    match MergeTarget(spec.components)
    case None => Err(NoTarget)
    case Some(target) =>
      match Rebuilt(spec.components, target, contributions, defaults, combine)
      case Err(e) => Err(e)
      case Ok(components) =>
        if !MergeDone(spec.components, target) then Ok(spec)
        else
          match Retargeted(spec.items, target, Names(contributions))
          case Err(e) => Err(e)
          case Ok(items) => Ok(spec.(components := components, items := items))
  }

  /** A flattened template, rewritten in place. */
  class Template {
    var components: seq<Component>
    var items: seq<Item>

    constructor (spec: Spec)
      ensures components == spec.components && items == spec.items
    {
      components, items := spec.components, spec.items;
    }

    method MergeContainerContributions(defaults: Option<Requirements>, combine: Combine)
      returns (error: Option<ContributionError>)
      modifies this
      ensures var r := MergeContributions(Spec(None, old(components), old(items)), defaults, combine);
              match error
              case Some(e) =>
                && r == Err(e) && components == old(components)
                && items == (if !e.ApplyUsesContribution? then old(items)
                             else Redirected(old(items), MergeTarget(components).value,
                                 Names(Contributions(components))))
              case None => r == Ok(Spec(None, components, items))
    {
      ContributionsMembers(components);
      var contributions := CollectContributions(components);
      var target := FindMergeTarget(components);
      if target == None { return Some(NoTarget); }
      var rebuilt, mergeDone := RebuildComponents(components, target.value, contributions, defaults, combine);
      if rebuilt.Err? {
        RebuildError(components, target.value, contributions, defaults, combine);
        return Some(rebuilt.error);
      }
      if mergeDone {
        var names := set c | c in contributions :: c.name;
        var refused;
        items, refused := UpdateCommandTargets(items, target.value, names);
        if refused.Some? { return Some(ApplyUsesContribution(refused.value)); }
        components := rebuilt.value;
      }
      return None;
    }
  }

  method CollectContributions(components: seq<Component>) returns (contributions: seq<Component>)
    ensures contributions == Contributions(components)
  {
    contributions := [];
    for i := 0 to |components|
      invariant contributions == Contributions(components[..i])
    {
      assert components[..i + 1][..i] == components[..i];
      if IsContribution(components[i]) { contributions := contributions + [components[i]]; }
    }
    assert components[..|components|] == components;
  }

  lemma {:induction false} RebuildErrorPersists(cs: seq<Component>, i: nat, target: string,
                                                contributions: seq<Component>,
                                                defaults: Option<Requirements>, combine: Combine)
    requires forall c :: c in contributions ==> IsContainer(c)
    requires i <= |cs| && Rebuilt(cs[..i], target, contributions, defaults, combine).Err?
    ensures Rebuilt(cs, target, contributions, defaults, combine) ==
            Rebuilt(cs[..i], target, contributions, defaults, combine)
  {
    if i == |cs| { assert cs[..i] == cs; }
    else {
      assert cs[..|cs| - 1][..i] == cs[..i];
      RebuildErrorPersists(cs[..|cs| - 1], i, target, contributions, defaults, combine);
    }
  }

  lemma RebuiltStep(cs: seq<Component>, i: nat, target: string, contributions: seq<Component>,
                    defaults: Option<Requirements>, combine: Combine, front: seq<Component>)
    requires forall c :: c in contributions ==> IsContainer(c)
    requires i < |cs| && Rebuilt(cs[..i], target, contributions, defaults, combine) == Ok(front)
    ensures MergeDone(cs[..i + 1], target) <==> MergeDone(cs[..i], target) || Receives(cs[i], target)
    ensures var r := Rebuilt(cs[..i + 1], target, contributions, defaults, combine);
            if IsContribution(cs[i]) then r == Ok(front)
            else if Receives(cs[i], target) && !MergeDone(cs[..i], target) then
              match MergeInto(cs[i], contributions, defaults, combine)
              case Err(e) => r == Err(e)
              case Ok(m) => r == Ok(front + [m])
            else r == Ok(front + [cs[i]])
  {
    assert cs[..i + 1][..i] == cs[..i];
    MergeDoneStep(cs, i, target);
  }

  lemma MergeDoneStep(cs: seq<Component>, i: nat, target: string)
    requires i < |cs|
    ensures MergeDone(cs[..i + 1], target) <==> MergeDone(cs[..i], target) || Receives(cs[i], target)
  {
    assert cs[..i + 1] == cs[..i] + [cs[i]];
  }

  method RebuildComponents(components: seq<Component>, target: string, contributions: seq<Component>,
                           defaults: Option<Requirements>, combine: Combine)
    returns (r: Result<seq<Component>, ContributionError>, mergeDone: bool)
    requires forall c :: c in contributions ==> IsContainer(c)
    ensures r == Rebuilt(components, target, contributions, defaults, combine)
    ensures r.Ok? ==> (mergeDone <==> MergeDone(components, target))
  {
    var newComponents: seq<Component> := [];
    mergeDone := false;
    for i := 0 to |components|
      invariant Rebuilt(components[..i], target, contributions, defaults, combine) == Ok(newComponents)
      invariant mergeDone <==> MergeDone(components[..i], target)
    {
      var c := components[i];
      RebuiltStep(components, i, target, contributions, defaults, combine, newComponents);
      if !IsContainer(c) {
        newComponents := newComponents + [c];
      } else if IsContribution(c) {
        continue;
      } else if c.name == target && !mergeDone {
        var merged := MergeInto(c, contributions, defaults, combine);
        if merged.Err? {
          RebuildErrorPersists(components, i + 1, target, contributions, defaults, combine);
          return Err(merged.error), mergeDone;
        }
        newComponents := newComponents + [merged.value];
        mergeDone := true;
      } else {
        newComponents := newComponents + [c];
      }
    }
    assert components[..|components|] == components;
    r := Ok(newComponents);
  }

  /** Rebuilding the components does not fail on a command. */
  lemma {:induction false} RebuildError(cs: seq<Component>, target: string, contributions: seq<Component>,
                                        defaults: Option<Requirements>, combine: Combine)
    requires forall c :: c in contributions ==> IsContainer(c)
    ensures var r := Rebuilt(cs, target, contributions, defaults, combine); r.Err? ==> !r.error.ApplyUsesContribution?
  {
    if cs != [] { RebuildError(cs[..|cs| - 1], target, contributions, defaults, combine); }
  }

  lemma {:induction false} RetargetErrorPersists(items: seq<Item>, i: nat, target: string, names: set<string>)
    requires i <= |items| && Retargeted(items[..i], target, names).Err?
    ensures Retargeted(items, target, names) == Retargeted(items[..i], target, names)
  {
    if i == |items| { assert items[..i] == items; }
    else {
      assert items[..|items| - 1][..i] == items[..i];
      RetargetErrorPersists(items[..|items| - 1], i, target, names);
    }
  }

  method UpdateCommandTargets(items: seq<Item>, target: string, names: set<string>)
    returns (updated: seq<Item>, refused: Option<string>)
    ensures updated == Redirected(items, target, names)
    ensures Retargeted(items, target, names) ==
            if refused.Some? then Err(ApplyUsesContribution(refused.value)) else Ok(updated)
  {
    updated := [];
    ghost var front: seq<Item> := [];
    for i := 0 to |items|
      invariant front == items[..i] && Updated(updated, front, target, names)
    {
      var item := items[i];
      CommandStep(front, item, target, names);
      if UsesContribution(item.action, names) {
        if item.action.value.Exec? {
          item := item.(action := Some(Exec(target)));
        } else {
          CommandRefused(items, i, target, names);
          return updated + items[i..], Some(item.name);
        }
      }
      front, updated := front + [items[i]], updated + [item];
    }
    assert front == items;
    return updated, None;
  }

  ghost predicate Updated(updated: seq<Item>, front: seq<Item>, target: string, names: set<string>) {
    updated == Redirected(front, target, names) && Retargeted(front, target, names) == Ok(updated)
  }

  /** Where a command is refused, the loop stops. */
  lemma CommandRefused(items: seq<Item>, i: nat, target: string, names: set<string>)
    requires i < |items| && Retargeted(items[..i], target, names).Ok?
    requires UsesContribution(items[i].action, names) && items[i].action.value.Apply?
    ensures Retargeted(items, target, names) == Err(ApplyUsesContribution(items[i].name))
    ensures Redirected(items, target, names) == Redirected(items[..i], target, names) + items[i..]
  {
    var front, item := items[..i], items[i];
    assert items[..i + 1] == front + [item];
    CommandStep(front, item, target, names);
    RetargetErrorPersists(items, i + 1, target, names);
    RedirectStops(items, i + 1, target, names);
    assert Retarget(item, target, names) == item;
    TailFrom(Redirected(front, target, names), items, i);
  }

  lemma TailFrom(front: seq<Item>, items: seq<Item>, i: nat)
    requires i < |items|
    ensures front + [items[i]] + items[i + 1..] == front + items[i..]
  {
    assert [items[i]] + items[i + 1..] == items[i..];
  }

  lemma CommandStep(front: seq<Item>, item: Item, target: string, names: set<string>)
    requires Retargeted(front, target, names).Ok?
    ensures Redirected(front + [item], target, names) ==
            Redirected(front, target, names) + [Retarget(item, target, names)]
    ensures Retargeted(front + [item], target, names) ==
            if UsesContribution(item.action, names) && item.action.value.Apply? then
              Err(ApplyUsesContribution(item.name))
            else Ok(Retargeted(front, target, names).value + [Retarget(item, target, names)])
  {
    assert (front + [item])[..|front|] == front;
  }

  /** Nothing after a refused command is touched. */
  lemma {:induction false} RedirectStops(items: seq<Item>, i: nat, target: string, names: set<string>)
    requires i <= |items| && Retargeted(items[..i], target, names).Err?
    ensures Redirected(items, target, names) == Redirected(items[..i], target, names) + items[i..]
  {
    if i == |items| { assert items[..i] == items; }
    else {
      var init := items[..|items| - 1];
      assert init[..i] == items[..i];
      RedirectStops(init, i, target, names);
      RetargetErrorPersists(init, i, target, names);
      assert init[i..] + [items[|items| - 1]] == items[i..];
    }
  }

  // ----- what merging achieves -----

  ghost predicate UniqueNames(cs: seq<Component>) {
    forall i, j :: 0 <= i < j < |cs| ==> cs[i].name != cs[j].name
  }

  function NonContributions(cs: seq<Component>): seq<Component> {
    if cs == [] then []
    else NonContributions(cs[..|cs| - 1]) + (if IsContribution(cs[|cs| - 1]) then [] else [cs[|cs| - 1]])
  }

  lemma {:induction false} NonContributionsMembers(cs: seq<Component>)
    ensures forall c :: c in NonContributions(cs) <==>
              c in cs && !(c.body.ContainerBody? && c.attributes.contribution == Yes)
  {
    if cs != [] {
      NonContributionsMembers(cs[..|cs| - 1]);
      assert cs == cs[..|cs| - 1] + [cs[|cs| - 1]];
    }
  }

  /** The rebuilt list is the old one without contributions, with only the target changed, in place. */
  lemma {:induction false} RebuiltInPlace(cs: seq<Component>, target: string, contributions: seq<Component>,
                                          defaults: Option<Requirements>, combine: Combine)
    requires forall c :: c in contributions ==> IsContainer(c)
    requires Rebuilt(cs, target, contributions, defaults, combine).Ok? && UniqueNames(cs)
    ensures var r, kept := Rebuilt(cs, target, contributions, defaults, combine).value, NonContributions(cs);
            |r| == |kept| && forall i :: 0 <= i < |r| ==>
              if Receives(kept[i], target) then Ok(r[i]) == MergeInto(kept[i], contributions, defaults, combine)
              else r[i] == kept[i]
  {
    if cs != [] {
      var init, c := cs[..|cs| - 1], cs[|cs| - 1];
      RebuiltInPlace(init, target, contributions, defaults, combine);
      forall d | d in init ensures d.name != c.name {
        var i :| 0 <= i < |init| && init[i] == d;
        assert cs[i] == d;
      }
    }
  }

  lemma {:induction false} TotalAt(base: Requirements, contributions: seq<Component>, k: ResourceName)
    requires forall c :: c in contributions ==> IsContainer(c)
    requires Total(base, contributions).Some?
    ensures var total := Total(base, contributions).value;
            && (k in total.limits <==> k in base.limits)
            && (k in total.requests <==> k in base.requests)
            && (k in base.limits ==> total.limits[k] == base.limits[k] + SumLimits(contributions, k))
            && (k in base.requests ==> total.requests[k] == base.requests[k] + SumRequests(contributions, k))
  {
    if contributions != [] {
      assert contributions[|contributions| - 1] in contributions;
      TotalAt(base, contributions[..|contributions| - 1], k);
    }
  }

  function Declared(c: Component): Requirements {
    if c.body.ContainerBody? && c.body.resources.Some? then c.body.resources.value else Requirements(map[], map[])
  }

  function SumLimits(cs: seq<Component>, k: ResourceName): int {
    if cs == [] then 0 else SumLimits(cs[..|cs| - 1], k) + Get(Declared(cs[|cs| - 1]).limits, k)
  }

  function SumRequests(cs: seq<Component>, k: ResourceName): int {
    if cs == [] then 0 else SumRequests(cs[..|cs| - 1], k) + Get(Declared(cs[|cs| - 1]).requests, k)
  }

  lemma {:induction false} SumsNonNegative(cs: seq<Component>, k: ResourceName)
    requires forall c :: c in cs ==> NonNegative(Declared(c))
    ensures SumLimits(cs, k) >= 0 && SumRequests(cs, k) >= 0
  {
    if cs != [] {
      assert cs[|cs| - 1] in cs;
      SumsNonNegative(cs[..|cs| - 1], k);
    }
  }

  /** Each memory or CPU entry of the defaulted target becomes itself plus the contributions'; no other appears. */
  lemma ResourcesAreSummed(target: Component, contributions: seq<Component>, defaults: Option<Requirements>,
                           combine: Combine,
                           k: ResourceName)
    requires IsContainer(target) && forall c :: c in contributions ==> IsContainer(c)
    requires MergeInto(target, contributions, defaults, combine).Ok? && Tracked(k)
    requires NonNegative(Declared(target)) && forall c :: c in contributions ==> NonNegative(Declared(c))
    requires defaults.Some? ==> NonNegative(defaults.value)
    ensures var base := WithDefaults(Declared(target), defaults);
            var merged := Declared(MergeInto(target, contributions, defaults, combine).value);
            && (k in merged.limits <==> k in base.limits)
            && (k in merged.requests <==> k in base.requests)
            && (k in base.limits ==> merged.limits[k] == base.limits[k] + SumLimits(contributions, k))
            && (k in base.requests ==> merged.requests[k] == base.requests[k] + SumRequests(contributions, k))
  {
    var own := Declared(target);
    var base := WithDefaults(own, defaults);
    var total := Total(base, contributions).value;
    TotalAt(base, contributions, k);
    SumsNonNegative(contributions, k);
    DefaultedAt(own, defaults, k);
    ApplyTotalAt(own, total, k);
    assert Declared(MergeInto(target, contributions, defaults, combine).value) == ApplyTotal(own, total);
  }

  /** Defaults keep what is declared and add positive entries only. */
  lemma DefaultedAt(own: Requirements, defaults: Option<Requirements>, k: ResourceName)
    requires NonNegative(own) && (defaults.Some? ==> NonNegative(defaults.value))
    ensures var base := WithDefaults(own, defaults);
            && (k in own.limits ==> k in base.limits && base.limits[k] == own.limits[k] >= 0)
            && (k in own.requests ==> k in base.requests && base.requests[k] == own.requests[k] >= 0)
            && (k in base.limits && k !in own.limits ==> base.limits[k] > 0)
            && (k in base.requests && k !in own.requests ==> base.requests[k] > 0)
  {
    if defaults.Some? { DefaultsAt(own, defaults.value, k); }
  }

  lemma ApplyTotalAt(r: Requirements, total: Requirements, k: ResourceName)
    requires Tracked(k)
    ensures Look(ApplyTotal(r, total).limits, k) ==
            if Get(total.limits, k) != 0 then Look(total.limits, k) else Look(r.limits, k)
    ensures Look(ApplyTotal(r, total).requests, k) ==
            if Get(total.requests, k) != 0 then Look(total.requests, k) else Look(r.requests, k)
  {
  }

  /** What the documentation expects of contributions: imported by a plugin, and not targets themselves. */
  ghost predicate ContributionsImported(cs: seq<Component>) {
    forall c :: c in cs && IsContribution(c) ==> ImportedByPlugin(c) && c.attributes.mergeContribution == Absent
  }

  /** If a merge is needed, a target is found, and it is not itself a contribution. */
  lemma TargetIsFound(cs: seq<Component>)
    requires ContributionsImported(cs) && forall c :: c in cs ==> c.name != ""
    requires exists c :: c in cs && CountsAsTarget(c)
    ensures MergeTarget(cs).Some? && MergeDone(cs, MergeTarget(cs).value)
  {
    FirstExplicitFound(cs);
    FirstImplicitFound(cs);
    var t :| t in cs && CountsAsTarget(t);
    if FirstExplicit(cs).Some? {
      var c :| c in cs && ExplicitTarget(c) && FirstExplicit(cs) == Some(c.name);
      assert Receives(c, c.name);
    } else {
      assert ImplicitTarget(t);
      var c :| c in cs && ImplicitTarget(c) && FirstImplicit(cs) == c.name;
      assert Receives(c, c.name);
    }
  }

  lemma {:induction false} RetargetedInPlace(items: seq<Item>, target: string, names: set<string>)
    requires Retargeted(items, target, names).Ok?
    ensures var r := Retargeted(items, target, names).value;
            |r| == |items| && forall i :: 0 <= i < |items| ==>
              && r[i] == Retarget(items[i], target, names)
              && !(UsesContribution(items[i].action, names) && items[i].action.value.Apply?)
  {
    if items != [] { RetargetedInPlace(items[..|items| - 1], target, names); }
  }

  ghost predicate NamesComponent(i: Item, cs: seq<Component>) {
    i.action.Some? && !i.action.value.Composite? && exists c :: c in cs && c.name == i.action.value.component
  }

  /** Commands keep pointing at components that exist. */
  lemma CommandsStayValid(spec: Spec, out: seq<Component>, items: seq<Item>, target: string, k: nat)
    requires UniqueNames(spec.components) && k < |spec.items|
    requires Retargeted(spec.items, target, Names(Contributions(spec.components))) == Ok(items)
    requires forall c :: c in spec.components && !IsContribution(c) ==> exists d :: d in out && d.name == c.name
    requires exists d :: d in out && d.name == target
    requires NamesComponent(spec.items[k], spec.components)
    ensures k < |items| && NamesComponent(items[k], out)
  {
    RetargetedInPlace(spec.items, target, Names(Contributions(spec.components)));
    ContributionsMembers(spec.components);
    var name := spec.items[k].action.value.component;
    var c :| c in spec.components && c.name == name;
    if IsContribution(c) { assert c in Contributions(spec.components); }
    if name in Names(Contributions(spec.components)) {
      var d :| d in out && d.name == target;
    } else {
      var d :| d in out && d.name == c.name;
    }
  }

  /**
   A merge that is needed and succeeds happens: contributions vanish, all other components keep
   their place and name, only the target changes, and commands still name existing components.
   */
  lemma NeededMergeHappens(spec: Spec, defaults: Option<Requirements>, combine: Combine)
    requires UniqueNames(spec.components) && ContributionsImported(spec.components)
    requires forall c :: c in spec.components ==> c.name != ""
    requires exists c :: c in spec.components && CountsAsTarget(c)
    requires MergeContributions(spec, defaults, combine).Ok?
    ensures var out, kept := MergeContributions(spec, defaults, combine).value, NonContributions(spec.components);
            && |out.components| == |kept|
            && (forall i :: 0 <= i < |kept| ==>
                out.components[i].name == kept[i].name && !IsContribution(out.components[i]))
            && (forall i :: 0 <= i < |kept| && kept[i].name != MergeTarget(spec.components).value ==>
                out.components[i] == kept[i])
            && |out.items| == |spec.items|
            && (forall k :: 0 <= k < |spec.items| && NamesComponent(spec.items[k], spec.components) ==>
                  NamesComponent(out.items[k], out.components))
  {
    TargetIsFound(spec.components);
    var target := MergeTarget(spec.components).value;
    ComponentsRebuilt(spec, target, defaults, combine);
    CommandsRedirected(spec, target, defaults, combine);
  }

  lemma ComponentsRebuilt(spec: Spec, target: string, defaults: Option<Requirements>, combine: Combine)
    requires UniqueNames(spec.components) && MergeTarget(spec.components) == Some(target)
    requires MergeDone(spec.components, target) && MergeContributions(spec, defaults, combine).Ok?
    ensures var out, kept := MergeContributions(spec, defaults, combine).value, NonContributions(spec.components);
            && |out.components| == |kept|
            && (forall i :: 0 <= i < |kept| ==>
                  out.components[i].name == kept[i].name && !IsContribution(out.components[i]))
            && (forall i :: 0 <= i < |kept| && kept[i].name != target ==> out.components[i] == kept[i])
  {
    ContributionsMembers(spec.components);
    ListRebuilt(spec.components, target, Contributions(spec.components), defaults, combine);
  }

  lemma ListRebuilt(cs: seq<Component>, target: string, contributions: seq<Component>,
                    defaults: Option<Requirements>, combine: Combine)
    requires forall c :: c in contributions ==> IsContainer(c)
    requires Rebuilt(cs, target, contributions, defaults, combine).Ok? && UniqueNames(cs)
    ensures var out, kept := Rebuilt(cs, target, contributions, defaults, combine).value, NonContributions(cs);
            && |out| == |kept|
            && (forall i :: 0 <= i < |kept| ==> out[i].name == kept[i].name && !IsContribution(out[i]))
            && (forall i :: 0 <= i < |kept| && kept[i].name != target ==> out[i] == kept[i])
  {
    RebuiltInPlace(cs, target, contributions, defaults, combine);
    NonContributionsMembers(cs);
    var kept := NonContributions(cs);
    forall i | 0 <= i < |kept| ensures kept[i] in kept {}
  }

  lemma CommandsRedirected(spec: Spec, target: string, defaults: Option<Requirements>, combine: Combine)
    requires UniqueNames(spec.components) && MergeTarget(spec.components) == Some(target)
    requires MergeDone(spec.components, target) && MergeContributions(spec, defaults, combine).Ok?
    ensures var out := MergeContributions(spec, defaults, combine).value;
            && |out.items| == |spec.items|
            && (forall k :: 0 <= k < |spec.items| && NamesComponent(spec.items[k], spec.components) ==>
                  NamesComponent(out.items[k], out.components))
  {
    var cs, contributions := spec.components, Contributions(spec.components);
    var out := MergeContributions(spec, defaults, combine).value;
    ContributionsMembers(cs);
    RetargetedInPlace(spec.items, target, Names(contributions));
    forall c | c in cs && !IsContribution(c) ensures exists d :: d in out.components && d.name == c.name {
      NameIsKept(spec, target, defaults, combine, c);
    }
    var t :| t in cs && Receives(t, target);
    forall k | 0 <= k < |spec.items| && NamesComponent(spec.items[k], cs)
      ensures NamesComponent(out.items[k], out.components) {
      CommandsStayValid(spec, out.components, out.items, target, k);
    }
  }

  lemma NameIsKept(spec: Spec, target: string, defaults: Option<Requirements>, combine: Combine, c: Component)
    requires UniqueNames(spec.components) && MergeTarget(spec.components) == Some(target)
    requires MergeDone(spec.components, target) && MergeContributions(spec, defaults, combine).Ok?
    requires c in spec.components && !IsContribution(c)
    ensures exists d :: d in MergeContributions(spec, defaults, combine).value.components && d.name == c.name
  {
    var kept := NonContributions(spec.components);
    ComponentsRebuilt(spec, target, defaults, combine);
    NonContributionsMembers(spec.components);
    var i :| 0 <= i < |kept| && kept[i] == c;
    assert MergeContributions(spec, defaults, combine).value.components[i].name == c.name;
  }

  /**
   In the merged template the target stands with its own settings and the contributions' combined,
   and each of its memory and CPU entries is the defaulted one plus the contributions'.
   */
  lemma MergedTemplateHasTheSum(spec: Spec, defaults: Option<Requirements>, combine: Combine, k: ResourceName)
    returns (target: Component, merged: Component)
    requires UniqueNames(spec.components) && ContributionsImported(spec.components)
    requires forall c :: c in spec.components ==> c.name != ""
    requires exists c :: c in spec.components && CountsAsTarget(c)
    requires MergeContributions(spec, defaults, combine).Ok? && Tracked(k)
    requires forall c :: c in spec.components ==> NonNegative(Declared(c))
    requires defaults.Some? ==> NonNegative(defaults.value)
    ensures target in spec.components && !IsContribution(target) && Some(target.name) == MergeTarget(spec.components)
    ensures merged in MergeContributions(spec, defaults, combine).value.components && merged.name == target.name
    ensures combine(target.settings, SettingsOf(Contributions(spec.components))) == Some(merged.settings)
    ensures var base, contributions := WithDefaults(Declared(target), defaults), Contributions(spec.components);
            && (k in Declared(merged).limits <==> k in base.limits)
            && (k in Declared(merged).requests <==> k in base.requests)
            && (k in base.limits ==> Declared(merged).limits[k] == base.limits[k] + SumLimits(contributions, k))
            && (k in base.requests ==> Declared(merged).requests[k] == base.requests[k] + SumRequests(contributions, k))
  {
    var cs, contributions := spec.components, Contributions(spec.components);
    TargetIsFound(cs);
    ContributionsMembers(cs);
    NonContributionsMembers(cs);
    var name := MergeTarget(cs).value;
    target :| target in cs && Receives(target, name);
    RebuiltInPlace(cs, name, contributions, defaults, combine);
    var i :| 0 <= i < |NonContributions(cs)| && NonContributions(cs)[i] == target;
    merged := Rebuilt(cs, name, contributions, defaults, combine).value[i];
    MergedSettings(target, contributions, defaults, combine);
    ResourcesAreSummed(target, contributions, defaults, combine, k);
  }

  lemma MergedSettings(target: Component, contributions: seq<Component>, defaults: Option<Requirements>,
                       combine: Combine)
    requires IsContainer(target) && forall c :: c in contributions ==> IsContainer(c)
    requires MergeInto(target, contributions, defaults, combine).Ok?
    ensures var merged := MergeInto(target, contributions, defaults, combine).value;
            merged.name == target.name && combine(target.settings, SettingsOf(contributions)) == Some(merged.settings)
  {
  }

  /** The merged target keeps its source, is neither contribution nor target any more, and keeps other resources. */
  lemma MergedTargetKeeps(target: Component, contributions: seq<Component>, defaults: Option<Requirements>,
                          combine: Combine, k: ResourceName)
    requires IsContainer(target) && forall c :: c in contributions ==> IsContainer(c)
    requires MergeInto(target, contributions, defaults, combine).Ok?
    ensures var merged := MergeInto(target, contributions, defaults, combine).value;
      && merged.name == target.name && merged.body.ContainerBody? && merged.body.resources.Some?
      && merged.attributes == Attributes(target.attributes.importedBy, Absent, Absent)
      && (k != Memory && k != CPU ==>
            && (k in Declared(merged).limits <==> k in Declared(target).limits)
            && (k in Declared(merged).requests <==> k in Declared(target).requests)
            && (k in Declared(target).limits ==> Declared(merged).limits[k] == Declared(target).limits[k])
            && (k in Declared(target).requests ==> Declared(merged).requests[k] == Declared(target).requests[k]))
  {
  }

  /** The command names a container that contributes. */
  ghost predicate RunsIn(i: Item, cs: seq<Component>)
    requires i.action.Some? && !i.action.value.Composite?
  {
    exists c :: c in cs && c.body.ContainerBody? && c.attributes.contribution == Yes
                && c.name == i.action.value.component
  }

  lemma UsesMeansRunsIn(i: Item, cs: seq<Component>)
    requires i.action.Some? && !i.action.value.Composite?
    ensures UsesContribution(i.action, Names(Contributions(cs))) <==> RunsIn(i, cs)
  {
    ContributionsMembers(cs);
    if RunsIn(i, cs) {
      var c :| c in cs && c.body.ContainerBody? && c.attributes.contribution == Yes
               && c.name == i.action.value.component;
      assert c in Contributions(cs);
    }
  }

  /** After a merge, exec commands of a contribution run in the target; every other command is as it was. */
  lemma CommandsFollowTheMerge(spec: Spec, target: string, defaults: Option<Requirements>, combine: Combine, k: nat)
    requires MergeTarget(spec.components) == Some(target) && MergeDone(spec.components, target)
    requires MergeContributions(spec, defaults, combine).Ok? && k < |spec.items|
    ensures var out, i := MergeContributions(spec, defaults, combine).value, spec.items[k];
      && |out.items| == |spec.items|
      && (if i.action.Some? && i.action.value.Exec? && RunsIn(i, spec.components) then
            out.items[k] == i.(action := Some(Exec(target)))
          else out.items[k] == i)
      && !(i.action.Some? && i.action.value.Apply? && RunsIn(i, spec.components))
  {
    ContributionsMembers(spec.components);
    RetargetedInPlace(spec.items, target, Names(Contributions(spec.components)));
    var i := spec.items[k];
    if i.action.Some? && !i.action.value.Composite? { UsesMeansRunsIn(i, spec.components); }
  }

  /** A merge is refused for a command exactly when an apply command names a contribution. */
  lemma {:induction false} RefusedExactlyForApply(items: seq<Item>, target: string, cs: seq<Component>)
    ensures Retargeted(items, target, Names(Contributions(cs))).Err? <==>
            exists k :: 0 <= k < |items| && items[k].action.Some? && items[k].action.value.Apply?
                && RunsIn(items[k], cs)
  {
    if items != [] {
      var init, last := items[..|items| - 1], items[|items| - 1];
      RefusedExactlyForApply(init, target, cs);
      if last.action.Some? && !last.action.value.Composite? { UsesMeansRunsIn(last, cs); }
      var refused := Retargeted(init, target, Names(Contributions(cs))).Err?;
      assert refused ==> exists k :: 0 <= k < |init| && items[k].action.Some? && items[k].action.value.Apply?
                                     && RunsIn(items[k], cs);
      forall k | 0 <= k < |init| ensures items[k] == init[k] {}
    }
  }

  /**
   Without those assumptions the merge can be skipped silently: it is, exactly when the chosen
   target is itself a contribution.
   */
  lemma MergeSkippedExactlyWhenTargetContributes(spec: Spec, defaults: Option<Requirements>, combine: Combine,
                                                 t: Component)
    requires UniqueNames(spec.components) && (exists c :: c in spec.components && IsContribution(c))
    requires MergeContributions(spec, defaults, combine).Ok?
    requires t in spec.components && IsContainer(t) && MergeTarget(spec.components) == Some(t.name)
    ensures IsContribution(t) <==>
            exists c :: c in MergeContributions(spec, defaults, combine).value.components && IsContribution(c)
  {
    var cs, target, contributions := spec.components, t.name, Contributions(spec.components);
    ContributionsMembers(cs);
    if MergeDone(cs, target) {
      var d :| d in cs && Receives(d, target);
      SameNameSameComponent(cs, t, d);
      NoContributionRebuilt(cs, target, contributions, defaults, combine);
    } else {
      assert !Receives(t, target);
      var c :| c in cs && IsContribution(c);
      assert c in MergeContributions(spec, defaults, combine).value.components;
    }
  }

  lemma NoContributionRebuilt(cs: seq<Component>, target: string, contributions: seq<Component>,
                              defaults: Option<Requirements>,
                              combine: Combine)
    requires forall c :: c in contributions ==> IsContainer(c)
    requires Rebuilt(cs, target, contributions, defaults, combine).Ok? && UniqueNames(cs)
    ensures forall c :: c in Rebuilt(cs, target, contributions, defaults, combine).value ==> !IsContribution(c)
  {
    RebuiltInPlace(cs, target, contributions, defaults, combine);
    NonContributionsMembers(cs);
    var out, kept := Rebuilt(cs, target, contributions, defaults, combine).value, NonContributions(cs);
    forall i | 0 <= i < |out| ensures !IsContribution(out[i]) { assert kept[i] in kept; }
  }

  lemma SameNameSameComponent(cs: seq<Component>, c: Component, d: Component)
    requires UniqueNames(cs) && c in cs && d in cs && c.name == d.name
    ensures c == d
  {
    var i :| 0 <= i < |cs| && cs[i] == c;
    var j :| 0 <= j < |cs| && cs[j] == d;
  }

  /** An input that skips it: the workspace's own container, listed first, is marked as a contribution. */
  lemma OwnContributionBlocksMerge(combine: Combine)
    ensures var none := Some(Requirements(map[], map[]));
            var own := Component("tools", Attributes(None, Yes, Absent), 0, ContainerBody(none));
            var other := Component("dev", Attributes(None, Absent, Absent), 0, ContainerBody(none));
            var spec := Spec(None, [own, other], []);
            CountsAsTarget(other) && MergeContributions(spec, None, combine) == Ok(spec)
  {
    var none := Some(Requirements(map[], map[]));
    var own := Component("tools", Attributes(None, Yes, Absent), 0, ContainerBody(none));
    var other := Component("dev", Attributes(None, Absent, Absent), 0, ContainerBody(none));
    assert [own, other][..1] == [own] && [own][..0] == [];
    assert FirstExplicit([]) == None && FirstImplicit([]) == "";
    assert FirstExplicit([own]) == None && FirstImplicit([own]) == "tools";
    assert MergeTarget([own, other]) == Some("tools");
    assert Contributions([own]) == [own];
    assert Rebuilt([own], "tools", Contributions([own, other]), None, combine) == Ok([]);
  }
}
