/**
 Flattening of a devfile: its parent and its plugins, at any depth, are resolved and merged
 into one template (recursiveResolve in pkg/library/flatten/flatten.go, the cycle check in
 pkg/library/flatten/helper.go and the tagging in pkg/library/annotate/plugins.go).

 A registry maps import references to templates; it is finite but may be cyclic. Two calls
 into devfile/api are modelled by their documented effect: an override changes settings of
 elements named by it and fails on an unknown name, and a merge concatenates and fails on
 duplicate keys.
 */
module Flatten {
  import opened Options
  import opened Devfile
  import VolumeMerge

  type Registry = map<ImportReference, Spec>

  datatype FlattenError =
    | NotFound(ref: ImportReference)
    | BadOverride
    | Cycle(path: seq<ImportReference>)
    | ParentNotFlat
    | VolumeConflict(cause: VolumeMerge.MergeError)
    | DuplicateKey

  /** A plugin component or a contribution: the name it has in the devfile and what it imports. */
  datatype Import = Import(name: string, ref: ImportReference, overrides: Overrides)

  predicate IsPlugin(c: Component) {
    c.body.PluginBody?
  }

  /** DevWorkspaceIsFlattened */
  predicate IsFlattened(spec: Spec, contributions: seq<Contribution>) {
    spec.parent.None? && contributions == [] && forall c :: c in spec.components ==> !IsPlugin(c)
  }

  function OwnComponents(cs: seq<Component>): seq<Component> {
    if cs == [] then []
    else OwnComponents(cs[..|cs| - 1]) + (if IsPlugin(cs[|cs| - 1]) then [] else [cs[|cs| - 1]])
  }

  function PluginImports(cs: seq<Component>): seq<Import> {
    if cs == [] then []
    else
      var c := cs[|cs| - 1];
      PluginImports(cs[..|cs| - 1]) +
      (if IsPlugin(c) then [Import(c.name, c.body.ref, c.body.overrides)] else [])
  }

  function ContributionImports(contributions: seq<Contribution>): seq<Import> {
    seq(|contributions|, i requires 0 <= i < |contributions| =>
      Import(contributions[i].name, contributions[i].ref, contributions[i].overrides))
  }

  function Imports(spec: Spec, contributions: seq<Contribution>): seq<Import> {
    ContributionImports(contributions) + PluginImports(spec.components)
  }

  // ----- devfile/api -----

  function OverrideComponent(c: Component, ov: Overrides): Component {
    if c.name in ov.components then c.(settings := ov.components[c.name]) else c
  }

  function OverrideItem(c: Item, ov: Overrides): Item {
    if c.kind == Command && c.name in ov.commands then c.(settings := ov.commands[c.name]) else c
  }

  function OverrideComponents(cs: seq<Component>, ov: Overrides): seq<Component> {
    seq(|cs|, i requires 0 <= i < |cs| => OverrideComponent(cs[i], ov))
  }

  function OverrideItems(items: seq<Item>, ov: Overrides): seq<Item> {
    seq(|items|, i requires 0 <= i < |items| => OverrideItem(items[i], ov))
  }

  predicate OverridesApply(spec: Spec, ov: Overrides) {
    && (forall n :: n in ov.components ==> exists c :: c in spec.components && c.name == n)
    && (forall n :: n in ov.commands ==> exists c :: c in spec.items && c.kind == Command && c.name == n)
  }

  function ApplyOverrides(spec: Spec, ov: Overrides): Result<Spec, FlattenError> {
    if !OverridesApply(spec, ov) then Err(BadOverride)
    else Ok(spec.(components := OverrideComponents(spec.components, ov), items := OverrideItems(spec.items, ov)))
  }

  /** resolvePluginComponent and resolveParentComponent */
  function Fetch(reg: Registry, ref: ImportReference, ov: Overrides): Result<Spec, FlattenError> {
    if ref !in reg then Err(NotFound(ref)) else ApplyOverrides(reg[ref], ov)
  }

  predicate UniqueKeys(spec: Spec) {
    && (forall i, j :: 0 <= i < j < |spec.components| ==> spec.components[i].name != spec.components[j].name)
    && (forall i, j :: 0 <= i < j < |spec.items| ==>
          spec.items[i].name != spec.items[j].name || spec.items[i].kind != spec.items[j].kind)
  }

  function Append(a: Spec, b: Spec): Spec {
    Spec(None, a.components + b.components, a.items + b.items)
  }

  function Join(contents: seq<Spec>): Spec {
    if contents == [] then Spec(None, [], []) else Append(Join(contents[..|contents| - 1]), contents[|contents| - 1])
  }

  // ----- tagging -----

  function TagComponent(c: Component, source: string): Component {
    c.(attributes := c.attributes.(importedBy := Some(source)))
  }

  function TagComponents(cs: seq<Component>, source: string): seq<Component> {
    seq(|cs|, i requires 0 <= i < |cs| => TagComponent(cs[i], source))
  }

  function TagItems(items: seq<Item>, source: string): seq<Item> {
    seq(|items|, i requires 0 <= i < |items| => items[i].(importedBy := Some(source)))
  }

  /** AddSourceAttributesForTemplate */
  function Tag(source: string, spec: Spec): Spec {
    spec.(components := TagComponents(spec.components, source), items := TagItems(spec.items, source))
  }

  // ----- resolution -----

  /** The devfile's own content, the parent's and the plugins', with volumes merged. */
  function WithComponents(contents: seq<Spec>, lists: seq<seq<Component>>): seq<Spec>
    requires |contents| == |lists|
  {
    seq(|contents|, i requires 0 <= i < |contents| => contents[i].(components := lists[i]))
  }

  function ComponentLists(contents: seq<Spec>): seq<seq<Component>> {
    seq(|contents|, i requires 0 <= i < |contents| => contents[i].components)
  }

  /** mergeDevWorkspaceElements; the merged template lists parent, plugins, then own elements. */
  function Merge(own: Spec, parent: Spec, plugins: seq<Spec>): Result<Spec, FlattenError> {
    var contents := [own, parent] + plugins;
    match VolumeMerge.MergeVolumes(ComponentLists(contents))
    case Err(e) => Err(VolumeConflict(e))
    case Ok(lists) =>
      var merged := WithComponents(contents, lists);
      var joined := Join(merged[1..] + [merged[0]]);
      if UniqueKeys(joined) then Ok(joined) else Err(DuplicateKey)
  }

  predicate Repeats(path: seq<ImportReference>) {
    exists i, j :: 0 <= i < j < |path| && path[i] == path[j]
  }

  function Seen(path: seq<ImportReference>): set<ImportReference> {
    set r | r in path
  }

  lemma RevisitRepeats(path: seq<ImportReference>, ref: ImportReference)
    ensures ref in path ==> Repeats(path + [ref])
  {
    if ref in path {
      var i :| 0 <= i < |path| && path[i] == ref;
      assert (path + [ref])[i] == (path + [ref])[|path|];
    }
  }

  function ResolveParent(reg: Registry, parent: Option<Parent>): Result<Spec, FlattenError> {
    match parent
    case None => Ok(Spec(None, [], []))
    case Some(p) =>
      match Fetch(reg, p.ref, p.overrides)
      case Err(e) => Err(e)
      case Ok(s) => if IsFlattened(s, []) then Ok(Tag("parent", s)) else Err(ParentNotFlat)
  }

  /** recursiveResolve, for a template reached along the import path `path`. */
  function Resolve(reg: Registry, spec: Spec, contributions: seq<Contribution>, path: seq<ImportReference>):
    Result<Spec, FlattenError>
    decreases reg.Keys - Seen(path), 2
  {
    if IsFlattened(spec, contributions) then Ok(spec)
    else
      match ResolveImports(reg, ContributionImports(contributions), path)
      case Err(e) => Err(e)
      case Ok(contributed) =>
        match ResolveParent(reg, spec.parent)
        case Err(e) => Err(e)
        case Ok(parent) =>
          match ResolveImports(reg, PluginImports(spec.components), path)
          case Err(e) => Err(e)
          case Ok(plugins) =>
            Merge(spec.(parent := None, components := OwnComponents(spec.components)), parent, contributed + plugins)
  }

  function ResolveImports(reg: Registry, imports: seq<Import>,
                          path: seq<ImportReference>): Result<seq<Spec>, FlattenError>
    decreases reg.Keys - Seen(path), 1, |imports|
  {
    if imports == [] then Ok([])
    else
      match ResolveImports(reg, imports[..|imports| - 1], path)
      case Err(e) => Err(e)
      case Ok(specs) =>
        match ResolveImport(reg, imports[|imports| - 1], path)
        case Err(e) => Err(e)
        case Ok(s) => Ok(specs + [s])
  }

  function ResolveImport(reg: Registry, imp: Import, path: seq<ImportReference>): Result<Spec, FlattenError>
    decreases reg.Keys - Seen(path), 0
  {
    match Fetch(reg, imp.ref, imp.overrides)
    case Err(e) => Err(e)
    case Ok(s) =>
      var path' := path + [imp.ref];
      if Repeats(path') then Err(Cycle(path'))
      else
        RevisitRepeats(path, imp.ref);
        assert imp.ref in reg.Keys - Seen(path);
        match Resolve(reg, s, [], path')
        case Err(e) => Err(e)
        case Ok(r) => Ok(Tag(imp.name, r))
  }

  // ----- import paths and cycles -----

  /** The devfile has a plugin component, or the workspace a contribution, that imports so. */
  ghost predicate DeclaresImport(spec: Spec, contributions: seq<Contribution>, imp: Import) {
    || (exists c :: c in spec.components && c.name == imp.name && c.body == PluginBody(imp.ref, imp.overrides))
    || Contribution(imp.name, imp.ref, imp.overrides) in contributions
  }

  lemma ImportsAreDeclared(spec: Spec, contributions: seq<Contribution>, imp: Import)
    ensures imp in Imports(spec, contributions) <==> DeclaresImport(spec, contributions, imp)
  {
    PluginImportsDeclared(spec.components, imp);
    var cs := ContributionImports(contributions);
    if imp in cs { var i :| 0 <= i < |cs| && cs[i] == imp; }
    var c := Contribution(imp.name, imp.ref, imp.overrides);
    if c in contributions {
      var i :| 0 <= i < |contributions| && contributions[i] == c;
      assert cs[i] == imp;
    }
  }

  lemma {:induction false} PluginImportsDeclared(cs: seq<Component>, imp: Import)
    ensures imp in PluginImports(cs) <==>
            exists c :: c in cs && c.name == imp.name && c.body == PluginBody(imp.ref, imp.overrides)
  {
    if cs != [] {
      var init, last := cs[..|cs| - 1], cs[|cs| - 1];
      PluginImportsDeclared(init, imp);
      assert cs == init + [last] && forall c :: c in cs <==> c in init || c == last;
    }
  }

  ghost predicate ImportsRef(spec: Spec, contributions: seq<Contribution>, ref: ImportReference) {
    exists imp :: DeclaresImport(spec, contributions, imp) && imp.ref == ref
  }

  /** Following `p` from the template: each reference is imported by the template the previous one names. */
  ghost predicate IsImportPath(reg: Registry, spec: Spec, contributions: seq<Contribution>, p: seq<ImportReference>)
    decreases |p|
  {
    p == [] ||
    (ImportsRef(spec, contributions, p[0]) &&
     (|p| > 1 ==> p[0] in reg && IsImportPath(reg, reg[p[0]], [], p[1..])))
  }

  lemma {:induction false} OverridesKeepImports(cs: seq<Component>, ov: Overrides)
    ensures PluginImports(OverrideComponents(cs, ov)) == PluginImports(cs)
  {
    if cs != [] {
      OverridesKeepImports(cs[..|cs| - 1], ov);
      assert OverrideComponents(cs, ov)[..|cs| - 1] == OverrideComponents(cs[..|cs| - 1], ov);
    }
  }

  lemma FetchKeepsPaths(reg: Registry, ref: ImportReference, ov: Overrides, p: seq<ImportReference>)
    requires Fetch(reg, ref, ov).Ok?
    ensures Imports(Fetch(reg, ref, ov).value, []) == Imports(reg[ref], [])
    ensures IsImportPath(reg, Fetch(reg, ref, ov).value, [], p) <==> IsImportPath(reg, reg[ref], [], p)
  {
    OverridesKeepImports(reg[ref].components, ov);
    var s := Fetch(reg, ref, ov).value;
    forall imp ensures DeclaresImport(s, [], imp) <==> DeclaresImport(reg[ref], [], imp) {
      ImportsAreDeclared(s, [], imp);
      ImportsAreDeclared(reg[ref], [], imp);
    }
  }

  lemma {:induction false} ImportsMakeUnflat(cs: seq<Component>)
    ensures PluginImports(cs) != [] ==> exists c :: c in cs && IsPlugin(c)
  {
    if cs != [] {
      ImportsMakeUnflat(cs[..|cs| - 1]);
      assert cs == cs[..|cs| - 1] + [cs[|cs| - 1]];
      if IsPlugin(cs[|cs| - 1]) { assert cs[|cs| - 1] in cs; }
      else if PluginImports(cs[..|cs| - 1]) != [] {
        var c :| c in cs[..|cs| - 1] && IsPlugin(c);
        assert c in cs;
      }
    }
  }

  lemma {:induction false} EachImportResolved(reg: Registry, imports: seq<Import>, path: seq<ImportReference>, i: nat)
    requires ResolveImports(reg, imports, path).Ok? && i < |imports|
    ensures |ResolveImports(reg, imports, path).value| == |imports|
    ensures ResolveImport(reg, imports[i], path) == Ok(ResolveImports(reg, imports, path).value[i])
    decreases |imports|
  {
    var init := imports[..|imports| - 1];
    var specs := ResolveImports(reg, init, path).value;
    if init != [] { EachImportResolved(reg, init, path, 0); }
    if i < |init| { EachImportResolved(reg, init, path, i); }
  }

  /** A successful resolution resolved every import of the template. */
  lemma ImportResolved(reg: Registry, spec: Spec, contributions: seq<Contribution>, path: seq<ImportReference>,
                       imp: Import)
    returns (s: Spec)
    requires Resolve(reg, spec, contributions, path).Ok? && imp in Imports(spec, contributions)
    ensures !IsFlattened(spec, contributions)
    ensures Fetch(reg, imp.ref, imp.overrides) == Ok(s) && !Repeats(path + [imp.ref])
    ensures Resolve(reg, s, [], path + [imp.ref]).Ok?
    ensures ResolveImport(reg, imp, path) == Ok(Tag(imp.name, Resolve(reg, s, [], path + [imp.ref]).value))
  {
    ImportsMakeUnflat(spec.components);
    assert contributions == [] ==> ContributionImports(contributions) == [];
    if imp in ContributionImports(contributions) {
      var i :| 0 <= i < |contributions| && ContributionImports(contributions)[i] == imp;
      EachImportResolved(reg, ContributionImports(contributions), path, i);
    } else {
      var i :| 0 <= i < |PluginImports(spec.components)| && PluginImports(spec.components)[i] == imp;
      EachImportResolved(reg, PluginImports(spec.components), path, i);
    }
    s := Fetch(reg, imp.ref, imp.overrides).value;
  }

  /** The import a path starts with. */
  lemma PathStep(reg: Registry, spec: Spec, contributions: seq<Contribution>, p: seq<ImportReference>)
    returns (imp: Import)
    requires p != [] && IsImportPath(reg, spec, contributions, p)
    ensures imp in Imports(spec, contributions) && imp.ref == p[0]
    ensures |p| > 1 ==> imp.ref in reg && IsImportPath(reg, reg[imp.ref], [], p[1..])
  {
    imp :| DeclaresImport(spec, contributions, imp) && imp.ref == p[0];
    ImportsAreDeclared(spec, contributions, imp);
  }

  /** Along an import path, one resolution leads to the next. */
  lemma ResolvedAlong(
      reg: Registry, spec: Spec, contributions: seq<Contribution>, path: seq<ImportReference>, p: seq<ImportReference>)
    returns (s: Spec)
    requires Resolve(reg, spec, contributions, path).Ok? && p != [] && IsImportPath(reg, spec, contributions, p)
    ensures !Repeats(path + [p[0]]) && Resolve(reg, s, [], path + [p[0]]).Ok?
    ensures IsImportPath(reg, s, [], p[1..])
  {
    var imp := PathStep(reg, spec, contributions, p);
    s := ImportResolved(reg, spec, contributions, path, imp);
    if |p| > 1 { FetchKeepsPaths(reg, imp.ref, imp.overrides, p[1..]); }
  }

  /** Success means no import path from the template ever repeats a reference. */
  lemma {:induction false} SuccessMeansAcyclicFrom(
      reg: Registry, spec: Spec, contributions: seq<Contribution>, path: seq<ImportReference>, p: seq<ImportReference>)
    requires Resolve(reg, spec, contributions, path).Ok? && IsImportPath(reg, spec, contributions, p) && !Repeats(path)
    ensures !Repeats(path + p)
    decreases |p|
  {
    if p == [] {
      assert path + p == path;
    } else {
      var s := ResolvedAlong(reg, spec, contributions, path, p);
      SuccessMeansAcyclicFrom(reg, s, [], path + [p[0]], p[1..]);
      PathSplit(path, p);
    }
  }

  lemma PathSplit(path: seq<ImportReference>, p: seq<ImportReference>)
    requires p != []
    ensures path + [p[0]] + p[1..] == path + p
  {
  }

  lemma {:induction false} CycleInImports(reg: Registry, imports: seq<Import>, path: seq<ImportReference>,
                                          c: seq<ImportReference>)
    returns (imp: Import)
    requires ResolveImports(reg, imports, path) == Err(Cycle(c))
    ensures imp in imports && ResolveImport(reg, imp, path) == Err(Cycle(c))
    decreases |imports|
  {
    var init, last := imports[..|imports| - 1], imports[|imports| - 1];
    if ResolveImports(reg, init, path).Err? {
      imp := CycleInImports(reg, init, path, c);
    } else {
      imp := last;
    }
  }

  /** The import whose resolution reported the cycle. */
  lemma ReportedImport(
      reg: Registry, spec: Spec, contributions: seq<Contribution>, path: seq<ImportReference>, c: seq<ImportReference>)
    returns (imp: Import)
    requires Resolve(reg, spec, contributions, path) == Err(Cycle(c))
    ensures imp in Imports(spec, contributions) && ResolveImport(reg, imp, path) == Err(Cycle(c))
  {
    if ResolveImports(reg, ContributionImports(contributions), path).Err? {
      imp := CycleInImports(reg, ContributionImports(contributions), path, c);
    } else {
      imp := CycleInImports(reg, PluginImports(spec.components), path, c);
    }
  }

  /** The import closed the cycle itself, or the template it names reported it. */
  lemma CycleFurther(reg: Registry, imp: Import, path: seq<ImportReference>, c: seq<ImportReference>)
    returns (s: Spec)
    requires ResolveImport(reg, imp, path) == Err(Cycle(c))
    ensures Fetch(reg, imp.ref, imp.overrides) == Ok(s) && imp.ref in reg
    ensures Repeats(path + [imp.ref]) ==> c == path + [imp.ref]
    ensures !Repeats(path + [imp.ref]) ==>
              imp.ref in reg.Keys - Seen(path) && Resolve(reg, s, [], path + [imp.ref]) == Err(Cycle(c))
  {
    s := Fetch(reg, imp.ref, imp.overrides).value;
    RevisitRepeats(path, imp.ref);
  }

  /** A reported cycle is a real import path of the template, and it does repeat a reference. */
  lemma {:induction false} CycleReportFrom(
      reg: Registry, spec: Spec, contributions: seq<Contribution>, path: seq<ImportReference>, c: seq<ImportReference>)
    returns (p: seq<ImportReference>)
    requires Resolve(reg, spec, contributions, path) == Err(Cycle(c))
    ensures c == path + p && IsImportPath(reg, spec, contributions, p) && Repeats(c)
    decreases reg.Keys - Seen(path)
  {
    var imp := ReportedImport(reg, spec, contributions, path, c);
    ImportsAreDeclared(spec, contributions, imp);
    var s := CycleFurther(reg, imp, path, c);
    p := [imp.ref];
    if !Repeats(path + [imp.ref]) {
      var q := CycleReportFrom(reg, s, [], path + [imp.ref], c);
      FetchKeepsPaths(reg, imp.ref, imp.overrides, q);
      p := [imp.ref] + q;
      PathFurther(reg, spec, contributions, imp, q);
      assert path + [imp.ref] + q == path + p;
    }
  }

  lemma PathFurther(reg: Registry, spec: Spec, contributions: seq<Contribution>, imp: Import, q: seq<ImportReference>)
    requires DeclaresImport(spec, contributions, imp) && imp.ref in reg && IsImportPath(reg, reg[imp.ref], [], q)
    ensures IsImportPath(reg, spec, contributions, [imp.ref] + q)
  {
    assert ([imp.ref] + q)[1..] == q;
  }

  /**
   Termination is built into `Resolve`: the references not yet on the path decrease. What the
   cycle check means: a reported cycle is real, and a cyclic import graph is never accepted.
   The same plugin on two branches is no repetition, so it is never reported.
   */
  lemma CycleDetectionIsExact(reg: Registry, spec: Spec, contributions: seq<Contribution>)
    ensures var r := Resolve(reg, spec, contributions, []);
            && (r.Ok? ==> forall p, i, j :: IsImportPath(reg, spec, contributions, p) && 0 <= i < j < |p| ==>
                p[i] != p[j])
            && (r.Err? && r.error.Cycle? ==>
                && IsImportPath(reg, spec, contributions, r.error.path)
                && exists i, j :: 0 <= i < j < |r.error.path| && r.error.path[i] == r.error.path[j])
  {
    var r := Resolve(reg, spec, contributions, []);
    if r.Ok? {
      forall p | IsImportPath(reg, spec, contributions, p) ensures !Repeats(p) {
        SuccessMeansAcyclicFrom(reg, spec, contributions, [], p);
        assert [] + p == p;
      }
    } else if r.error.Cycle? {
      var p := CycleReportFrom(reg, spec, contributions, [], r.error.path);
      assert [] + p == p;
    }
  }

  // ----- where the elements of the result come from -----

  /** All there is to an element, but its imported-by tag and, for a volume, what merging changes. */
  datatype ElementId =
    | ComponentId(name: string, body: Body, contribution: Flag, mergeContribution: Flag, settings: int)
    | VolumeId(name: string, contribution: Flag, mergeContribution: Flag, settings: int)
    | ItemId(kind: ItemKind, name: string, action: Option<Action>, settings: int)

  datatype Element = Element(id: ElementId, tag: Option<string>)

  predicate ShowsComponent(c: Component, e: Element) {
    && !c.body.PluginBody? && e.tag == c.attributes.importedBy
    && e.id == if c.body.VolumeBody? then
                 VolumeId(c.name, c.attributes.contribution, c.attributes.mergeContribution, c.settings)
               else
                 ComponentId(c.name, c.body, c.attributes.contribution, c.attributes.mergeContribution, c.settings)
  }

  predicate ShowsItem(i: Item, e: Element) {
    e.id == ItemId(i.kind, i.name, i.action, i.settings) && e.tag == i.importedBy
  }

  ghost predicate Has(spec: Spec, e: Element) {
    || (exists c :: c in spec.components && ShowsComponent(c, e))
    || (exists i :: i in spec.items && ShowsItem(i, e))
  }

  /** An element of `spec`, whatever its tag. */
  ghost predicate HasId(spec: Spec, id: ElementId) {
    exists tag :: Has(spec, Element(id, tag))
  }

  function WithSettings(id: ElementId, settings: int): ElementId {
    match id
    case ComponentId(name, body, contribution, mergeContribution, _) =>
      ComponentId(name, body, contribution, mergeContribution, settings)
    case VolumeId(name, contribution, mergeContribution, _) => VolumeId(name, contribution, mergeContribution, settings)
    case ItemId(kind, name, action, _) => ItemId(kind, name, action, settings)
  }

  /** What the overrides say of an element, if anything: components and commands are overridden by name. */
  function Overridden(ov: Overrides, id: ElementId): Option<int> {
    if id.ItemId? then
      if id.kind == Command && id.name in ov.commands then Some(ov.commands[id.name]) else None
    else if id.name in ov.components then Some(ov.components[id.name]) else None
  }

  /** `id` is an element of `spec` with the settings the overrides name for it, or else its own. */
  ghost predicate HasWith(spec: Spec, ov: Overrides, id: ElementId) {
    exists settings :: HasId(spec, WithSettings(id, settings)) &&
                       id.settings == if Overridden(ov, id).Some? then Overridden(ov, id).value else settings
  }

  lemma TaggedHas(source: string, spec: Spec, id: ElementId)
    requires HasId(spec, id)
    ensures Has(Tag(source, spec), Element(id, Some(source)))
  {
    var tag :| Has(spec, Element(id, tag));
    var t, e' := Tag(source, spec), Element(id, Some(source));
    if c :| c in spec.components && ShowsComponent(c, Element(id, tag)) {
      var i :| 0 <= i < |spec.components| && spec.components[i] == c;
      assert t.components[i] in t.components && ShowsComponent(t.components[i], e');
    } else {
      var c :| c in spec.items && ShowsItem(c, Element(id, tag));
      var i :| 0 <= i < |spec.items| && spec.items[i] == c;
      assert t.items[i] in t.items && ShowsItem(t.items[i], e');
    }
  }

  lemma TaggedCameFrom(source: string, spec: Spec, e: Element)
    requires Has(Tag(source, spec), e)
    ensures e.tag == Some(source) && HasId(spec, e.id)
  {
    var t := Tag(source, spec);
    if c :| c in t.components && ShowsComponent(c, e) {
      var i :| 0 <= i < |t.components| && t.components[i] == c;
      var o := spec.components[i];
      assert o in spec.components && ShowsComponent(o, Element(e.id, o.attributes.importedBy));
      assert Has(spec, Element(e.id, o.attributes.importedBy));
    } else {
      var c :| c in t.items && ShowsItem(c, e);
      var i :| 0 <= i < |t.items| && t.items[i] == c;
      var o := spec.items[i];
      assert o in spec.items && ShowsItem(o, Element(e.id, o.importedBy));
      assert Has(spec, Element(e.id, o.importedBy));
    }
  }

  lemma OverrideShows(spec: Spec, ov: Overrides, e: Element)
    requires ApplyOverrides(spec, ov).Ok? && Has(ApplyOverrides(spec, ov).value, e)
    ensures HasWith(spec, ov, e.id)
  {
    var t := ApplyOverrides(spec, ov).value;
    if c :| c in t.components && ShowsComponent(c, e) {
      var i :| 0 <= i < |t.components| && t.components[i] == c;
      var o := spec.components[i];
      var e' := Element(WithSettings(e.id, o.settings), o.attributes.importedBy);
      assert o in spec.components && ShowsComponent(o, e');
      assert Has(spec, e');
    } else {
      var c :| c in t.items && ShowsItem(c, e);
      var i :| 0 <= i < |t.items| && t.items[i] == c;
      var o := spec.items[i];
      var e' := Element(WithSettings(e.id, o.settings), o.importedBy);
      assert o in spec.items && ShowsItem(o, e');
      assert Has(spec, e');
    }
  }

  lemma OverriddenShows(spec: Spec, ov: Overrides, id: ElementId)
    requires ApplyOverrides(spec, ov).Ok? && HasWith(spec, ov, id)
    ensures HasId(ApplyOverrides(spec, ov).value, id)
  {
    var t := ApplyOverrides(spec, ov).value;
    var settings :| HasId(spec, WithSettings(id, settings)) &&
                    id.settings == if Overridden(ov, id).Some? then Overridden(ov, id).value else settings;
    var tag :| Has(spec, Element(WithSettings(id, settings), tag));
    var was := Element(WithSettings(id, settings), tag);
    if c :| c in spec.components && ShowsComponent(c, was) {
      var i :| 0 <= i < |spec.components| && spec.components[i] == c;
      assert t.components[i] in t.components && ShowsComponent(t.components[i], Element(id, tag));
    } else {
      var c :| c in spec.items && ShowsItem(c, was);
      var i :| 0 <= i < |spec.items| && spec.items[i] == c;
      assert t.items[i] in t.items && ShowsItem(t.items[i], Element(id, tag));
    }
    assert Has(t, Element(id, tag));
  }

  lemma JoinMembers(contents: seq<Spec>)
    ensures forall c :: c in Join(contents).components <==>
              exists k :: 0 <= k < |contents| && c in contents[k].components
    ensures forall i :: i in Join(contents).items <==> exists k :: 0 <= k < |contents| && i in contents[k].items
  {
    forall c ensures c in Join(contents).components <==>
                       exists k :: 0 <= k < |contents| && c in contents[k].components {
      JoinComponent(contents, c);
    }
    forall i ensures i in Join(contents).items <==> exists k :: 0 <= k < |contents| && i in contents[k].items {
      JoinItem(contents, i);
    }
  }

  lemma {:induction false} JoinComponent(contents: seq<Spec>, c: Component)
    ensures c in Join(contents).components <==> exists k :: 0 <= k < |contents| && c in contents[k].components
  {
    if contents != [] {
      var init := contents[..|contents| - 1];
      JoinComponent(init, c);
      assert forall k :: 0 <= k < |init| ==> init[k] == contents[k];
    }
  }

  lemma {:induction false} JoinItem(contents: seq<Spec>, i: Item)
    ensures i in Join(contents).items <==> exists k :: 0 <= k < |contents| && i in contents[k].items
  {
    if contents != [] {
      var init := contents[..|contents| - 1];
      JoinItem(init, i);
      assert forall k :: 0 <= k < |init| ==> init[k] == contents[k];
    }
  }


  /** What is merged, before own elements are moved to the end. */
  lemma MergedContents(own: Spec, parent: Spec, plugins: seq<Spec>) returns (merged: seq<Spec>)
    requires Merge(own, parent, plugins).Ok?
    ensures var contents := [own, parent] + plugins;
            && |merged| == |contents|
            && forall k :: 0 <= k < |contents| ==>
                 && merged[k].components == VolumeMerge.Merged(ComponentLists(contents), k)
                 && merged[k].items == contents[k].items
    ensures Merge(own, parent, plugins).value == Join(merged[1..] + [merged[0]])
  {
    var contents := [own, parent] + plugins;
    merged := WithComponents(contents, VolumeMerge.MergeVolumes(ComponentLists(contents)).value);
  }

  lemma MergeCameFrom(own: Spec, parent: Spec, plugins: seq<Spec>, e: Element) returns (k: nat)
    requires Merge(own, parent, plugins).Ok? && Has(Merge(own, parent, plugins).value, e)
    ensures k < 2 + |plugins| && Has(([own, parent] + plugins)[k], e)
  {
    var contents, out := [own, parent] + plugins, Merge(own, parent, plugins).value;
    var merged := MergedContents(own, parent, plugins);
    var moved := merged[1..] + [merged[0]];
    JoinMembers(moved);
    if c :| c in out.components && ShowsComponent(c, e) {
      var j :| 0 <= j < |moved| && c in moved[j].components;
      k := if j == |moved| - 1 then 0 else j + 1;
      assert moved[j] == merged[k];
      var o := VolumeMerge.MergedCameFrom(ComponentLists(contents), k, c);
      assert o in contents[k].components && ShowsComponent(o, e);
    } else {
      var i :| i in out.items && ShowsItem(i, e);
      var j :| 0 <= j < |moved| && i in moved[j].items;
      k := if j == |moved| - 1 then 0 else j + 1;
      assert moved[j] == merged[k];
      assert i in contents[k].items;
    }
  }

  lemma MergeKeeps(own: Spec, parent: Spec, plugins: seq<Spec>, k: nat, e: Element)
    requires Merge(own, parent, plugins).Ok? && k < 2 + |plugins|
    requires Has(([own, parent] + plugins)[k], e) && !e.id.VolumeId?
    ensures Has(Merge(own, parent, plugins).value, e)
  {
    var contents, out := [own, parent] + plugins, Merge(own, parent, plugins).value;
    var merged := MergedContents(own, parent, plugins);
    var moved := merged[1..] + [merged[0]];
    JoinMembers(moved);
    var j := if k == 0 then |moved| - 1 else k - 1;
    assert moved[j] == merged[k];
    if c :| c in contents[k].components && ShowsComponent(c, e) {
      VolumeMerge.MergedKeepsNonVolumes(ComponentLists(contents), k, c);
      assert c in moved[j].components;
      assert c in out.components;
    } else {
      var i :| i in contents[k].items && ShowsItem(i, e);
      assert i in moved[j].items;
      assert i in out.items;
    }
  }

  /** Merging contents without plugin components gives a template without them. */
  lemma MergeIsFlat(own: Spec, parent: Spec, plugins: seq<Spec>)
    requires Merge(own, parent, plugins).Ok?
    requires forall k :: 0 <= k < 2 + |plugins| ==> NoPlugins(([own, parent] + plugins)[k])
    ensures IsFlattened(Merge(own, parent, plugins).value, [])
  {
    var contents, out := [own, parent] + plugins, Merge(own, parent, plugins).value;
    var merged := MergedContents(own, parent, plugins);
    var moved := merged[1..] + [merged[0]];
    JoinMembers(moved);
    forall c | c in out.components ensures !IsPlugin(c) {
      var j :| 0 <= j < |moved| && c in moved[j].components;
      var k := if j == |moved| - 1 then 0 else j + 1;
      assert moved[j] == merged[k];
      var o := VolumeMerge.MergedCameFrom(ComponentLists(contents), k, c);
      assert NoPlugins(contents[k]) && o in contents[k].components;
    }
  }

  ghost predicate NoPlugins(spec: Spec) {
    forall c :: c in spec.components ==> !IsPlugin(c)
  }

  lemma {:induction false} OwnComponentsMembers(cs: seq<Component>)
    ensures forall c :: c in OwnComponents(cs) <==> c in cs && !IsPlugin(c)
  {
    if cs != [] {
      OwnComponentsMembers(cs[..|cs| - 1]);
      assert cs == cs[..|cs| - 1] + [cs[|cs| - 1]];
    }
  }

  lemma OwnContent(spec: Spec, e: Element)
    ensures Has(spec.(parent := None, components := OwnComponents(spec.components)), e) <==> Has(spec, e)
  {
    OwnComponentsMembers(spec.components);
  }

  // ----- the pieces a resolution merges -----

  lemma AllImportsResolved(reg: Registry, imports: seq<Import>, path: seq<ImportReference>)
    requires ResolveImports(reg, imports, path).Ok?
    ensures |ResolveImports(reg, imports, path).value| == |imports|
    ensures forall i :: 0 <= i < |imports| ==>
              ResolveImport(reg, imports[i], path) == Ok(ResolveImports(reg, imports, path).value[i])
  {
    forall i | 0 <= i < |imports|
      ensures |ResolveImports(reg, imports, path).value| == |imports|
      ensures ResolveImport(reg, imports[i], path) == Ok(ResolveImports(reg, imports, path).value[i])
    {
      EachImportResolved(reg, imports, path, i);
    }
  }

  /** What a successful, non-trivial resolution merged. */
  lemma Pieces(reg: Registry, spec: Spec, contributions: seq<Contribution>, path: seq<ImportReference>)
    returns (own: Spec, parent: Spec, plugins: seq<Spec>)
    requires Resolve(reg, spec, contributions, path).Ok? && !IsFlattened(spec, contributions)
    ensures own == spec.(parent := None, components := OwnComponents(spec.components))
    ensures ResolveParent(reg, spec.parent) == Ok(parent)
    ensures |plugins| == |Imports(spec, contributions)|
    ensures forall i :: 0 <= i < |plugins| ==>
            ResolveImport(reg, Imports(spec, contributions)[i], path) == Ok(plugins[i])
    ensures Merge(own, parent, plugins) == Resolve(reg, spec, contributions, path)
  {
    var fromContributions, fromPlugins := ContributionImports(contributions), PluginImports(spec.components);
    own := spec.(parent := None, components := OwnComponents(spec.components));
    parent := ResolveParent(reg, spec.parent).value;
    AllImportsResolved(reg, fromContributions, path);
    AllImportsResolved(reg, fromPlugins, path);
    plugins := ResolveImports(reg, fromContributions, path).value + ResolveImports(reg, fromPlugins, path).value;
  }

  lemma TagKeepsFlat(source: string, spec: Spec)
    requires NoPlugins(spec)
    ensures NoPlugins(Tag(source, spec))
  {
    forall i | 0 <= i < |spec.components| ensures !IsPlugin(Tag(source, spec).components[i]) {
      assert spec.components[i] in spec.components;
    }
  }

  lemma ParentIsFlat(reg: Registry, parent: Option<Parent>)
    requires ResolveParent(reg, parent).Ok?
    ensures NoPlugins(ResolveParent(reg, parent).value)
  {
    if parent.Some? { TagKeepsFlat("parent", Fetch(reg, parent.value.ref, parent.value.overrides).value); }
  }

  /** A resolved template has no parent and no plugin components left. */
  lemma {:induction false} ResolvedIsFlattened(reg: Registry, spec: Spec, contributions: seq<Contribution>,
                                               path: seq<ImportReference>)
    requires Resolve(reg, spec, contributions, path).Ok?
    ensures IsFlattened(Resolve(reg, spec, contributions, path).value, [])
    ensures var out := Resolve(reg, spec, contributions, path).value;
            out.parent.None? && forall c :: c in out.components ==> !c.body.PluginBody?
    decreases reg.Keys - Seen(path), 1
  {
    if !IsFlattened(spec, contributions) {
      var own, parent, plugins := Pieces(reg, spec, contributions, path);
      var contents := [own, parent] + plugins;
      forall k | 0 <= k < |contents| ensures NoPlugins(contents[k]) {
        if k == 0 { OwnComponentsMembers(spec.components); }
        else if k == 1 { ParentIsFlat(reg, spec.parent); }
        else { ImportIsFlat(reg, Imports(spec, contributions)[k - 2], path); }
      }
      MergeIsFlat(own, parent, plugins);
    }
  }

  lemma {:induction false} ImportIsFlat(reg: Registry, imp: Import, path: seq<ImportReference>)
    requires ResolveImport(reg, imp, path).Ok?
    ensures NoPlugins(ResolveImport(reg, imp, path).value)
    decreases reg.Keys - Seen(path), 0
  {
    var s, path' := Fetch(reg, imp.ref, imp.overrides).value, path + [imp.ref];
    RevisitRepeats(path, imp.ref);
    assert imp.ref in reg.Keys - Seen(path);
    ResolvedIsFlattened(reg, s, [], path');
    TagKeepsFlat(imp.name, Resolve(reg, s, [], path').value);
  }

  // ----- provenance -----

  /** A chain of imports, each declared by the template the one before it imports. */
  ghost predicate IsChain(reg: Registry, chain: seq<Import>) {
    forall i :: 0 <= i < |chain| - 1 ==> Leads(reg, chain[i], chain[i + 1])
  }

  ghost predicate Leads(reg: Registry, imp: Import, next: Import) {
    imp.ref in reg && DeclaresImport(reg[imp.ref], [], next)
  }

  /** What importing a template with overrides brings in: its own elements, overridden, and its parent's. */
  ghost predicate Contributes(reg: Registry, spec: Spec, ov: Overrides, id: ElementId) {
    || HasWith(spec, ov, id)
    || (spec.parent.Some? && spec.parent.value.ref in reg &&
        HasWith(reg[spec.parent.value.ref], spec.parent.value.overrides, id))
  }

  /** `id` enters through the import: some chain from it ends at an import that brings in that element. */
  ghost predicate EntersThrough(reg: Registry, imp: Import, id: ElementId, chain: seq<Import>) {
    && chain != [] && chain[0] == imp && IsChain(reg, chain)
    && var last := chain[|chain| - 1];
       last.ref in reg && Contributes(reg, reg[last.ref], last.overrides, id)
  }

  ghost predicate FromParent(reg: Registry, spec: Spec, e: Element) {
    && e.tag == Some("parent") && spec.parent.Some? && spec.parent.value.ref in reg
    && HasWith(reg[spec.parent.value.ref], spec.parent.value.overrides, e.id)
  }

  lemma FetchedElements(reg: Registry, ref: ImportReference, ov: Overrides, id: ElementId)
    requires Fetch(reg, ref, ov).Ok?
    ensures HasId(Fetch(reg, ref, ov).value, id) <==> HasWith(reg[ref], ov, id)
    ensures Fetch(reg, ref, ov).value.parent == reg[ref].parent
  {
    var s := Fetch(reg, ref, ov).value;
    if tag :| Has(s, Element(id, tag)) { OverrideShows(reg[ref], ov, Element(id, tag)); }
    if HasWith(reg[ref], ov, id) { OverriddenShows(reg[ref], ov, id); }
  }

  lemma ParentElements(reg: Registry, spec: Spec, e: Element)
    requires ResolveParent(reg, spec.parent).Ok?
    ensures Has(ResolveParent(reg, spec.parent).value, e) <==> FromParent(reg, spec, e)
  {
    if spec.parent.Some? {
      var p := spec.parent.value;
      var s := Fetch(reg, p.ref, p.overrides).value;
      FetchedElements(reg, p.ref, p.overrides, e.id);
      if Has(Tag("parent", s), e) { TaggedCameFrom("parent", s, e); }
      if FromParent(reg, spec, e) { TaggedHas("parent", s, e.id); }
    }
  }

  /** The three ways an element can get into a resolved template, and the tag each leaves on it. */
  ghost predicate Accounted(reg: Registry, spec: Spec, contributions: seq<Contribution>, e: Element) {
    || Has(spec, e)
    || FromParent(reg, spec, e)
    || (exists imp, chain ::
          DeclaresImport(spec, contributions, imp) && e.tag == Some(imp.name) && EntersThrough(reg, imp, e.id, chain))
  }

  /**
   Every element of a resolved template is the template's own, as written; or its parent's, tagged
   `parent`; or it entered through an import at some depth, and is tagged with the name of the
   outermost importing component or contribution. But for its tag it is what it was where it came
   from, its settings overridden by whatever imported that template and by nothing else.
   */
  lemma {:induction false} EveryElementIsAccounted(
      reg: Registry, spec: Spec, contributions: seq<Contribution>, path: seq<ImportReference>, e: Element)
    requires Resolve(reg, spec, contributions, path).Ok? && Has(Resolve(reg, spec, contributions, path).value, e)
    ensures Accounted(reg, spec, contributions, e)
    decreases reg.Keys - Seen(path), 1
  {
    if !Has(spec, e) && !FromParent(reg, spec, e) {
      var imp := ImportOf(reg, spec, contributions, path, e);
      var chain := ImportAccounted(reg, imp, path, e);
      ImportsAreDeclared(spec, contributions, imp);
    }
  }

  /** An element that is neither the template's own nor its parent's came with an import. */
  lemma ImportOf(
      reg: Registry, spec: Spec, contributions: seq<Contribution>, path: seq<ImportReference>, e: Element)
    returns (imp: Import)
    requires Resolve(reg, spec, contributions, path).Ok? && Has(Resolve(reg, spec, contributions, path).value, e)
    requires !Has(spec, e) && !FromParent(reg, spec, e)
    ensures imp in Imports(spec, contributions)
    ensures ResolveImport(reg, imp, path).Ok? && Has(ResolveImport(reg, imp, path).value, e)
  {
    var own, parent, plugins := Pieces(reg, spec, contributions, path);
    var k := MergeCameFrom(own, parent, plugins, e);
    assert !Has(own, e) by { OwnContent(spec, e); }
    assert !Has(parent, e) by { ParentElements(reg, spec, e); }
    PluginContent(own, parent, plugins, k, e);
    imp := Imports(spec, contributions)[k - 2];
    assert ResolveImport(reg, imp, path) == Ok(plugins[k - 2]);
  }

  lemma PluginContent(own: Spec, parent: Spec, plugins: seq<Spec>, k: nat, e: Element)
    requires k < 2 + |plugins| && Has(([own, parent] + plugins)[k], e) && !Has(own, e) && !Has(parent, e)
    ensures k >= 2 && Has(plugins[k - 2], e)
  {
  }

  lemma {:induction false} ImportAccounted(reg: Registry, imp: Import, path: seq<ImportReference>, e: Element)
    returns (chain: seq<Import>)
    requires ResolveImport(reg, imp, path).Ok? && Has(ResolveImport(reg, imp, path).value, e)
    ensures e.tag == Some(imp.name) && EntersThrough(reg, imp, e.id, chain)
    decreases reg.Keys - Seen(path), 0
  {
    var s, path' := Fetch(reg, imp.ref, imp.overrides).value, path + [imp.ref];
    RevisitRepeats(path, imp.ref);
    assert imp.ref in reg.Keys - Seen(path);
    TaggedCameFrom(imp.name, Resolve(reg, s, [], path').value, e);
    var tag :| Has(Resolve(reg, s, [], path').value, Element(e.id, tag));
    EveryElementIsAccounted(reg, s, [], path', Element(e.id, tag));
    FetchedElements(reg, imp.ref, imp.overrides, e.id);
    if Has(s, Element(e.id, tag)) || FromParent(reg, s, Element(e.id, tag)) {
      assert Contributes(reg, reg[imp.ref], imp.overrides, e.id);
      chain := [imp];
    } else {
      var inner, rest :| DeclaresImport(s, [], inner) && tag == Some(inner.name)
                         && EntersThrough(reg, inner, e.id, rest);
      chain := PrependImport(reg, imp, inner, rest, e.id);
    }
  }

  lemma FetchKeepsImports(reg: Registry, ref: ImportReference, ov: Overrides, imp: Import)
    requires Fetch(reg, ref, ov).Ok?
    ensures DeclaresImport(Fetch(reg, ref, ov).value, [], imp) <==> DeclaresImport(reg[ref], [], imp)
  {
    FetchKeepsPaths(reg, ref, ov, []);
    ImportsAreDeclared(Fetch(reg, ref, ov).value, [], imp);
    ImportsAreDeclared(reg[ref], [], imp);
  }

  lemma PrependImport(reg: Registry, imp: Import, inner: Import, rest: seq<Import>, id: ElementId)
    returns (chain: seq<Import>)
    requires Fetch(reg, imp.ref, imp.overrides).Ok?
    requires DeclaresImport(Fetch(reg, imp.ref, imp.overrides).value, [], inner) && EntersThrough(reg, inner, id, rest)
    ensures EntersThrough(reg, imp, id, chain)
  {
    chain := [imp] + rest;
    FetchKeepsImports(reg, imp.ref, imp.overrides, inner);
    assert chain[|chain| - 1] == rest[|rest| - 1];
    forall i | 0 <= i < |chain| - 1 ensures Leads(reg, chain[i], chain[i + 1]) {
      if i > 0 { assert chain[i] == rest[i - 1] && chain[i + 1] == rest[i - 1 + 1]; }
    }
  }

  /** Conversely, nothing but merged volumes is lost: each accounted element is in the result, so tagged. */
  lemma {:induction false} AccountedElementsSurvive(
      reg: Registry, spec: Spec, contributions: seq<Contribution>, path: seq<ImportReference>, e: Element)
    requires Resolve(reg, spec, contributions, path).Ok? && !e.id.VolumeId?
    requires Accounted(reg, spec, contributions, e)
    ensures Has(Resolve(reg, spec, contributions, path).value, e)
    decreases reg.Keys - Seen(path), 1
  {
    if Has(spec, e) {
      OwnSurvives(reg, spec, contributions, path, e);
    } else if FromParent(reg, spec, e) {
      var own, parent, plugins := Pieces(reg, spec, contributions, path);
      ParentElements(reg, spec, e);
      MergeKeeps(own, parent, plugins, 1, e);
    } else {
      var imp, chain :| DeclaresImport(spec, contributions, imp) && e.tag == Some(imp.name) &&
                        EntersThrough(reg, imp, e.id, chain);
      ImportsAreDeclared(spec, contributions, imp);
      var s := ImportResolved(reg, spec, contributions, path, imp);
      ImportSurvives(reg, imp, path, e.id, chain);
      ImportedIsKept(reg, spec, contributions, path, imp, e);
    }
  }

  lemma ImportedIsKept(reg: Registry, spec: Spec, contributions: seq<Contribution>, path: seq<ImportReference>,
                       imp: Import, e: Element)
    requires Resolve(reg, spec, contributions, path).Ok? && !IsFlattened(spec, contributions) && !e.id.VolumeId?
    requires imp in Imports(spec, contributions) && ResolveImport(reg, imp, path).Ok?
    requires Has(ResolveImport(reg, imp, path).value, e)
    ensures Has(Resolve(reg, spec, contributions, path).value, e)
  {
    var own, parent, plugins := Pieces(reg, spec, contributions, path);
    var i :| 0 <= i < |Imports(spec, contributions)| && Imports(spec, contributions)[i] == imp;
    assert Has(plugins[i], e);
    PluginIsKept(own, parent, plugins, i, e);
  }

  lemma PluginIsKept(own: Spec, parent: Spec, plugins: seq<Spec>, i: nat, e: Element)
    requires Merge(own, parent, plugins).Ok? && i < |plugins| && Has(plugins[i], e) && !e.id.VolumeId?
    ensures Has(Merge(own, parent, plugins).value, e)
  {
    assert ([own, parent] + plugins)[i + 2] == plugins[i];
    MergeKeeps(own, parent, plugins, i + 2, e);
  }

  lemma OwnSurvives(reg: Registry, spec: Spec, contributions: seq<Contribution>, path: seq<ImportReference>, e: Element)
    requires Resolve(reg, spec, contributions, path).Ok? && !e.id.VolumeId? && Has(spec, e)
    ensures Has(Resolve(reg, spec, contributions, path).value, e)
  {
    if !IsFlattened(spec, contributions) {
      var own, parent, plugins := Pieces(reg, spec, contributions, path);
      OwnContent(spec, e);
      MergeKeeps(own, parent, plugins, 0, e);
    }
  }

  lemma {:induction false} ImportSurvives(reg: Registry, imp: Import, path: seq<ImportReference>, id: ElementId,
                                          chain: seq<Import>)
    requires ResolveImport(reg, imp, path).Ok? && !id.VolumeId? && EntersThrough(reg, imp, id, chain)
    ensures Has(ResolveImport(reg, imp, path).value, Element(id, Some(imp.name)))
    decreases reg.Keys - Seen(path), 0
  {
    var s, path' := Fetch(reg, imp.ref, imp.overrides).value, path + [imp.ref];
    RevisitRepeats(path, imp.ref);
    assert imp.ref in reg.Keys - Seen(path);
    var tag := InnerAccounted(reg, imp, s, id, chain);
    AccountedElementsSurvive(reg, s, [], path', Element(id, tag));
    TaggedHas(imp.name, Resolve(reg, s, [], path').value, id);
  }

  lemma InnerAccounted(reg: Registry, imp: Import, s: Spec, id: ElementId, chain: seq<Import>)
    returns (tag: Option<string>)
    requires Fetch(reg, imp.ref, imp.overrides) == Ok(s) && EntersThrough(reg, imp, id, chain)
    ensures Accounted(reg, s, [], Element(id, tag))
  {
    FetchedElements(reg, imp.ref, imp.overrides, id);
    if |chain| == 1 {
      if HasId(s, id) {
        tag :| Has(s, Element(id, tag));
      } else {
        tag := Some("parent");
        assert FromParent(reg, s, Element(id, tag));
      }
    } else {
      var inner := chain[1];
      tag := Some(inner.name);
      FetchKeepsImports(reg, imp.ref, imp.overrides, inner);
      ChainTail(reg, chain, id);
    }
  }

  lemma ChainTail(reg: Registry, chain: seq<Import>, id: ElementId)
    requires |chain| > 1 && EntersThrough(reg, chain[0], id, chain)
    ensures Leads(reg, chain[0], chain[1]) && EntersThrough(reg, chain[1], id, chain[1..])
  {
    var rest := chain[1..];
    assert rest[|rest| - 1] == chain[|chain| - 1] && Leads(reg, chain[0], chain[0 + 1]);
    forall i | 0 <= i < |rest| - 1 ensures Leads(reg, rest[i], rest[i + 1]) {
      assert rest[i] == chain[i + 1] && rest[i + 1] == chain[i + 1 + 1];
    }
  }

  // ----- keys -----

  /** Unless the devfile was flattened already, no component name and no command or project key occurs twice. */
  lemma ResolvedKeysAreUnique(reg: Registry, spec: Spec, contributions: seq<Contribution>, path: seq<ImportReference>)
    requires Resolve(reg, spec, contributions, path).Ok? && !IsFlattened(spec, contributions)
    ensures var out := Resolve(reg, spec, contributions, path).value;
      && (forall i, j :: 0 <= i < j < |out.components| ==> out.components[i].name != out.components[j].name)
      && (forall i, j :: 0 <= i < j < |out.items| ==>
            out.items[i].name != out.items[j].name || out.items[i].kind != out.items[j].kind)
  {
    var own, parent, plugins := Pieces(reg, spec, contributions, path);
  }
}
