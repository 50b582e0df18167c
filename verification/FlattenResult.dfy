/**
 More on what resolving a devfile returns (recursiveResolve in pkg/library/flatten/flatten.go): which
 references must exist and which one a failure names, and the order of the elements in the result.
 */
module FlattenResult {
  import opened Options
  import opened Devfile
  import opened Flatten
  import VolumeMerge

  // ----- references -----

  /** The template at the end of an import path, if it exists. */
  function TemplateAt(reg: Registry, spec: Spec, p: seq<ImportReference>): Option<Spec> {
    if p == [] then Some(spec) else if p[|p| - 1] in reg then Some(reg[p[|p| - 1]]) else None
  }

  /** The template exists, and so does its parent, if it names one. */
  ghost predicate Complete(reg: Registry, t: Option<Spec>) {
    t.Some? && (t.value.parent.Some? ==> t.value.parent.value.ref in reg)
  }

  lemma ParentIsThere(reg: Registry, spec: Spec, contributions: seq<Contribution>, path: seq<ImportReference>)
    requires Resolve(reg, spec, contributions, path).Ok?
    ensures spec.parent.Some? ==> spec.parent.value.ref in reg
  {
  }

  lemma TemplateFurther(reg: Registry, spec: Spec, s: Spec, p: seq<ImportReference>)
    requires p != [] && p[0] in reg && s.parent == reg[p[0]].parent && Complete(reg, TemplateAt(reg, s, p[1..]))
    ensures Complete(reg, TemplateAt(reg, spec, p))
  {
  }

  /** After a success every template on every import path exists, with its parent. */
  lemma {:induction false} SuccessMeansComplete(
      reg: Registry, spec: Spec, contributions: seq<Contribution>, path: seq<ImportReference>, p: seq<ImportReference>)
    requires Resolve(reg, spec, contributions, path).Ok? && IsImportPath(reg, spec, contributions, p)
    ensures Complete(reg, TemplateAt(reg, spec, p))
    decreases |p|
  {
    ParentIsThere(reg, spec, contributions, path);
    if p != [] {
      var imp := PathStep(reg, spec, contributions, p);
      var s := ImportResolved(reg, spec, contributions, path, imp);
      FetchKeepsPaths(reg, imp.ref, imp.overrides, p[1..]);
      SuccessMeansComplete(reg, s, [], path + [imp.ref], p[1..]);
      TemplateFurther(reg, spec, s, p);
    }
  }

  lemma {:induction false} MissingInImports(reg: Registry, imports: seq<Import>, path: seq<ImportReference>,
                                            ref: ImportReference)
    returns (imp: Import)
    requires ResolveImports(reg, imports, path) == Err(NotFound(ref))
    ensures imp in imports && ResolveImport(reg, imp, path) == Err(NotFound(ref))
    decreases |imports|
  {
    var init, last := imports[..|imports| - 1], imports[|imports| - 1];
    if ResolveImports(reg, init, path).Err? {
      imp := MissingInImports(reg, init, path, ref);
    } else {
      imp := last;
    }
  }

  /** The import, if any, whose resolution missed the reference; otherwise it is the parent's. */
  lemma MissingImport(reg: Registry, spec: Spec, contributions: seq<Contribution>, path: seq<ImportReference>,
                      ref: ImportReference)
    returns (imp: Option<Import>)
    requires Resolve(reg, spec, contributions, path) == Err(NotFound(ref))
    ensures imp.Some? ==>
              imp.value in Imports(spec, contributions) && ResolveImport(reg, imp.value, path) == Err(NotFound(ref))
    ensures imp.None? ==> spec.parent.Some? && spec.parent.value.ref == ref && ref !in reg
  {
    var c, p := ContributionImports(contributions), PluginImports(spec.components);
    if ResolveImports(reg, c, path).Err? {
      var i := MissingInImports(reg, c, path, ref);
      imp := Some(i);
    } else if ResolveParent(reg, spec.parent).Err? {
      imp := None;
    } else {
      var i := MissingInImports(reg, p, path, ref);
      imp := Some(i);
    }
  }

  /** A reference reported as not found is missing, and an import path leads to it or to a template with that parent. */
  lemma {:induction false} MissingIsImported(
      reg: Registry, spec: Spec, contributions: seq<Contribution>, path: seq<ImportReference>, ref: ImportReference)
    returns (p: seq<ImportReference>)
    requires Resolve(reg, spec, contributions, path) == Err(NotFound(ref))
    ensures ref !in reg && IsImportPath(reg, spec, contributions, p)
    ensures || (p != [] && p[|p| - 1] == ref)
            || (var t := TemplateAt(reg, spec, p); t.Some? && t.value.parent.Some? && t.value.parent.value.ref == ref)
    decreases reg.Keys - Seen(path)
  {
    var missing := MissingImport(reg, spec, contributions, path, ref);
    if missing.None? { return []; }
    var imp := missing.value;
    ImportsAreDeclared(spec, contributions, imp);
    p := [imp.ref];
    if imp.ref in reg {
      var s, path' := Fetch(reg, imp.ref, imp.overrides).value, path + [imp.ref];
      RevisitRepeats(path, imp.ref);
      assert imp.ref in reg.Keys - Seen(path);
      var q := MissingIsImported(reg, s, [], path', ref);
      FetchKeepsPaths(reg, imp.ref, imp.overrides, q);
      p := [imp.ref] + q;
      assert p[1..] == q;
    }
  }

  // ----- order -----

  /** Where each element of a joined template comes from: positions never go back. */
  ghost predicate InTurn(g: seq<nat>, n: nat) {
    (forall i :: 0 <= i < |g| ==> g[i] < n) && (forall i, j :: 0 <= i < j < |g| ==> g[i] <= g[j])
  }

  lemma InTurnFurther(g: seq<nat>, n: nat, more: nat)
    requires InTurn(g, n)
    ensures InTurn(g + seq(more, _ => n), n + 1)
  {
  }

  ghost predicate ItemsFrom(items: seq<Item>, contents: seq<Spec>, g: seq<nat>) {
    |g| == |items| && InTurn(g, |contents|) && forall i :: 0 <= i < |g| ==> items[i] in contents[g[i]].items
  }

  lemma {:induction false} JoinedItems(contents: seq<Spec>) returns (g: seq<nat>)
    ensures ItemsFrom(Join(contents).items, contents, g)
  {
    g := [];
    if contents != [] {
      var init, last := contents[..|contents| - 1], contents[|contents| - 1];
      g := JoinedItems(init);
      InTurnFurther(g, |init|, |last.items|);
      g := g + seq(|last.items|, _ => |init|);
    }
  }

  ghost predicate ComponentsFrom(cs: seq<Component>, contents: seq<Spec>, g: seq<nat>) {
    |g| == |cs| && InTurn(g, |contents|) && forall i :: 0 <= i < |g| ==> cs[i] in contents[g[i]].components
  }

  lemma {:induction false} JoinedComponents(contents: seq<Spec>) returns (g: seq<nat>)
    ensures ComponentsFrom(Join(contents).components, contents, g)
  {
    g := [];
    if contents != [] {
      var init, last := contents[..|contents| - 1], contents[|contents| - 1];
      g := JoinedComponents(init);
      InTurnFurther(g, |init|, |last.components|);
      g := g + seq(|last.components|, _ => |init|);
    }
  }

  /** What the tag of an element from source `k` says: 0 is the parent, then come the imports, then the devfile. */
  ghost predicate TaggedAs(tag: Option<string>, imports: seq<Import>, k: nat) {
    && (k == 0 ==> tag == Some("parent"))
    && (0 < k <= |imports| ==> tag == Some(imports[k - 1].name))
  }

  /** The merged pieces in the order of the result. */
  ghost predicate Arranged(moved: seq<Spec>, spec: Spec, imports: seq<Import>) {
    && |moved| == |imports| + 2
    && (forall k :: 0 <= k < |imports| + 1 ==> PieceTagged(moved[k], imports, k))
    && SameTags(moved[|imports| + 1], spec)
  }

  lemma TagTags(source: string, spec: Spec)
    ensures forall i :: i in Tag(source, spec).items ==> i.importedBy == Some(source)
    ensures forall c :: c in Tag(source, spec).components ==> c.attributes.importedBy == Some(source)
  {
  }

  lemma PieceTags(reg: Registry, spec: Spec, contributions: seq<Contribution>, path: seq<ImportReference>,
                  own: Spec, parent: Spec, plugins: seq<Spec>, k: nat)
    requires ResolveParent(reg, spec.parent) == Ok(parent) && |plugins| == |Imports(spec, contributions)|
    requires forall i :: 0 <= i < |plugins| ==>
               ResolveImport(reg, Imports(spec, contributions)[i], path) == Ok(plugins[i])
    requires 0 < k < 2 + |plugins|
    ensures PieceTagged(([own, parent] + plugins)[k], Imports(spec, contributions), k - 1)
  {
    if k == 1 {
      if spec.parent.Some? {
        TagTags("parent", Fetch(reg, spec.parent.value.ref, spec.parent.value.overrides).value);
      }
    } else {
      var imp := Imports(spec, contributions)[k - 2];
      var s := Fetch(reg, imp.ref, imp.overrides).value;
      TagTags(imp.name, Resolve(reg, s, [], path + [imp.ref]).value);
    }
  }

  /** Merging volumes leaves the tags of a piece. */
  ghost predicate SameTags(merged: Spec, piece: Spec) {
    && merged.items == piece.items
    && forall c :: c in merged.components ==>
         exists o :: o in piece.components && o.name == c.name && o.attributes == c.attributes
  }

  lemma MergedTags(own: Spec, parent: Spec, plugins: seq<Spec>) returns (merged: seq<Spec>)
    requires Merge(own, parent, plugins).Ok?
    ensures |merged| == 2 + |plugins| && Merge(own, parent, plugins).value == Join(merged[1..] + [merged[0]])
    ensures forall k :: 0 <= k < 2 + |plugins| ==> SameTags(merged[k], ([own, parent] + plugins)[k])
  {
    var contents := [own, parent] + plugins;
    merged := MergedContents(own, parent, plugins);
    forall k | 0 <= k < |contents| ensures SameTags(merged[k], contents[k]) {
      forall c | c in merged[k].components
        ensures exists o :: o in contents[k].components && o.name == c.name && o.attributes == c.attributes {
        var o := VolumeMerge.MergedCameFrom(ComponentLists(contents), k, c);
      }
    }
  }

  ghost predicate PieceTagged(piece: Spec, imports: seq<Import>, k: nat) {
    && (forall i :: i in piece.items ==> TaggedAs(i.importedBy, imports, k))
    && (forall c :: c in piece.components ==> TaggedAs(c.attributes.importedBy, imports, k))
  }

  lemma SameTagsTagged(merged: Spec, piece: Spec, imports: seq<Import>, k: nat)
    requires SameTags(merged, piece) && PieceTagged(piece, imports, k)
    ensures PieceTagged(merged, imports, k)
  {
  }

  lemma PiecesArranged(reg: Registry, spec: Spec, contributions: seq<Contribution>, path: seq<ImportReference>)
    returns (moved: seq<Spec>)
    requires Resolve(reg, spec, contributions, path).Ok? && !IsFlattened(spec, contributions)
    ensures Resolve(reg, spec, contributions, path).value == Join(moved)
    ensures Arranged(moved, spec, Imports(spec, contributions))
  {
    var imports := Imports(spec, contributions);
    var own, parent, plugins := Pieces(reg, spec, contributions, path);
    var merged := MergedTags(own, parent, plugins);
    moved := merged[1..] + [merged[0]];
    forall k | 0 <= k < |imports| + 1 ensures PieceTagged(moved[k], imports, k) {
      PieceTags(reg, spec, contributions, path, own, parent, plugins, k + 1);
      SameTagsTagged(merged[k + 1], ([own, parent] + plugins)[k + 1], imports, k);
      assert moved[k] == merged[k + 1];
    }
    OwnPiece(spec, own, merged[0]);
    assert moved[|imports| + 1] == merged[0];
  }

  lemma OwnPiece(spec: Spec, own: Spec, merged: Spec)
    requires own == spec.(parent := None, components := OwnComponents(spec.components)) && SameTags(merged, own)
    ensures SameTags(merged, spec)
  {
    OwnComponentsMembers(spec.components);
  }

  /**
   The order of a resolved devfile: the parent's elements, then those of each contribution and then each
   plugin in turn, then the devfile's own. The sequences returned say where each item and each component
   comes from: 0 is the parent, then come the imports, and last the devfile itself.
   */
  lemma ResolvedInOrder(reg: Registry, spec: Spec, contributions: seq<Contribution>, path: seq<ImportReference>)
    returns (ofItems: seq<nat>, ofComponents: seq<nat>)
    requires Resolve(reg, spec, contributions, path).Ok? && !IsFlattened(spec, contributions)
    ensures var out, n := Resolve(reg, spec, contributions, path).value, |Imports(spec, contributions)|;
      && |ofItems| == |out.items| && InTurn(ofItems, n + 2)
      && |ofComponents| == |out.components| && InTurn(ofComponents, n + 2)
      && (forall i :: 0 <= i < |out.items| ==>
            TaggedAs(out.items[i].importedBy, Imports(spec, contributions), ofItems[i]))
      && (forall i :: 0 <= i < |out.components| ==>
            TaggedAs(out.components[i].attributes.importedBy, Imports(spec, contributions), ofComponents[i]))
      && (forall i :: 0 <= i < |out.components| && ofComponents[i] == n + 1 ==>
            exists o :: o in spec.components && o.name == out.components[i].name
                        && o.attributes == out.components[i].attributes)
      && |spec.items| <= |out.items| && out.items[|out.items| - |spec.items|..] == spec.items
  {
    var moved := PiecesArranged(reg, spec, contributions, path);
    ofItems := JoinedItems(moved);
    ofComponents := JoinedComponents(moved);
    assert Join(moved).items == Join(moved[..|moved| - 1]).items + moved[|moved| - 1].items;
  }
}
