/**
 The resolver as the code runs it: a tree of contexts linked by parent pointers, walked
 upwards to look for a cycle, and a recursive method that extends the tree and gathers the
 resolved plugins in loops (pkg/library/flatten/helper.go, pkg/library/flatten/flatten.go).
 */
module FlattenResolver {
  import opened Options
  import opened Devfile
  import opened Flatten

  /** resolutionContextTree */
  class ContextNode {
    const componentName: string
    const importReference: ImportReference
    const parentNode: ContextNode?
    var plugins: seq<ContextNode>
    ghost const depth: nat

    ghost predicate Valid()
      decreases depth
    {
      parentNode != null ==> parentNode.depth < depth && parentNode.Valid()
    }

    /** The references from the root, which has none, down to this node; what formatImportCycle spells out. */
    function Path(): seq<ImportReference>
      requires Valid()
      decreases depth
    {
      if parentNode == null then [] else parentNode.Path() + [importReference]
    }

    constructor Root()
      ensures Valid() && Path() == [] && plugins == []
    {
      componentName, importReference, parentNode, plugins, depth := "", Uri(""), null, [], 0;
    }

    constructor Child(name: string, ref: ImportReference, parent: ContextNode)
      requires parent.Valid()
      ensures Valid() && Path() == parent.Path() + [ref] && plugins == []
    {
      componentName, importReference, parentNode, plugins, depth := name, ref, parent, [], parent.depth + 1;
    }

    method AddPlugin(name: string, ref: ImportReference) returns (node: ContextNode)
      requires Valid()
      modifies this
      ensures fresh(node) && node.Valid() && node.Path() == Path() + [ref]
      ensures plugins == old(plugins) + [node]
    {
      node := new ContextNode.Child(name, ref, this);
      plugins := plugins + [node];
    }

    /** Walks to the root, remembering the references passed on the way. */
    method HasCycle() returns (cyclic: bool)
      requires Valid()
      ensures cyclic <==> Repeats(Path())
    {
      var seen: seq<ImportReference> := [];
      var curr: ContextNode := this;
      ghost var tail: seq<ImportReference> := [];
      while curr.parentNode != null
        invariant curr.Valid() && Path() == curr.Path() + tail
        invariant !Repeats(tail) && forall r :: r in seen <==> r in tail
        decreases curr.depth
      {
        if curr.importReference in seen {
          ghost var up, j := curr.parentNode.Path(), 0;
          j :| 0 <= j < |tail| && tail[j] == curr.importReference;
          assert Path()[|up|] == Path()[|up| + 1 + j];
          return true;
        }
        ConsRepeats(curr.importReference, tail);
        tail := [curr.importReference] + tail;
        seen := seen + [curr.importReference];
        curr := curr.parentNode;
      }
      return false;
    }
  }

  lemma ConsRepeats(r: ImportReference, tail: seq<ImportReference>)
    requires !Repeats(tail) && r !in tail
    ensures !Repeats([r] + tail)
  {
    var s := [r] + tail;
    forall i, j | 0 <= i < j < |s| ensures s[i] != s[j] {
      if i == 0 { assert tail[j - 1] in tail; } else { assert tail[i - 1] != tail[j - 1]; }
    }
  }

  lemma {:induction false} ErrorPersists(reg: Registry, imports: seq<Import>, i: nat, path: seq<ImportReference>)
    requires i <= |imports| && ResolveImports(reg, imports[..i], path).Err?
    ensures ResolveImports(reg, imports, path) == ResolveImports(reg, imports[..i], path)
    decreases |imports|
  {
    if i == |imports| {
      assert imports[..i] == imports;
    } else {
      assert imports[..|imports| - 1][..i] == imports[..i];
      ErrorPersists(reg, imports[..|imports| - 1], i, path);
    }
  }

  lemma {:induction false} PluginImportsPrefix(cs: seq<Component>, i: nat)
    requires i <= |cs|
    ensures PluginImports(cs[..i]) <= PluginImports(cs)
  {
    if i < |cs| {
      assert cs[..|cs| - 1][..i] == cs[..i];
      PluginImportsPrefix(cs[..|cs| - 1], i);
    } else {
      assert cs[..i] == cs;
    }
  }

  lemma PluginErrorPersists(reg: Registry, cs: seq<Component>, i: nat, path: seq<ImportReference>)
    requires i <= |cs| && ResolveImports(reg, PluginImports(cs[..i]), path).Err?
    ensures ResolveImports(reg, PluginImports(cs), path) == ResolveImports(reg, PluginImports(cs[..i]), path)
  {
    PluginImportsPrefix(cs, i);
    assert PluginImports(cs)[..|PluginImports(cs[..i])|] == PluginImports(cs[..i]);
    ErrorPersists(reg, PluginImports(cs), |PluginImports(cs[..i])|, path);
  }

  lemma ResolveImportsStep(reg: Registry, imports: seq<Import>, imp: Import, path: seq<ImportReference>)
    ensures ResolveImports(reg, imports + [imp], path) ==
            if ResolveImports(reg, imports, path).Err? then ResolveImports(reg, imports, path)
            else if ResolveImport(reg, imp, path).Err? then Err(ResolveImport(reg, imp, path).error)
            else Ok(ResolveImports(reg, imports, path).value + [ResolveImport(reg, imp, path).value])
  {
    assert (imports + [imp])[..|imports|] == imports;
  }

  /** One iteration of either loop: fetch, extend the context, check for a cycle, recurse, tag. */
  method ResolvePlugin(reg: Registry, imp: Import, ctx: ContextNode) returns (r: Result<Spec, FlattenError>)
    requires ctx.Valid()
    modifies ctx
    ensures r == ResolveImport(reg, imp, ctx.Path())
    decreases reg.Keys - Seen(ctx.Path()), 0
  {
    var fetched := Fetch(reg, imp.ref, imp.overrides);
    if fetched.Err? { return Err(fetched.error); }
    var newCtx := ctx.AddPlugin(imp.name, imp.ref);
    var cyclic := newCtx.HasCycle();
    if cyclic { return Err(Cycle(newCtx.Path())); }
    RevisitRepeats(ctx.Path(), imp.ref);
    assert imp.ref in reg.Keys - Seen(ctx.Path());
    var resolved := RecursiveResolve(reg, fetched.value, [], newCtx);
    if resolved.Err? { return Err(resolved.error); }
    return Ok(Tag(imp.name, resolved.value));
  }

  /** The loop over the devfile's contributions. */
  method ResolveContributions(reg: Registry, contributions: seq<Contribution>, ctx: ContextNode)
    returns (r: Result<seq<Spec>, FlattenError>)
    requires ctx.Valid()
    modifies ctx
    ensures r == ResolveImports(reg, ContributionImports(contributions), ctx.Path())
    decreases reg.Keys - Seen(ctx.Path()), 1
  {
    ghost var imports, path := ContributionImports(contributions), ctx.Path();
    var specs: seq<Spec> := [];
    for i := 0 to |contributions|
      invariant ResolveImports(reg, imports[..i], path) == Ok(specs)
    {
      var imp := Import(contributions[i].name, contributions[i].ref, contributions[i].overrides);
      assert imports[..i + 1] == imports[..i] + [imp];
      ResolveImportsStep(reg, imports[..i], imp, path);
      var one := ResolvePlugin(reg, imp, ctx);
      if one.Err? {
        ErrorPersists(reg, imports, i + 1, path);
        return Err(one.error);
      }
      specs := specs + [one.value];
    }
    assert imports[..|contributions|] == imports;
    return Ok(specs);
  }

  /** The loop over the devfile's components: own ones are kept, plugins are resolved. */
  method ResolveComponents(reg: Registry, cs: seq<Component>, ctx: ContextNode)
    returns (own: seq<Component>, r: Result<seq<Spec>, FlattenError>)
    requires ctx.Valid()
    modifies ctx
    ensures r == ResolveImports(reg, PluginImports(cs), ctx.Path())
    ensures r.Ok? ==> own == OwnComponents(cs)
    decreases reg.Keys - Seen(ctx.Path()), 1
  {
    ghost var path := ctx.Path();
    own := [];
    var specs: seq<Spec> := [];
    for i := 0 to |cs|
      invariant own == OwnComponents(cs[..i])
      invariant ResolveImports(reg, PluginImports(cs[..i]), path) == Ok(specs)
    {
      var c := cs[i];
      assert cs[..i + 1][..i] == cs[..i];
      if !IsPlugin(c) {
        own := own + [c];
        assert PluginImports(cs[..i + 1]) == PluginImports(cs[..i]);
      } else {
        var imp := Import(c.name, c.body.ref, c.body.overrides);
        ResolveImportsStep(reg, PluginImports(cs[..i]), imp, path);
        var one := ResolvePlugin(reg, imp, ctx);
        if one.Err? {
          PluginErrorPersists(reg, cs, i + 1, path);
          return own, Err(one.error);
        }
        specs := specs + [one.value];
      }
    }
    assert cs[..|cs|] == cs;
    r := Ok(specs);
  }

  /** recursiveResolve computes `Resolve` for the path its context records, and always terminates. */
  method RecursiveResolve(reg: Registry, spec: Spec, contributions: seq<Contribution>, ctx: ContextNode)
    returns (r: Result<Spec, FlattenError>)
    requires ctx.Valid()
    modifies ctx
    ensures r == Resolve(reg, spec, contributions, ctx.Path())
    decreases reg.Keys - Seen(ctx.Path()), 2
  {
    if IsFlattened(spec, contributions) { return Ok(spec); }
    var contributed := ResolveContributions(reg, contributions, ctx);
    if contributed.Err? { return Err(contributed.error); }
    var parent := ResolveParent(reg, spec.parent);
    if parent.Err? { return Err(parent.error); }
    var own, plugins := ResolveComponents(reg, spec.components, ctx);
    if plugins.Err? { return Err(plugins.error); }
    r := Merge(spec.(parent := None, components := own), parent.value, contributed.value + plugins.value);
  }
}
