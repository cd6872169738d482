/**
  The context that `FunctionNodeHelper.processExpression` builds for a
  resolved symbol before handing it to the expander, stated as a value, and
  what it holds.
*/
module Pipeline {
  import opened Wrappers
  import opened LinkedMap
  import opened Lems
  import opened Piecewise

  /** A fresh helper's context: the grammar's `null` token bound to itself. */
  const InitialContext: Context := [("null", "null")]

  /** The independent variable that processExpression binds: the membrane potential. */
  const V := "v"

  /** depsToMathJS: the topologically sorted context, every definition rendered for MathJS. */
  function RenderedDependencies(resolved: Symbol, lib: ExpressionLibrary): (r: Context)
    ensures KeySeq(r) == KeySeq(lib.topoSort(resolved))
  {
    MapValues(lib.topoSort(resolved), lib.render)
  }

  /**
    The context just before expansion: the initial context, then the rendered
    dependencies, then `v` bound to itself, then, for a conditional derived
    variable, the symbol's own name bound to its flattened cases.
  */
  function PipelineContext(resolved: Symbol, lib: ExpressionLibrary): (r: Context)
    ensures resolved.kind.ConditionalDerivedVariable? ==>
      Get(r, resolved.name) == Some(Flatten(resolved.kind.cases, lib.render))
    ensures "null" in Keys(r) && V in Keys(r)
  {
    var bound := Put(PutAll(InitialContext, RenderedDependencies(resolved, lib)), V, V);
    match resolved.kind
    case ConditionalDerivedVariable(cases) => Put(bound, resolved.name, Flatten(cases, lib.render))
    case Other => bound
  }

  /**
    What the context binds: the target of a conditional derived variable to
    its flattened chain, `v` to itself unless that overwrote it, every other
    dependency to its rendered definition, and `null` to itself unless a
    later step rebound it.
  */
  lemma PipelineEntries(resolved: Symbol, lib: ExpressionLibrary)
    ensures var ctx := PipelineContext(resolved, lib);
      && Keys(ctx) == {"null"} + Keys(lib.topoSort(resolved)) + {V}
           + (if resolved.kind.ConditionalDerivedVariable? then {resolved.name} else {})
      && (resolved.kind.ConditionalDerivedVariable? ==>
            Get(ctx, resolved.name) == Some(Flatten(resolved.kind.cases, lib.render)))
      && (!(resolved.kind.ConditionalDerivedVariable? && resolved.name == V) ==> Get(ctx, V) == Some(V))
      && (forall k ::
            (k in Keys(lib.topoSort(resolved)) && k != V && !(resolved.kind.ConditionalDerivedVariable? && k == resolved.name))
            ==> Get(ctx, k) == Some(lib.render(Get(lib.topoSort(resolved), k).value)))
      && (("null" !in Keys(lib.topoSort(resolved)) && !(resolved.kind.ConditionalDerivedVariable? && resolved.name == "null"))
            ==> Get(ctx, "null") == Some("null"))
  {
    var deps := RenderedDependencies(resolved, lib);
    var withDeps := PutAll(InitialContext, deps);
    assert Keys(InitialContext) == {"null"};
    forall k | k in Keys(lib.topoSort(resolved))
      ensures Get(withDeps, k) == Some(lib.render(Get(lib.topoSort(resolved), k).value))
    {
      assert Get(withDeps, k) == Get(deps, k);
      GetMapValues(lib.topoSort(resolved), lib.render, k);
    }
  }

  /**
    The order of the context: `null` first, then the dependencies in
    topological order, then `v` and, for a conditional derived variable, the
    target name, each appended only if not already present.
  */
  lemma PipelineOrder(resolved: Symbol, lib: ExpressionLibrary)
    ensures var base := ["null"] + Unseen(KeySeq(lib.topoSort(resolved)), {"null"});
      var withV := base + (if V in base then [] else [V]);
      KeySeq(PipelineContext(resolved, lib))
        == withV + (if resolved.kind.ConditionalDerivedVariable? && resolved.name !in withV then [resolved.name] else [])
  {
    var deps := RenderedDependencies(resolved, lib);
    var withDeps := PutAll(InitialContext, deps);
    assert Keys(InitialContext) == {"null"};
    assert KeySeq(InitialContext) == ["null"];
    PutAllOrder(InitialContext, deps);
    var bound := Put(withDeps, V, V);
    PutKeySeq(withDeps, V, V);
    if resolved.kind.ConditionalDerivedVariable? {
      PutKeySeq(bound, resolved.name, Flatten(resolved.kind.cases, lib.render));
    }
  }
}
