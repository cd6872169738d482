/**
  `org.neuroml2.model.utils.FunctionNodeHelper`: a named target expression,
  an independent variable and an insertion-ordered context of definitions,
  expanded once on demand and cached.
*/
module Utils {
  import opened Wrappers
  import opened LinkedMap
  import opened Lems
  import opened Piecewise
  import opened Pipeline

  /** How Java's string concatenation shows a String that may be null. */
  function JavaString(s: Option<string>): string {
    s.GetOr("null")
  }

  class FunctionNodeHelper {
    var name: Option<string>
    var independentVariable: Option<string>
    /** Insertion order is dependency order. */
    var context: Context
    /** The expanded copy of `context`, computed by the first expanded lookup. */
    var expandedContext: Option<Context>

    constructor ()
      ensures name == None && independentVariable == None && expandedContext == None
      ensures context == InitialContext
      ensures Keys(context) == {"null"} && Get(context, "null") == Some("null")
    {
      name := None;
      independentVariable := None;
      context := InitialContext;
      expandedContext := None;
    }

    method SetName(n: string)
      modifies this`name
      ensures name == Some(n)
    {
      name := Some(n);
    }

    /** Records `x` and binds it to itself; no other entry changes. */
    method SetIndependentVariable(x: string)
      modifies this`independentVariable, this`context
      ensures independentVariable == Some(x)
      ensures context == Put(old(context), x, x)
      ensures Get(context, x) == Some(x)
      ensures forall k :: k != x ==> Get(context, k) == Get(old(context), k)
    {
      independentVariable := Some(x);
      context := Put(context, x, x);
    }

    /** The unexpanded definition of the helper's own name, or null. */
    function GetExpression(): (r: Option<string>)
      reads this
      ensures r.Some? <==> name.Some? && name.value in Keys(context)
      ensures r.Some? ==> (name.value, r.value) in context
    {
      if name.None? then None else Get(context, name.value)
    }

    /** Binds one key; no other entry changes. */
    method Register(variable: string, value: string)
      modifies this`context
      ensures context == Put(old(context), variable, value)
      ensures name == Some(variable) ==> GetExpression() == Some(value)
      ensures forall k :: k != variable ==> Get(context, k) == Get(old(context), k)
    {
      context := Put(context, variable, value);
    }

    /** Binds every key of `ctxt`, in its order; keys it lacks keep their values. */
    method RegisterAll(ctxt: Context)
      modifies this`context
      ensures context == PutAll(old(context), ctxt)
      ensures forall k :: k in Keys(ctxt) ==> Get(context, k) == Get(ctxt, k)
      ensures forall k :: k !in Keys(ctxt) ==> Get(context, k) == Get(old(context), k)
    {
      context := PutAll(context, ctxt);
    }

    /** Unbinds one key; no other entry changes. */
    method DeRegister(k: string)
      modifies this`context
      ensures context == Remove(old(context), k)
      ensures Get(context, k) == None
      ensures forall j :: j != k ==> Get(context, j) == Get(old(context), j)
      ensures KeySeq(context) == Unseen(KeySeq(old(context)), {k})
    {
      RemoveOrder(context, k);
      context := Remove(context, k);
    }

    /**
      The helper's own expression rendered as LaTeX; None stands for the
      parser being handed a null text.
    */
    function ToTeX(lib: ExpressionLibrary): (r: Option<string>)
      reads this
      ensures r.Some? <==> GetExpression().Some?
      ensures r.Some? ==> r.value == lib.latex(GetExpression().value)
    {
      match GetExpression()
      case Some(e) => Some(lib.latex(e))
      case None => None
    }

    /** `getExpression(var)`: the expanded definition of `variable`, expanding on first use only. */
    method GetExpandedExpression(variable: string, lib: ExpressionLibrary) returns (r: Option<string>)
      modifies this`expandedContext
      ensures old(expandedContext).Some? ==> expandedContext == old(expandedContext)
      ensures old(expandedContext).None? ==> expandedContext == Some(lib.expand(context))
      ensures r == Get(expandedContext.value, variable)
    {
      if expandedContext.None? {
        expandedContext := Some(lib.expand(context));
      }
      r := Get(expandedContext.value, variable);
    }

    /** `getBigFatExpression(var)`: `f(<independent variable>)=` followed by the expanded definition. */
    method GetBigFatExpression(variable: string, lib: ExpressionLibrary) returns (r: string)
      modifies this`expandedContext
      ensures old(expandedContext).Some? ==> expandedContext == old(expandedContext)
      ensures old(expandedContext).None? ==> expandedContext == Some(lib.expand(context))
      ensures r == "f(" + JavaString(independentVariable) + ")=" + JavaString(Get(expandedContext.value, variable))
    {
      if expandedContext.None? {
        expandedContext := Some(lib.expand(context));
      }
      r := "f(" + JavaString(independentVariable) + ")=" + JavaString(Get(expandedContext.value, variable));
    }

    /** The symbols of `expression` that the context does not define. */
    static method FindIndependentVariables(expression: string, context: Context, lib: ExpressionLibrary)
      returns (vars: set<string>)
      ensures vars <= lib.symbols(expression)
      ensures vars !! Keys(context)
      ensures forall s :: s in lib.symbols(expression) && s !in Keys(context) ==> s in vars
    {
      vars := lib.symbols(expression);
      vars := vars - Keys(context);
    }

    /** Flattens the cases of a conditional derived variable into one ternary chain. */
    static method ConditionalDVToMathJS(cases: seq<Case>, lib: ExpressionLibrary) returns (r: string)
      ensures r == Flatten(cases, lib.render)
    {
      var condsVals: seq<string> := [];
      var defaultCase: Option<string> := None;
      var caseNum := |cases|;
      for i := 0 to caseNum
        invariant ScanState(cases, i, condsVals, defaultCase, lib.render)
      {
        var c := cases[i];
        if c.condition.None? {
          ScanCatchAll(cases, i, condsVals, defaultCase, lib.render);
          defaultCase := Some(lib.render(c.value));
        } else if i == caseNum - 1 && defaultCase.None? {
          ScanPromote(cases, i, condsVals, lib.render);
          defaultCase := Some(lib.render(c.value));
        } else {
          ScanGuard(cases, i, condsVals, defaultCase, lib.render);
          condsVals := condsVals + [lib.render(c.condition.value) + " ? " + lib.render(c.value)];
        }
      }
      ScanDone(cases, condsVals, defaultCase, lib.render);
      if defaultCase.Some? {
        condsVals := condsVals + [defaultCase.value];
      }
      r := Join(condsVals, Separator);
    }

    /** `depsToMathJS`: the topologically sorted context with every definition rendered. */
    static method DepsToMathJS(resolved: Symbol, lib: ExpressionLibrary) returns (ret: Context)
      ensures ret == RenderedDependencies(resolved, lib)
      ensures KeySeq(ret) == KeySeq(lib.topoSort(resolved))
      ensures forall k :: k in Keys(lib.topoSort(resolved)) ==>
        Get(ret, k) == Some(lib.render(Get(lib.topoSort(resolved), k).value))
    {
      ret := [];
      var sortedContext := lib.topoSort(resolved);
      for i := 0 to |sortedContext|
        invariant ret == MapValues(sortedContext[..i], lib.render)
      {
        var (variable, def) := sortedContext[i];
        PutMapValuesStep(sortedContext, i, lib.render);
        ret := Put(ret, variable, lib.render(def));
      }
      assert sortedContext[..|sortedContext|] == sortedContext;
      forall k | k in Keys(sortedContext)
        ensures Get(ret, k) == Some(lib.render(Get(sortedContext, k).value))
      {
        GetMapValues(sortedContext, lib.render, k);
      }
    }

    /**
      `processExpression`: the expanded definition of the resolved symbol's
      name in the context built by `PipelineContext`.
    */
    static method ProcessExpression(resolved: Symbol, lib: ExpressionLibrary) returns (r: Option<string>)
      ensures r == Get(lib.expand(PipelineContext(resolved, lib)), resolved.name)
    {
      var f := new FunctionNodeHelper();
      f.SetName(resolved.name);
      var deps := DepsToMathJS(resolved, lib);
      assert f.context == InitialContext && f.expandedContext == None;
      f.RegisterAll(deps);
      assert f.expandedContext == None;
      f.SetIndependentVariable(V);
      assert f.expandedContext == None;
      ghost var bound := f.context;
      assert bound == Put(PutAll(InitialContext, RenderedDependencies(resolved, lib)), V, V);
      if resolved.kind.ConditionalDerivedVariable? {
        var flattened := ConditionalDVToMathJS(resolved.kind.cases, lib);
        f.Register(resolved.name, flattened);
        assert f.context == Put(bound, resolved.name, Flatten(resolved.kind.cases, lib.render));
      }
      assert f.context == PipelineContext(resolved, lib) && f.expandedContext == None;
      r := f.GetExpandedExpression(resolved.name, lib);
      assert f.expandedContext == Some(lib.expand(PipelineContext(resolved, lib)));
    }
  }

  /**
    Once an expanded lookup has run, the cache answers every later one:
    changing the context afterwards changes neither lookup.
  */
  method ExpansionIsMemoised(h: FunctionNodeHelper, variable: string, k: string, v: string,
                             lib: ExpressionLibrary)
    returns (first: Option<string>, later: Option<string>, fat: string)
    modifies h
    ensures later == first
    ensures fat == "f(" + JavaString(h.independentVariable) + ")=" + JavaString(first)
    ensures h.expandedContext == Some(old(h.expandedContext).GetOr(lib.expand(old(h.context))))
  {
    first := h.GetExpandedExpression(variable, lib);
    h.Register(k, v);
    h.DeRegister(variable);
    later := h.GetExpandedExpression(variable, lib);
    fat := h.GetBigFatExpression(variable, lib);
  }
}
