/**
  The parts of the LEMS model and of the lemsml expression library that
  FunctionNodeHelper uses.

  The model types are plain values. The library calls are not part of this
  model: each is a total function, with no property beyond its type, that the
  caller supplies in an `ExpressionLibrary`. The helper's members read the
  calls from it; the `Piecewise` definitions take `render` on its own.
*/
module Lems {
  import opened Wrappers
  import opened LinkedMap

  /** One guarded case of a conditional derived variable; a null condition marks a catch-all. */
  datatype Case = Case(condition: Option<string>, value: string)

  /** What a symbol is defined by: a conditional derived variable, or anything else. */
  datatype SymbolKind = ConditionalDerivedVariable(cases: seq<Case>) | Other

  /** A handle on the enclosing scope of a symbol in the external model. */
  type ScopeRef = nat

  /** A resolved symbol: its name, its scope and the node that defines it. */
  datatype Symbol = Symbol(name: string, scope: ScopeRef, kind: SymbolKind)

  /**
    The library calls, for one loaded LEMS document:
    - `render`: parse an expression and render it for MathJS (`RenderMathJS`,
      which also sees the document's symbol-to-unit table);
    - `latex`: parse an expression and render it as LaTeX (`RenderLatex`);
    - `symbols`: `ExpressionParser.listSymbolsInExpression`;
    - `expand`: `SymbolExpander.expandSymbols`, as a function from the
      context it is handed to the context it leaves behind;
    - `topoSort`: `Scope.buildTopoSortedContext` of a symbol in its scope.
  */
  datatype ExpressionLibrary = ExpressionLibrary(
    render: string -> string,
    latex: string -> string,
    symbols: string -> set<string>,
    expand: Context -> Context,
    topoSort: Symbol -> Context)
}
