# FunctionNodeHelper, modelled in Dafny

`org.neuroml2.model.utils.FunctionNodeHelper` turns one resolved LEMS symbol
(a gating rate, a steady state, a time course) into a single closed-form
MathJS expression in the membrane potential `v`. It keeps a named target, an
independent variable and an insertion-ordered context of definitions
(a `LinkedHashMap<String, String>`, seeded with `null -> null`). The first
expanded lookup substitutes every definition into the others and caches the
result. The static pipeline `processExpression` does these steps in order:

1. render the topologically sorted dependencies of the symbol for MathJS;
2. register them;
3. bind `v` to itself;
4. for a conditional derived variable, bind the symbol's name to its cases,
   flattened into one ternary chain;
5. return the expanded definition of the symbol's name.

The project has six modules:

- `Wrappers` (`wrappers.dfy`): `Option`, standing for a Java reference that
  may be null.
- `LinkedMap` (`linked_map.dfy`): the insertion-ordered map. It is a
  sequence of entries with distinct keys, with `get`, `put`, `remove` and
  `putAll`, and with the ordering and `MapValues` lemmas used by the
  pipeline.
- `Lems` (`lems.dfy`): cases, symbols, and the library calls that the helper
  makes but does not define. Each call is a total function with no property
  beyond its type. Every method and function of the helper that makes such a
  call takes the caller's `ExpressionLibrary` and reads the call from it:
  `render` in `ConditionalDVToMathJS` and `DepsToMathJS`; `render`,
  `topoSort` and `expand` in `ProcessExpression`; `expand` in the two
  expanded lookups; `latex` in `ToTeX`; and `symbols` in
  `FindIndependentVariables`. The `Piecewise` definitions (`Guard`,
  `Guarded`, `Flatten` and the lemmas about them) take the one call they use,
  `render`, as a parameter of their own.
- `Piecewise` (`piecewise.dfy`): a declarative definition of the flattened
  ternary chain (`Flatten`), and lemmas about its shape.
- `Pipeline` (`pipeline.dfy`): the context that `processExpression` hands to
  the expander, stated as a value, with lemmas about what it binds and in
  which order.
- `Utils` (`function_node_helper.dfy`): the class `FunctionNodeHelper`. Its
  fields are updated in place by its methods. Three static methods are
  proved equal to the definitions above: the loop of `ConditionalDVToMathJS`
  computes `Piecewise.Flatten`; the loop of `DepsToMathJS` computes
  `Pipeline.RenderedDependencies`; and `ProcessExpression` returns the
  expansion of `Pipeline.PipelineContext`, looked up under the symbol's name.
  `FindIndependentVariables` has no loop, and its contract states its result
  directly.

Behaviour of the flattening worth noting:

- An empty case list flattens to the empty string, because joining no
  segments gives `""`. No null is emitted.
- Every catch-all case overwrites the default, so the last catch-all wins and
  earlier ones are dropped (`LastCatchAllWins`).
- The chain is emitted without parentheses: `c1 ? v1 : c2 ? v2 : d`.
- Promotion of the last case happens only when no catch-all precedes it. A
  catch-all earlier in the list keeps the last case's guard
  (`EarlyCatchAllKeepsLastGuard`).

## Model

| member | source | states |
|---|---|---|
| Utils.FunctionNodeHelper.constructor | src/main/java/org/neuroml2/model/utils/FunctionNodeHelper.java:27-38 | a new helper has no name, no independent variable and no cached expansion; its context is exactly `null -> null` |
| Utils.FunctionNodeHelper.SetName | src/main/java/org/neuroml2/model/utils/FunctionNodeHelper.java:86-88 | the name becomes the given one and nothing else changes |
| Utils.FunctionNodeHelper.SetIndependentVariable | src/main/java/org/neuroml2/model/utils/FunctionNodeHelper.java:41-44 | records the variable and binds it to itself by `put`; every other key keeps its value |
| Utils.FunctionNodeHelper.GetExpression | src/main/java/org/neuroml2/model/utils/FunctionNodeHelper.java:46-48 | there is a result exactly when the name is set and bound; the result is the value stored under the name |
| Utils.FunctionNodeHelper.Register | src/main/java/org/neuroml2/model/utils/FunctionNodeHelper.java:50-52 | `put` of one key; every other key keeps its value; registering the helper's own name makes `GetExpression` return the new value |
| Utils.FunctionNodeHelper.RegisterAll | src/main/java/org/neuroml2/model/utils/FunctionNodeHelper.java:54-56 | `putAll`: every key of the argument gets the argument's value, and every other key keeps its value |
| Utils.FunctionNodeHelper.DeRegister | src/main/java/org/neuroml2/model/utils/FunctionNodeHelper.java:58-60 | `remove`: the key becomes unbound, every other key keeps its value, and the remaining keys keep their order |
| Utils.FunctionNodeHelper.ToTeX | src/main/java/org/neuroml2/model/utils/FunctionNodeHelper.java:95-99 | the LaTeX rendering of the helper's own unexpanded expression, present exactly when that expression is |
| Utils.FunctionNodeHelper.GetExpandedExpression | src/main/java/org/neuroml2/model/utils/FunctionNodeHelper.java:109-115 | on first use the cache becomes the expansion of the current context; after that the cache is unchanged; the result is the cache's value for the variable |
| Utils.FunctionNodeHelper.GetBigFatExpression | src/main/java/org/neuroml2/model/utils/FunctionNodeHelper.java:101-107 | the same caching; the result is `f(<independent variable>)=` followed by the cached value, with null printed as `null` |
| Utils.ExpansionIsMemoised | src/main/java/org/neuroml2/model/utils/FunctionNodeHelper.java:101-115 | after a first expanded lookup, registering and deregistering keys changes neither a later lookup nor `getBigFatExpression`; the cache is the expansion of the context as it stood at the first lookup |
| Utils.FunctionNodeHelper.FindIndependentVariables | src/main/java/org/neuroml2/model/utils/FunctionNodeHelper.java:118-123 | the result is exactly the symbols of the expression that are not keys of the context |
| Utils.FunctionNodeHelper.ConditionalDVToMathJS | src/main/java/org/neuroml2/model/utils/FunctionNodeHelper.java:125-166 | the loop's output equals `Piecewise.Flatten` of the cases |
| Utils.FunctionNodeHelper.DepsToMathJS | src/main/java/org/neuroml2/model/utils/FunctionNodeHelper.java:188-199 | the result has the keys of the sorted context, in the same order, and every definition rendered for MathJS |
| Utils.FunctionNodeHelper.ProcessExpression | src/main/java/org/neuroml2/model/utils/FunctionNodeHelper.java:168-185 | the result is the expansion of `Pipeline.PipelineContext`, looked up under the symbol's name |
| Pipeline.RenderedDependencies | src/main/java/org/neuroml2/model/utils/FunctionNodeHelper.java:188-199 | the rendered dependencies have the keys of the topologically sorted context, in the same order |
| Pipeline.PipelineContext | src/main/java/org/neuroml2/model/utils/FunctionNodeHelper.java:172-180 | the context before expansion binds `null` and `v`; for a conditional derived variable its name is bound to the flattened cases |
| Pipeline.PipelineEntries | src/main/java/org/neuroml2/model/utils/FunctionNodeHelper.java:168-185 | the context before expansion binds exactly `null`, the dependencies, `v` and, for a conditional variable, its name. The name gets the flattened chain, `v` gets `v`, every other dependency gets its rendered definition, and `null` gets `null` when nothing rebinds it |
| Pipeline.PipelineOrder | src/main/java/org/neuroml2/model/utils/FunctionNodeHelper.java:168-185 | the context's key order is: `null`; the dependencies in topological order; then `v` and the conditional variable's name, each appended only if new |
| LinkedMap.PutKeySeq | src/main/java/org/neuroml2/model/utils/FunctionNodeHelper.java:50-52 | `put` appends the key to the key order exactly when it was absent |
| Piecewise.LastCatchAll | src/main/java/org/neuroml2/model/utils/FunctionNodeHelper.java:134-138 | the position of a catch-all case with no catch-all after it; none only when no case is a catch-all |
| Piecewise.Flatten | src/main/java/org/neuroml2/model/utils/FunctionNodeHelper.java:125-166 | no cases give the empty string; a single case, catch-all or conditional, gives its rendered value alone |
| Piecewise.SegmentsOfOne | src/main/java/org/neuroml2/model/utils/FunctionNodeHelper.java:134-146 | a single case is the default and the only segment: as a catch-all at lines 134-138, or promoted at lines 141-146 |
| Piecewise.Join | src/main/java/org/neuroml2/model/utils/FunctionNodeHelper.java:164 | `Joiner.on(sep).join`: the output's length is the parts' summed lengths plus one separator between each pair |
| Piecewise.JoinAppend | src/main/java/org/neuroml2/model/utils/FunctionNodeHelper.java:164 | joining one more part appends the separator and that part |
| Piecewise.SegmentCount | src/main/java/org/neuroml2/model/utils/FunctionNodeHelper.java:155-164 | the chain has one segment per conditional case, minus one when the last case is promoted, plus one default whenever there is a case; no cases give the empty string |
| Piecewise.GuardedLength | src/main/java/org/neuroml2/model/utils/FunctionNodeHelper.java:147-151 | one guard segment per case with a condition |
| Piecewise.GuardedAt | src/main/java/org/neuroml2/model/utils/FunctionNodeHelper.java:147-151 | order is preserved: the conditional case at position i gives the guard whose index is the number of conditional cases before it |
| Piecewise.AppendCatchAll | src/main/java/org/neuroml2/model/utils/FunctionNodeHelper.java:134-138 | a catch-all at the end becomes the default, and every earlier conditional case keeps its guard |
| Piecewise.AppendConditional | src/main/java/org/neuroml2/model/utils/FunctionNodeHelper.java:141-151 | a conditional last case keeps its guard when a catch-all came before it; otherwise its value alone becomes the default |
| Piecewise.GuardedSnoc | src/main/java/org/neuroml2/model/utils/FunctionNodeHelper.java:147-151 | appending a case appends its guard exactly when it has a condition |
| Piecewise.JoinTwo | src/main/java/org/neuroml2/model/utils/FunctionNodeHelper.java:164 | joining two segments puts the separator between them |
| Piecewise.JoinThree | src/main/java/org/neuroml2/model/utils/FunctionNodeHelper.java:164 | joining three segments puts the separator between each pair |
| Piecewise.GuardedOfTwo | src/main/java/org/neuroml2/model/utils/FunctionNodeHelper.java:147-151 | the guards of one and of two cases |
| Piecewise.ThreeCaseChain | src/main/java/org/neuroml2/model/utils/FunctionNodeHelper.java:125-166 | `[c1 ? v1, c2 ? v2, catch-all d]` flattens to `c1 ? v1 : c2 ? v2 : d` |
| Piecewise.LastCasePromoted | src/main/java/org/neuroml2/model/utils/FunctionNodeHelper.java:141-146 | `[c1 ? v1, c2 ? v2]` flattens to `c1 ? v1 : v2`; the last condition is dropped |
| Piecewise.EarlyCatchAllKeepsLastGuard | src/main/java/org/neuroml2/model/utils/FunctionNodeHelper.java:141-151 | `[catch-all d, c ? v]` flattens to `c ? v : d`: there is no promotion once a default exists |
| Piecewise.LastCatchAllWins | src/main/java/org/neuroml2/model/utils/FunctionNodeHelper.java:134-138 | `[catch-all d1, c ? v, catch-all d2]` flattens to `c ? v : d2`: a later catch-all replaces an earlier one |
| Piecewise.PrefixSnoc | src/main/java/org/neuroml2/model/utils/FunctionNodeHelper.java:131-153 | extending the scanned prefix by one case extends its guards and catch-all default accordingly |
| Piecewise.ScanCatchAll | src/main/java/org/neuroml2/model/utils/FunctionNodeHelper.java:134-138 | a catch-all case keeps the loop state consistent, with its value as the default |
| Piecewise.ScanPromote | src/main/java/org/neuroml2/model/utils/FunctionNodeHelper.java:141-146 | promoting the last case keeps the loop state consistent |
| Piecewise.ScanGuard | src/main/java/org/neuroml2/model/utils/FunctionNodeHelper.java:147-151 | adding a guard keeps the loop state consistent |
| Piecewise.ScanDone | src/main/java/org/neuroml2/model/utils/FunctionNodeHelper.java:155-156 | after the loop, the guards plus the default, if any, are the chain's segments |
| LinkedMap.KeySeq | src/main/java/org/neuroml2/model/utils/FunctionNodeHelper.java:32-38 | the key order has one key per entry |
| LinkedMap.KeySeqAt | src/main/java/org/neuroml2/model/utils/FunctionNodeHelper.java:32-38 | the key order lists, at each position, the key of the entry at that position |
| LinkedMap.Get | src/main/java/org/neuroml2/model/utils/FunctionNodeHelper.java:46-48 | `get` finds a value exactly for the keys present, and the value is stored under that key |
| LinkedMap.GetAt | src/main/java/org/neuroml2/model/utils/FunctionNodeHelper.java:46-48 | in a map, `get` of the key at a position finds that position's value |
| LinkedMap.KeyAt | src/main/java/org/neuroml2/model/utils/FunctionNodeHelper.java:46-48 | the key at any position is one of the keys |
| LinkedMap.Put | src/main/java/org/neuroml2/model/utils/FunctionNodeHelper.java:50-52 | `put` binds the key and leaves every other binding alone. A present key keeps its place and a new key is appended. Keys stay distinct |
| LinkedMap.PutPresent | src/main/java/org/neuroml2/model/utils/FunctionNodeHelper.java:50-52 | `put` of a present key changes neither the keys nor their order |
| LinkedMap.PutAbsent | src/main/java/org/neuroml2/model/utils/FunctionNodeHelper.java:50-52 | `put` of an absent key appends one entry |
| LinkedMap.Remove | src/main/java/org/neuroml2/model/utils/FunctionNodeHelper.java:58-60 | `remove` unbinds the key and leaves every other binding alone; removing an absent key changes nothing; removing a present one shortens the map by one; the order of the rest is in `RemoveOrder` |
| LinkedMap.RemoveOrder | src/main/java/org/neuroml2/model/utils/FunctionNodeHelper.java:58-60 | `remove` keeps the remaining keys in their order: the key order after is the key order before with the removed key filtered out |
| LinkedMap.PutAll | src/main/java/org/neuroml2/model/utils/FunctionNodeHelper.java:54-56 | after `putAll`, the keys are the union; keys of the source have the source's values and the others keep theirs; keys stay distinct |
| LinkedMap.PutAllOrder | src/main/java/org/neuroml2/model/utils/FunctionNodeHelper.java:54-56 | after `putAll`, the keys already present keep their places and the source's new keys follow in the source's order |
| LinkedMap.PutOrderStep | src/main/java/org/neuroml2/model/utils/FunctionNodeHelper.java:54-56 | one `put` inside `putAll`: the key joins the key order exactly when it is not already present |
| LinkedMap.PutAbsentOrder | src/main/java/org/neuroml2/model/utils/FunctionNodeHelper.java:50-52 | `put` of a new key appends it to the key order and leaves which other keys count as seen unchanged |
| LinkedMap.UnseenIgnoresAbsent | src/main/java/org/neuroml2/model/utils/FunctionNodeHelper.java:54-56 | marking a key as seen that does not occur changes nothing |
| LinkedMap.UnseenCons | src/main/java/org/neuroml2/model/utils/FunctionNodeHelper.java:54-56 | the first key is kept exactly when it is unseen |
| LinkedMap.KeysAreKeySeq | src/main/java/org/neuroml2/model/utils/FunctionNodeHelper.java:32-38 | a key is bound exactly when it occurs in the key order |
| LinkedMap.UniqueHead | src/main/java/org/neuroml2/model/utils/FunctionNodeHelper.java:32-38 | in a map the first key does not recur, and the rest is a map |
| LinkedMap.KeySeqAppend | src/main/java/org/neuroml2/model/utils/FunctionNodeHelper.java:50-52 | appending an entry appends its key to the key order |
| LinkedMap.MapValues | src/main/java/org/neuroml2/model/utils/FunctionNodeHelper.java:193-197 | rendering every value keeps the keys and their order, and keeps keys distinct |
| LinkedMap.GetMapValues | src/main/java/org/neuroml2/model/utils/FunctionNodeHelper.java:193-197 | after rendering, `get` finds the rendered value of what it found before, and nothing for absent keys |
| LinkedMap.MapValuesAppend | src/main/java/org/neuroml2/model/utils/FunctionNodeHelper.java:193-197 | rendering distributes over appending an entry |
| LinkedMap.UniqueKeysPrefix | src/main/java/org/neuroml2/model/utils/FunctionNodeHelper.java:193-197 | in a map, the key at a position does not occur before it |
| LinkedMap.MapValuesSnoc | src/main/java/org/neuroml2/model/utils/FunctionNodeHelper.java:193-197 | rendering one more entry of the prefix appends its rendered entry |
| LinkedMap.MapValuesFreshKey | src/main/java/org/neuroml2/model/utils/FunctionNodeHelper.java:193-197 | the next key of a map is not yet in the rendered prefix |
| LinkedMap.PutMapValuesStep | src/main/java/org/neuroml2/model/utils/FunctionNodeHelper.java:193-197 | one iteration of the rendering loop (`put` of the next rendered entry) extends the rendered prefix by one entry |

## Left out

- `xRange` and `deltaX`, with their getters and setters: floating-point fields that no other member reads.
- `toString`: it depends on Java's printing of a `LinkedHashMap`.
- `getName` and `getIndependentVariable`: plain field reads, modelled by reading the fields directly.
- The lemsml library is not part of this model: `SymbolExpander.expandSymbols`, `Scope.buildTopoSortedContext`, `ExpressionParser.listSymbolsInExpression`, `RenderMathJS` and `RenderLatex`. Each is a caller-supplied total function with no property beyond its type. So nothing is proved about the expansion itself, about topological order or about cycle detection.
- Exceptions from the library (`LEMSCompilerException`, `UndefinedSymbolException`, parse errors): every library call is modelled as returning normally.
- Null keys and null values in the context: every key and value is a string. A null helper name makes `GetExpression` return null, which is what `get(null)` gives on a context without a null key.
- `adaptToMathJS` (parse, then render with `RenderMathJS`) is the caller-supplied `render` function, not a member of its own. `RenderMathJS` also reads the document's symbol-to-unit table, and that table is folded into `render`.
- Utils.FunctionNodeHelper.ToTeX: returns `None` when the helper has no expression. The source hands a null text to the parser in that case, and the parser is not part of this model.
- Aliasing of the cached map: the source copies the context before expanding it, and the model's maps are values, so the copy is implicit.
