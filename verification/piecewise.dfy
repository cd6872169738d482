/**
  How the cases of a conditional derived variable are flattened into one
  MathJS ternary chain, stated declaratively:

  - every case with a condition becomes `render(condition) + " ? " + render(value)`,
    in the order of the cases;
  - the default is the value of the LAST catch-all case (null condition);
  - when there is no catch-all at all, the last case is promoted: its
    condition is dropped and its value becomes the default;
  - the default, if any, comes last, and the segments are joined by " : ".
*/
module Piecewise {
  import opened Wrappers
  import opened Lems

  const Separator := " : "

  /** `Joiner.on(sep).join(parts)`: the parts separated by `sep`; no parts give "". */
  function Join(parts: seq<string>, sep: string): (r: string)
    ensures |r| == TotalLength(parts) + (if parts == [] then 0 else (|parts| - 1) * |sep|)
  {
    if parts == [] then ""
    else if |parts| == 1 then parts[0]
    else parts[0] + sep + Join(parts[1..], sep)
  }

  /** The summed lengths of `parts`. */
  function TotalLength(parts: seq<string>): nat {
    if parts == [] then 0 else |parts[0]| + TotalLength(parts[1..])
  }

  /** Joining one more part adds the separator and that part at the end. */
  lemma {:induction false} JoinAppend(parts: seq<string>, x: string, sep: string)
    requires parts != []
    ensures Join(parts + [x], sep) == Join(parts, sep) + sep + x
  {
    var all := parts + [x];
    assert all[1..] == parts[1..] + [x];
    if |parts| > 1 {
      JoinAppend(parts[1..], x, sep);
      assert parts[0] + sep + (Join(parts[1..], sep) + sep + x) == (parts[0] + sep + Join(parts[1..], sep)) + sep + x;
    } else {
      assert all == [parts[0], x];
    }
  }

  predicate IsCatchAll(c: Case) {
    c.condition.None?
  }

  /** The segment for a case with a condition. */
  function Guard(c: Case, render: string -> string): string
    requires !IsCatchAll(c)
  {
    render(c.condition.value) + " ? " + render(c.value)
  }

  /** The segments of all the cases that have a condition, in order. */
  function Guarded(cases: seq<Case>, render: string -> string): seq<string> {
    if cases == [] then []
    else
      var last := cases[|cases| - 1];
      Guarded(cases[..|cases| - 1], render) + (if IsCatchAll(last) then [] else [Guard(last, render)])
  }

  /** How many cases have a condition. */
  function CountConditional(cases: seq<Case>): nat {
    if cases == [] then 0
    else CountConditional(cases[..|cases| - 1]) + (if IsCatchAll(cases[|cases| - 1]) then 0 else 1)
  }

  /** The position of the last catch-all case, if there is one. */
  function LastCatchAll(cases: seq<Case>): (r: Option<nat>)
    ensures r.Some? ==> r.value < |cases| && IsCatchAll(cases[r.value])
    ensures r.Some? ==> forall j :: r.value < j < |cases| ==> !IsCatchAll(cases[j])
    ensures r.None? ==> forall j :: 0 <= j < |cases| ==> !IsCatchAll(cases[j])
  {
    if cases == [] then None
    else if IsCatchAll(cases[|cases| - 1]) then Some(|cases| - 1)
    else
      var r := LastCatchAll(cases[..|cases| - 1]);
      assert forall j :: 0 <= j < |cases| - 1 ==> cases[..|cases| - 1][j] == cases[j];
      r
  }

  /** The last case has a condition and no catch-all precedes it. */
  predicate Promoted(cases: seq<Case>) {
    |cases| > 0 && LastCatchAll(cases).None?
  }

  /** The cases whose `condition ? value` segment is emitted. */
  function Kept(cases: seq<Case>): seq<Case> {
    if Promoted(cases) then cases[..|cases| - 1] else cases
  }

  /** The rendered value of the last catch-all case, if there is one. */
  function CatchAllDefault(cases: seq<Case>, render: string -> string): Option<string> {
    match LastCatchAll(cases)
    case Some(i) => Some(render(cases[i].value))
    case None => None
  }

  /** The rendered default branch: the last catch-all, else the promoted last case. */
  function DefaultCase(cases: seq<Case>, render: string -> string): Option<string> {
    if Promoted(cases) then Some(render(cases[|cases| - 1].value)) else CatchAllDefault(cases, render)
  }

  /** The segments of the chain, in output order. */
  function Segments(cases: seq<Case>, render: string -> string): seq<string> {
    Guarded(Kept(cases), render)
      + (match DefaultCase(cases, render) case Some(d) => [d] case None => [])
  }

  /** The flattened ternary chain. */
  function Flatten(cases: seq<Case>, render: string -> string): (r: string)
    ensures cases == [] ==> r == ""
    ensures |cases| == 1 ==> r == render(cases[0].value)
  {
    SegmentsOfOne(cases, render);
    Join(Segments(cases, render), Separator)
  }

  /** A single case, catch-all or promoted, is the default and the only segment. */
  lemma SegmentsOfOne(cases: seq<Case>, render: string -> string)
    ensures |cases| == 1 ==> Segments(cases, render) == [render(cases[0].value)]
  {
    if |cases| == 1 {
      assert cases[..0] == [];
      if IsCatchAll(cases[0]) {
        assert LastCatchAll(cases) == Some(0);
        assert Guarded(cases, render) == Guarded([], render);
      } else {
        assert LastCatchAll(cases) == LastCatchAll([]);
        assert Kept(cases) == [];
      }
    }
  }

  lemma {:induction false} GuardedLength(cases: seq<Case>, render: string -> string)
    ensures |Guarded(cases, render)| == CountConditional(cases)
  {
    if cases != [] {
      GuardedLength(cases[..|cases| - 1], render);
    }
  }

  /**
    The chain has one segment per conditional case, less the promoted one,
    plus one default segment exactly when there is at least one case; in
    particular no cases give the empty string.
  */
  lemma SegmentCount(cases: seq<Case>, render: string -> string)
    ensures |Segments(cases, render)|
      == CountConditional(cases) - (if Promoted(cases) then 1 else 0) + (if cases == [] then 0 else 1)
    ensures Segments(cases, render) == [] <==> cases == []
    ensures cases == [] ==> Flatten(cases, render) == ""
  {
    GuardedLength(Kept(cases), render);
    if Promoted(cases) {
      assert !IsCatchAll(cases[|cases| - 1]);
    }
  }

  /**
    Order is preserved: the conditional case at position `i` gives the segment
    whose index is the number of conditional cases before it.
  */
  lemma {:induction false} GuardedAt(cases: seq<Case>, i: nat, render: string -> string)
    requires i < |cases| && !IsCatchAll(cases[i])
    ensures CountConditional(cases[..i]) < |Guarded(cases, render)|
    ensures Guarded(cases, render)[CountConditional(cases[..i])] == Guard(cases[i], render)
  {
    var n := |cases|;
    var prefix := cases[..n - 1];
    var g := Guarded(prefix, render);
    var tail := if IsCatchAll(cases[n - 1]) then [] else [Guard(cases[n - 1], render)];
    assert Guarded(cases, render) == g + tail;
    GuardedLength(prefix, render);
    if i == n - 1 {
      assert cases[..i] == prefix;
      assert tail == [Guard(cases[i], render)];
    } else {
      assert prefix[..i] == cases[..i];
      GuardedAt(prefix, i, render);
      assert (g + tail)[CountConditional(cases[..i])] == g[CountConditional(cases[..i])];
    }
  }

  /**
    An explicit catch-all appended at the end is the default, and every
    conditional case before it keeps its guard: nothing is promoted.
  */
  lemma AppendCatchAll(cases: seq<Case>, d: string, render: string -> string)
    ensures Segments(cases + [Case(None, d)], render) == Guarded(cases, render) + [render(d)]
  {
    var all := cases + [Case(None, d)];
    assert all[..|all| - 1] == cases;
  }

  /**
    A conditional case appended at the end keeps its guard, ahead of the
    default, when a catch-all came before it; otherwise it is promoted and
    only its value is emitted, as the default.
  */
  lemma AppendConditional(cases: seq<Case>, c: string, v: string, render: string -> string)
    ensures Segments(cases + [Case(Some(c), v)], render)
      == match LastCatchAll(cases)
         case Some(i) => Guarded(cases, render) + [render(c) + " ? " + render(v), render(cases[i].value)]
         case None => Guarded(cases, render) + [render(v)]
  {
    var all := cases + [Case(Some(c), v)];
    assert all[..|all| - 1] == cases;
    assert LastCatchAll(all) == LastCatchAll(cases);
    match LastCatchAll(cases)
    case Some(i) =>
      assert all[i] == cases[i];
    case None =>
  }

  lemma GuardedSnoc(cases: seq<Case>, c: Case, render: string -> string)
    ensures Guarded(cases + [c], render)
      == Guarded(cases, render) + (if IsCatchAll(c) then [] else [Guard(c, render)])
  {
    assert (cases + [c])[..|cases|] == cases;
  }

  lemma JoinThree(a: string, b: string, c: string, sep: string)
    ensures Join([a, b, c], sep) == a + sep + b + sep + c
  {
    assert [a, b, c][1..] == [b, c];
    JoinTwo(b, c, sep);
    assert a + sep + (b + sep + c) == a + sep + b + sep + c;
  }

  lemma JoinTwo(a: string, b: string, sep: string)
    ensures Join([a, b], sep) == a + sep + b
  {
    assert [a, b][1..] == [b];
  }

  /** The segments of the conditional cases among two. */
  lemma GuardedOfTwo(a: Case, b: Case, render: string -> string)
    ensures Guarded([a], render) == (if IsCatchAll(a) then [] else [Guard(a, render)])
    ensures Guarded([a, b], render) == Guarded([a], render) + (if IsCatchAll(b) then [] else [Guard(b, render)])
  {
    GuardedSnoc([], a, render);
    GuardedSnoc([a], b, render);
    assert [] + [a] == [a];
    assert [a] + [b] == [a, b];
  }

  /** Three cases, the last a catch-all: `[c1 ? v1, c2 ? v2, catch-all d]` gives `c1 ? v1 : c2 ? v2 : d`. */
  lemma ThreeCaseChain(c1: string, v1: string, c2: string, v2: string, d: string, render: string -> string)
    ensures Flatten([Case(Some(c1), v1), Case(Some(c2), v2), Case(None, d)], render)
      == (render(c1) + " ? " + render(v1)) + " : " + (render(c2) + " ? " + render(v2)) + " : " + render(d)
  {
    var a, b := Case(Some(c1), v1), Case(Some(c2), v2);
    var all := [a, b, Case(None, d)];
    GuardedOfTwo(a, b, render);
    assert Guarded([a, b], render) == [Guard(a, render), Guard(b, render)];
    AppendCatchAll([a, b], d, render);
    assert [a, b] + [Case(None, d)] == all;
    assert Segments(all, render) == [Guard(a, render), Guard(b, render), render(d)];
    JoinThree(Guard(a, render), Guard(b, render), render(d), Separator);
    assert Flatten(all, render) == Guard(a, render) + Separator + Guard(b, render) + Separator + render(d);
  }

  /** Without a catch-all the last condition is dropped: `[c1 ? v1, c2 ? v2]` gives `c1 ? v1 : v2`. */
  lemma LastCasePromoted(c1: string, v1: string, c2: string, v2: string, render: string -> string)
    ensures Flatten([Case(Some(c1), v1), Case(Some(c2), v2)], render)
      == (render(c1) + " ? " + render(v1)) + " : " + render(v2)
  {
    var first := [Case(Some(c1), v1)];
    AppendConditional(first, c2, v2, render);
    assert first + [Case(Some(c2), v2)] == [Case(Some(c1), v1), Case(Some(c2), v2)];
    GuardedSnoc([], Case(Some(c1), v1), render);
    assert [] + first == first;
    JoinTwo(render(c1) + " ? " + render(v1), render(v2), Separator);
  }

  /** A catch-all before the last case keeps that case's guard: `[d, c ? v]` gives `c ? v : d`. */
  lemma EarlyCatchAllKeepsLastGuard(d: string, c: string, v: string, render: string -> string)
    ensures Flatten([Case(None, d), Case(Some(c), v)], render)
      == (render(c) + " ? " + render(v)) + " : " + render(d)
  {
    var first := [Case(None, d)];
    AppendConditional(first, c, v, render);
    assert first + [Case(Some(c), v)] == [Case(None, d), Case(Some(c), v)];
    GuardedSnoc([], Case(None, d), render);
    assert [] + first == first;
    JoinTwo(render(c) + " ? " + render(v), render(d), Separator);
  }

  /** Of several catch-alls the last one is the default: `[d1, c ? v, d2]` gives `c ? v : d2`. */
  lemma LastCatchAllWins(d1: string, c: string, v: string, d2: string, render: string -> string)
    ensures Flatten([Case(None, d1), Case(Some(c), v), Case(None, d2)], render)
      == (render(c) + " ? " + render(v)) + " : " + render(d2)
  {
    var first := [Case(None, d1), Case(Some(c), v)];
    AppendCatchAll(first, d2, render);
    assert first + [Case(None, d2)] == [Case(None, d1), Case(Some(c), v), Case(None, d2)];
    GuardedSnoc([], Case(None, d1), render);
    GuardedSnoc([Case(None, d1)], Case(Some(c), v), render);
    assert [] + [Case(None, d1)] == [Case(None, d1)];
    assert [Case(None, d1)] + [Case(Some(c), v)] == first;
    JoinTwo(render(c) + " ? " + render(v), render(d2), Separator);
  }

  /**
    What the flattening loop has built after looking at the first `i` cases:
    the guards and the last catch-all so far, except that a promoted last case
    has become the default.
  */
  predicate ScanState(cases: seq<Case>, i: nat, condsVals: seq<string>, defaultCase: Option<string>,
                      render: string -> string)
    requires i <= |cases|
  {
    if i == |cases| && Promoted(cases) then
      condsVals == Guarded(cases[..i - 1], render) && defaultCase == Some(render(cases[i - 1].value))
    else
      condsVals == Guarded(cases[..i], render) && defaultCase == CatchAllDefault(cases[..i], render)
  }

  lemma PrefixSnoc(cases: seq<Case>, i: nat, render: string -> string)
    requires i < |cases|
    ensures Guarded(cases[..i + 1], render)
      == Guarded(cases[..i], render) + (if IsCatchAll(cases[i]) then [] else [Guard(cases[i], render)])
    ensures CatchAllDefault(cases[..i + 1], render)
      == if IsCatchAll(cases[i]) then Some(render(cases[i].value)) else CatchAllDefault(cases[..i], render)
  {
    assert cases[..i + 1][..i] == cases[..i];
    assert cases[..i + 1][i] == cases[i];
  }

  /** A catch-all case becomes the default so far. */
  lemma ScanCatchAll(cases: seq<Case>, i: nat, condsVals: seq<string>, d: Option<string>, render: string -> string)
    requires i < |cases| && IsCatchAll(cases[i]) && ScanState(cases, i, condsVals, d, render)
    ensures ScanState(cases, i + 1, condsVals, Some(render(cases[i].value)), render)
  {
    PrefixSnoc(cases, i, render);
    if i + 1 == |cases| {
      assert cases[..i + 1] == cases;
    }
  }

  /** The last case, with a condition and no catch-all before it, is promoted. */
  lemma ScanPromote(cases: seq<Case>, i: nat, condsVals: seq<string>, render: string -> string)
    requires i + 1 == |cases| && !IsCatchAll(cases[i]) && ScanState(cases, i, condsVals, None, render)
    ensures ScanState(cases, i + 1, condsVals, Some(render(cases[i].value)), render)
  {
    PrefixSnoc(cases, i, render);
    assert cases[..i + 1] == cases;
  }

  /** Any other case with a condition adds its guard. */
  lemma ScanGuard(cases: seq<Case>, i: nat, condsVals: seq<string>, d: Option<string>, render: string -> string)
    requires i < |cases| && !IsCatchAll(cases[i]) && ScanState(cases, i, condsVals, d, render)
    requires i + 1 == |cases| ==> d.Some?
    ensures ScanState(cases, i + 1, condsVals + [Guard(cases[i], render)], d, render)
  {
    PrefixSnoc(cases, i, render);
    if i + 1 == |cases| {
      assert cases[..i + 1] == cases;
    }
  }

  /** After the last case, the guards and the default are the chain's segments. */
  lemma ScanDone(cases: seq<Case>, condsVals: seq<string>, d: Option<string>, render: string -> string)
    requires ScanState(cases, |cases|, condsVals, d, render)
    ensures condsVals + (match d case Some(x) => [x] case None => []) == Segments(cases, render)
  {
    assert cases[..|cases|] == cases;
  }
}
