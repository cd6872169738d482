/**
  The insertion-ordered string map (`java.util.LinkedHashMap<String, String>`)
  that FunctionNodeHelper keeps its context in, as a sequence of entries with
  pairwise distinct keys.

  - `put` of a key already present replaces its value and keeps its position;
    `put` of a new key appends it at the end.
  - `remove` drops the key's entry and keeps the others in order.
  - `putAll` puts the entries of another map one by one, in that map's order.
  - `get` of an absent key yields null (`None`).
*/
module LinkedMap {
  import opened Wrappers

  type Entry = (string, string)

  /** The keys in insertion order. */
  function KeySeq(m: seq<Entry>): (ks: seq<string>)
    ensures |ks| == |m|
  {
    if m == [] then [] else [m[0].0] + KeySeq(m[1..])
  }

  /** The key order lists, at each position, the key of the entry there. */
  lemma {:induction false} KeySeqAt(m: seq<Entry>, i: nat)
    requires i < |m|
    ensures KeySeq(m)[i] == m[i].0
  {
    if i > 0 {
      KeySeqAt(m[1..], i - 1);
    }
  }

  function Keys(m: seq<Entry>): set<string> {
    if m == [] then {} else {m[0].0} + Keys(m[1..])
  }

  predicate UniqueKeys(m: seq<Entry>) {
    m == [] || (m[0].0 !in Keys(m[1..]) && UniqueKeys(m[1..]))
  }

  /** A map: no key occurs twice. */
  type Context = m: seq<Entry> | UniqueKeys(m) witness []

  /** `get`: the value stored under `k`, or null. */
  function Get(m: seq<Entry>, k: string): (r: Option<string>)
    ensures r.Some? <==> k in Keys(m)
    ensures r.Some? ==> (k, r.value) in m
  {
    if m == [] then None
    else if m[0].0 == k then Some(m[0].1)
    else Get(m[1..], k)
  }

  /** In a map, the entry at position `i` is what `get` finds for its key. */
  lemma {:induction false} GetAt(m: seq<Entry>, i: nat)
    requires UniqueKeys(m) && i < |m|
    ensures Get(m, m[i].0) == Some(m[i].1)
  {
    if i > 0 {
      GetAt(m[1..], i - 1);
      assert m[i].0 in Keys(m[1..]) by { KeyAt(m[1..], i - 1); }
    }
  }

  /** The key stored at position `i` is one of the keys. */
  lemma {:induction false} KeyAt(m: seq<Entry>, i: nat)
    requires i < |m|
    ensures m[i].0 in Keys(m)
  {
    if i > 0 {
      KeyAt(m[1..], i - 1);
    }
  }

  /** `put`: bind `k` to `v`, in place when `k` is present, at the end otherwise. */
  function Put(m: seq<Entry>, k: string, v: string): (r: seq<Entry>)
    ensures Keys(r) == Keys(m) + {k}
    ensures k in Keys(m) ==> KeySeq(r) == KeySeq(m)
    ensures k !in Keys(m) ==> r == m + [(k, v)]
    ensures Get(r, k) == Some(v)
    ensures forall j :: j != k ==> Get(r, j) == Get(m, j)
    ensures UniqueKeys(m) ==> UniqueKeys(r)
  {
    if m == [] then [(k, v)]
    else if m[0].0 == k then
      var r := [(k, v)] + m[1..];
      assert r[1..] == m[1..];
      r
    else
      var rest := Put(m[1..], k, v);
      var r := [m[0]] + rest;
      assert r[1..] == rest;
      assert k !in Keys(m) ==> r == m + [(k, v)] by {
        if k !in Keys(m) {
          calc {
            r;
            [m[0]] + (m[1..] + [(k, v)]);
            ([m[0]] + m[1..]) + [(k, v)];
            { assert [m[0]] + m[1..] == m; }
            m + [(k, v)];
          }
        }
      }
      r
  }

  /** `remove`: drop the entry of `k`, keeping the order of the others. */
  function Remove(m: seq<Entry>, k: string): (r: seq<Entry>)
    ensures Keys(r) == Keys(m) - {k}
    ensures Get(r, k) == None
    ensures forall j :: j != k ==> Get(r, j) == Get(m, j)
    ensures k !in Keys(m) ==> r == m
    ensures UniqueKeys(m) ==> UniqueKeys(r)
    ensures UniqueKeys(m) && k in Keys(m) ==> |r| == |m| - 1
  {
    if m == [] then []
    else
      var rest := Remove(m[1..], k);
      if m[0].0 == k then rest
      else
        var r := [m[0]] + rest;
        assert r[1..] == rest;
        assert k !in Keys(m) ==> r == m by {
          if k !in Keys(m) { assert [m[0]] + m[1..] == m; }
        }
        r
  }

  /** `remove` keeps the other keys in their order. */
  lemma {:induction false} RemoveOrder(m: seq<Entry>, k: string)
    ensures KeySeq(Remove(m, k)) == Unseen(KeySeq(m), {k})
  {
    if m != [] {
      RemoveOrder(m[1..], k);
      UnseenCons(m[0].0, KeySeq(m[1..]), {k});
      if m[0].0 != k {
        assert KeySeq(Remove(m, k)) == [m[0].0] + KeySeq(Remove(m[1..], k));
      }
    }
  }

  /** `putAll`: put every entry of `src`, in `src`'s order. */
  function PutAll(m: seq<Entry>, src: seq<Entry>): (r: seq<Entry>)
    ensures Keys(r) == Keys(m) + Keys(src)
    ensures UniqueKeys(m) ==> UniqueKeys(r)
    ensures UniqueKeys(src) ==> forall k :: k in Keys(src) ==> Get(r, k) == Get(src, k)
    ensures forall k :: k !in Keys(src) ==> Get(r, k) == Get(m, k)
    decreases |src|
  {
    if src == [] then m
    else PutAll(Put(m, src[0].0, src[0].1), src[1..])
  }

  /** The keys of `ks` that are not in `seen`, in order. */
  function Unseen(ks: seq<string>, seen: set<string>): seq<string> {
    if ks == [] then []
    else if ks[0] in seen then Unseen(ks[1..], seen)
    else [ks[0]] + Unseen(ks[1..], seen)
  }

  lemma {:induction false} UnseenIgnoresAbsent(ks: seq<string>, seen: set<string>, x: string)
    requires x !in ks
    ensures Unseen(ks, seen + {x}) == Unseen(ks, seen)
  {
    if ks != [] {
      UnseenIgnoresAbsent(ks[1..], seen, x);
    }
  }

  /** A key is in `Keys` exactly when it occurs in `KeySeq`. */
  lemma {:induction false} KeysAreKeySeq(m: seq<Entry>)
    ensures forall k :: k in Keys(m) <==> k in KeySeq(m)
  {
    if m != [] {
      KeysAreKeySeq(m[1..]);
    }
  }

  lemma UnseenCons(k: string, rest: seq<string>, seen: set<string>)
    ensures Unseen([k] + rest, seen) == if k in seen then Unseen(rest, seen) else [k] + Unseen(rest, seen)
  {
    assert ([k] + rest)[1..] == rest;
  }

  lemma UniqueHead(m: seq<Entry>)
    requires UniqueKeys(m) && m != []
    ensures m[0].0 !in KeySeq(m[1..]) && UniqueKeys(m[1..])
  {
    KeysAreKeySeq(m[1..]);
  }

  lemma PutPresent(m: seq<Entry>, k: string, v: string)
    requires k in Keys(m)
    ensures KeySeq(Put(m, k, v)) == KeySeq(m) && Keys(Put(m, k, v)) == Keys(m)
  {
  }

  /**
    After `putAll`, the keys already present keep their places, and the new
    keys of `src` follow them in `src`'s order.
  */
  lemma {:induction false} PutAllOrder(m: seq<Entry>, src: seq<Entry>)
    requires UniqueKeys(src)
    ensures KeySeq(PutAll(m, src)) == KeySeq(m) + Unseen(KeySeq(src), Keys(m))
    decreases |src|
  {
    if src != [] {
      var k, v := src[0].0, src[0].1;
      var m' := Put(m, k, v);
      assert PutAll(m, src) == PutAll(m', src[1..]);
      assert KeySeq(src) == [k] + KeySeq(src[1..]);
      UniqueHead(src);
      PutAllOrder(m', src[1..]);
      PutOrderStep(m, k, v, KeySeq(src[1..]));
    }
  }

  /** One `put` of `putAll`: the key joins the order exactly when it is new. */
  lemma PutOrderStep(m: seq<Entry>, k: string, v: string, rest: seq<string>)
    requires k !in rest
    ensures KeySeq(Put(m, k, v)) + Unseen(rest, Keys(Put(m, k, v)))
      == KeySeq(m) + Unseen([k] + rest, Keys(m))
  {
    UnseenCons(k, rest, Keys(m));
    if k in Keys(m) {
      PutPresent(m, k, v);
    } else {
      PutAbsentOrder(m, k, v, rest);
    }
  }

  lemma PutAbsentOrder(m: seq<Entry>, k: string, v: string, rest: seq<string>)
    requires k !in rest && k !in Keys(m)
    ensures KeySeq(Put(m, k, v)) + Unseen(rest, Keys(Put(m, k, v)))
      == KeySeq(m) + ([k] + Unseen(rest, Keys(m)))
  {
    var m' := Put(m, k, v);
    assert KeySeq(m') == KeySeq(m) + [k] by {
      PutAbsent(m, k, v);
      KeySeqAppend(m, (k, v));
    }
    assert Unseen(rest, Keys(m')) == Unseen(rest, Keys(m)) by {
      assert Keys(m') == Keys(m) + {k};
      UnseenIgnoresAbsent(rest, Keys(m), k);
    }
    AppendAssoc(KeySeq(m), [k], Unseen(rest, Keys(m)));
  }

  /** Stated apart so that the solver meets it without the facts about `put`. */
  lemma AppendAssoc(a: seq<string>, b: seq<string>, c: seq<string>)
    ensures (a + b) + c == a + (b + c)
  {
  }

  lemma {:induction false} KeySeqAppend(m: seq<Entry>, e: Entry)
    ensures KeySeq(m + [e]) == KeySeq(m) + [e.0]
  {
    if m != [] {
      assert (m + [e])[1..] == m[1..] + [e];
      KeySeqAppend(m[1..], e);
    }
  }

  /** A key is appended by `put` exactly when it was absent. */
  lemma PutKeySeq(m: seq<Entry>, k: string, v: string)
    ensures KeySeq(Put(m, k, v)) == KeySeq(m) + (if k in KeySeq(m) then [] else [k])
  {
    KeysAreKeySeq(m);
    if k !in Keys(m) {
      KeySeqAppend(m, (k, v));
    }
  }

  /** Apply `f` to every value, keeping keys and order. */
  function MapValues(m: seq<Entry>, f: string -> string): (r: seq<Entry>)
    ensures KeySeq(r) == KeySeq(m) && Keys(r) == Keys(m)
    ensures UniqueKeys(m) ==> UniqueKeys(r)
  {
    if m == [] then [] else [(m[0].0, f(m[0].1))] + MapValues(m[1..], f)
  }

  /** What `get` finds after `MapValues` is `f` of what it found before. */
  lemma {:induction false} GetMapValues(m: seq<Entry>, f: string -> string, k: string)
    ensures Get(MapValues(m, f), k) == if k in Keys(m) then Some(f(Get(m, k).value)) else None
  {
    if m != [] {
      GetMapValues(m[1..], f, k);
    }
  }

  lemma {:induction false} MapValuesAppend(m: seq<Entry>, e: Entry, f: string -> string)
    ensures MapValues(m + [e], f) == MapValues(m, f) + [(e.0, f(e.1))]
  {
    if m != [] {
      assert (m + [e])[1..] == m[1..] + [e];
      MapValuesAppend(m[1..], e, f);
    }
  }

  /** In a map, the key at position `i` does not occur before it. */
  lemma {:induction false} UniqueKeysPrefix(m: seq<Entry>, i: nat)
    requires UniqueKeys(m) && i < |m|
    ensures m[i].0 !in Keys(m[..i])
  {
    if i > 0 {
      UniqueKeysPrefix(m[1..], i - 1);
      assert m[..i][1..] == m[1..][..i - 1];
      KeyAt(m[1..], i - 1);
    }
  }

  lemma MapValuesSnoc(m: seq<Entry>, i: nat, f: string -> string)
    requires i < |m|
    ensures MapValues(m[..i + 1], f) == MapValues(m[..i], f) + [(m[i].0, f(m[i].1))]
  {
    assert m[..i + 1] == m[..i] + [m[i]];
    MapValuesAppend(m[..i], m[i], f);
  }

  lemma MapValuesFreshKey(m: seq<Entry>, i: nat, f: string -> string)
    requires UniqueKeys(m) && i < |m|
    ensures m[i].0 !in Keys(MapValues(m[..i], f))
  {
    UniqueKeysPrefix(m, i);
  }

  lemma PutAbsent(m: seq<Entry>, k: string, v: string)
    requires k !in Keys(m)
    ensures Put(m, k, v) == m + [(k, v)]
  {
  }

  /** Putting the next entry of a map, rendered, extends the rendered prefix by one. */
  lemma PutMapValuesStep(m: seq<Entry>, i: nat, f: string -> string)
    requires UniqueKeys(m) && i < |m|
    ensures Put(MapValues(m[..i], f), m[i].0, f(m[i].1)) == MapValues(m[..i + 1], f)
  {
    MapValuesFreshKey(m, i, f);
    PutAbsent(MapValues(m[..i], f), m[i].0, f(m[i].1));
    MapValuesSnoc(m, i, f);
  }
}
