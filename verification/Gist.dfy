/** The GiST tree the operator classes plug into, reduced to what they must get right.

    A page is reached through a key kept in its parent; a scan follows an entry only if
    the operator class finds its key consistent with the query. Keys change as rows are
    inserted: every key on the way down is replaced by its union with the new row.
 */
module Gist {
  import opened Sequences

  datatype Tree<K, V> = Leaf(value: V) | Page(key: K, entries: seq<Tree<K, V>>)

  function Leaves<K, V>(ts: seq<Tree<K, V>>): seq<V> {
    if ts == [] then []
    else (match ts[0] case Leaf(v) => [v] case Page(_, es) => Leaves(es)) + Leaves(ts[1..])
  }

  /** The rows a scan of these entries returns. */
  function Scan<K, V>(ts: seq<Tree<K, V>>, page: K -> bool, leaf: V -> bool): seq<V> {
    if ts == [] then []
    else
      (match ts[0]
       case Leaf(v) => if leaf(v) then [v] else []
       case Page(k, es) => if page(k) then Scan(es, page, leaf) else []) + Scan(ts[1..], page, leaf)
  }

  function Filter<V>(vs: seq<V>, leaf: V -> bool): seq<V> {
    if vs == [] then [] else (if leaf(vs[0]) then [vs[0]] else []) + Filter(vs[1..], leaf)
  }

  ghost predicate CoversAll<K, V>(k: K, vs: seq<V>, covers: (K, V) -> bool) {
    forall v :: v in vs ==> covers(k, v)
  }

  /** Every page's key covers every row below it. */
  ghost predicate Covered<K, V>(ts: seq<Tree<K, V>>, covers: (K, V) -> bool) {
    ts == [] ||
    ((match ts[0]
      case Leaf(_) => true
      case Page(k, es) => Covered(es, covers) && CoversAll(k, Leaves(es), covers))
     && Covered(ts[1..], covers))
  }

  /** The operator class never rejects the key of a page that holds a matching row. */
  ghost predicate NeverPrunes<K(!new), V(!new)>(covers: (K, V) -> bool, page: K -> bool, leaf: V -> bool) {
    forall k, v :: covers(k, v) && leaf(v) ==> page(k)
  }

  lemma {:induction false} FilterAppend<V>(a: seq<V>, b: seq<V>, leaf: V -> bool)
    ensures Filter(a + b, leaf) == Filter(a, leaf) + Filter(b, leaf)
  {
    if a == [] {
      assert a + b == b;
    } else {
      TailOfAppend(a, b);
      FilterAppend(a[1..], b, leaf);
      Associates(if leaf(a[0]) then [a[0]] else [], Filter(a[1..], leaf), Filter(b, leaf));
    }
  }

  lemma {:induction false} FilterNone<V>(a: seq<V>, leaf: V -> bool)
    requires forall v :: v in a ==> !leaf(v)
    ensures Filter(a, leaf) == []
  {
    if a != [] { FilterNone(a[1..], leaf); }
  }

  lemma {:induction false} FilterCongruence<V>(a: seq<V>, f: V -> bool, g: V -> bool)
    requires forall v :: v in a ==> f(v) == g(v)
    ensures Filter(a, f) == Filter(a, g)
  {
    if a != [] { FilterCongruence(a[1..], f, g); }
  }

  lemma {:induction false} FilterKeeps<V>(vs: seq<V>, leaf: V -> bool, v: V)
    requires v in vs && leaf(v)
    ensures v in Filter(vs, leaf)
  {
    if v != vs[0] { FilterKeeps(vs[1..], leaf, v); }
  }

  lemma {:induction false} ScanWithin<K, V>(ts: seq<Tree<K, V>>, page: K -> bool, leaf: V -> bool, v: V)
    requires v in Scan(ts, page, leaf)
    ensures v in Leaves(ts)
  {
    if ts != [] {
      if v in Scan(ts[1..], page, leaf) {
        ScanWithin(ts[1..], page, leaf, v);
      } else if ts[0].Page? {
        ScanWithin(ts[0].entries, page, leaf, v);
      }
    }
  }

  /** A scan returns exactly the rows that satisfy the query, in the order of the leaves. */
  lemma {:induction false} ScanIsFilter<K(!new), V(!new)>(ts: seq<Tree<K, V>>, covers: (K, V) -> bool,
                                                        page: K -> bool, leaf: V -> bool)
    requires Covered(ts, covers) && NeverPrunes(covers, page, leaf)
    ensures Scan(ts, page, leaf) == Filter(Leaves(ts), leaf)
  {
    if ts != [] {
      ScanIsFilter(ts[1..], covers, page, leaf);
      var first := if ts[0].Leaf? then [ts[0].value] else Leaves(ts[0].entries);
      FilterAppend(first, Leaves(ts[1..]), leaf);
      match ts[0]
      case Leaf(v) =>
        assert Filter([v], leaf) == if leaf(v) then [v] else [];
      case Page(k, es) =>
        if page(k) {
          ScanIsFilter(es, covers, page, leaf);
        } else {
          FilterNone(first, leaf);
        }
    }
  }

  /** What an operator class contributes: the key of a row, the union of one or more
      keys, and the meaning of a key, which only proofs use. */
  datatype OpClass<!K(!new), !V(!new)> = OpClass(leafKey: V -> K, union: (K, seq<K>) -> K, covers: (K, V) -> bool) {

    /** A row's own key covers it, and a union covers whatever one of its members does. */
    ghost predicate Sound() {
      && (forall v :: covers(leafKey(v), v))
      && (forall k, ks, v {:trigger covers(union(k, ks), v)} ::
            (exists e :: e in [k] + ks && covers(e, v)) ==> covers(union(k, ks), v))
    }

    /** gistgetadjusted: the union of a page's key and a row to be put below it. */
    function Adjust(k: K, v: V): K {
      union(k, [leafKey(v)])
    }
  }

  lemma AdjustCovers<K(!new), V(!new)>(o: OpClass<K, V>, k: K, v: V, w: V)
    requires o.Sound() && (w == v || o.covers(k, w))
    ensures o.covers(o.Adjust(k, v), w)
  {
    var ks := [k] + [o.leafKey(v)];
    assert w == v ==> o.covers(ks[1], w);
    assert w != v ==> o.covers(ks[0], w);
  }

  lemma AdjustCoversAll<K(!new), V(!new)>(o: OpClass<K, V>, k: K, v: V, ws: seq<V>, ws': seq<V>)
    requires o.Sound() && CoversAll(k, ws, o.covers) && multiset(ws') == multiset(ws) + multiset{v}
    ensures CoversAll(o.Adjust(k, v), ws', o.covers)
  {
    forall w | w in ws' ensures o.covers(o.Adjust(k, v), w) {
      assert w in multiset(ws');
      AdjustCovers(o, k, v, w);
    }
  }

  // ----- insertion -----

  /** path picks the entry to descend into on each level; what the penalty function
      chooses is any such path. */
  predicate Descends<K, V>(ts: seq<Tree<K, V>>, path: seq<nat>)
    decreases path
  {
    path == [] || (path[0] < |ts| && ts[path[0]].Page? && Descends(ts[path[0]].entries, path[1..]))
  }

  function Insert<K(!new), V(!new)>(ts: seq<Tree<K, V>>, path: seq<nat>, v: V, o: OpClass<K, V>): seq<Tree<K, V>>
    requires Descends(ts, path)
    decreases path
  {
    if path == [] then ts + [Leaf(v)]
    else
      var t := ts[path[0]];
      ts[path[0] := Page(o.Adjust(t.key, v), Insert(t.entries, path[1..], v, o))]
  }

  lemma {:induction false} LeavesAppend<K, V>(a: seq<Tree<K, V>>, b: seq<Tree<K, V>>)
    ensures Leaves(a + b) == Leaves(a) + Leaves(b)
  {
    if a == [] {
      assert a + b == b;
    } else {
      assert (a + b)[1..] == a[1..] + b;
      LeavesAppend(a[1..], b);
    }
  }

  lemma {:induction false} CoveredAppend<K, V>(a: seq<Tree<K, V>>, b: seq<Tree<K, V>>, covers: (K, V) -> bool)
    ensures Covered(a + b, covers) <==> Covered(a, covers) && Covered(b, covers)
  {
    if a == [] {
      assert a + b == b;
    } else {
      assert (a + b)[1..] == a[1..] + b;
      CoveredAppend(a[1..], b, covers);
    }
  }

  /** The leaves around and under one entry. */
  lemma LeavesAt<K, V>(ts: seq<Tree<K, V>>, i: nat, t: Tree<K, V>)
    requires i < |ts|
    ensures Leaves(ts[i := t]) == Leaves(ts[..i]) + Leaves([t]) + Leaves(ts[i + 1..])
    ensures Leaves(ts) == Leaves(ts[..i]) + Leaves([ts[i]]) + Leaves(ts[i + 1..])
  {
    assert ts[i := t] == ts[..i] + [t] + ts[i + 1..];
    assert ts == ts[..i] + [ts[i]] + ts[i + 1..];
    LeavesAppend(ts[..i] + [t], ts[i + 1..]);
    LeavesAppend(ts[..i], [t]);
    LeavesAppend(ts[..i] + [ts[i]], ts[i + 1..]);
    LeavesAppend(ts[..i], [ts[i]]);
  }

  lemma CoveredAt<K, V>(ts: seq<Tree<K, V>>, i: nat, t: Tree<K, V>, covers: (K, V) -> bool)
    requires i < |ts| && Covered(ts, covers)
    ensures Covered([ts[i]], covers)
    ensures Covered([t], covers) ==> Covered(ts[i := t], covers)
  {
    assert ts[i := t] == ts[..i] + [t] + ts[i + 1..];
    assert ts == ts[..i] + [ts[i]] + ts[i + 1..];
    CoveredAppend(ts[..i] + [t], ts[i + 1..], covers);
    CoveredAppend(ts[..i], [t], covers);
    CoveredAppend(ts[..i] + [ts[i]], ts[i + 1..], covers);
    CoveredAppend(ts[..i], [ts[i]], covers);
  }

  lemma InsertCount<V>(a: seq<V>, b: seq<V>, c: seq<V>, b': seq<V>, v: V)
    requires multiset(b') == multiset(b) + multiset{v}
    ensures multiset(a + b' + c) == multiset(a + b + c) + multiset{v}
  {
  }

  /** Insertion adds the one row. */
  lemma {:induction false} InsertAddsRow<K(!new), V(!new)>(ts: seq<Tree<K, V>>, path: seq<nat>, v: V, o: OpClass<K, V>)
    requires Descends(ts, path)
    ensures multiset(Leaves(Insert(ts, path, v, o))) == multiset(Leaves(ts)) + multiset{v}
    decreases path
  {
    if path == [] {
      var leaf: Tree<K, V> := Leaf(v);
      LeavesAppend(ts, [leaf]);
      assert Leaves([leaf]) == [v];
    } else {
      var i := path[0];
      var t := ts[i];
      var t' := Page(o.Adjust(t.key, v), Insert(t.entries, path[1..], v, o));
      InsertAddsRow(t.entries, path[1..], v, o);
      LeavesAt(ts, i, t');
      assert Leaves([t]) == Leaves(t.entries) && Leaves([t']) == Leaves(t'.entries);
      InsertCount(Leaves(ts[..i]), Leaves(t.entries), Leaves(ts[i + 1..]), Leaves(t'.entries), v);
    }
  }

  /** Insertion leaves every key covering what is below it. */
  lemma {:induction false} InsertKeepsCovered<K(!new), V(!new)>(ts: seq<Tree<K, V>>, path: seq<nat>, v: V,
                                                                o: OpClass<K, V>)
    requires Descends(ts, path) && Covered(ts, o.covers) && o.Sound()
    ensures Covered(Insert(ts, path, v, o), o.covers)
    decreases path
  {
    if path == [] {
      CoveredAppend(ts, [Leaf(v)], o.covers);
    } else {
      var i := path[0];
      var t := ts[i];
      var t' := Page(o.Adjust(t.key, v), Insert(t.entries, path[1..], v, o));
      CoveredAt(ts, i, t', o.covers);
      InsertKeepsCovered(t.entries, path[1..], v, o);
      InsertAddsRow(t.entries, path[1..], v, o);
      AdjustCoversAll(o, t.key, v, Leaves(t.entries), Leaves(t'.entries));
      assert [t'][1..] == [];
      assert Covered([t'], o.covers);
    }
  }

  // ----- bottom-up construction -----

  function Keys<K(!new), V(!new)>(ts: seq<Tree<K, V>>, o: OpClass<K, V>): (ks: seq<K>)
    ensures |ks| == |ts|
  {
    if ts == [] then []
    else [match ts[0] case Leaf(v) => o.leafKey(v) case Page(k, _) => k] + Keys(ts[1..], o)
  }

  /** Some entry's key covers each row. */
  lemma {:induction false} RowHasEntry<K(!new), V(!new)>(ts: seq<Tree<K, V>>, v: V, o: OpClass<K, V>) returns (i: nat)
    requires Covered(ts, o.covers) && o.Sound() && v in Leaves(ts)
    ensures i < |ts| && o.covers(Keys(ts, o)[i], v)
  {
    var first := if ts[0].Leaf? then [ts[0].value] else Leaves(ts[0].entries);
    if v in first {
      i := 0;
    } else {
      assert Leaves(ts) == first + Leaves(ts[1..]);
      var j := RowHasEntry(ts[1..], v, o);
      i := j + 1;
      assert Keys(ts[1..], o)[j] == Keys(ts, o)[i];
    }
  }

  /** A page whose key is the union of its entries' keys covers what is below it. */
  lemma BuildKeepsCovered<K(!new), V(!new)>(ts: seq<Tree<K, V>>, o: OpClass<K, V>)
    requires ts != [] && Covered(ts, o.covers) && o.Sound()
    ensures Covered([Page(o.union(Keys(ts, o)[0], Keys(ts, o)[1..]), ts)], o.covers)
  {
    var ks := Keys(ts, o);
    var key := o.union(ks[0], ks[1..]);
    forall v | v in Leaves(ts) ensures o.covers(key, v) {
      var i := RowHasEntry(ts, v, o);
      assert ks[i] in [ks[0]] + ks[1..] by { assert [ks[0]] + ks[1..] == ks; }
    }
  }

  /** Every page's key is the union of the keys of its entries. */
  ghost predicate Built<K(!new), V(!new)>(ts: seq<Tree<K, V>>, o: OpClass<K, V>) {
    ts == [] ||
    ((match ts[0]
      case Leaf(_) => true
      case Page(k, es) => es != [] && k == o.union(Keys(es, o)[0], Keys(es, o)[1..]) && Built(es, o))
     && Built(ts[1..], o))
  }

  /** In a tree built level by level all keys cover what is below them. */
  lemma {:induction false} BuiltIsCovered<K(!new), V(!new)>(ts: seq<Tree<K, V>>, o: OpClass<K, V>)
    requires Built(ts, o) && o.Sound()
    ensures Covered(ts, o.covers)
  {
    if ts != [] {
      BuiltIsCovered(ts[1..], o);
      if ts[0].Page? {
        BuiltIsCovered(ts[0].entries, o);
        BuildKeepsCovered(ts[0].entries, o);
      }
    }
  }
}
