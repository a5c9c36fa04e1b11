/** Trees with one kind of key seen as trees with another: a mapping of keys that agrees with what
    the two operator classes do carries every history of an index over to the other.
 */
module GistMaps {
  import opened Gist
  import opened GistRuns
  import opened PageEntries

  function MapSeq<K, L>(ks: seq<K>, f: K -> L): (r: seq<L>)
    ensures |r| == |ks| && forall i :: 0 <= i < |ks| ==> r[i] == f(ks[i])
  {
    seq(|ks|, i requires 0 <= i < |ks| => f(ks[i]))
  }

  function Mapped<K, L, V>(ts: seq<Tree<K, V>>, f: K -> L): (r: seq<Tree<L, V>>)
    ensures |r| == |ts|
  {
    if ts == [] then []
    else [match ts[0] case Leaf(v) => Leaf(v) case Page(k, es) => Page(f(k), Mapped(es, f))] + Mapped(ts[1..], f)
  }

  function MapTree<K, L, V>(t: Tree<K, V>, f: K -> L): Tree<L, V> {
    match t case Leaf(v) => Leaf(v) case Page(k, es) => Page(f(k), Mapped(es, f))
  }

  function MapSplit<K, L>(sp: Split<K>, f: K -> L): Split<L> {
    Split(sp.left, sp.right, f(sp.ldatum), f(sp.rdatum))
  }

  function MapStep<K, L, V>(step: Step<K, V>, f: K -> L): Step<L, V> {
    match step
    case AddRow(path, v) => AddRow(path, v)
    case WidenKey(path, i, v) => WidenKey(path, i, v)
    case SplitPage(path, i, sp) => SplitPage(path, i, MapSplit(sp, f))
    case SplitRoot(sp) => SplitRoot(MapSplit(sp, f))
  }

  function MapSteps<K, L, V>(steps: seq<Step<K, V>>, f: K -> L): (r: seq<Step<L, V>>)
    ensures |r| == |steps| && forall i :: 0 <= i < |steps| ==> r[i] == MapStep(steps[i], f)
  {
    seq(|steps|, i requires 0 <= i < |steps| => MapStep(steps[i], f))
  }

  /** The mapping takes the one class's keys of rows and unions to the other's. */
  ghost predicate Agrees<K(!new), L(!new), V(!new)>(o: OpClass<K, V>, p: OpClass<L, V>, f: K -> L) {
    && (forall v :: f(o.leafKey(v)) == p.leafKey(v))
    && (forall k, ks :: f(o.union(k, ks)) == p.union(f(k), MapSeq(ks, f)))
  }

  // ----- parts of a mapped tree -----

  lemma {:induction false} MappedAt<K, L, V>(ts: seq<Tree<K, V>>, f: K -> L, i: nat)
    requires i < |ts|
    ensures Mapped(ts, f)[i] == MapTree(ts[i], f)
  {
    if i > 0 { MappedAt(ts[1..], f, i - 1); }
  }

  lemma MappedEach<K, L, V>(ts: seq<Tree<K, V>>, f: K -> L)
    ensures forall i :: 0 <= i < |ts| ==> Mapped(ts, f)[i] == MapTree(ts[i], f)
  {
    forall i | 0 <= i < |ts| ensures Mapped(ts, f)[i] == MapTree(ts[i], f) { MappedAt(ts, f, i); }
  }

  lemma MappedAppend<K, L, V>(a: seq<Tree<K, V>>, b: seq<Tree<K, V>>, f: K -> L)
    ensures Mapped(a + b, f) == Mapped(a, f) + Mapped(b, f)
  {
    MappedEach(a, f);
    MappedEach(b, f);
    MappedEach(a + b, f);
  }

  lemma MappedUpdate<K, L, V>(ts: seq<Tree<K, V>>, i: nat, t: Tree<K, V>, f: K -> L)
    requires i < |ts|
    ensures Mapped(ts[i := t], f) == Mapped(ts, f)[i := MapTree(t, f)]
  {
    MappedEach(ts, f);
    MappedEach(ts[i := t], f);
  }

  lemma MappedSlices<K, L, V>(ts: seq<Tree<K, V>>, i: nat, f: K -> L)
    requires i < |ts|
    ensures Mapped(ts[..i], f) == Mapped(ts, f)[..i] && Mapped(ts[i + 1..], f) == Mapped(ts, f)[i + 1..]
  {
    MappedEach(ts, f);
    MappedEach(ts[..i], f);
    MappedEach(ts[i + 1..], f);
  }

  lemma MappedPick<K, L, V>(ts: seq<Tree<K, V>>, os: seq<nat>, f: K -> L)
    requires InRange(os, |ts|)
    ensures Mapped(Pick(ts, os), f) == Pick(Mapped(ts, f), os)
  {
    MappedEach(ts, f);
    MappedEach(Pick(ts, os), f);
  }

  lemma MappedHalves<K, L, V>(ts: seq<Tree<K, V>>, sp: Split<K>, f: K -> L)
    requires InRange(sp.left, |ts|) && InRange(sp.right, |ts|)
    ensures Mapped(Halves(ts, sp), f) == Halves(Mapped(ts, f), MapSplit(sp, f))
  {
    MappedPick(ts, sp.left, f);
    MappedPick(ts, sp.right, f);
    MappedEach(Halves(ts, sp), f);
  }

  lemma {:induction false} MappedLeaves<K, L, V>(ts: seq<Tree<K, V>>, f: K -> L)
    ensures Leaves(Mapped(ts, f)) == Leaves(ts)
  {
    if ts != [] {
      MappedLeaves(ts[1..], f);
      if ts[0].Page? { MappedLeaves(ts[0].entries, f); }
    }
  }

  lemma MappedKeys<K(!new), L(!new), V(!new)>(ts: seq<Tree<K, V>>, o: OpClass<K, V>, p: OpClass<L, V>, f: K -> L)
    requires Agrees(o, p, f)
    ensures Keys(Mapped(ts, f), p) == MapSeq(Keys(ts, o), f)
  {
    forall i | 0 <= i < |ts| ensures Keys(Mapped(ts, f), p)[i] == MapSeq(Keys(ts, o), f)[i] {
      MappedAt(ts, f, i);
      KeysAt(ts, i, o);
      KeysAt(Mapped(ts, f), i, p);
    }
  }

  lemma {:induction false} MappedBuilt<K(!new), L(!new), V(!new)>(ts: seq<Tree<K, V>>, o: OpClass<K, V>,
                                                                  p: OpClass<L, V>, f: K -> L)
    requires Built(ts, o) && Agrees(o, p, f)
    ensures Built(Mapped(ts, f), p)
  {
    if ts != [] {
      MappedBuilt(ts[1..], o, p, f);
      if ts[0].Page? {
        var es := ts[0].entries;
        MappedBuilt(es, o, p, f);
        MappedKeys(es, o, p, f);
        assert MapSeq(Keys(es, o)[1..], f) == MapSeq(Keys(es, o), f)[1..];
      }
    }
  }

  lemma AdjustAgrees<K(!new), L(!new), V(!new)>(k: K, v: V, o: OpClass<K, V>, p: OpClass<L, V>, f: K -> L)
    requires Agrees(o, p, f)
    ensures f(o.Adjust(k, v)) == p.Adjust(f(k), v)
  {
    assert MapSeq([o.leafKey(v)], f) == [p.leafKey(v)];
  }

  lemma {:induction false} MappedCovered<K(!new), L(!new), V(!new)>(ts: seq<Tree<K, V>>, f: K -> L,
                                                                    covers: (K, V) -> bool, covers': (L, V) -> bool)
    requires Covered(ts, covers) && forall k, v :: covers(k, v) ==> covers'(f(k), v)
    ensures Covered(Mapped(ts, f), covers')
  {
    if ts != [] {
      MappedCovered(ts[1..], f, covers, covers');
      if ts[0].Page? {
        MappedCovered(ts[0].entries, f, covers, covers');
        MappedLeaves(ts[0].entries, f);
      }
    }
  }

  // ----- steps -----

  lemma {:induction false} MappedInsert<K(!new), L(!new), V(!new)>(ts: seq<Tree<K, V>>, path: seq<nat>, v: V,
                                                                   o: OpClass<K, V>, p: OpClass<L, V>, f: K -> L)
    requires Agrees(o, p, f) && Descends(ts, path)
    ensures Descends(Mapped(ts, f), path) && Insert(Mapped(ts, f), path, v, p) == Mapped(Insert(ts, path, v, o), f)
    decreases path
  {
    if path == [] {
      var leaf: seq<Tree<K, V>> := [Leaf(v)];
      MappedAppend(ts, leaf, f);
      MappedEach(leaf, f);
    } else {
      var i := path[0];
      var t := ts[i];
      MappedAt(ts, f, i);
      MappedInsert(t.entries, path[1..], v, o, p, f);
      MappedUpdate(ts, i, Page(o.Adjust(t.key, v), Insert(t.entries, path[1..], v, o)), f);
      AdjustAgrees(t.key, v, o, p, f);
    }
  }

  lemma {:induction false} MappedPage<K, L, V>(ts: seq<Tree<K, V>>, path: seq<nat>, i: nat, f: K -> L)
    requires HasPage(ts, path, i)
    ensures HasPage(Mapped(ts, f), path, i) && PageAt(Mapped(ts, f), path, i) == MapTree(PageAt(ts, path, i), f)
    decreases path
  {
    if path == [] {
      MappedAt(ts, f, i);
    } else {
      MappedAt(ts, f, path[0]);
      MappedPage(ts[path[0]].entries, path[1..], i, f);
    }
  }

  lemma {:induction false} MappedReplace<K, L, V>(ts: seq<Tree<K, V>>, path: seq<nat>, i: nat, parts: seq<Tree<K, V>>,
                                                  f: K -> L)
    requires HasPage(ts, path, i)
    ensures HasPage(Mapped(ts, f), path, i)
    ensures ReplaceAt(Mapped(ts, f), path, i, Mapped(parts, f)) == Mapped(ReplaceAt(ts, path, i, parts), f)
    decreases path
  {
    MappedPage(ts, path, i, f);
    if path == [] {
      MappedSlices(ts, i, f);
      MappedAppend(ts[..i] + parts, ts[i + 1..], f);
      MappedAppend(ts[..i], parts, f);
    } else {
      var t := ts[path[0]];
      MappedAt(ts, f, path[0]);
      MappedReplace(t.entries, path[1..], i, parts, f);
      MappedUpdate(ts, path[0], Page(t.key, ReplaceAt(t.entries, path[1..], i, parts)), f);
    }
  }

  ghost predicate SplitsAgree<K(!new), L(!new)>(splits: Splitter<K>, splits': Splitter<L>, f: K -> L) {
    forall ks, sp :: splits(ks, sp) ==> splits'(MapSeq(ks, f), MapSplit(sp, f))
  }

  lemma MappedWidened<K(!new), L(!new), V(!new)>(t: Tree<K, V>, v: V, o: OpClass<K, V>, p: OpClass<L, V>, f: K -> L)
    requires Agrees(o, p, f) && t.Page?
    ensures Mapped([Widened(t, v, o)], f) == [Widened(MapTree(t, f), v, p)]
  {
    AdjustAgrees(t.key, v, o, p, f);
    MappedEach([Widened(t, v, o)], f);
  }

  lemma MappedStep<K(!new), L(!new), V(!new)>(ts: seq<Tree<K, V>>, step: Step<K, V>, o: OpClass<K, V>, p: OpClass<L, V>,
                                              splits: Splitter<K>, splits': Splitter<L>, f: K -> L)
    requires Agrees(o, p, f) && SplitsAgree(splits, splits', f) && Possible(ts, step, o, splits)
    ensures Possible(Mapped(ts, f), MapStep(step, f), p, splits')
    ensures After(Mapped(ts, f), MapStep(step, f), p, splits') == Mapped(After(ts, step, o, splits), f)
  {
    match step
    case AddRow(path, v) => MappedInsert(ts, path, v, o, p, f);
    case WidenKey(path, i, v) =>
      MappedPage(ts, path, i, f);
      MappedWidened(PageAt(ts, path, i), v, o, p, f);
      MappedReplace(ts, path, i, [Widened(PageAt(ts, path, i), v, o)], f);
    case SplitPage(path, i, sp) =>
      MappedPage(ts, path, i, f);
      MappedKeys(PageAt(ts, path, i).entries, o, p, f);
      MappedHalves(PageAt(ts, path, i).entries, sp, f);
      MappedReplace(ts, path, i, Halves(PageAt(ts, path, i).entries, sp), f);
    case SplitRoot(sp) =>
      MappedKeys(ts, o, p, f);
      MappedHalves(ts, sp, f);
  }

  /** Every history of the one index, seen through the mapping, is a history of the other. */
  lemma {:induction false} MappedRuns<K(!new), L(!new), V(!new)>(start: seq<Tree<K, V>>, steps: seq<Step<K, V>>,
                                                                 ts: seq<Tree<K, V>>, o: OpClass<K, V>,
                                                                 p: OpClass<L, V>, splits: Splitter<K>,
                                                                 splits': Splitter<L>, f: K -> L)
    requires Agrees(o, p, f) && SplitsAgree(splits, splits', f) && Runs(start, steps, ts, o, splits)
    ensures Runs(Mapped(start, f), MapSteps(steps, f), Mapped(ts, f), p, splits')
    decreases |steps|
  {
    if steps != [] {
      MappedStep(start, steps[0], o, p, splits, splits', f);
      MappedRuns(After(start, steps[0], o, splits), steps[1..], ts, o, p, splits, splits', f);
      assert MapSteps(steps, f)[1..] == MapSteps(steps[1..], f);
    }
  }
}
