/** The ordered GiST scan: a queue of index pages and rows, from which the nearest is always
    taken next (getNextNearest and gistScanPage).
 */
module Knn {
  import opened Sequences
  import opened Gist

  /** The operator class's part in a scan: tests and distances of a page's key and of a row. */
  datatype Probe<!K(!new), !V(!new)> =
    Probe(page: K -> bool, leaf: V -> bool, pageDist: K -> real, leafDist: V -> real) {

    predicate Accepts(t: Tree<K, V>) {
      match t case Leaf(v) => leaf(v) case Page(k, _) => page(k)
    }

    function Dist(t: Tree<K, V>): real {
      match t case Leaf(v) => leafDist(v) case Page(k, _) => pageDist(k)
    }
  }

  /** The distance of a page's key is no more than that of any matching row below it. */
  ghost predicate LowerBounds<K(!new), V(!new)>(covers: (K, V) -> bool, p: Probe<K, V>) {
    forall k, v :: covers(k, v) ==> p.pageDist(k) <= p.leafDist(v)
  }

  /** The entries of a page that are put in the queue. */
  function Selected<K(!new), V(!new)>(ts: seq<Tree<K, V>>, p: Probe<K, V>): seq<Tree<K, V>> {
    if ts == [] then [] else (if p.Accepts(ts[0]) then [ts[0]] else []) + Selected(ts[1..], p)
  }

  function Size<K, V>(ts: seq<Tree<K, V>>): nat {
    if ts == [] then 0
    else 1 + (match ts[0] case Leaf(_) => 0 case Page(_, es) => Size(es)) + Size(ts[1..])
  }

  lemma {:induction false} SizeAppend<K, V>(a: seq<Tree<K, V>>, b: seq<Tree<K, V>>)
    ensures Size(a + b) == Size(a) + Size(b)
  {
    if a == [] {
      assert a + b == b;
    } else {
      TailOfAppend(a, b);
      SizeAppend(a[1..], b);
    }
  }

  lemma {:induction false} SelectedSmaller<K(!new), V(!new)>(ts: seq<Tree<K, V>>, p: Probe<K, V>)
    ensures Size(Selected(ts, p)) <= Size(ts)
  {
    if ts != [] {
      SelectedSmaller(ts[1..], p);
      SizeAppend(if p.Accepts(ts[0]) then [ts[0]] else [], Selected(ts[1..], p));
      assert [ts[0]][1..] == [];
    }
  }

  lemma {:induction false} SelectedAreAccepted<K(!new), V(!new)>(ts: seq<Tree<K, V>>, p: Probe<K, V>)
    ensures forall t :: t in Selected(ts, p) ==> p.Accepts(t)
  {
    if ts != [] { SelectedAreAccepted(ts[1..], p); }
  }

  /** Leaving out the rejected entries loses no matching row. */
  lemma {:induction false} SelectedKeepsRows<K(!new), V(!new)>(ts: seq<Tree<K, V>>, covers: (K, V) -> bool,
                                                               p: Probe<K, V>)
    requires Covered(ts, covers) && NeverPrunes(covers, p.page, p.leaf)
    ensures Covered(Selected(ts, p), covers)
    ensures Filter(Leaves(Selected(ts, p)), p.leaf) == Filter(Leaves(ts), p.leaf)
  {
    if ts != [] {
      var first, rest := [ts[0]], ts[1..];
      SelectedKeepsRows(rest, covers, p);
      assert ts == first + rest;
      CoveredAppend(first, rest, covers);
      MatchingRowsAppend(first, rest, p.leaf);
      if p.Accepts(ts[0]) {
        CoveredAppend(first, Selected(rest, p), covers);
        MatchingRowsAppend(first, Selected(rest, p), p.leaf);
      } else {
        RejectedHasNone(ts[0], covers, p);
        assert Selected(ts, p) == Selected(rest, p);
      }
    }
  }

  lemma RejectedHasNone<K(!new), V(!new)>(t: Tree<K, V>, covers: (K, V) -> bool, p: Probe<K, V>)
    requires Covered([t], covers) && NeverPrunes(covers, p.page, p.leaf) && !p.Accepts(t)
    ensures Filter(Leaves([t]), p.leaf) == []
  {
    assert [t][1..] == [];
    forall v | v in Leaves([t]) ensures !p.leaf(v) {
      match t
      case Leaf(w) => assert Leaves([t]) == [w];
      case Page(k, es) => assert Leaves([t]) == Leaves(es) && CoversAll(k, Leaves(es), covers);
    }
    FilterNone(Leaves([t]), p.leaf);
  }

  // ----- the queue -----

  /** The matching rows still to come. */
  function Pending<K(!new), V(!new)>(q: seq<Tree<K, V>>, p: Probe<K, V>): seq<V> {
    Filter(Leaves(q), p.leaf)
  }

  ghost predicate NoneNearer<K(!new), V(!new)>(rows: seq<V>, p: Probe<K, V>, d: real) {
    forall v :: v in rows ==> d <= p.leafDist(v)
  }

  lemma {:induction false} FilterMember<V>(vs: seq<V>, leaf: V -> bool, v: V)
    requires v in Filter(vs, leaf)
    ensures v in vs
  {
    if v !in [vs[0]] { FilterMember(vs[1..], leaf, v); }
  }

  lemma {:induction false} MinimumBoundsAll<K(!new), V(!new)>(ts: seq<Tree<K, V>>, covers: (K, V) -> bool,
                                                              p: Probe<K, V>, d: real)
    requires Covered(ts, covers) && LowerBounds(covers, p) && forall t :: t in ts ==> d <= p.Dist(t)
    ensures NoneNearer(Leaves(ts), p, d)
  {
    if ts != [] {
      MinimumBoundsAll(ts[1..], covers, p, d);
      assert ts[0] in ts;
    }
  }

  function Without<T>(q: seq<T>, i: nat): seq<T>
    requires i < |q|
  {
    q[..i] + q[i + 1..]
  }

  lemma WithoutMembers<T>(q: seq<T>, i: nat)
    requires i < |q|
    ensures forall t :: t in Without(q, i) ==> t in q
  {
  }

  /** What taking entry i out of the queue and putting the entries under it back does to the
      rows still to come. */
  lemma Replace<K(!new), V(!new)>(q: seq<Tree<K, V>>, i: nat, under: seq<Tree<K, V>>, covers: (K, V) -> bool,
                                  leaf: V -> bool)
    requires i < |q| && Covered(q, covers) && Covered(under, covers)
    requires Filter(Leaves(under), leaf) == Filter(Leaves([q[i]]), leaf)
    ensures Covered(Without(q, i) + under, covers)
    ensures multiset(Filter(Leaves(Without(q, i) + under), leaf)) == multiset(Filter(Leaves(q), leaf))
  {
    Remove(q, i, covers, leaf);
    CoveredAppend(Without(q, i), under, covers);
    MatchingRowsAppend(Without(q, i), under, leaf);
  }

  lemma Remove<K(!new), V(!new)>(q: seq<Tree<K, V>>, i: nat, covers: (K, V) -> bool, leaf: V -> bool)
    requires i < |q| && Covered(q, covers)
    ensures Covered(Without(q, i), covers) && Covered([q[i]], covers)
    ensures Size(q) == Size(Without(q, i)) + Size([q[i]])
    ensures multiset(Filter(Leaves(q), leaf))
         == multiset(Filter(Leaves(Without(q, i)), leaf)) + multiset(Filter(Leaves([q[i]]), leaf))
  {
    var a, b, c := q[..i], [q[i]], q[i + 1..];
    SplitAt(q, i);
    CoveredAppend(a + b, c, covers);
    CoveredAppend(a, b, covers);
    CoveredAppend(a, c, covers);
    SizeAppend(a + b, c);
    SizeAppend(a, b);
    SizeAppend(a, c);
    MatchingRowsAround(a, b, c, leaf);
  }

  lemma MatchingRowsAround<K, V>(a: seq<Tree<K, V>>, b: seq<Tree<K, V>>, c: seq<Tree<K, V>>, leaf: V -> bool)
    ensures multiset(Filter(Leaves(a + b + c), leaf))
         == multiset(Filter(Leaves(a + c), leaf)) + multiset(Filter(Leaves(b), leaf))
  {
    MatchingRowsAppend(a + b, c, leaf);
    MatchingRowsAppend(a, b, leaf);
    MatchingRowsAppend(a, c, leaf);
  }

  lemma MatchingRowsAppend<K, V>(a: seq<Tree<K, V>>, b: seq<Tree<K, V>>, leaf: V -> bool)
    ensures Filter(Leaves(a + b), leaf) == Filter(Leaves(a), leaf) + Filter(Leaves(b), leaf)
  {
    LeavesAppend(a, b);
    FilterAppend(Leaves(a), Leaves(b), leaf);
  }

  lemma RestNotNearer<K(!new), V(!new)>(q: seq<Tree<K, V>>, i: nat, covers: (K, V) -> bool, p: Probe<K, V>)
    requires i < |q| && Covered(q, covers) && LowerBounds(covers, p)
    requires forall t :: t in q ==> p.Dist(q[i]) <= p.Dist(t)
    ensures NoneNearer(Pending(Without(q, i), p), p, p.Dist(q[i]))
  {
    var rest := Without(q, i);
    assert Covered(rest, covers) by { Remove(q, i, covers, p.leaf); }
    WithoutMembers(q, i);
    MinimumBoundsAll(rest, covers, p, p.Dist(q[i]));
    forall v | v in Pending(rest, p) ensures p.Dist(q[i]) <= p.leafDist(v) {
      FilterMember(Leaves(rest), p.leaf, v);
    }
  }

  lemma SameRowsNotNearer<K(!new), V(!new)>(a: seq<V>, b: seq<V>, p: Probe<K, V>, d: real)
    requires NoneNearer(a, p, d) && multiset(b) <= multiset(a)
    ensures NoneNearer(b, p, d)
  {
    forall v | v in b ensures d <= p.leafDist(v) {
      assert v in multiset(b);
      assert v in multiset(a);
    }
  }

  method Nearest<K(!new), V(!new)>(q: seq<Tree<K, V>>, p: Probe<K, V>) returns (i: nat)
    requires q != []
    ensures i < |q| && forall t :: t in q ==> p.Dist(q[i]) <= p.Dist(t)
  {
    i := 0;
    for k := 1 to |q|
      invariant i < |q|
      invariant forall j :: 0 <= j < k ==> p.Dist(q[i]) <= p.Dist(q[j])
    {
      if p.Dist(q[k]) < p.Dist(q[i]) {
        i := k;
      }
    }
  }

  ghost predicate InOrder<K(!new), V(!new)>(out: seq<V>, p: Probe<K, V>) {
    forall i, j :: 0 <= i < j < |out| ==> p.leafDist(out[i]) <= p.leafDist(out[j])
  }

  /** Everything given out so far is in order and no farther than what is still to come. */
  ghost predicate InOrderSoFar<K(!new), V(!new)>(out: seq<V>, q: seq<Tree<K, V>>, p: Probe<K, V>) {
    InOrder(out, p) && (out != [] ==> NoneNearer(Pending(q, p), p, p.leafDist(out[|out| - 1])))
  }

  lemma TakeRow<K(!new), V(!new)>(q: seq<Tree<K, V>>, i: nat, covers: (K, V) -> bool, p: Probe<K, V>)
    requires i < |q| && q[i].Leaf? && p.Accepts(q[i]) && Covered(q, covers)
    ensures Covered(Without(q, i), covers) && Size(Without(q, i)) < Size(q)
    ensures multiset(Pending(q, p)) == multiset(Pending(Without(q, i), p)) + multiset{q[i].value}
    ensures q[i].value in Pending(q, p)
  {
    var v := q[i].value;
    Remove(q, i, covers, p.leaf);
    assert [q[i]][1..] == [];
    assert Leaves([q[i]]) == [v] && Filter([v], p.leaf) == [v];
    assert v in multiset(Pending(q, p));
  }

  lemma GiveOut<K(!new), V(!new)>(out: seq<V>, q: seq<Tree<K, V>>, i: nat, covers: (K, V) -> bool, p: Probe<K, V>)
    requires i < |q| && q[i].Leaf? && p.Accepts(q[i]) && Covered(q, covers) && LowerBounds(covers, p)
    requires InOrderSoFar(out, q, p) && forall t :: t in q ==> p.Dist(q[i]) <= p.Dist(t)
    ensures InOrderSoFar(out + [q[i].value], Without(q, i), p)
  {
    assert q[i].value in Pending(q, p) by { TakeRow(q, i, covers, p); }
    InOrderSnoc(out, q[i].value, p);
    RestNotNearer(q, i, covers, p);
  }

  lemma InOrderSnoc<K(!new), V(!new)>(out: seq<V>, v: V, p: Probe<K, V>)
    requires InOrder(out, p) && (out != [] ==> p.leafDist(out[|out| - 1]) <= p.leafDist(v))
    ensures InOrder(out + [v], p)
  {
    forall i, j | 0 <= i < j < |out + [v]| ensures p.leafDist((out + [v])[i]) <= p.leafDist((out + [v])[j]) {
      assert j == |out| ==> p.leafDist(out[i]) <= p.leafDist(out[|out| - 1]);
    }
  }

  lemma Expand<K(!new), V(!new)>(out: seq<V>, q: seq<Tree<K, V>>, i: nat, covers: (K, V) -> bool, p: Probe<K, V>)
    requires i < |q| && q[i].Page? && Covered(q, covers) && NeverPrunes(covers, p.page, p.leaf)
    requires InOrderSoFar(out, q, p) && forall t :: t in q ==> p.Accepts(t)
    ensures var q' := Without(q, i) + Selected(q[i].entries, p);
            && Covered(q', covers) && InOrderSoFar(out, q', p) && Size(q') < Size(q)
            && multiset(Pending(q', p)) == multiset(Pending(q, p))
            && forall t :: t in q' ==> p.Accepts(t)
  {
    var es := q[i].entries;
    Remove(q, i, covers, p.leaf);
    assert [q[i]][1..] == [];
    assert Leaves([q[i]]) == Leaves(es);
    SelectedKeepsRows(es, covers, p);
    SelectedAreAccepted(es, p);
    SelectedSmaller(es, p);
    SizeAppend(Without(q, i), Selected(es, p));
    Replace(q, i, Selected(es, p), covers, p.leaf);
    var q' := Without(q, i) + Selected(es, p);
    if out != [] { SameRowsNotNearer(Pending(q, p), Pending(q', p), p, p.leafDist(out[|out| - 1])); }
  }

  /** What is out and what is still pending under the queue make up all matching rows. */
  ghost predicate Scanning<K(!new), V(!new)>(all: multiset<V>, out: seq<V>, q: seq<Tree<K, V>>,
                                             covers: (K, V) -> bool, p: Probe<K, V>) {
    && Covered(q, covers) && InOrderSoFar(out, q, p)
    && (forall t :: t in q ==> p.Accepts(t))
    && multiset(out) + multiset(Pending(q, p)) == all
  }

  lemma RowStep<K(!new), V(!new)>(all: multiset<V>, out: seq<V>, q: seq<Tree<K, V>>, i: nat, covers: (K, V) -> bool,
                                  p: Probe<K, V>)
    requires Scanning(all, out, q, covers, p) && LowerBounds(covers, p)
    requires i < |q| && q[i].Leaf? && forall t :: t in q ==> p.Dist(q[i]) <= p.Dist(t)
    ensures Scanning(all, out + [q[i].value], Without(q, i), covers, p) && Size(Without(q, i)) < Size(q)
  {
    GiveOut(out, q, i, covers, p);
    TakeRow(q, i, covers, p);
    WithoutMembers(q, i);
    assert multiset(out + [q[i].value]) == multiset(out) + multiset{q[i].value};
  }

  lemma PageStep<K(!new), V(!new)>(all: multiset<V>, out: seq<V>, q: seq<Tree<K, V>>, i: nat, covers: (K, V) -> bool,
                                   p: Probe<K, V>)
    requires Scanning(all, out, q, covers, p) && NeverPrunes(covers, p.page, p.leaf)
    requires i < |q| && q[i].Page?
    ensures Scanning(all, out, Without(q, i) + Selected(q[i].entries, p), covers, p)
    ensures Size(Without(q, i) + Selected(q[i].entries, p)) < Size(q)
  {
    Expand(out, q, i, covers, p);
  }

  /** The rows come out in the order of their distance, every matching row once. */
  method OrderedScan<K(!new), V(!new)>(ts: seq<Tree<K, V>>, p: Probe<K, V>, ghost covers: (K, V) -> bool)
    returns (out: seq<V>)
    requires Covered(ts, covers) && NeverPrunes(covers, p.page, p.leaf) && LowerBounds(covers, p)
    ensures multiset(out) == multiset(Filter(Leaves(ts), p.leaf))
    ensures InOrder(out, p)
  {
    SelectedKeepsRows(ts, covers, p);
    SelectedAreAccepted(ts, p);
    ghost var all := multiset(Filter(Leaves(ts), p.leaf));
    var q := Selected(ts, p);
    out := [];
    while q != []
      invariant Scanning(all, out, q, covers, p)
      decreases Size(q)
    {
      var i := Nearest(q, p);
      match q[i]
      case Leaf(v) =>
        RowStep(all, out, q, i, covers, p);
        out := out + [v];
        q := Without(q, i);
      case Page(_, es) =>
        PageStep(all, out, q, i, covers, p);
        q := Without(q, i) + Selected(es, p);
    }
  }
}
