/** Indexes on bytea as they come about: by any insertions, along any paths, and page splits
    that gbt_var_picksplit makes. Splits that are safe keep every search exact; a tree is
    given that one unsafe split spoils.
 */
module VarIndex {
  import opened ByteOrder
  import opened Gist
  import opened GistRuns
  import opened PageEntries
  import opened BTreeStrategy
  import opened VarGist
  import opened VarSplit

  /** What gbt_var_picksplit makes of a page, where that is safe. */
  ghost function SafeSplits(): Splitter<VarKey> {
    (ks: seq<VarKey>, sp: Split<VarKey>) => IsSplit(ks, sp) && SafeSplit(ks, sp)
  }

  lemma SideIsCovering(keys: seq<VarKey>, os: seq<nat>, k: VarKey)
    requires InRange(os, |keys|) && LosesNothing(Pick(keys, os), k)
    ensures SideCovers(keys, os, k, BYTEA_OPS)
  {
    forall i, x | 0 <= i < |os| && Covers(keys[os[i] - 1], x) ensures Covers(k, x) {
      assert Pick(keys, os)[i] in Pick(keys, os);
    }
  }

  lemma SplitsAreSound()
    ensures SplitsSound(SafeSplits(), BYTEA_OPS)
  {
    forall ks: seq<VarKey>, sp: Split<VarKey> | IsSplit(ks, sp) && SafeSplit(ks, sp)
      ensures SplitSound(ks, sp, BYTEA_OPS)
    {
      SplitCoversIff(ks, sp);
      SideIsCovering(ks, sp.left, sp.ldatum);
      SideIsCovering(ks, sp.right, sp.rdatum);
    }
  }

  /** Pages of rows are always safe to split. */
  lemma LeafPagesAreSafe(ks: seq<VarKey>, sp: Split<VarKey>)
    requires IsSplit(ks, sp) && forall k :: k in ks ==> k.lower == k.upper
    ensures SafeSplit(ks, sp)
  {
  }

  /** An index that has seen any number of insertions and safe splits, starting empty or from a
      tree built by union, holds the rows put into it, and every search of it returns exactly
      those that satisfy the operator. */
  lemma SearchIsExact(start: seq<Tree<VarKey, Bytes>>, steps: seq<Step<VarKey, Bytes>>,
                      ts: seq<Tree<VarKey, Bytes>>, s: Strategy, query: Bytes)
    requires Built(start, BYTEA_OPS) && Runs(start, steps, ts, BYTEA_OPS, SafeSplits())
    ensures multiset(Leaves(ts)) == multiset(Leaves(start)) + Added(steps)
    ensures Scan(ts, k => PageConsistent(k, s, query), x => LeafConsistent(LeafKey(x), s, query))
         == Filter(Leaves(ts), x => Matches(s, x, query))
  {
    OpsSound();
    SplitsAreSound();
    BuiltIsCovered(start, BYTEA_OPS);
    RunKeepsCovered(start, steps, ts, BYTEA_OPS, SafeSplits());
    SearchCovered(ts, s, query);
  }

  // ----- a tree that one split spoils -----

  /** A page with two rows. */
  function PairPage(a: Bytes, b: Bytes): Tree<VarKey, Bytes> {
    Page(PairKey(a, b), [Leaf(a), Leaf(b)])
  }

  /** Four pages, with ROW on the first. */
  function LosingTree(): seq<Tree<VarKey, Bytes>> {
    [PairPage(LOW, ROW), PairPage(NEXT1, NEXT2), PairPage(FAR1, FAR1), PairPage(FAR2, FAR2)]
  }

  lemma PairPageIsBuilt(a: Bytes, b: Bytes)
    ensures Built([PairPage(a, b)], BYTEA_OPS)
  {
    var es: seq<Tree<VarKey, Bytes>> := [Leaf(a), Leaf(b)];
    var p := [PairPage(a, b)];
    assert es[1..] == [Leaf(b)] && es[1..][1..] == [] && p[1..] == [];
    assert Keys(es[1..], BYTEA_OPS) == [LeafKey(b)];
    assert Keys(es, BYTEA_OPS) == [LeafKey(a)] + [LeafKey(b)];
    assert ([LeafKey(a)] + [LeafKey(b)])[1..] == [LeafKey(b)];
    assert Built(es[1..], BYTEA_OPS) && Built(es, BYTEA_OPS);
  }

  lemma {:induction false} BuiltEach(ts: seq<Tree<VarKey, Bytes>>)
    requires forall t :: t in ts ==> Built([t], BYTEA_OPS)
    ensures Built(ts, BYTEA_OPS)
  {
    if ts != [] {
      assert ts[0] in ts;
      BuiltEach(ts[1..]);
    }
  }

  lemma FourBuilt(p: Tree<VarKey, Bytes>, q: Tree<VarKey, Bytes>, r: Tree<VarKey, Bytes>, s: Tree<VarKey, Bytes>)
    requires Built([p], BYTEA_OPS) && Built([q], BYTEA_OPS) && Built([r], BYTEA_OPS) && Built([s], BYTEA_OPS)
    ensures Built([p, q, r, s], BYTEA_OPS)
  {
    BuiltEach([p, q, r, s]);
  }

  lemma FourKeys<K(!new), V(!new)>(ts: seq<Tree<K, V>>, ks: seq<K>, o: OpClass<K, V>)
    requires |ts| == |ks| == 4
    requires EntryKey(ts[0], o) == ks[0] && EntryKey(ts[1], o) == ks[1]
    requires EntryKey(ts[2], o) == ks[2] && EntryKey(ts[3], o) == ks[3]
    ensures Keys(ts, o) == ks
  {
    KeysAt(ts, 0, o);
    KeysAt(ts, 1, o);
    KeysAt(ts, 2, o);
    KeysAt(ts, 3, o);
  }

  lemma LosingTreeIsBuilt()
    ensures Built(LosingTree(), BYTEA_OPS) && Keys(LosingTree(), BYTEA_OPS) == PAGE
  {
    PairPageIsBuilt(LOW, ROW);
    PairPageIsBuilt(NEXT1, NEXT2);
    PairPageIsBuilt(FAR1, FAR1);
    PairPageIsBuilt(FAR2, FAR2);
    FourBuilt(PairPage(LOW, ROW), PairPage(NEXT1, NEXT2), PairPage(FAR1, FAR1), PairPage(FAR2, FAR2));
    LosingTreeKeys();
  }

  lemma LosingTreeKeys()
    ensures Keys(LosingTree(), BYTEA_OPS) == PAGE
  {
    PairKeys(LOW, ROW, NEXT1, NEXT2, FAR1, FAR1, FAR2, FAR2);
  }

  lemma PairKeys(a: Bytes, b: Bytes, c: Bytes, d: Bytes, e: Bytes, f: Bytes, g: Bytes, h: Bytes)
    ensures Keys([PairPage(a, b), PairPage(c, d), PairPage(e, f), PairPage(g, h)], BYTEA_OPS)
         == [PairKey(a, b), PairKey(c, d), PairKey(e, f), PairKey(g, h)]
  {
    FourKeys([PairPage(a, b), PairPage(c, d), PairPage(e, f), PairPage(g, h)],
             [PairKey(a, b), PairKey(c, d), PairKey(e, f), PairKey(g, h)], BYTEA_OPS);
  }

  lemma LosingRows(ts: seq<Tree<VarKey, Bytes>>)
    requires ts == LosingTree()
    ensures ROW in Leaves([ts[0]]) && ROW !in Leaves([ts[2]]) && ROW !in Leaves([ts[3]])
  {
    PairRows(LOW, ROW, ROW);
    PairRows(FAR1, FAR1, ROW);
    PairRows(FAR2, FAR2, ROW);
    RowIsNotFar();
  }

  lemma PairRows(a: Bytes, b: Bytes, x: Bytes)
    ensures x in Leaves([PairPage(a, b)]) <==> x == a || x == b
  {
    var es: seq<Tree<VarKey, Bytes>> := [Leaf(a), Leaf(b)];
    var p := [PairPage(a, b)];
    assert es[1..] == [Leaf(b)] && es[1..][1..] == [] && p[1..] == [];
    assert Leaves(es[1..]) == [b] && Leaves(es) == [a, b] && Leaves(p) == Leaves(es);
  }

  lemma RowIsNotFar()
    ensures ROW != FAR1 && ROW != FAR2
  {
    assert ROW[0] == 97 && FAR1[0] == 100 && FAR2[0] == 100;
  }

  /** Of two pages, a row under the first one only is found only by way of that. */
  lemma TwoPages<K, V>(l: K, les: seq<Tree<K, V>>, r: K, res: seq<Tree<K, V>>, page: K -> bool, leaf: V -> bool, v: V)
    requires !page(l) && v !in Leaves(res) && v in Leaves(les)
    ensures v in Leaves([Page(l, les), Page(r, res)]) && v !in Scan([Page(l, les), Page(r, res)], page, leaf)
  {
    var ts := [Page(l, les), Page(r, res)];
    assert ts[1..] == [ts[1]] && [ts[1]][1..] == [];
    assert Leaves(ts) == Leaves(les) + Leaves([ts[1]]);
    assert Scan(ts, page, leaf) == Scan([ts[1]], page, leaf);
    assert Leaves([ts[1]]) == Leaves(res);
    if v in Scan(ts, page, leaf) { ScanWithin([ts[1]], page, leaf, v); }
  }

  lemma FoundBefore(ts: seq<Tree<VarKey, Bytes>>, x: Bytes)
    requires Built(ts, BYTEA_OPS) && x in Leaves(ts)
    ensures x in Scan(ts, k => PageConsistent(k, Equal, x), y => LeafConsistent(LeafKey(y), Equal, x))
  {
    SearchIsExact(ts, [], ts, Equal, x);
    FilterKeeps(Leaves(ts), (y: Bytes) => Matches(Equal, y, x), x);
  }

  lemma RowsOfTwo<K, V>(a: Tree<K, V>, b: Tree<K, V>)
    ensures Leaves([a, b]) == Leaves([a]) + Leaves([b])
  {
    assert [a, b] == [a] + [b];
    LeavesAppend([a], [b]);
  }

  lemma LostAfter<K, V>(ts: seq<Tree<K, V>>, sp: Split<K>, page: K -> bool, leaf: V -> bool, v: V)
    requires |ts| == 4 && sp.left == [1, 2] && sp.right == [3, 4] && !page(sp.ldatum)
    requires v in Leaves([ts[0]]) && v !in Leaves([ts[2]]) && v !in Leaves([ts[3]])
    ensures v in Leaves(Halves(ts, sp)) && v !in Scan(Halves(ts, sp), page, leaf)
  {
    var les, res := Pick(ts, sp.left), Pick(ts, sp.right);
    assert les == [ts[0], ts[1]] && res == [ts[2], ts[3]];
    RowsOfTwo(ts[0], ts[1]);
    RowsOfTwo(ts[2], ts[3]);
    TwoPages(sp.ldatum, les, sp.rdatum, res, page, leaf, v);
  }

  lemma SpoiltBy(ts: seq<Tree<VarKey, Bytes>>, sp: Split<VarKey>, row: Bytes)
    requires |ts| == 4 && Built(ts, BYTEA_OPS) && sp.left == [1, 2] && sp.right == [3, 4]
    requires !PageConsistent(sp.ldatum, Equal, row)
    requires row in Leaves([ts[0]]) && row !in Leaves([ts[2]]) && row !in Leaves([ts[3]])
    ensures row in Scan(ts, k => PageConsistent(k, Equal, row), x => LeafConsistent(LeafKey(x), Equal, row))
    ensures row in Leaves(Halves(ts, sp))
    ensures row !in Scan(Halves(ts, sp), k => PageConsistent(k, Equal, row),
                         x => LeafConsistent(LeafKey(x), Equal, row))
  {
    FirstRows(ts);
    FoundBefore(ts, row);
    LostAfter(ts, sp, (k: VarKey) => PageConsistent(k, Equal, row),
              (x: Bytes) => LeafConsistent(LeafKey(x), Equal, row), row);
  }

  /** Splitting the root of that tree, which was built by union, in the way gbt_var_picksplit
      does: the row is found before, is still there after, and is not found any more. */
  lemma SplitSpoilsTree(ts: seq<Tree<VarKey, Bytes>>, sp: Split<VarKey>)
    requires ts == LosingTree() && IsSplit(Keys(ts, BYTEA_OPS), sp)
    ensures Built(ts, BYTEA_OPS) && Divides(sp, |ts|)
    ensures ROW in Scan(ts, k => PageConsistent(k, Equal, ROW), x => LeafConsistent(LeafKey(x), Equal, ROW))
    ensures ROW in Leaves(Halves(ts, sp))
    ensures ROW !in Scan(Halves(ts, sp), k => PageConsistent(k, Equal, ROW),
                         x => LeafConsistent(LeafKey(x), Equal, ROW))
  {
    LosingTreeIsBuilt();
    SplitCanLoseRow(sp);
    LosingRows(ts);
    SpoiltBy(ts, sp, ROW);
  }

  lemma FirstRows<K, V>(ts: seq<Tree<K, V>>)
    requires ts != []
    ensures forall v :: v in Leaves([ts[0]]) ==> v in Leaves(ts)
  {
    assert ts == [ts[0]] + ts[1..];
    LeavesAppend([ts[0]], ts[1..]);
  }
}
