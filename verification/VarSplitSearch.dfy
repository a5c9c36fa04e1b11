/** What a split by gbt_var_picksplit means for searches of the tree it happens in. */
module VarSplitSearch {
  import opened ByteOrder
  import opened Gist
  import opened GistRuns
  import opened PageEntries
  import opened BTreeStrategy
  import opened VarGist
  import opened VarSplit
  import opened VarReach

  /** This search returns exactly the rows that satisfy the operator. */
  ghost predicate SearchRight(ts: seq<Tree<VarKey, Bytes>>, s: Strategy, q: Bytes) {
    Scan(ts, k => PageConsistent(k, s, q), x => LeafConsistent(LeafKey(x), s, q))
      == Filter(Leaves(ts), x => Matches(s, x, q))
  }

  ghost predicate SearchesRight(ts: seq<Tree<VarKey, Bytes>>) {
    forall s, q :: SearchRight(ts, s, q)
  }

  /** Entries with these keys, whatever rows the keys cover are below them, can be searched after
      the split. */
  ghost predicate Harmless(keys: seq<VarKey>, sp: Split<VarKey>)
    requires Divides(sp, |keys|)
  {
    forall ts :: Covered(ts, Covers) && Keys(ts, BYTEA_OPS) == keys ==> SearchesRight(Halves(ts, sp))
  }

  // ----- harmless where no search is turned away -----

  lemma {:induction false} ScanAppend<K, V>(a: seq<Tree<K, V>>, b: seq<Tree<K, V>>, page: K -> bool, leaf: V -> bool)
    ensures Scan(a + b, page, leaf) == Scan(a, page, leaf) + Scan(b, page, leaf)
  {
    if a == [] {
      assert a + b == b;
    } else {
      assert (a + b)[1..] == a[1..] + b;
      ScanAppend(a[1..], b, page, leaf);
    }
  }

  lemma ScanOfPage<K, V>(k: K, es: seq<Tree<K, V>>, page: K -> bool, leaf: V -> bool)
    ensures Scan([Page(k, es)], page, leaf) == if page(k) then Scan(es, page, leaf) else []
  {
    assert [Page(k, es)][1..] == [];
  }

  lemma SearchOfPage<K, V>(k: K, es: seq<Tree<K, V>>, page: K -> bool, leaf: V -> bool, matching: V -> bool)
    requires Scan(es, page, leaf) == Filter(Leaves(es), matching)
    requires page(k) || forall x :: x in Leaves(es) ==> !matching(x)
    ensures Scan([Page(k, es)], page, leaf) == Filter(Leaves([Page(k, es)]), matching)
  {
    ScanOfPage(k, es, page, leaf);
    RowsOfPage(Page(k, es));
    if !page(k) { FilterNone(Leaves(es), matching); }
  }

  lemma CoveredSearchRight(ts: seq<Tree<VarKey, Bytes>>, s: Strategy, q: Bytes)
    requires Covered(ts, Covers)
    ensures SearchRight(ts, s, q)
  {
    SearchCovered(ts, s, q);
  }

  lemma PageSearchRight(k: VarKey, es: seq<Tree<VarKey, Bytes>>, s: Strategy, q: Bytes)
    requires SearchRight(es, s, q) && forall x :: x in Leaves(es) ==> Finds(k, x)
    ensures SearchRight([Page(k, es)], s, q)
  {
    forall x | x in Leaves(es) && Matches(s, x, q) ensures PageConsistent(k, s, q) { assert Finds(k, x); }
    SearchOfPage(k, es, k => PageConsistent(k, s, q), x => LeafConsistent(LeafKey(x), s, q), x => Matches(s, x, q));
  }

  lemma SearchAppend(a: seq<Tree<VarKey, Bytes>>, b: seq<Tree<VarKey, Bytes>>, s: Strategy, q: Bytes)
    requires SearchRight(a, s, q) && SearchRight(b, s, q)
    ensures SearchRight(a + b, s, q)
  {
    ScanAppend(a, b, k => PageConsistent(k, s, q), x => LeafConsistent(LeafKey(x), s, q));
    LeavesAppend(a, b);
    FilterAppend(Leaves(a), Leaves(b), x => Matches(s, x, q));
  }

  lemma SideIsSearched(ts: seq<Tree<VarKey, Bytes>>, os: seq<nat>, k: VarKey, s: Strategy, q: Bytes)
    requires Covered(ts, Covers) && InRange(os, |ts|) && TurnsNoneAway(Pick(Keys(ts, BYTEA_OPS), os), k)
    ensures SearchRight([Page(k, Pick(ts, os))], s, q)
  {
    PickCovered(ts, os, Covers);
    KeysPicked(ts, os, BYTEA_OPS);
    OpsSound();
    forall x | x in Leaves(Pick(ts, os)) ensures Finds(k, x) {
      var i := RowHasEntry(Pick(ts, os), x, BYTEA_OPS);
      assert Pick(Keys(ts, BYTEA_OPS), os)[i] in Pick(Keys(ts, BYTEA_OPS), os);
    }
    CoveredSearchRight(Pick(ts, os), s, q);
    PageSearchRight(k, Pick(ts, os), s, q);
  }

  lemma HarmlessIf(keys: seq<VarKey>, sp: Split<VarKey>)
    requires Divides(sp, |keys|)
    requires TurnsNoneAway(Pick(keys, sp.left), sp.ldatum) && TurnsNoneAway(Pick(keys, sp.right), sp.rdatum)
    ensures Harmless(keys, sp)
  {
    forall ts, s, q | Covered(ts, Covers) && Keys(ts, BYTEA_OPS) == keys ensures SearchRight(Halves(ts, sp), s, q) {
      SideIsSearched(ts, sp.left, sp.ldatum, s, q);
      SideIsSearched(ts, sp.right, sp.rdatum, s, q);
      SearchAppend([Page(sp.ldatum, Pick(ts, sp.left))], [Page(sp.rdatum, Pick(ts, sp.right))], s, q);
      assert Halves(ts, sp) == [Page(sp.ldatum, Pick(ts, sp.left))] + [Page(sp.rdatum, Pick(ts, sp.right))];
    }
  }

  // ----- harmful elsewhere -----

  /** Pages with these keys, all empty but one, which holds one row. */
  function OneRow(keys: seq<VarKey>, n: nat, x: Bytes): (ts: seq<Tree<VarKey, Bytes>>)
    ensures |ts| == |keys|
    ensures forall i :: 0 <= i < |keys| ==> ts[i] == Page(keys[i], if i == n then [Leaf(x)] else [])
  {
    seq(|keys|, i requires 0 <= i < |keys| => Page(keys[i], if i == n then [Leaf(x)] else []))
  }

  lemma {:induction false} CoveredEach<K, V>(ts: seq<Tree<K, V>>, covers: (K, V) -> bool)
    requires forall i :: 0 <= i < |ts| ==> Covered([ts[i]], covers)
    ensures Covered(ts, covers)
  {
    if ts != [] {
      CoveredEach(ts[1..], covers);
      assert ts == [ts[0]] + ts[1..];
      CoveredAppend([ts[0]], ts[1..], covers);
    }
  }

  lemma OneLeaf<K, V>(v: V, covers: (K, V) -> bool)
    ensures Leaves<K, V>([Leaf(v)]) == [v] && Covered([Leaf(v)], covers)
  {
    var one: seq<Tree<K, V>> := [Leaf(v)];
    assert one[1..] == [];
  }

  lemma OneRowTree(keys: seq<VarKey>, n: nat, x: Bytes)
    requires n < |keys| && Covers(keys[n], x)
    ensures Covered(OneRow(keys, n, x), Covers) && Keys(OneRow(keys, n, x), BYTEA_OPS) == keys
  {
    var ts := OneRow(keys, n, x);
    OneLeaf<VarKey, Bytes>(x, Covers);
    forall i | 0 <= i < |ts| ensures Covered([ts[i]], Covers) { CoveredPage(ts[i], Covers); }
    forall i | 0 <= i < |ts| ensures Keys(ts, BYTEA_OPS)[i] == keys[i] { KeysAt(ts, i, BYTEA_OPS); }
    CoveredEach(ts, Covers);
  }

  lemma {:induction false} NoRows<K, V>(ts: seq<Tree<K, V>>)
    requires forall t :: t in ts ==> t.Page? && t.entries == []
    ensures Leaves(ts) == []
  {
    if ts != [] {
      assert ts[0] in ts;
      NoRows(ts[1..]);
    }
  }

  lemma RowIsOnSide(keys: seq<VarKey>, os: seq<nat>, a: nat, x: Bytes)
    requires InRange(os, |keys|) && a < |os|
    ensures x in Leaves(Pick(OneRow(keys, os[a] - 1, x), os))
  {
    var es := Pick(OneRow(keys, os[a] - 1, x), os);
    OneLeaf<VarKey, Bytes>(x, Covers);
    RowsOfPage(es[a]);
    LeavesAt(es, a, es[a]);
  }

  /** An offset is on one side only. */
  lemma OneSide(os: seq<nat>, os': seq<nat>, n: nat, a: nat, b: nat)
    requires multiset(os) + multiset(os') == multiset(Offsets(n)) && a < |os| && b < |os'|
    ensures os[a] != os'[b]
  {
    if os[a] == os'[b] {
      assert os[a] in multiset(os) && os'[b] in multiset(os');
      OffsetOnce(n, os[a]);
    }
  }

  lemma {:induction false} OffsetOnce(n: nat, o: nat)
    ensures multiset(Offsets(n))[o] <= 1
  {
    if n > 0 {
      assert Offsets(n) == Offsets(n - 1) + [n];
      OffsetOnce(n - 1, o);
      if o == n { assert n !in Offsets(n - 1); }
    }
  }

  lemma OtherSideIsEmpty(keys: seq<VarKey>, os: seq<nat>, os': seq<nat>, a: nat, x: Bytes)
    requires InRange(os, |keys|) && InRange(os', |keys|) && a < |os|
    requires multiset(os) + multiset(os') == multiset(Offsets(|keys|))
    ensures Leaves(Pick(OneRow(keys, os[a] - 1, x), os')) == []
  {
    var es := Pick(OneRow(keys, os[a] - 1, x), os');
    forall t | t in es ensures t.Page? && t.entries == [] {
      var b :| 0 <= b < |es| && es[b] == t;
      OneSide(os, os', |keys|, a, b);
    }
    NoRows(es);
  }

  /** Two pages, one empty, the other with a key that is turned away. */
  lemma RowIsMissed<K, V>(l: K, les: seq<Tree<K, V>>, r: K, res: seq<Tree<K, V>>,
                          page: K -> bool, leaf: V -> bool, matching: V -> bool, v: V)
    requires (!page(l) && v in Leaves(les) && Leaves(res) == []) || (!page(r) && v in Leaves(res) && Leaves(les) == [])
    requires matching(v)
    ensures v in Filter(Leaves([Page(l, les), Page(r, res)]), matching)
    ensures v !in Scan([Page(l, les), Page(r, res)], page, leaf)
  {
    var a, b := [Page(l, les)], [Page(r, res)];
    assert [Page(l, les), Page(r, res)] == a + b;
    LeavesAppend(a, b);
    ScanAppend(a, b, page, leaf);
    RowsOfPage(a[0]);
    RowsOfPage(b[0]);
    ScanOfPage(l, les, page, leaf);
    ScanOfPage(r, res, page, leaf);
    FilterKeeps(Leaves(a + b), matching, v);
    if v in Scan(les, page, leaf) { ScanWithin(les, page, leaf, v); }
    if v in Scan(res, page, leaf) { ScanWithin(res, page, leaf, v); }
  }

  lemma MissedAfter(ts: seq<Tree<VarKey, Bytes>>, sp: Split<VarKey>, x: Bytes)
    requires InRange(sp.left, |ts|) && InRange(sp.right, |ts|)
    requires var les, res := Leaves(Pick(ts, sp.left)), Leaves(Pick(ts, sp.right));
             || (!PageConsistent(sp.ldatum, Equal, x) && x in les && res == [])
             || (!PageConsistent(sp.rdatum, Equal, x) && x in res && les == [])
    ensures !SearchesRight(Halves(ts, sp))
  {
    RowIsMissed(sp.ldatum, Pick(ts, sp.left), sp.rdatum, Pick(ts, sp.right), k => PageConsistent(k, Equal, x),
                y => LeafConsistent(LeafKey(y), Equal, x), y => Matches(Equal, y, x), x);
    assert !SearchRight(Halves(ts, sp), Equal, x);
  }

  lemma HarmfulIf(keys: seq<VarKey>, sp: Split<VarKey>, os: seq<nat>, os': seq<nat>, k: VarKey, a: nat, x: Bytes)
    requires Divides(sp, |keys|) && (os, os', k) in {(sp.left, sp.right, sp.ldatum), (sp.right, sp.left, sp.rdatum)}
    requires a < |os| && Covers(keys[os[a] - 1], x) && !PageConsistent(k, Equal, x)
    ensures !Harmless(keys, sp)
  {
    var ts := OneRow(keys, os[a] - 1, x);
    OneRowTree(keys, os[a] - 1, x);
    RowIsOnSide(keys, os, a, x);
    OtherSideIsEmpty(keys, os, os', a, x);
    MissedAfter(ts, sp, x);
  }

  lemma FailingSide(keys: seq<VarKey>, os: seq<nat>, cpf: nat) returns (a: nat, x: Bytes)
    requires InRange(os, |keys|) && os != [] && !FindingSide(Pick(keys, os), cpf)
    ensures a < |os| && Covers(keys[os[a] - 1], x) && !PageConsistent(SideKey(Pick(keys, os), cpf), Equal, x)
  {
    var ks := Pick(keys, os);
    var e :| e in ks && !Safe(e, HullOf(ks).upper, cpf);
    x := UnsafeEntryIsMissed(ks, cpf, e);
    a :| 0 <= a < |os| && ks[a] == e;
  }

  lemma HarmfulSide(keys: seq<VarKey>, sp: Split<VarKey>, os: seq<nat>, os': seq<nat>, k: VarKey, cpf: nat)
    requires Divides(sp, |keys|) && (os, os', k) in {(sp.left, sp.right, sp.ldatum), (sp.right, sp.left, sp.rdatum)}
    requires os != [] && k == SideKey(Pick(keys, os), cpf) && !FindingSide(Pick(keys, os), cpf)
    ensures !Harmless(keys, sp)
  {
    var a, x := FailingSide(keys, os, cpf);
    HarmfulIf(keys, sp, os, os', k, a, x);
  }

  /** After a split, searches of every tree with these keys are right if and only if in both
      halves all entries are safe or the least lower bound is a prefix of the greatest upper
      bound. */
  lemma SplitIsHarmlessIff(keys: seq<VarKey>, sp: Split<VarKey>)
    requires IsSplit(keys, sp)
    ensures Harmless(keys, sp) <==> FindingSplit(keys, sp)
  {
    var left, right := Pick(keys, sp.left), Pick(keys, sp.right);
    var cpf := CutLength(left, right);
    if FindingSplit(keys, sp) {
      SplitFindsIff(keys, sp);
      HarmlessIf(keys, sp);
    } else if !FindingSide(left, cpf) {
      HarmfulSide(keys, sp, sp.left, sp.right, sp.ldatum, cpf);
    } else {
      HarmfulSide(keys, sp, sp.right, sp.left, sp.rdatum, cpf);
    }
  }
}
