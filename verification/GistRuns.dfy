/** Everything that happens to a GiST index: rows are inserted, with every key on the way
    adjusted, keys are adjusted for rows that then go elsewhere, and pages that overflow are
    split in two, the root among them. Whatever the order, keys go on covering what is below them.
 */
module GistRuns {
  import opened Sequences
  import opened Gist
  import opened PageEntries

  // ----- a split page -----

  /** Key k stands for all the entries at these offsets. */
  ghost predicate SideCovers<K(!new), V(!new)>(ks: seq<K>, os: seq<nat>, k: K, o: OpClass<K, V>)
    requires InRange(os, |ks|)
  {
    forall i, v :: 0 <= i < |os| && o.covers(ks[os[i] - 1], v) ==> o.covers(k, v)
  }

  /** What is asked of an operator class's picksplit method. */
  ghost predicate SplitSound<K(!new), V(!new)>(ks: seq<K>, sp: Split<K>, o: OpClass<K, V>) {
    && Divides(sp, |ks|) && sp.left != [] && sp.right != []
    && SideCovers(ks, sp.left, sp.ldatum, o) && SideCovers(ks, sp.right, sp.rdatum, o)
  }

  function EntryKey<K(!new), V(!new)>(t: Tree<K, V>, o: OpClass<K, V>): K {
    match t case Leaf(v) => o.leafKey(v) case Page(k, _) => k
  }

  lemma {:induction false} KeysAt<K(!new), V(!new)>(ts: seq<Tree<K, V>>, i: nat, o: OpClass<K, V>)
    requires i < |ts|
    ensures Keys(ts, o)[i] == EntryKey(ts[i], o)
  {
    if i > 0 { KeysAt(ts[1..], i - 1, o); }
  }

  lemma KeysPicked<K(!new), V(!new)>(es: seq<Tree<K, V>>, os: seq<nat>, o: OpClass<K, V>)
    requires InRange(os, |es|)
    ensures Keys(Pick(es, os), o) == Pick(Keys(es, o), os)
  {
    forall i | 0 <= i < |os| ensures Keys(Pick(es, os), o)[i] == Pick(Keys(es, o), os)[i] {
      KeysAt(Pick(es, os), i, o);
      KeysAt(es, os[i] - 1, o);
    }
  }

  lemma {:induction false} PickCovered<K, V>(es: seq<Tree<K, V>>, os: seq<nat>, covers: (K, V) -> bool)
    requires Covered(es, covers) && InRange(os, |es|)
    ensures Covered(Pick(es, os), covers)
    decreases |os|
  {
    if os != [] {
      var first := es[os[0] - 1];
      assert Pick(es, os) == [first] + Pick(es, os[1..]);
      PickCovered(es, os[1..], covers);
      CoveredAt(es, os[0] - 1, first, covers);
      CoveredAppend([first], Pick(es, os[1..]), covers);
    }
  }

  /** The page made of one side. */
  lemma SideIsCovered<K(!new), V(!new)>(es: seq<Tree<K, V>>, os: seq<nat>, k: K, o: OpClass<K, V>)
    requires Covered(es, o.covers) && o.Sound() && InRange(os, |es|) && SideCovers(Keys(es, o), os, k, o)
    ensures Covered(Pick(es, os), o.covers) && CoversAll(k, Leaves(Pick(es, os)), o.covers)
  {
    PickCovered(es, os, o.covers);
    KeysPicked(es, os, o);
    forall v | v in Leaves(Pick(es, os)) ensures o.covers(k, v) {
      var i := RowHasEntry(Pick(es, os), v, o);
      assert o.covers(Keys(es, o)[os[i] - 1], v);
    }
  }

  // ----- no row is lost -----

  /** The rows under the entries at these offsets. */
  ghost function RowsAt<K, V>(es: seq<Tree<K, V>>, os: seq<nat>): multiset<V>
    requires InRange(os, |es|)
  {
    multiset(Leaves(Pick(es, os)))
  }

  lemma PickAppend<T>(es: seq<T>, os: seq<nat>, os': seq<nat>)
    requires InRange(os, |es|) && InRange(os', |es|)
    ensures Pick(es, os + os') == Pick(es, os) + Pick(es, os')
  {
  }

  lemma RowsAppend<K, V>(es: seq<Tree<K, V>>, os: seq<nat>, os': seq<nat>)
    requires InRange(os, |es|) && InRange(os', |es|)
    ensures RowsAt(es, os + os') == RowsAt(es, os) + RowsAt(es, os')
  {
    PickAppend(es, os, os');
    LeavesAppend(Pick(es, os), Pick(es, os'));
  }

  lemma RowsWithout<K, V>(es: seq<Tree<K, V>>, os: seq<nat>, k: nat)
    requires InRange(os, |es|) && k < |os|
    ensures RowsAt(es, os) == RowsAt(es, os[..k] + os[k + 1..]) + RowsAt(es, [os[k]])
  {
    SplitAt(os, k);
    RowsAppend(es, os[..k] + [os[k]], os[k + 1..]);
    RowsAppend(es, os[..k], [os[k]]);
    RowsAppend(es, os[..k], os[k + 1..]);
  }

  lemma RowsFirst<K, V>(es: seq<Tree<K, V>>, os: seq<nat>)
    requires InRange(os, |es|) && os != []
    ensures RowsAt(es, os) == RowsAt(es, os[1..]) + RowsAt(es, [os[0]])
  {
    assert os == [os[0]] + os[1..];
    RowsAppend(es, [os[0]], os[1..]);
  }

  lemma {:induction false} RowsPermute<K, V>(es: seq<Tree<K, V>>, os: seq<nat>, os': seq<nat>)
    requires InRange(os, |es|) && InRange(os', |es|) && multiset(os) == multiset(os')
    ensures RowsAt(es, os) == RowsAt(es, os')
    decreases |os|
  {
    if os == [] {
      assert |multiset(os')| == 0;
    } else {
      assert os[0] in multiset(os');
      var k :| 0 <= k < |os'| && os'[k] == os[0];
      RemoveFirst(os, os', k);
      RowsPermute(es, os[1..], os'[..k] + os'[k + 1..]);
      RowsWithout(es, os', k);
      RowsFirst(es, os);
    }
  }

  lemma SidesHaveAllRows<K, V>(es: seq<Tree<K, V>>, left: seq<nat>, right: seq<nat>)
    requires InRange(left, |es|) && InRange(right, |es|) && multiset(left) + multiset(right) == multiset(Offsets(|es|))
    ensures RowsAt(es, left) + RowsAt(es, right) == multiset(Leaves(es))
  {
    RowsAppend(es, left, right);
    RowsPermute(es, left + right, Offsets(|es|));
    PickAll(es);
  }

  lemma PickAll<T>(es: seq<T>)
    ensures Pick(es, Offsets(|es|)) == es
  {
  }

  // ----- the two pages in place of one -----

  function Halves<K, V>(es: seq<Tree<K, V>>, sp: Split<K>): seq<Tree<K, V>>
    requires InRange(sp.left, |es|) && InRange(sp.right, |es|)
  {
    [Page(sp.ldatum, Pick(es, sp.left)), Page(sp.rdatum, Pick(es, sp.right))]
  }

  lemma RowsOfPage<K, V>(t: Tree<K, V>)
    requires t.Page?
    ensures Leaves([t]) == Leaves(t.entries)
  {
    assert [t][1..] == [];
  }

  lemma CoveredPage<K, V>(t: Tree<K, V>, covers: (K, V) -> bool)
    requires t.Page?
    ensures Covered([t], covers) <==> Covered(t.entries, covers) && CoversAll(t.key, Leaves(t.entries), covers)
  {
    assert [t][1..] == [];
  }

  lemma HalvesCovered<K(!new), V(!new)>(es: seq<Tree<K, V>>, sp: Split<K>, o: OpClass<K, V>)
    requires Covered(es, o.covers) && o.Sound() && SplitSound(Keys(es, o), sp, o)
    ensures Covered(Halves(es, sp), o.covers) && multiset(Leaves(Halves(es, sp))) == multiset(Leaves(es))
  {
    SideIsCovered(es, sp.left, sp.ldatum, o);
    SideIsCovered(es, sp.right, sp.rdatum, o);
    SidesHaveAllRows(es, sp.left, sp.right);
    var l, r := Page(sp.ldatum, Pick(es, sp.left)), Page(sp.rdatum, Pick(es, sp.right));
    assert Halves(es, sp) == [l] + [r];
    LeavesAppend([l], [r]);
    CoveredAppend([l], [r], o.covers);
    RowsOfPage(l);
    RowsOfPage(r);
    CoveredPage(l, o.covers);
    CoveredPage(r, o.covers);
  }

  // ----- changes anywhere in the tree -----

  /** Entry i of the page at path leads to a page. */
  predicate HasPage<K, V>(ts: seq<Tree<K, V>>, path: seq<nat>, i: nat)
    decreases path
  {
    if path == [] then i < |ts| && ts[i].Page?
    else path[0] < |ts| && ts[path[0]].Page? && HasPage(ts[path[0]].entries, path[1..], i)
  }

  function PageAt<K, V>(ts: seq<Tree<K, V>>, path: seq<nat>, i: nat): (t: Tree<K, V>)
    requires HasPage(ts, path, i)
    ensures t.Page?
    decreases path
  {
    if path == [] then ts[i] else PageAt(ts[path[0]].entries, path[1..], i)
  }

  /** The page gives way to new entries; the keys above stay as they are. */
  function ReplaceAt<K, V>(ts: seq<Tree<K, V>>, path: seq<nat>, i: nat, parts: seq<Tree<K, V>>): seq<Tree<K, V>>
    requires HasPage(ts, path, i)
    decreases path
  {
    if path == [] then ts[..i] + parts + ts[i + 1..]
    else
      var t := ts[path[0]];
      ts[path[0] := Page(t.key, ReplaceAt(t.entries, path[1..], i, parts))]
  }

  lemma LeavesBetween<K, V>(a: seq<Tree<K, V>>, b: seq<Tree<K, V>>, c: seq<Tree<K, V>>)
    ensures Leaves(a + b + c) == Leaves(a) + Leaves(b) + Leaves(c)
  {
    LeavesAppend(a + b, c);
    LeavesAppend(a, b);
  }

  lemma CoveredBetween<K, V>(a: seq<Tree<K, V>>, b: seq<Tree<K, V>>, c: seq<Tree<K, V>>, covers: (K, V) -> bool)
    ensures Covered(a + b + c, covers) <==> Covered(a, covers) && Covered(b, covers) && Covered(c, covers)
  {
    CoveredAppend(a + b, c, covers);
    CoveredAppend(a, b, covers);
  }

  lemma ReplaceEntry<K, V>(ts: seq<Tree<K, V>>, i: nat, parts: seq<Tree<K, V>>, covers: (K, V) -> bool)
    requires i < |ts| && ts[i].Page? && Covered(ts, covers)
    requires Covered(parts, covers) && multiset(Leaves(parts)) == multiset(Leaves(ts[i].entries))
    ensures var ts' := ts[..i] + parts + ts[i + 1..];
            Covered(ts', covers) && multiset(Leaves(ts')) == multiset(Leaves(ts))
  {
    SplitAt(ts, i);
    RowsOfPage(ts[i]);
    CoveredBetween(ts[..i], [ts[i]], ts[i + 1..], covers);
    CoveredBetween(ts[..i], parts, ts[i + 1..], covers);
    LeavesBetween(ts[..i], [ts[i]], ts[i + 1..]);
    LeavesBetween(ts[..i], parts, ts[i + 1..]);
  }

  lemma {:induction false} CoveredPageAt<K, V>(ts: seq<Tree<K, V>>, path: seq<nat>, i: nat, covers: (K, V) -> bool)
    requires HasPage(ts, path, i) && Covered(ts, covers)
    ensures var t := PageAt(ts, path, i); Covered(t.entries, covers) && CoversAll(t.key, Leaves(t.entries), covers)
    decreases path
  {
    if path == [] {
      CoveredAt(ts, i, ts[i], covers);
    } else {
      CoveredAt(ts, path[0], ts[path[0]], covers);
      CoveredPageAt(ts[path[0]].entries, path[1..], i, covers);
    }
  }

  /** New entries with the same rows, and keys that cover them, keep all keys covering. */
  lemma {:induction false} ReplaceKeepsCovered<K, V>(ts: seq<Tree<K, V>>, path: seq<nat>, i: nat,
                                                     parts: seq<Tree<K, V>>,
                                                     covers: (K, V) -> bool)
    requires HasPage(ts, path, i) && Covered(ts, covers)
    requires Covered(parts, covers) && multiset(Leaves(parts)) == multiset(Leaves(PageAt(ts, path, i).entries))
    ensures var ts' := ReplaceAt(ts, path, i, parts);
            Covered(ts', covers) && multiset(Leaves(ts')) == multiset(Leaves(ts))
    decreases path
  {
    if path == [] {
      ReplaceEntry(ts, i, parts, covers);
    } else {
      var j := path[0];
      var t := ts[j];
      var t' := Page(t.key, ReplaceAt(t.entries, path[1..], i, parts));
      CoveredAt(ts, j, t', covers);
      ReplaceKeepsCovered(t.entries, path[1..], i, parts, covers);
      SameRowsCovered(t.key, t.entries, t'.entries, covers);
      LeavesAt(ts, j, t');
      RowsOfPage(t);
      RowsOfPage(t');
      assert [t'][1..] == [];
    }
  }

  lemma SameRowsCovered<K, V>(k: K, es: seq<Tree<K, V>>, es': seq<Tree<K, V>>, covers: (K, V) -> bool)
    requires CoversAll(k, Leaves(es), covers) && multiset(Leaves(es')) == multiset(Leaves(es))
    ensures CoversAll(k, Leaves(es'), covers)
  {
    forall v | v in Leaves(es') ensures covers(k, v) { assert v in multiset(Leaves(es)); }
  }

  /** Splitting a page anywhere in the tree keeps the rows and keeps every key covering. */
  lemma SplitKeepsCovered<K(!new), V(!new)>(ts: seq<Tree<K, V>>, path: seq<nat>, i: nat, sp: Split<K>, o: OpClass<K, V>)
    requires HasPage(ts, path, i) && Covered(ts, o.covers) && o.Sound()
    requires SplitSound(Keys(PageAt(ts, path, i).entries, o), sp, o)
    ensures var ts' := ReplaceAt(ts, path, i, Halves(PageAt(ts, path, i).entries, sp));
            Covered(ts', o.covers) && multiset(Leaves(ts')) == multiset(Leaves(ts))
  {
    CoveredPageAt(ts, path, i, o.covers);
    HalvesCovered(PageAt(ts, path, i).entries, sp, o);
    ReplaceKeepsCovered(ts, path, i, Halves(PageAt(ts, path, i).entries, sp), o.covers);
  }

  /** The page with its key adjusted for a row. */
  function Widened<K(!new), V(!new)>(t: Tree<K, V>, v: V, o: OpClass<K, V>): Tree<K, V>
    requires t.Page?
  {
    Page(o.Adjust(t.key, v), t.entries)
  }

  /** So does adjusting a key anywhere for a row that then goes elsewhere. */
  lemma WidenKeepsCovered<K(!new), V(!new)>(ts: seq<Tree<K, V>>, path: seq<nat>, i: nat, v: V, o: OpClass<K, V>)
    requires HasPage(ts, path, i) && Covered(ts, o.covers) && o.Sound()
    ensures var ts' := ReplaceAt(ts, path, i, [Widened(PageAt(ts, path, i), v, o)]);
            Covered(ts', o.covers) && multiset(Leaves(ts')) == multiset(Leaves(ts))
  {
    var t := PageAt(ts, path, i);
    CoveredPageAt(ts, path, i, o.covers);
    forall w | w in Leaves(t.entries) ensures o.covers(o.Adjust(t.key, v), w) { AdjustCovers(o, t.key, v, w); }
    RowsOfPage(Widened(t, v, o));
    assert [Widened(t, v, o)][1..] == [];
    ReplaceKeepsCovered(ts, path, i, [Widened(t, v, o)], o.covers);
  }

  // ----- runs -----

  /** What can happen to an index. An insertion that has adjusted a key and then finds the page
      split starts over, and the row may end up under another key. */
  datatype Step<K, V> =
    | AddRow(path: seq<nat>, v: V)
    | WidenKey(path: seq<nat>, i: nat, v: V)
    | SplitPage(path: seq<nat>, i: nat, sp: Split<K>)
    | SplitRoot(sp: Split<K>)

  /** What the picksplit method may make of the keys of a page. */
  type Splitter<!K> = (seq<K>, Split<K>) -> bool

  ghost predicate SplitsSound<K(!new), V(!new)>(splits: Splitter<K>, o: OpClass<K, V>) {
    forall ks, sp :: splits(ks, sp) ==> SplitSound(ks, sp, o)
  }

  ghost predicate Possible<K(!new), V(!new)>(ts: seq<Tree<K, V>>, step: Step<K, V>, o: OpClass<K, V>,
                                             splits: Splitter<K>) {
    match step
    case AddRow(path, _) => Descends(ts, path)
    case WidenKey(path, i, _) => HasPage(ts, path, i)
    case SplitPage(path, i, sp) =>
      && HasPage(ts, path, i)
      && splits(Keys(PageAt(ts, path, i).entries, o), sp) && Divides(sp, |PageAt(ts, path, i).entries|)
    case SplitRoot(sp) => splits(Keys(ts, o), sp) && Divides(sp, |ts|)
  }

  ghost function After<K(!new), V(!new)>(ts: seq<Tree<K, V>>, step: Step<K, V>, o: OpClass<K, V>,
                                         splits: Splitter<K>): seq<Tree<K, V>>
    requires Possible(ts, step, o, splits)
  {
    match step
    case AddRow(path, v) => Insert(ts, path, v, o)
    case WidenKey(path, i, v) => ReplaceAt(ts, path, i, [Widened(PageAt(ts, path, i), v, o)])
    case SplitPage(path, i, sp) => ReplaceAt(ts, path, i, Halves(PageAt(ts, path, i).entries, sp))
    case SplitRoot(sp) => Halves(ts, sp)
  }

  ghost predicate Runs<K(!new), V(!new)>(start: seq<Tree<K, V>>, steps: seq<Step<K, V>>, ts: seq<Tree<K, V>>,
                                         o: OpClass<K, V>, splits: Splitter<K>)
    decreases |steps|
  {
    if steps == [] then ts == start
    else Possible(start, steps[0], o, splits) && Runs(After(start, steps[0], o, splits), steps[1..], ts, o, splits)
  }

  /** The rows that were inserted on the way. */
  ghost function Added<K, V>(steps: seq<Step<K, V>>): multiset<V> {
    if steps == [] then multiset{}
    else (match steps[0] case AddRow(_, v) => multiset{v} case _ => multiset{}) + Added(steps[1..])
  }

  lemma AddedFirst<K, V>(steps: seq<Step<K, V>>)
    requires steps != []
    ensures Added(steps) == Added([steps[0]]) + Added(steps[1..])
  {
    assert [steps[0]][1..] == [];
  }

  lemma StepKeepsCovered<K(!new), V(!new)>(ts: seq<Tree<K, V>>, step: Step<K, V>, o: OpClass<K, V>, splits: Splitter<K>)
    requires o.Sound() && SplitsSound(splits, o) && Covered(ts, o.covers) && Possible(ts, step, o, splits)
    ensures Covered(After(ts, step, o, splits), o.covers)
    ensures multiset(Leaves(After(ts, step, o, splits))) == multiset(Leaves(ts)) + Added([step])
  {
    assert [step][1..] == [];
    match step
    case AddRow(path, v) =>
      InsertKeepsCovered(ts, path, v, o);
      InsertAddsRow(ts, path, v, o);
    case WidenKey(path, i, v) => WidenKeepsCovered(ts, path, i, v, o);
    case SplitPage(path, i, sp) => SplitKeepsCovered(ts, path, i, sp, o);
    case SplitRoot(sp) => HalvesCovered(ts, sp, o);
  }

  /** Any number of insertions, finished or started over, and splits, in any order, from a tree
      built level by level, the empty one for instance: all keys cover what is below them, and
      the rows are those of the beginning and those inserted. */
  lemma {:induction false} RunKeepsCovered<K(!new), V(!new)>(start: seq<Tree<K, V>>, steps: seq<Step<K, V>>,
                                                             ts: seq<Tree<K, V>>, o: OpClass<K, V>, splits: Splitter<K>)
    requires o.Sound() && SplitsSound(splits, o) && Covered(start, o.covers) && Runs(start, steps, ts, o, splits)
    ensures Covered(ts, o.covers) && multiset(Leaves(ts)) == multiset(Leaves(start)) + Added(steps)
    decreases |steps|
  {
    if steps != [] {
      var next := After(start, steps[0], o, splits);
      StepKeepsCovered(start, steps[0], o, splits);
      RunKeepsCovered(next, steps[1..], ts, o, splits);
      AddedFirst(steps);
    }
  }
}
