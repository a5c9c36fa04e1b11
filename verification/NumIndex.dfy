/** Indexes on fixed-size keys as they come about: by any insertions, along any paths, and any
    page splits that gbt_num_picksplit makes.
 */
module NumIndex {
  import opened Gist
  import opened GistRuns
  import opened PageEntries
  import opened BTreeStrategy
  import opened NumGist
  import opened NumSplit

  ghost function Splits<T(!new)>(o: TypeInfo<T>): Splitter<NumKey<T>> {
    (ks: seq<NumKey<T>>, sp: Split<NumKey<T>>) => IsSplit(ks, sp, o)
  }

  lemma SideIsCovering<T(!new)>(keys: seq<NumKey<T>>, os: seq<nat>, k: NumKey<T>, o: TypeInfo<T>)
    requires o.TotalOrder() && InRange(os, |keys|) && Tightest(k, Pick(keys, os), o)
    ensures SideCovers(keys, os, k, Ops(o))
  {
    forall i, x | 0 <= i < |os| && Covers(keys[os[i] - 1], x, o) ensures Covers(k, x, o) {
      assert Pick(keys, os)[i] in Pick(keys, os);
    }
  }

  /** The two pages of a split cover what the one did. */
  lemma SplitsAreSound<T(!new)>(o: TypeInfo<T>)
    requires o.TotalOrder()
    ensures SplitsSound(Splits(o), Ops(o))
  {
    forall ks: seq<NumKey<T>>, sp: Split<NumKey<T>> | IsSplit(ks, sp, o) ensures SplitSound(ks, sp, Ops(o)) {
      SideIsCovering(ks, sp.left, sp.ldatum, o);
      SideIsCovering(ks, sp.right, sp.rdatum, o);
    }
  }

  /** An index that has seen any number of insertions and splits, starting empty or from a tree
      built by union, holds the rows put into it, and every search of it returns exactly
      those that satisfy the operator. */
  lemma SearchIsExact<T(!new)>(start: seq<Tree<NumKey<T>, T>>, steps: seq<Step<NumKey<T>, T>>,
                               ts: seq<Tree<NumKey<T>, T>>, s: Strategy, query: T, o: TypeInfo<T>)
    requires o.TotalOrder() && Built(start, Ops(o)) && Runs(start, steps, ts, Ops(o), Splits(o))
    ensures multiset(Leaves(ts)) == multiset(Leaves(start)) + Added(steps)
    ensures Scan(ts, k => Consistent(k, s, query, false, o), x => Consistent(LeafKey(x), s, query, true, o))
         == Filter(Leaves(ts), x => Matches(s, x, query, o))
  {
    RunIsCovered(start, steps, ts, o);
    SearchCovered(ts, s, query, o);
  }

  lemma RunIsCovered<T(!new)>(start: seq<Tree<NumKey<T>, T>>, steps: seq<Step<NumKey<T>, T>>,
                              ts: seq<Tree<NumKey<T>, T>>, o: TypeInfo<T>)
    requires o.TotalOrder() && Built(start, Ops(o)) && Runs(start, steps, ts, Ops(o), Splits(o))
    ensures Covered(ts, Ops(o).covers) && multiset(Leaves(ts)) == multiset(Leaves(start)) + Added(steps)
  {
    OpsSound(o);
    SplitsAreSound(o);
    BuiltIsCovered(start, Ops(o));
    RunKeepsCovered(start, steps, ts, Ops(o), Splits(o));
  }

  /** The same for an ordered scan: every matching row once, nearest to the target first. */
  method NearestFirst<T(!new)>(ghost start: seq<Tree<NumKey<T>, T>>, ghost steps: seq<Step<NumKey<T>, T>>,
                               ts: seq<Tree<NumKey<T>, T>>, s: Strategy, query: T, target: T, o: TypeInfo<T>)
    returns (out: seq<T>)
    requires o.TotalOrder() && o.Metric() && Built(start, Ops(o)) && Runs(start, steps, ts, Ops(o), Splits(o))
    ensures multiset(out) == multiset(Filter(Leaves(ts), x => Matches(s, x, query, o)))
    ensures forall i, j :: 0 <= i < j < |out| ==> o.dist(target, out[i]) <= o.dist(target, out[j])
  {
    RunIsCovered(start, steps, ts, o);
    out := NearestCovered(ts, s, query, target, o);
  }
}
