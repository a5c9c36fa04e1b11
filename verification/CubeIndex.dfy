/** Indexes on boxes as they come about: by any insertions, along any paths, and any page
    splits that g_cube_picksplit makes.
 */
module CubeIndex {
  import opened Cube
  import opened Gist
  import opened GistRuns
  import opened PageEntries
  import opened CubeSearch
  import opened CubeSplit
  import opened QuadraticSplit

  // ----- the split -----

  ghost function Splits(): Splitter<Box> {
    (ks: seq<Box>, sp: Split<Box>) => IsSplit(ks, sp)
  }

  lemma {:induction false} AscendingCounts(os: seq<nat>, o: nat)
    requires Ascending(os)
    ensures multiset(os)[o] == if o in os then 1 else 0
  {
    if os != [] {
      var last := |os| - 1;
      assert os == os[..last] + [os[last]];
      AscendingCounts(os[..last], o);
    }
  }

  lemma PartitionDivides(sp: Split<Box>, n: nat)
    requires Partitions(sp, n)
    ensures Divides(sp, n)
  {
    forall i | 0 <= i < |sp.left| ensures 1 <= sp.left[i] <= n { assert sp.left[i] in sp.left; }
    forall i | 0 <= i < |sp.right| ensures 1 <= sp.right[i] <= n { assert sp.right[i] in sp.right; }
    var os := Offsets(n);
    forall o: nat ensures (multiset(sp.left) + multiset(sp.right))[o] == multiset(os)[o] {
      AscendingCounts(sp.left, o);
      AscendingCounts(sp.right, o);
      AscendingCounts(os, o);
      assert 1 <= o <= n ==> os[o - 1] == o;
    }
  }

  lemma CoversTransitive(k: Box, e: Box, v: Box)
    requires Covers(k, e) && Covers(e, v)
    ensures Covers(k, v)
  {
    forall i: nat ensures SpansAt(k, v, i) {
      assert SpansAt(k, e, i) && SpansAt(e, v, i);
    }
  }

  lemma SideIsCovering(keys: seq<Box>, os: seq<nat>, k: Box)
    requires InRange(os, |keys|) && IsUnionOf(keys, k, Members(os))
    ensures SideCovers(keys, os, k, Ops())
  {
    forall i, v | 0 <= i < |os| && Covers(keys[os[i] - 1], v) ensures Covers(k, v) {
      assert os[i] in Members(os);
      CoversTransitive(k, keys[os[i] - 1], v);
    }
  }

  /** The two pages of a split cover what the one did. */
  lemma SplitsAreSound()
    ensures SplitsSound(Splits(), Ops())
  {
    forall ks: seq<Box>, sp: Split<Box> | IsSplit(ks, sp) ensures SplitSound(ks, sp, Ops()) {
      var s1, s2 :| AreSeeds(ks, s1, s2) && SplitFrom(ks, sp, s1, s2);
      PartitionDivides(sp, |ks|);
      SideIsCovering(ks, sp.left, sp.ldatum);
      SideIsCovering(ks, sp.right, sp.rdatum);
    }
  }

  // ----- searching -----

  /** An index that has seen any number of insertions and splits, starting empty or from a tree
      built by union, holds the boxes put into it, and every search of it returns exactly
      those that satisfy the operator; for "contained by", if the query's extra dimensions
      include zero wherever they matter. */
  lemma SearchIsExact(start: seq<Tree<Box, Box>>, steps: seq<Step<Box, Box>>, ts: seq<Tree<Box, Box>>, s: Strategy,
                      query: Box)
    requires Built(start, Ops()) && Runs(start, steps, ts, Ops(), Splits())
    requires s == ContainedBy ==> forall v :: v in Leaves(ts) && Contains(query, v) ==> ZeroBeyond(query, v.dim)
    ensures multiset(Leaves(ts)) == multiset(Leaves(start)) + Added(steps)
    ensures Scan(ts, k => InternalConsistent(k, query, s), v => LeafConsistent(v, query, s))
         == Filter(Leaves(ts), v => Matches(v, query, s))
  {
    OpsSound();
    SplitsAreSound();
    BuiltIsCovered(start, Ops());
    RunKeepsCovered(start, steps, ts, Ops(), Splits());
    SearchCovered(ts, s, query);
  }
}
