/** g_cube_picksplit: the quadratic split of boxes. */
module CubeSplit {
  import opened Cube
  import opened CubeSearch
  import opened CubeSize
  import opened PageEntries
  import opened QuadraticSplit

  const BOXES: Geometry<Box> := Geometry(UnionBox, InterBox, Size)

  // ----- each side's datum is the union of its members -----

  ghost predicate Within(keys: seq<Box>, os: set<nat>) {
    forall o :: o in os ==> 1 <= o <= |keys|
  }

  /** Both ends of box d in dimension i are those of boxes at the given offsets. */
  ghost predicate Attained(keys: seq<Box>, os: set<nat>, d: Box, i: nat)
    requires Within(keys, os)
  {
    && (exists o :: o in os && Lo(At(keys, o), i) == Lo(d, i))
    && (exists o :: o in os && Hi(At(keys, o), i) == Hi(d, i))
  }

  /** d is the union of the boxes at the given offsets: it covers them all, and its number of
      dimensions and each of its ends comes from one of them. */
  ghost predicate IsUnionOf(keys: seq<Box>, d: Box, os: set<nat>) {
    && Within(keys, os)
    && (forall o :: o in os ==> Covers(d, At(keys, o)))
    && (exists o :: o in os && At(keys, o).dim == d.dim)
    && (forall i :: 0 <= i < d.dim ==> Attained(keys, os, d, i))
  }

  lemma UnionOfOne(keys: seq<Box>, o: nat)
    requires 1 <= o <= |keys|
    ensures IsUnionOf(keys, UnionBox(At(keys, o), At(keys, o)), {o})
  {
    var b := At(keys, o);
    var d := UnionBox(b, b);
    CoversItself(b);
    UnionCovers(b, b, b);
    forall i: nat | i < d.dim ensures Attained(keys, {o}, d, i) {
      UnionIntervals(b, b, i);
      assert o in {o};
    }
    assert o in {o} && b.dim == d.dim;
  }

  lemma UnionOfOneMore(keys: seq<Box>, d: Box, os: set<nat>, o: nat)
    requires 1 <= o <= |keys| && IsUnionOf(keys, d, os)
    ensures IsUnionOf(keys, UnionBox(d, At(keys, o)), os + {o})
  {
    var b := At(keys, o);
    var u := UnionBox(d, b);
    CoversItself(b);
    forall m | m in os + {o} ensures Covers(u, At(keys, m)) {
      UnionCovers(d, b, At(keys, m));
    }
    forall i: nat | i < u.dim ensures Attained(keys, os + {o}, u, i) {
      UnionAttained(keys, d, os, o, i);
    }
    var m :| m in os && At(keys, m).dim == d.dim;
    assert m in os + {o} && o in os + {o};
  }

  lemma UnionAttained(keys: seq<Box>, d: Box, os: set<nat>, o: nat, i: nat)
    requires 1 <= o <= |keys| && IsUnionOf(keys, d, os) && i < UnionBox(d, At(keys, o)).dim
    ensures Attained(keys, os + {o}, UnionBox(d, At(keys, o)), i)
  {
    var b := At(keys, o);
    UnionIntervals(d, b, i);
    assert o in os + {o};
    if i < d.dim {
      assert Attained(keys, os, d, i);
      var l :| l in os && Lo(At(keys, l), i) == Lo(d, i);
      var h :| h in os && Hi(At(keys, h), i) == Hi(d, i);
      assert l in os + {o} && h in os + {o};
    } else {
      var m :| m in os && At(keys, m).dim == d.dim;
      assert m in os + {o};
      assert Lo(At(keys, m), i) == 0.0 == Lo(d, i) && Hi(At(keys, m), i) == 0.0 == Hi(d, i);
    }
  }

  lemma UnionsAccumulate(keys: seq<Box>)
    ensures Accumulates(BOXES, keys, (d, os) => IsUnionOf(keys, d, os))
  {
    forall o: nat | 1 <= o <= |keys| ensures IsUnionOf(keys, UnionBox(At(keys, o), At(keys, o)), {o}) {
      UnionOfOne(keys, o);
    }
    forall d: Box, os: set<nat>, o: nat | 1 <= o <= |keys| && IsUnionOf(keys, d, os)
      ensures IsUnionOf(keys, UnionBox(d, At(keys, o)), os + {o})
    {
      UnionOfOneMore(keys, d, os, o);
    }
  }

  lemma SidesAreUnions(keys: seq<Box>, s1: nat, s2: nat)
    requires 1 <= s1 < s2 <= |keys|
    ensures var sp := Distributed(BOXES, keys, s1, s2, |keys|);
            && Partitions(sp, |keys|) && s1 in sp.left && s2 in sp.right
            && IsUnionOf(keys, sp.ldatum, Members(sp.left)) && IsUnionOf(keys, sp.rdatum, Members(sp.right))
  {
    UnionsAccumulate(keys);
    WholeSplit(BOXES, keys, s1, s2, (d, os) => IsUnionOf(keys, d, os));
  }

  // ----- unions are settled -----

  /** Two unions of the same boxes have the same intervals. */
  lemma UnionsAgree(keys: seq<Box>, d: Box, d': Box, os: set<nat>, i: nat)
    requires IsUnionOf(keys, d, os) && IsUnionOf(keys, d', os)
    ensures d.dim == d'.dim && Lo(d, i) == Lo(d', i) && Hi(d, i) == Hi(d', i)
  {
    UnionWithin(keys, d, d', os, i);
    UnionWithin(keys, d', d, os, i);
  }

  lemma UnionWithin(keys: seq<Box>, d: Box, d': Box, os: set<nat>, i: nat)
    requires IsUnionOf(keys, d, os) && IsUnionOf(keys, d', os)
    ensures d.dim <= d'.dim && SpansAt(d', d, i)
  {
    var m :| m in os && At(keys, m).dim == d.dim;
    assert Covers(d', At(keys, m)) && SpansAt(d', At(keys, m), i);
    if i < d.dim {
      assert Attained(keys, os, d, i);
      var l :| l in os && Lo(At(keys, l), i) == Lo(d, i);
      var h :| h in os && Hi(At(keys, h), i) == Hi(d, i);
      assert Covers(d', At(keys, l)) && SpansAt(d', At(keys, l), i);
      assert Covers(d', At(keys, h)) && SpansAt(d', At(keys, h), i);
    }
  }

  function Growth(d: Box, b: Box): real {
    Size(UnionBox(d, b)) - Size(d)
  }

  /** So they are equally large and have to grow by as much to take in another. */
  lemma GrowthIsSettled(keys: seq<Box>, d: Box, d': Box, os: set<nat>, b: Box)
    requires IsUnionOf(keys, d, os) && IsUnionOf(keys, d', os)
    ensures Size(d) == Size(d') && Growth(d, b) == Growth(d', b)
  {
    UnionsAgree(keys, d, d', os, 0);
    forall i: nat ensures Lo(d, i) == Lo(d', i) && Hi(d, i) == Hi(d', i) { UnionsAgree(keys, d, d', os, i); }
    assert Sides(d) == Sides(d');
    assert UnionBox(d, b) == UnionBox(d', b);
  }

  // ----- the split -----

  function Waste(a: Box, b: Box): real {
    Size(UnionBox(a, b)) - Size(InterBox(a, b))
  }

  /** The seeds: of all pairs that leave out the last entry the most wasteful one, and the first of
      these. With two entries there is no such pair. */
  ghost predicate AreSeeds(keys: seq<Box>, s1: nat, s2: nat) {
    && 1 <= s1 < s2 <= |keys| && (|keys| == 2 || s2 < |keys|)
    && forall a, b :: 1 <= a < b < |keys| ==>
         && Waste(At(keys, a), At(keys, b)) <= Waste(At(keys, s1), At(keys, s2))
         && (Earlier(a, b, s1, s2) ==> Waste(At(keys, a), At(keys, b)) < Waste(At(keys, s1), At(keys, s2)))
  }

  /** Entry o is on the side whose union with its seed, of what was placed before o, had to grow
      less to take it in; on the right one if there was no difference. */
  ghost predicate GrowsLess(keys: seq<Box>, sp: Split<Box>, s1: nat, s2: nat, o: nat)
    requires 1 <= o <= |keys|
  {
    exists dl, dr ::
      && IsUnionOf(keys, dl, {s1} + Before(sp.left, o)) && IsUnionOf(keys, dr, {s2} + Before(sp.right, o))
      && (o in sp.left <==> Growth(dl, At(keys, o)) < Growth(dr, At(keys, o)))
  }

  ghost predicate AllGrowLess(keys: seq<Box>, sp: Split<Box>, s1: nat, s2: nat) {
    forall o :: 1 <= o <= |keys| && o != s1 && o != s2 ==> GrowsLess(keys, sp, s1, s2, o)
  }

  /** A split of a page from these seeds: every entry on exactly one side, the seeds apart and each
      other entry where less growth was needed, each side in page order, and each side's datum
      the union of the side. */
  ghost predicate SplitFrom(keys: seq<Box>, sp: Split<Box>, s1: nat, s2: nat) {
    && Partitions(sp, |keys|) && s1 in sp.left && s2 in sp.right
    && AllGrowLess(keys, sp, s1, s2)
    && IsUnionOf(keys, sp.ldatum, Members(sp.left)) && IsUnionOf(keys, sp.rdatum, Members(sp.right))
  }

  ghost predicate IsSplit(keys: seq<Box>, sp: Split<Box>) {
    exists s1, s2 :: AreSeeds(keys, s1, s2) && SplitFrom(keys, sp, s1, s2)
  }

  lemma DistributedIsSplit(keys: seq<Box>, s1: nat, s2: nat)
    requires 1 <= s1 < s2 <= |keys|
    ensures SplitFrom(keys, Distributed(BOXES, keys, s1, s2, |keys|), s1, s2)
  {
    var sp := Distributed(BOXES, keys, s1, s2, |keys|);
    SidesAreUnions(keys, s1, s2);
    forall o | 1 <= o <= |keys| && o != s1 && o != s2 ensures GrowsLess(keys, sp, s1, s2, o) {
      PlacedWhereLessGrows(keys, s1, s2, o);
    }
  }

  lemma PlacedWhereLessGrows(keys: seq<Box>, s1: nat, s2: nat, o: nat)
    requires 1 <= s1 < s2 <= |keys| && 1 <= o <= |keys| && o != s1 && o != s2
    ensures GrowsLess(keys, Distributed(BOXES, keys, s1, s2, |keys|), s1, s2, o)
  {
    UnionsAccumulate(keys);
    var dl, dr := PlacedByGrowth(BOXES, keys, s1, s2, o, (d, os) => IsUnionOf(keys, d, os));
    SplitGrowsLess(keys, Distributed(BOXES, keys, s1, s2, |keys|), s1, s2, o, dl, dr);
  }

  lemma SplitGrowsLess(keys: seq<Box>, sp: Split<Box>, s1: nat, s2: nat, o: nat, dl: Box, dr: Box)
    requires 1 <= o <= |keys|
    requires IsUnionOf(keys, dl, {s1} + Before(sp.left, o)) && IsUnionOf(keys, dr, {s2} + Before(sp.right, o))
    requires o in sp.left <==> Growth(dl, At(keys, o)) < Growth(dr, At(keys, o))
    ensures GrowsLess(keys, sp, s1, s2, o)
  {
  }

  lemma SameWaste(a: Box, b: Box)
    ensures BOXES.Waste(a, b) == Waste(a, b)
  {
  }

  lemma SeedsFound(keys: seq<Box>, s1: nat, s2: nat)
    requires 1 <= s1 < s2 <= |keys| && (|keys| == 2 || s2 < |keys|)
    requires MostWasteful(BOXES, keys, s1, s2, |keys|, 0) && FirstSoWasteful(BOXES, keys, s1, s2)
    ensures AreSeeds(keys, s1, s2)
  {
    SameWaste(At(keys, s1), At(keys, s2));
    forall a, b | 1 <= a < b < |keys|
      ensures Waste(At(keys, a), At(keys, b)) <= Waste(At(keys, s1), At(keys, s2))
      ensures Earlier(a, b, s1, s2) ==> Waste(At(keys, a), At(keys, b)) < Waste(At(keys, s1), At(keys, s2))
    {
      SameWaste(At(keys, a), At(keys, b));
      assert Earlier(a, b, |keys|, 0);
    }
  }

  /** The split of a page. */
  method Picksplit(keys: seq<Box>) returns (sp: Split<Box>)
    requires |keys| >= 2
    ensures IsSplit(keys, sp)
  {
    var s1, s2 := PickSeeds(BOXES, keys);
    sp := Distribute(BOXES, keys, s1, s2);
    DistributedIsSplit(keys, s1, s2);
    SeedsFound(keys, s1, s2);
  }

  // ----- there is only one such split -----

  lemma SeedsSettled(keys: seq<Box>, s1: nat, s2: nat, t1: nat, t2: nat)
    requires AreSeeds(keys, s1, s2) && AreSeeds(keys, t1, t2)
    ensures s1 == t1 && s2 == t2
  {
    NotEarlier(keys, s1, s2, t1, t2);
    NotEarlier(keys, t1, t2, s1, s2);
  }

  lemma NotEarlier(keys: seq<Box>, s1: nat, s2: nat, t1: nat, t2: nat)
    requires AreSeeds(keys, s1, s2) && AreSeeds(keys, t1, t2)
    ensures !Earlier(s1, s2, t1, t2)
  {
    var w, v := Waste(At(keys, s1), At(keys, s2)), Waste(At(keys, t1), At(keys, t2));
    assert |keys| > 2 ==> v <= w && (Earlier(s1, s2, t1, t2) ==> w < v);
  }

  lemma SameGrowth(keys: seq<Box>, sp: Split<Box>, sp': Split<Box>, s1: nat, s2: nat, o: nat)
    requires 1 <= o <= |keys| && GrowsLess(keys, sp, s1, s2, o) && GrowsLess(keys, sp', s1, s2, o)
    requires Before(sp.left, o) == Before(sp'.left, o) && Before(sp.right, o) == Before(sp'.right, o)
    ensures o in sp.left <==> o in sp'.left
  {
    var b := At(keys, o);
    var dl, dr :| IsUnionOf(keys, dl, {s1} + Before(sp.left, o)) && IsUnionOf(keys, dr, {s2} + Before(sp.right, o))
               && (o in sp.left <==> Growth(dl, b) < Growth(dr, b));
    var dl', dr' :| IsUnionOf(keys, dl', {s1} + Before(sp'.left, o))
                 && IsUnionOf(keys, dr', {s2} + Before(sp'.right, o))
                 && (o in sp'.left <==> Growth(dl', b) < Growth(dr', b));
    GrowthIsSettled(keys, dl, dl', {s1} + Before(sp.left, o), b);
    GrowthIsSettled(keys, dr, dr', {s2} + Before(sp.right, o), b);
  }

  lemma {:induction false} SideSettled(keys: seq<Box>, sp: Split<Box>, sp': Split<Box>, s1: nat, s2: nat, o: nat)
    requires 1 <= o <= |keys| && Partitions(sp, |keys|) && Partitions(sp', |keys|)
    requires s1 in sp.left && s1 in sp'.left && s2 in sp.right && s2 in sp'.right
    requires AllGrowLess(keys, sp, s1, s2) && AllGrowLess(keys, sp', s1, s2)
    ensures o in sp.left <==> o in sp'.left
    decreases o
  {
    if o != s1 && o != s2 {
      forall m | 1 <= m < o ensures m in sp.left <==> m in sp'.left { SideSettled(keys, sp, sp', s1, s2, m); }
      SettledAt(keys, sp, sp', s1, s2, o);
    }
  }

  lemma SettledAt(keys: seq<Box>, sp: Split<Box>, sp': Split<Box>, s1: nat, s2: nat, o: nat)
    requires 1 <= o <= |keys| && GrowsLess(keys, sp, s1, s2, o) && GrowsLess(keys, sp', s1, s2, o)
    requires Partitions(sp, |keys|) && Partitions(sp', |keys|)
    requires forall m :: 1 <= m < o ==> (m in sp.left <==> m in sp'.left)
    ensures o in sp.left <==> o in sp'.left
  {
    SameBefore(sp, sp', |keys|, o);
    SameGrowth(keys, sp, sp', s1, s2, o);
  }

  lemma SameBefore(sp: Split<Box>, sp': Split<Box>, n: nat, o: nat)
    requires Partitions(sp, n) && Partitions(sp', n) && 1 <= o <= n
    requires forall m :: 1 <= m < o ==> (m in sp.left <==> m in sp'.left)
    ensures Before(sp.left, o) == Before(sp'.left, o) && Before(sp.right, o) == Before(sp'.right, o)
  {
  }

  lemma LastIsGreatest(a: seq<nat>)
    requires Ascending(a) && a != []
    ensures var last := a[|a| - 1];
            && last in Members(a) && Members(a[..|a| - 1]) == Members(a) - {last}
            && forall o :: o in Members(a) ==> o <= last
  {
    var last := |a| - 1;
    assert a == a[..last] + [a[last]];
    forall o | o in a[..last] ensures o < a[last] { var i :| 0 <= i < last && a[i] == o; }
  }

  lemma NoMembers(a: seq<nat>)
    ensures a == [] <==> Members(a) == {}
  {
    if a != [] { assert a[0] in Members(a); }
  }

  lemma {:induction false} SameAscending(a: seq<nat>, b: seq<nat>)
    requires Ascending(a) && Ascending(b) && Members(a) == Members(b)
    ensures a == b
    decreases |a|
  {
    NoMembers(a);
    NoMembers(b);
    if a != [] {
      LastIsGreatest(a);
      LastIsGreatest(b);
      SameAscending(a[..|a| - 1], b[..|b| - 1]);
      assert a == a[..|a| - 1] + [a[|a| - 1]] && b == b[..|b| - 1] + [b[|b| - 1]];
    }
  }

  lemma SameMembers(sp: Split<Box>, sp': Split<Box>, n: nat)
    requires Partitions(sp, n) && Partitions(sp', n)
    requires forall o :: 1 <= o <= n ==> (o in sp.left <==> o in sp'.left)
    ensures Members(sp.left) == Members(sp'.left) && Members(sp.right) == Members(sp'.right)
  {
  }

  /** What is said of a split determines which entries go where. */
  lemma SplitIsSettled(keys: seq<Box>, sp: Split<Box>, sp': Split<Box>)
    requires IsSplit(keys, sp) && IsSplit(keys, sp')
    ensures sp.left == sp'.left && sp.right == sp'.right
  {
    var s1, s2 :| AreSeeds(keys, s1, s2) && SplitFrom(keys, sp, s1, s2);
    var t1, t2 :| AreSeeds(keys, t1, t2) && SplitFrom(keys, sp', t1, t2);
    SeedsSettled(keys, s1, s2, t1, t2);
    forall o | 1 <= o <= |keys| ensures o in sp.left <==> o in sp'.left {
      SideSettled(keys, sp, sp', s1, s2, o);
    }
    SameMembers(sp, sp', |keys|);
    SameAscending(sp.left, sp'.left);
    SameAscending(sp.right, sp'.right);
  }
}
