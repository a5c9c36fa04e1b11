/** Guttman's quadratic split as g_cube_picksplit runs it, over any kind of box with a union,
    an intersection and a size. Entries are numbered from one; the last of them is the new
    one, which is distributed like the others but is not among the candidates for seeds.
 */
module QuadraticSplit {
  import opened PageEntries

  datatype Geometry<!B> = Geometry(union: (B, B) -> B, inter: (B, B) -> B, size: B -> real) {

    /** The space wasted by putting two boxes on one page. */
    function Waste(a: B, b: B): real {
      size(union(a, b)) - size(inter(a, b))
    }

    /** How much box d must grow to take in b. */
    function Growth(d: B, b: B): real {
      size(union(d, b)) - size(d)
    }
  }

  function At<B>(keys: seq<B>, o: nat): B
    requires 1 <= o <= |keys|
  {
    keys[o - 1]
  }

  // ----- seeds -----

  ghost function WasteAt<B>(g: Geometry<B>, keys: seq<B>, a: nat, b: nat): real
    requires 1 <= a <= |keys| && 1 <= b <= |keys|
  {
    g.Waste(At(keys, a), At(keys, b))
  }

  /** Pair (a, b) is looked at before pair (i, j). */
  predicate Earlier(a: nat, b: nat, i: nat, j: nat) {
    a < i || (a == i && b < j)
  }

  /** No pair before (i, j), in the order in which the pairs are looked at, is more wasteful
      than the pair of seeds. */
  ghost predicate MostWasteful<B>(g: Geometry<B>, keys: seq<B>, s1: nat, s2: nat, i: nat, j: nat)
    requires 1 <= s1 <= |keys| && 1 <= s2 <= |keys|
  {
    forall a, b :: 1 <= a < b < |keys| && Earlier(a, b, i, j) ==>
      WasteAt(g, keys, a, b) <= WasteAt(g, keys, s1, s2)
  }

  /** The seeds are more wasteful than every pair looked at before them. */
  ghost predicate FirstSoWasteful<B>(g: Geometry<B>, keys: seq<B>, s1: nat, s2: nat)
    requires 1 <= s1 <= |keys| && 1 <= s2 <= |keys|
  {
    forall a, b :: 1 <= a < b < |keys| && Earlier(a, b, s1, s2) ==>
      WasteAt(g, keys, a, b) < WasteAt(g, keys, s1, s2)
  }

  /** What is known of the seeds once the pairs before (i, j) have been looked at. */
  ghost predicate SeedsSoFar<B>(g: Geometry<B>, keys: seq<B>, s1: nat, s2: nat, waste: real, firstTime: bool, i: nat,
                                j: nat)
    requires |keys| >= 2
  {
    && 1 <= s1 < s2 <= |keys|
    && (firstTime ==> s1 == 1 && s2 == 2)
    && (!firstTime ==> s2 < |keys| && waste == WasteAt(g, keys, s1, s2))
    && MostWasteful(g, keys, s1, s2, i, j) && FirstSoWasteful(g, keys, s1, s2)
  }

  lemma NextPair<B>(g: Geometry<B>, keys: seq<B>, s1: nat, s2: nat, t1: nat, t2: nat, i: nat, j: nat)
    requires 1 <= s1 <= |keys| && 1 <= s2 <= |keys| && 1 <= t1 <= |keys| && 1 <= t2 <= |keys|
    requires 1 <= i < j < |keys| && MostWasteful(g, keys, s1, s2, i, j)
    requires WasteAt(g, keys, s1, s2) <= WasteAt(g, keys, t1, t2)
    requires WasteAt(g, keys, i, j) <= WasteAt(g, keys, t1, t2)
    ensures MostWasteful(g, keys, t1, t2, i, j + 1)
  {
    forall a, b | 1 <= a < b < |keys| && Earlier(a, b, i, j + 1)
      ensures WasteAt(g, keys, a, b) <= WasteAt(g, keys, t1, t2)
    {
      if !Earlier(a, b, i, j) { assert a == i && b == j; }
    }
  }

  lemma BeatsEarlier<B>(g: Geometry<B>, keys: seq<B>, s1: nat, s2: nat, i: nat, j: nat)
    requires 1 <= s1 <= |keys| && 1 <= s2 <= |keys| && 1 <= i < j < |keys| && MostWasteful(g, keys, s1, s2, i, j)
    requires WasteAt(g, keys, s1, s2) < WasteAt(g, keys, i, j)
    ensures FirstSoWasteful(g, keys, i, j)
  {
  }

  /** One pair looked at: it becomes the pair of seeds, or does not. */
  lemma SeedsNext<B>(g: Geometry<B>, keys: seq<B>, s1: nat, s2: nat, waste: real, first: bool, i: nat, j: nat)
    requires 1 <= i < j < |keys| && (first <==> i == 1 && j == 2) && SeedsSoFar(g, keys, s1, s2, waste, first, i, j)
    ensures var w := WasteAt(g, keys, i, j);
            if w > waste || first then SeedsSoFar(g, keys, i, j, w, false, i, j + 1)
            else SeedsSoFar(g, keys, s1, s2, waste, false, i, j + 1)
  {
    var w := WasteAt(g, keys, i, j);
    if first {
      assert forall a, b :: 1 <= a < b < |keys| ==> !Earlier(a, b, 1, 2);
    } else if w > waste {
      BeatsEarlier(g, keys, s1, s2, i, j);
      NextPair(g, keys, s1, s2, i, j, i, j);
    } else {
      NextPair(g, keys, s1, s2, s1, s2, i, j);
    }
  }

  /** The inner loop: entry i with each candidate after it. */
  method PairWithLater<B>(g: Geometry<B>, keys: seq<B>, i: nat, s1: nat, s2: nat, waste: real, firstTime: bool)
    returns (t1: nat, t2: nat, w: real)
    requires 1 <= i < |keys| - 1 && (firstTime <==> i == 1)
    requires SeedsSoFar(g, keys, s1, s2, waste, firstTime, i, 0)
    ensures SeedsSoFar(g, keys, t1, t2, w, false, i + 1, 0)
  {
    var first := firstTime;
    t1, t2, w := s1, s2, waste;
    for j := i + 1 to |keys|
      invariant first <==> i == 1 && j == 2
      invariant SeedsSoFar(g, keys, t1, t2, w, first, i, j)
    {
      var alpha, beta := At(keys, i), At(keys, j);
      var sizeWaste := g.size(g.union(alpha, beta)) - g.size(g.inter(alpha, beta));
      SeedsNext(g, keys, t1, t2, w, first, i, j);
      if sizeWaste > w || first {
        t1, t2, w := i, j, sizeWaste;
        first := false;
      }
    }
  }

  /** The loops that look for the seeds. */
  method PickSeeds<B>(g: Geometry<B>, keys: seq<B>) returns (s1: nat, s2: nat)
    requires |keys| >= 2
    ensures 1 <= s1 < s2 <= |keys|
    ensures |keys| == 2 ==> s1 == 1 && s2 == 2
    ensures |keys| > 2 ==> s2 < |keys|
    ensures MostWasteful(g, keys, s1, s2, |keys|, 0) && FirstSoWasteful(g, keys, s1, s2)
  {
    var maxoff := |keys| - 1;
    var firstTime, waste := true, 0.0;
    s1, s2 := 1, 2;
    for i := 1 to maxoff
      invariant firstTime <==> i == 1
      invariant SeedsSoFar(g, keys, s1, s2, waste, firstTime, i, 0)
    {
      s1, s2, waste := PairWithLater(g, keys, i, s1, s2, waste, firstTime);
      firstTime := false;
    }
  }

  // ----- distribution -----

  /** Put entry o where it belongs: the seeds on their own sides, any other entry on the side
      that has to grow less, and on the right if there is no difference. */
  function Place<B>(g: Geometry<B>, keys: seq<B>, s1: nat, s2: nat, sp: Split<B>, o: nat): Split<B>
    requires 1 <= o <= |keys|
  {
    if o == s1 then sp.(left := sp.left + [o])
    else if o == s2 then sp.(right := sp.right + [o])
    else if g.Growth(sp.ldatum, At(keys, o)) < g.Growth(sp.rdatum, At(keys, o))
    then sp.(left := sp.left + [o], ldatum := g.union(sp.ldatum, At(keys, o)))
    else sp.(right := sp.right + [o], rdatum := g.union(sp.rdatum, At(keys, o)))
  }

  function Distributed<B>(g: Geometry<B>, keys: seq<B>, s1: nat, s2: nat, n: nat): Split<B>
    requires 1 <= s1 <= |keys| && 1 <= s2 <= |keys| && n <= |keys|
  {
    if n == 0
    then Split([], [], g.union(At(keys, s1), At(keys, s1)), g.union(At(keys, s2), At(keys, s2)))
    else Place(g, keys, s1, s2, Distributed(g, keys, s1, s2, n - 1), n)
  }

  /** The loop that distributes the entries. The sizes of the two running unions are carried
      along instead of computed afresh. */
  method Distribute<B>(g: Geometry<B>, keys: seq<B>, s1: nat, s2: nat) returns (sp: Split<B>)
    requires 1 <= s1 < s2 <= |keys|
    ensures sp == Distributed(g, keys, s1, s2, |keys|)
  {
    var left: seq<nat>, right: seq<nat> := [], [];
    var datumL := g.union(At(keys, s1), At(keys, s1));
    var sizeL := g.size(datumL);
    var datumR := g.union(At(keys, s2), At(keys, s2));
    var sizeR := g.size(datumR);
    for i := 1 to |keys| + 1
      invariant Split(left, right, datumL, datumR) == Distributed(g, keys, s1, s2, i - 1)
      invariant sizeL == g.size(datumL) && sizeR == g.size(datumR)
    {
      if i == s1 {
        left := left + [i];
        continue;
      } else if i == s2 {
        right := right + [i];
        continue;
      }
      var unionL := g.union(datumL, At(keys, i));
      var unionR := g.union(datumR, At(keys, i));
      var sizeAlpha := g.size(unionL);
      var sizeBeta := g.size(unionR);
      if sizeAlpha - sizeL < sizeBeta - sizeR {
        datumL := unionL;
        sizeL := sizeAlpha;
        left := left + [i];
      } else {
        datumR := unionR;
        sizeR := sizeBeta;
        right := right + [i];
      }
    }
    sp := Split(left, right, datumL, datumR);
  }

  // ----- what the distribution amounts to -----

  ghost predicate Ascending(os: seq<nat>) {
    forall i, j :: 0 <= i < j < |os| ==> os[i] < os[j]
  }

  /** Every entry up to n is on exactly one side, and each side is in ascending order. */
  ghost predicate Partitions<B>(sp: Split<B>, n: nat) {
    && Ascending(sp.left) && Ascending(sp.right)
    && (forall o :: o in sp.left || o in sp.right ==> 1 <= o <= n)
    && (forall o :: 1 <= o <= n ==> (o in sp.left <==> o !in sp.right))
  }

  lemma AscendingSnoc(os: seq<nat>, n: nat)
    requires Ascending(os) && forall o :: o in os ==> o < n
    ensures Ascending(os + [n])
  {
    forall i | 0 <= i < |os| ensures os[i] < n { assert os[i] in os; }
  }

  lemma PlacePartitions<B>(g: Geometry<B>, keys: seq<B>, s1: nat, s2: nat, sp: Split<B>, o: nat)
    requires 1 <= o <= |keys| && Partitions(sp, o - 1)
    ensures Partitions(Place(g, keys, s1, s2, sp, o), o)
  {
    var l, r := sp.left + [o], sp.right + [o];
    AscendingSnoc(sp.left, o);
    AscendingSnoc(sp.right, o);
    assert (forall x :: x in l <==> x in sp.left || x == o) && (forall x :: x in r <==> x in sp.right || x == o);
  }

  lemma {:induction false} EachOnOneSide<B>(g: Geometry<B>, keys: seq<B>, s1: nat, s2: nat, n: nat)
    requires 1 <= s1 < s2 <= |keys| && n <= |keys|
    ensures var sp := Distributed(g, keys, s1, s2, n);
            Partitions(sp, n) && (s1 <= n ==> s1 in sp.left) && (s2 <= n ==> s2 in sp.right)
  {
    if n > 0 {
      EachOnOneSide(g, keys, s1, s2, n - 1);
      PlacePartitions(g, keys, s1, s2, Distributed(g, keys, s1, s2, n - 1), n);
    }
  }

  /** A notion of "d is the union of the boxes at these offsets" that holds of a box united
      with itself and is kept by one more union. */
  ghost predicate Accumulates<B(!new)>(g: Geometry<B>, keys: seq<B>, isUnion: (B, set<nat>) -> bool) {
    && (forall o: nat :: 1 <= o <= |keys| ==> isUnion(g.union(At(keys, o), At(keys, o)), {o}))
    && (forall d, os: set<nat>, o: nat {:trigger isUnion(g.union(d, At(keys, o)), os + {o})} ::
          1 <= o <= |keys| && isUnion(d, os) ==> isUnion(g.union(d, At(keys, o)), os + {o}))
  }

  ghost function Members(os: seq<nat>): set<nat> {
    set o | o in os
  }

  /** Each side's datum is the union of the side's own members and nothing else. */
  lemma {:induction false} DataAreUnions<B(!new)>(g: Geometry<B>, keys: seq<B>, s1: nat, s2: nat, n: nat,
                                                  isUnion: (B, set<nat>) -> bool)
    requires 1 <= s1 < s2 <= |keys| && n <= |keys| && Accumulates(g, keys, isUnion)
    ensures var sp := Distributed(g, keys, s1, s2, n);
            isUnion(sp.ldatum, {s1} + Members(sp.left)) && isUnion(sp.rdatum, {s2} + Members(sp.right))
  {
    var sp := Distributed(g, keys, s1, s2, n);
    if n == 0 {
      assert {s1} + Members(sp.left) == {s1} && {s2} + Members(sp.right) == {s2};
    } else {
      DataAreUnions(g, keys, s1, s2, n - 1, isUnion);
      var was := Distributed(g, keys, s1, s2, n - 1);
      var l, r := {s1} + Members(was.left), {s2} + Members(was.right);
      assert Members(was.left + [n]) == Members(was.left) + {n};
      assert Members(was.right + [n]) == Members(was.right) + {n};
      assert {s1} + (Members(was.left) + {n}) == l + {n} && {s2} + (Members(was.right) + {n}) == r + {n};
      assert n == s1 ==> l + {n} == l;
      assert n == s2 ==> r + {n} == r;
    }
  }

  lemma WholeSplit<B(!new)>(g: Geometry<B>, keys: seq<B>, s1: nat, s2: nat, isUnion: (B, set<nat>) -> bool)
    requires 1 <= s1 < s2 <= |keys| && Accumulates(g, keys, isUnion)
    ensures var sp := Distributed(g, keys, s1, s2, |keys|);
            && Partitions(sp, |keys|) && s1 in sp.left && s2 in sp.right
            && isUnion(sp.ldatum, Members(sp.left)) && isUnion(sp.rdatum, Members(sp.right))
  {
    var sp := Distributed(g, keys, s1, s2, |keys|);
    EachOnOneSide(g, keys, s1, s2, |keys|);
    DataAreUnions(g, keys, s1, s2, |keys|, isUnion);
    assert {s1} + Members(sp.left) == Members(sp.left);
    assert {s2} + Members(sp.right) == Members(sp.right);
  }

  /** The members of a side that were placed before entry o. */
  ghost function Before(os: seq<nat>, o: nat): set<nat> {
    set m | m in os && m < o
  }

  /** When entry o is placed, the two data are the unions of what was placed before it. */
  lemma PlacedNow<B(!new)>(g: Geometry<B>, keys: seq<B>, s1: nat, s2: nat, o: nat, isUnion: (B, set<nat>) -> bool)
    requires 1 <= s1 < s2 <= |keys| && 1 <= o <= |keys| && o != s1 && o != s2 && Accumulates(g, keys, isUnion)
    ensures var sp, was := Distributed(g, keys, s1, s2, o), Distributed(g, keys, s1, s2, o - 1);
            && isUnion(was.ldatum, {s1} + Before(sp.left, o)) && isUnion(was.rdatum, {s2} + Before(sp.right, o))
            && (o in sp.left <==> g.Growth(was.ldatum, At(keys, o)) < g.Growth(was.rdatum, At(keys, o)))
  {
    var was := Distributed(g, keys, s1, s2, o - 1);
    EachOnOneSide(g, keys, s1, s2, o - 1);
    PlacedOn(g, keys, s1, s2, was, o);
    DataAreUnions(g, keys, s1, s2, o - 1, isUnion);
  }

  lemma PlacedOn<B>(g: Geometry<B>, keys: seq<B>, s1: nat, s2: nat, was: Split<B>, o: nat)
    requires 1 <= o <= |keys| && o != s1 && o != s2 && Partitions(was, o - 1)
    ensures var sp := Place(g, keys, s1, s2, was, o);
            && Before(sp.left, o) == Members(was.left) && Before(sp.right, o) == Members(was.right)
            && (o in sp.left <==> g.Growth(was.ldatum, At(keys, o)) < g.Growth(was.rdatum, At(keys, o)))
  {
    BeforeIsAll(was, Place(g, keys, s1, s2, was, o), o);
  }

  lemma BeforeIsAll<B>(was: Split<B>, sp: Split<B>, o: nat)
    requires o > 0 && Partitions(was, o - 1)
    requires || (sp.left == was.left + [o] && sp.right == was.right)
             || (sp.left == was.left && sp.right == was.right + [o])
    ensures Before(sp.left, o) == Members(was.left) && Before(sp.right, o) == Members(was.right)
    ensures o in sp.left <==> sp.left == was.left + [o]
  {
    if sp.left == was.left + [o] { assert sp.left[|was.left|] == o; }
  }

  /** Entries placed later change neither side's earlier part. */
  lemma {:induction false} LaterPlaced<B>(g: Geometry<B>, keys: seq<B>, s1: nat, s2: nat, o: nat, n: nat)
    requires 1 <= s1 < s2 <= |keys| && 1 <= o <= n <= |keys|
    ensures var sp, now := Distributed(g, keys, s1, s2, n), Distributed(g, keys, s1, s2, o);
            && Before(sp.left, o) == Before(now.left, o) && Before(sp.right, o) == Before(now.right, o)
            && (o in sp.left <==> o in now.left)
    decreases n
  {
    if o < n {
      LaterPlaced(g, keys, s1, s2, o, n - 1);
      OneMorePlaced(Distributed(g, keys, s1, s2, n - 1), Distributed(g, keys, s1, s2, n), o, n);
    }
  }

  lemma OneMorePlaced<B>(was: Split<B>, sp: Split<B>, o: nat, n: nat)
    requires o < n
    requires || (sp.left == was.left + [n] && sp.right == was.right)
             || (sp.left == was.left && sp.right == was.right + [n])
    ensures Before(sp.left, o) == Before(was.left, o) && Before(sp.right, o) == Before(was.right, o)
    ensures o in sp.left <==> o in was.left
  {
  }

  /** Which side an entry is on, told from the finished split: the side whose union, so far, had to
      grow less to take it in, and the right one if there was no difference. */
  lemma PlacedByGrowth<B(!new)>(g: Geometry<B>, keys: seq<B>, s1: nat, s2: nat, o: nat,
                                isUnion: (B, set<nat>) -> bool) returns (dl: B, dr: B)
    requires 1 <= s1 < s2 <= |keys| && 1 <= o <= |keys| && o != s1 && o != s2 && Accumulates(g, keys, isUnion)
    ensures var sp := Distributed(g, keys, s1, s2, |keys|);
            && isUnion(dl, {s1} + Before(sp.left, o)) && isUnion(dr, {s2} + Before(sp.right, o))
            && (o in sp.left <==> g.size(g.union(dl, At(keys, o))) - g.size(dl)
                                  < g.size(g.union(dr, At(keys, o))) - g.size(dr))
  {
    var was := Distributed(g, keys, s1, s2, o - 1);
    dl, dr := was.ldatum, was.rdatum;
    PlacedNow(g, keys, s1, s2, o, isUnion);
    LaterPlaced(g, keys, s1, s2, o, |keys|);
  }
}
