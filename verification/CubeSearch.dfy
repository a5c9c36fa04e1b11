/** The GiST operator class for boxes: union, and the two consistent functions. */
module CubeSearch {
  import opened Wrappers
  import opened Cube
  import opened Gist

  datatype Strategy = Overlap | SameBox | ContainsBox | ContainedBy | Unknown

  // ----- keys -----

  /** Repeated union from the left. */
  function Fold(first: Box, rest: seq<Box>): Box
    decreases |rest|
  {
    if rest == [] then first else Fold(UnionBox(first, rest[0]), rest[1..])
  }

  /** g_cube_union: with a single entry the loop never runs and nothing is returned. */
  method GCubeUnion(entries: seq<Box>) returns (out: Option<Box>)
    requires entries != []
    ensures out == if |entries| == 1 then None else Some(Fold(entries[0], entries[1..]))
  {
    out := None;
    var tmp := entries[0];
    for i := 1 to |entries|
      invariant Fold(entries[0], entries[1..]) == Fold(tmp, entries[i..])
      invariant i > 1 ==> out == Some(tmp)
      invariant i == 1 ==> out == None
    {
      assert entries[i..][1..] == entries[i + 1..];
      tmp := CubeUnionV0(tmp, entries[i]);
      out := Some(tmp);
    }
  }

  /** The key GiST makes of one or more entries: a single one is doubled before the union is
      called. */
  function UnionKey(first: Box, rest: seq<Box>): Box {
    if rest == [] then Fold(first, [first]) else Fold(first, rest)
  }

  /** Key k may stand above box v: it has all of v's dimensions, spans v in each of them, and
      spans zero in the others. */
  ghost predicate Covers(k: Box, v: Box) {
    v.dim <= k.dim && forall i: nat :: SpansAt(k, v, i)
  }

  lemma UnionCovers(a: Box, b: Box, v: Box)
    requires Covers(a, v) || Covers(b, v)
    ensures Covers(UnionBox(a, b), v)
  {
    forall i: nat ensures SpansAt(UnionBox(a, b), v, i) {
      UnionIntervals(a, b, i);
      assert Covers(a, v) ==> SpansAt(a, v, i);
      assert Covers(b, v) ==> SpansAt(b, v, i);
    }
  }

  lemma {:induction false} FoldCovers(first: Box, rest: seq<Box>, e: Box, v: Box)
    requires e in [first] + rest && Covers(e, v)
    ensures Covers(Fold(first, rest), v)
    decreases |rest|
  {
    if rest != [] {
      var u := UnionBox(first, rest[0]);
      if e in rest[1..] {
        FoldCovers(u, rest[1..], e, v);
      } else {
        UnionCovers(first, rest[0], v);
        FoldCovers(u, rest[1..], u, v);
      }
    }
  }

  lemma UnionIsLeast(k: Box, a: Box, b: Box)
    requires Covers(k, a) && Covers(k, b)
    ensures Covers(k, UnionBox(a, b))
  {
    forall i: nat ensures SpansAt(k, UnionBox(a, b), i) {
      UnionIntervals(a, b, i);
      assert SpansAt(k, a, i) && SpansAt(k, b, i);
    }
  }

  /** Repeated union is the least key above all its boxes. */
  lemma {:induction false} FoldIsLeast(k: Box, first: Box, rest: seq<Box>)
    requires forall e :: e in [first] + rest ==> Covers(k, e)
    ensures Covers(k, Fold(first, rest))
    decreases |rest|
  {
    assert first in [first] + rest;
    if rest != [] {
      assert rest[0] in [first] + rest;
      UnionIsLeast(k, first, rest[0]);
      FoldIsLeast(k, UnionBox(first, rest[0]), rest[1..]);
    }
  }

  ghost function Ops(): OpClass<Box, Box> {
    OpClass((v: Box) => v, (k: Box, ks: seq<Box>) => UnionKey(k, ks), (k: Box, v: Box) => Covers(k, v))
  }

  lemma OpsSound()
    ensures Ops().Sound()
  {
    forall k: Box, ks: seq<Box>, v: Box | exists e :: e in [k] + ks && Covers(e, v)
      ensures Covers(UnionKey(k, ks), v)
    {
      var e :| e in [k] + ks && Covers(e, v);
      if ks == [] { FoldCovers(k, [k], k, v); } else { FoldCovers(k, ks, e, v); }
    }
  }

  // ----- the consistent functions -----

  /** g_cube_leaf_consistent */
  predicate LeafConsistent(v: Box, query: Box, s: Strategy) {
    match s
    case Overlap => Overlaps(v, query)
    case SameBox => Same(v, query)
    case ContainsBox => Contains(v, query)
    case ContainedBy => Contains(query, v)
    case Unknown => false
  }

  /** g_cube_internal_consistent */
  predicate InternalConsistent(k: Box, query: Box, s: Strategy) {
    match s
    case Overlap => Overlaps(k, query)
    case SameBox => Contains(k, query)
    case ContainsBox => Contains(k, query)
    case ContainedBy => Overlaps(k, query)
    case Unknown => false
  }

  // ----- what the strategies mean -----

  /** Point p is in the first n dimensions where box b is. */
  ghost predicate InFirst(p: Point, b: Box, n: nat) {
    forall i :: 0 <= i < n ==> Lo(b, i) <= p(i) <= Hi(b, i)
  }

  /** All points of b are in a, as far as b's own dimensions go. */
  ghost predicate Inside(b: Box, a: Box) {
    forall p: Point :: In(p, b) ==> InFirst(p, a, b.dim)
  }

  /** The operators, in terms of points: v op query. */
  ghost predicate Matches(v: Box, query: Box, s: Strategy) {
    match s
    case Overlap => exists p: Point :: In(p, v) && In(p, query)
    case SameBox => v.dim == query.dim && forall p: Point :: In(p, v) <==> In(p, query)
    case ContainsBox => Inside(query, v)
    case ContainedBy => Inside(v, query)
    case Unknown => false
  }

  lemma ContainsIsInside(a: Box, b: Box)
    ensures Contains(a, b) <==> Inside(b, a)
  {
    if Contains(a, b) {
      forall p: Point | In(p, b) ensures InFirst(p, a, b.dim) {
        forall i: nat | i < b.dim ensures Lo(a, i) <= p(i) <= Hi(a, i) {
          assert SpansAt(a, b, i) && Lo(b, i) <= p(i) <= Hi(b, i);
        }
      }
    }
    if Inside(b, a) {
      var low: Point, high: Point := (i: nat) => Lo(b, i), (i: nat) => Hi(b, i);
      assert In(low, b) && In(high, b);
      forall i: nat | i < b.dim ensures SpansAt(a, b, i) {
        assert Lo(a, i) <= low(i) <= Hi(a, i) && Lo(a, i) <= high(i) <= Hi(a, i);
      }
    }
  }

  lemma SameIsSamePoints(a: Box, b: Box)
    requires a.dim == b.dim
    ensures Same(a, b) <==> forall p: Point :: In(p, a) <==> In(p, b)
  {
    if Same(a, b) {
      assert forall i: nat :: Lo(a, i) == Lo(b, i) && Hi(a, i) == Hi(b, i);
    }
    if forall p: Point :: In(p, a) <==> In(p, b) {
      SamePointsContain(a, b);
      SamePointsContain(b, a);
      forall i | 0 <= i < a.dim ensures Lo(a, i) == Lo(b, i) && Hi(a, i) == Hi(b, i) {
        assert SpansAt(a, b, i) && SpansAt(b, a, i);
      }
    }
  }

  lemma SamePointsContain(a: Box, b: Box)
    requires forall p: Point :: In(p, b) ==> In(p, a)
    ensures Contains(a, b)
  {
    forall p: Point | In(p, b) ensures InFirst(p, a, b.dim) { assert In(p, a); }
    ContainsIsInside(a, b);
  }

  /** On a box itself the test is the operator; for "same", it is also the comparison. */
  lemma LeafIsExact(v: Box, query: Box, s: Strategy)
    ensures LeafConsistent(v, query, s) <==> Matches(v, query, s)
    ensures LeafConsistent(v, query, SameBox) <==> Cmp(v, query) == 0
  {
    CmpAntisymmetric(v, query);
    match s
    case Overlap => OverlapIsCommonPoint(v, query);
    case SameBox => if v.dim == query.dim { SameIsSamePoints(v, query); }
    case ContainsBox => ContainsIsInside(v, query);
    case ContainedBy => ContainsIsInside(query, v);
    case Unknown =>
  }

  /** What is asked of a page: for "same", that a box below might contain the query, and for
      "contained by", that one might overlap it. */
  function Loosely(s: Strategy): Strategy {
    match s case SameBox => ContainsBox case ContainedBy => Overlap case _ => s
  }

  /** A page is followed if and only if its key covers some box that satisfies that. */
  lemma FollowedIff(k: Box, query: Box, s: Strategy)
    ensures InternalConsistent(k, query, s) <==> exists v :: Covers(k, v) && Matches(v, query, Loosely(s))
  {
    LeafIsExact(k, query, Loosely(s));
    CoversItself(k);
    if v :| Covers(k, v) && Matches(v, query, Loosely(s)) {
      LeafIsExact(v, query, Loosely(s));
      match s
      case Overlap => CoverOverlaps(k, v, query);
      case SameBox => CoverContains(k, v, query);
      case ContainsBox => CoverContains(k, v, query);
      case ContainedBy => CoverOverlaps(k, v, query);
    }
  }

  lemma CoverOverlaps(k: Box, v: Box, query: Box)
    requires Covers(k, v) && Overlaps(v, query)
    ensures Overlaps(k, query)
  {
    forall i: nat | i < MaxDim(k, query) ensures OverlapsAt(k, query, i) {
      assert SpansAt(k, v, i);
      assert OverlapsAt(v, query, i);
    }
  }

  lemma CoverContains(k: Box, v: Box, query: Box)
    requires Covers(k, v) && Contains(v, query)
    ensures Contains(k, query)
  {
    forall i: nat | i < query.dim ensures SpansAt(k, query, i) {
      assert SpansAt(k, v, i);
      assert SpansAt(v, query, i);
    }
  }

  /** A box that the query contains also overlaps it, if the query's dimensions beyond the
      box's include zero. */
  lemma ContainedOverlaps(v: Box, query: Box)
    requires Contains(query, v)
    ensures Overlaps(v, query) <==> ZeroBeyond(query, v.dim)
  {
    forall i: nat ensures i < v.dim ==> OverlapsAt(v, query, i) {
      if i < v.dim { assert SpansAt(query, v, i); }
    }
    forall i: nat | v.dim <= i < query.dim ensures OverlapsAt(v, query, i) <==> Lo(query, i) <= 0.0 <= Hi(query, i) {
    }
  }

  lemma NeverPrunesRow(k: Box, v: Box, query: Box, s: Strategy)
    requires Covers(k, v) && Matches(v, query, s)
    requires s == ContainedBy ==> ZeroBeyond(query, v.dim)
    ensures InternalConsistent(k, query, s)
  {
    LeafIsExact(v, query, s);
    match s
    case Overlap => CoverOverlaps(k, v, query);
    case SameBox =>
      assert forall i: nat :: i < query.dim ==> SpansAt(v, query, i);
      CoverContains(k, v, query);
    case ContainsBox => CoverContains(k, v, query);
    case ContainedBy =>
      ContainedOverlaps(v, query);
      CoverOverlaps(k, v, query);
  }

  lemma CoversItself(v: Box)
    ensures Covers(v, v)
  {
  }

  /** For "contained by", no key above the box is ever rejected if and only if the query's
      dimensions beyond the box's include zero. */
  lemma ContainedByIff(v: Box, query: Box)
    requires LeafConsistent(v, query, ContainedBy)
    ensures (forall k :: Covers(k, v) ==> InternalConsistent(k, query, ContainedBy)) <==> ZeroBeyond(query, v.dim)
  {
    if ZeroBeyond(query, v.dim) {
      forall k | Covers(k, v) ensures InternalConsistent(k, query, ContainedBy) {
        LeafIsExact(v, query, ContainedBy);
        NeverPrunesRow(k, v, query, ContainedBy);
      }
    } else {
      ContainedOverlaps(v, query);
      CoversItself(v);
    }
  }

  // ----- searching -----

  /** Searching any tree in which the keys cover what is below them returns exactly the boxes
      that satisfy the operator; for "contained by", if the query's extra dimensions
      include zero wherever they matter. */
  lemma SearchCovered(ts: seq<Tree<Box, Box>>, s: Strategy, query: Box)
    requires Covered(ts, Ops().covers)
    requires s == ContainedBy ==> forall v :: v in Leaves(ts) && Contains(query, v) ==> ZeroBeyond(query, v.dim)
    ensures Scan(ts, k => InternalConsistent(k, query, s), v => LeafConsistent(v, query, s))
         == Filter(Leaves(ts), v => Matches(v, query, s))
  {
    var page := (k: Box) => InternalConsistent(k, query, s);
    var leaf := (v: Box) => LeafConsistent(v, query, s);
    var rows := Leaves(ts);
    var covers := (k: Box, v: Box) => Covers(k, v) && v in rows;
    forall k: Box, v: Box | covers(k, v) && leaf(v) ensures page(k) {
      LeafIsExact(v, query, s);
      NeverPrunesRow(k, v, query, s);
    }
    CoveredHere(ts, rows);
    ScanIsFilter(ts, covers, page, leaf);
    forall v: Box ensures leaf(v) == Matches(v, query, s) { LeafIsExact(v, query, s); }
    FilterCongruence(rows, leaf, v => Matches(v, query, s));
  }

  lemma {:induction false} CoveredHere(ts: seq<Tree<Box, Box>>, rows: seq<Box>)
    requires Covered(ts, Ops().covers) && forall v :: v in Leaves(ts) ==> v in rows
    ensures Covered(ts, (k: Box, v: Box) => Covers(k, v) && v in rows)
  {
    if ts != [] {
      CoveredHere(ts[1..], rows);
      if ts[0].Page? { CoveredHere(ts[0].entries, rows); }
    }
  }

  /** Without that condition a matching box can be missed, in a tree built by union. */
  lemma ContainedByCanMiss()
    ensures var v: Box, query: Box := NDBox(1, [1.0, 1.0]), NDBox(2, [0.0, 5.0, 2.0, 6.0]);
            var ts := [Page(UnionKey(v, []), [Leaf(v)])];
            && Built(ts, Ops())
            && LeafConsistent(v, query, ContainedBy)
            && Scan(ts, k => InternalConsistent(k, query, ContainedBy),
                    b => LeafConsistent(b, query, ContainedBy)) == []
  {
    var v: Box, query: Box := NDBox(1, [1.0, 1.0]), NDBox(2, [0.0, 5.0, 2.0, 6.0]);
    var k := UnionKey(v, []);
    var leaves: seq<Tree<Box, Box>> := [Leaf(v)];
    assert leaves[1..] == [] && Leaves(leaves) == [v];
    assert Keys(leaves, Ops()) == [v] && [v][1..] == [] && Built(leaves, Ops());
    var ts := [Page(k, leaves)];
    assert ts[1..] == [];
    ContainsWithoutSharedPoint();
    assert k.dim == 1 by { assert [v][1..] == []; assert Fold(v, [v]) == Fold(UnionBox(v, v), [v][1..]); }
    assert !OverlapsAt(k, query, 1);
  }
}
