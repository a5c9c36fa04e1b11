/** N-dimensional boxes, contrib/cube/cube.cpp: two opposite corners each, in any order, over
    real coordinates. A box of few dimensions is compared with one of more by giving it the
    interval [0, 0] in the dimensions it lacks.
 */
module Cube {
  datatype NDBox = NDBox(dim: nat, x: seq<real>)

  type Box = b: NDBox | |b.x| == 2 * b.dim witness NDBox(0, [])

  function Min(a: real, b: real): real { if a < b then a else b }

  function Max(a: real, b: real): real { if a < b then b else a }

  /** The interval of a box in dimension i, [0, 0] if it has no such dimension. */
  function Lo(b: Box, i: nat): real {
    if i < b.dim then Min(b.x[i], b.x[b.dim + i]) else 0.0
  }

  function Hi(b: Box, i: nat): real {
    if i < b.dim then Max(b.x[i], b.x[b.dim + i]) else 0.0
  }

  /** The points of a box. */
  type Point = nat -> real

  ghost predicate In(p: Point, b: Box) {
    forall i: nat :: Lo(b, i) <= p(i) <= Hi(b, i)
  }

  // ----- union and intersection -----

  function MaxDim(a: Box, b: Box): nat {
    if a.dim < b.dim then b.dim else a.dim
  }

  /** The box with the given lower and upper ends. */
  function MakeBox(los: seq<real>, his: seq<real>): Box
    requires |los| == |his|
  {
    NDBox(|los|, los + his)
  }

  function UnionBox(a: Box, b: Box): Box {
    var d := MaxDim(a, b);
    MakeBox(seq(d, i requires 0 <= i < d => Min(Lo(a, i), Lo(b, i))),
            seq(d, i requires 0 <= i < d => Max(Hi(a, i), Hi(b, i))))
  }

  function InterBox(a: Box, b: Box): Box {
    var d := MaxDim(a, b);
    MakeBox(seq(d, i requires 0 <= i < d => Max(Lo(a, i), Lo(b, i))),
            seq(d, i requires 0 <= i < d => Min(Hi(a, i), Hi(b, i))))
  }

  /** The first two loops of cube_union_v0 and cube_inter: the smaller box's intervals,
      then zeroes. */
  method Padded(b: Box, dim: nat) returns (result: array<real>)
    requires b.dim <= dim
    ensures fresh(result) && result.Length == 2 * dim
    ensures forall i :: 0 <= i < dim ==> result[i] == Lo(b, i) && result[i + dim] == Hi(b, i)
  {
    result := new real[2 * dim](_ => 0.0);
    for i := 0 to b.dim
      invariant forall k :: 0 <= k < i ==> result[k] == Lo(b, k) && result[k + dim] == Hi(b, k)
    {
      result[i] := Min(b.x[i], b.x[i + b.dim]);
      result[i + dim] := Max(b.x[i], b.x[i + b.dim]);
    }
    for i := b.dim to dim
      invariant forall k :: 0 <= k < i ==> result[k] == Lo(b, k) && result[k + dim] == Hi(b, k)
    {
      result[i] := 0.0;
      result[i + dim] := 0.0;
    }
  }

  /** The last loop of cube_union_v0: widen each interval to take in that of a. */
  method WidenTo(result: array<real>, a: Box, ghost b: Box)
    requires result.Length == 2 * a.dim
    requires forall k :: 0 <= k < a.dim ==> result[k] == Lo(b, k) && result[k + a.dim] == Hi(b, k)
    modifies result
    ensures forall k :: 0 <= k < a.dim ==>
              result[k] == Min(Lo(a, k), Lo(b, k)) && result[k + a.dim] == Max(Hi(a, k), Hi(b, k))
  {
    for i := 0 to a.dim
      invariant forall k :: 0 <= k < i ==>
                  result[k] == Min(Lo(a, k), Lo(b, k)) && result[k + a.dim] == Max(Hi(a, k), Hi(b, k))
      invariant forall k :: i <= k < a.dim ==> result[k] == Lo(b, k) && result[k + a.dim] == Hi(b, k)
    {
      result[i] := Min(Min(a.x[i], a.x[i + a.dim]), result[i]);
      result[i + a.dim] := Max(Max(a.x[i], a.x[i + a.dim]), result[i + a.dim]);
    }
  }

  /** cube_union_v0 */
  method CubeUnionV0(a0: Box, b0: Box) returns (r: Box)
    ensures r == UnionBox(a0, b0)
  {
    var a, b := a0, b0;
    if a.dim < b.dim {
      a, b := b, a;
    }
    var result := Padded(b, a.dim);
    WidenTo(result, a, b);
    r := NDBox(a.dim, result[..]);
    assert result[..a.dim] == UnionBox(a0, b0).x[..a.dim];
    assert result[a.dim..] == UnionBox(a0, b0).x[a.dim..];
  }

  /** The last loop of cube_inter: narrow each interval to that of a. */
  method NarrowTo(result: array<real>, a: Box, ghost b: Box)
    requires result.Length == 2 * a.dim
    requires forall k :: 0 <= k < a.dim ==> result[k] == Lo(b, k) && result[k + a.dim] == Hi(b, k)
    modifies result
    ensures forall k :: 0 <= k < a.dim ==>
              result[k] == Max(Lo(a, k), Lo(b, k)) && result[k + a.dim] == Min(Hi(a, k), Hi(b, k))
  {
    for i := 0 to a.dim
      invariant forall k :: 0 <= k < i ==>
                  result[k] == Max(Lo(a, k), Lo(b, k)) && result[k + a.dim] == Min(Hi(a, k), Hi(b, k))
      invariant forall k :: i <= k < a.dim ==> result[k] == Lo(b, k) && result[k + a.dim] == Hi(b, k)
    {
      result[i] := Max(Min(a.x[i], a.x[i + a.dim]), result[i]);
      result[i + a.dim] := Min(Max(a.x[i], a.x[i + a.dim]), result[i + a.dim]);
    }
  }

  /** cube_inter */
  method CubeInter(a0: Box, b0: Box) returns (r: Box)
    ensures r == InterBox(a0, b0)
  {
    var a, b := a0, b0;
    if a.dim < b.dim {
      a, b := b, a;
    }
    var result := Padded(b, a.dim);
    NarrowTo(result, a, b);
    r := NDBox(a.dim, result[..]);
    assert result[..a.dim] == InterBox(a0, b0).x[..a.dim];
    assert result[a.dim..] == InterBox(a0, b0).x[a.dim..];
  }

  lemma UnionIntervals(a: Box, b: Box, i: nat)
    ensures var u := UnionBox(a, b);
            Lo(u, i) == Min(Lo(a, i), Lo(b, i)) && Hi(u, i) == Max(Hi(a, i), Hi(b, i))
  {
  }

  /** The union contains the points of both boxes. */
  lemma UnionHasBoth(a: Box, b: Box, p: Point)
    requires In(p, a) || In(p, b)
    ensures In(p, UnionBox(a, b))
  {
    forall i: nat ensures Lo(UnionBox(a, b), i) <= p(i) <= Hi(UnionBox(a, b), i) {
      UnionIntervals(a, b, i);
    }
  }

  // ----- the predicates -----

  predicate OverlapsAt(a: Box, b: Box, i: nat) {
    Lo(a, i) <= Hi(b, i) && Lo(b, i) <= Hi(a, i)
  }

  predicate Overlaps(a: Box, b: Box) {
    forall i :: 0 <= i < MaxDim(a, b) ==> OverlapsAt(a, b, i)
  }

  /** cube_overlap_v0 */
  method CubeOverlapV0(a0: Box, b0: Box) returns (r: bool)
    ensures r <==> Overlaps(a0, b0)
  {
    var a, b := a0, b0;
    if a.dim < b.dim {
      a, b := b, a;
    }
    for i := 0 to b.dim
      invariant forall k :: 0 <= k < i ==> OverlapsAt(a, b, k)
    {
      if Min(a.x[i], a.x[a.dim + i]) > Max(b.x[i], b.x[b.dim + i]) {
        assert !OverlapsAt(a0, b0, i);
        return false;
      }
      if Max(a.x[i], a.x[a.dim + i]) < Min(b.x[i], b.x[b.dim + i]) {
        assert !OverlapsAt(a0, b0, i);
        return false;
      }
    }
    for i := b.dim to a.dim
      invariant forall k :: 0 <= k < i ==> OverlapsAt(a, b, k)
    {
      if Min(a.x[i], a.x[a.dim + i]) > 0.0 {
        assert !OverlapsAt(a0, b0, i);
        return false;
      }
      if Max(a.x[i], a.x[a.dim + i]) < 0.0 {
        assert !OverlapsAt(a0, b0, i);
        return false;
      }
    }
    assert forall k :: 0 <= k < MaxDim(a0, b0) ==> OverlapsAt(a, b, k) ==> OverlapsAt(a0, b0, k);
    return true;
  }

  /** Overlap means a common point. */
  lemma OverlapIsCommonPoint(a: Box, b: Box)
    ensures Overlaps(a, b) <==> exists p: Point :: In(p, a) && In(p, b)
  {
    if Overlaps(a, b) {
      var p: Point := (i: nat) => Max(Lo(a, i), Lo(b, i));
      forall i: nat ensures Lo(a, i) <= p(i) <= Hi(a, i) && Lo(b, i) <= p(i) <= Hi(b, i) {
        assert OverlapsAt(a, b, i);
      }
      assert In(p, a) && In(p, b);
    }
    if p: Point :| In(p, a) && In(p, b) {
      forall i: nat | i < MaxDim(a, b) ensures OverlapsAt(a, b, i) {
        assert Lo(a, i) <= p(i) <= Hi(a, i) && Lo(b, i) <= p(i) <= Hi(b, i);
      }
    }
  }

  lemma InterOfOverlapping(a: Box, b: Box, p: Point)
    requires Overlaps(a, b)
    ensures In(p, InterBox(a, b)) <==> In(p, a) && In(p, b)
  {
    var r := InterBox(a, b);
    assert forall i: nat :: Lo(r, i) == Max(Lo(a, i), Lo(b, i)) && Hi(r, i) == Min(Hi(a, i), Hi(b, i)) by {
      forall i: nat ensures Lo(r, i) == Max(Lo(a, i), Lo(b, i)) && Hi(r, i) == Min(Hi(a, i), Hi(b, i)) {
        assert OverlapsAt(a, b, i);
      }
    }
    if In(p, a) && In(p, b) {
      forall i: nat ensures Lo(r, i) <= p(i) <= Hi(r, i) {
        assert Lo(a, i) <= p(i) <= Hi(a, i) && Lo(b, i) <= p(i) <= Hi(b, i);
      }
    }
    if In(p, r) {
      forall i: nat ensures Lo(a, i) <= p(i) <= Hi(a, i) && Lo(b, i) <= p(i) <= Hi(b, i) {
        assert Lo(r, i) <= p(i) <= Hi(r, i);
      }
    }
  }

  /** The intersection contains exactly the points the boxes share if and only if they overlap. For
      boxes that do not, a box is returned all the same. */
  lemma InterIsIntersection(a: Box, b: Box)
    ensures (forall p: Point :: In(p, InterBox(a, b)) <==> In(p, a) && In(p, b)) <==> Overlaps(a, b)
  {
    OverlapIsCommonPoint(a, b);
    if Overlaps(a, b) {
      forall p: Point ensures In(p, InterBox(a, b)) <==> In(p, a) && In(p, b) { InterOfOverlapping(a, b, p); }
    } else {
      var p: Point := (i: nat) => Lo(InterBox(a, b), i);
      assert In(p, InterBox(a, b));
    }
  }

  predicate SpansAt(a: Box, b: Box, i: nat) {
    Lo(a, i) <= Lo(b, i) && Hi(b, i) <= Hi(a, i)
  }

  /** What cube_contains_v0 decides: dimensions that only a has are not looked at. */
  predicate Contains(a: Box, b: Box) {
    forall i :: 0 <= i < b.dim ==> SpansAt(a, b, i)
  }

  /** cube_contains_v0 */
  method CubeContainsV0(a: Box, b: Box) returns (r: bool)
    ensures r <==> Contains(a, b)
  {
    if a.dim < b.dim {
      for i := a.dim to b.dim
        invariant forall k :: a.dim <= k < i ==> SpansAt(a, b, k)
      {
        if b.x[i] != 0.0 {
          assert !SpansAt(a, b, i);
          return false;
        }
        if b.x[i + b.dim] != 0.0 {
          assert !SpansAt(a, b, i);
          return false;
        }
      }
    }
    var common := if a.dim < b.dim then a.dim else b.dim;
    for i := 0 to common
      invariant forall k :: 0 <= k < i ==> SpansAt(a, b, k)
    {
      if Min(a.x[i], a.x[a.dim + i]) > Min(b.x[i], b.x[b.dim + i]) {
        assert !SpansAt(a, b, i);
        return false;
      }
      if Max(a.x[i], a.x[a.dim + i]) < Max(b.x[i], b.x[b.dim + i]) {
        assert !SpansAt(a, b, i);
        return false;
      }
    }
    return true;
  }

  ghost predicate Subset(b: Box, a: Box) {
    forall p: Point :: In(p, b) ==> In(p, a)
  }

  /** Box a straddles zero in all its dimensions from n on. */
  predicate ZeroBeyond(a: Box, n: nat) {
    forall i :: n <= i < a.dim ==> Lo(a, i) <= 0.0 <= Hi(a, i)
  }

  /** A box lies inside another exactly if cube_contains_v0 says so and the dimensions it
      ignores do not exclude zero. */
  lemma SubsetIsContains(a: Box, b: Box)
    ensures Subset(b, a) <==> Contains(a, b) && ZeroBeyond(a, b.dim)
  {
    if Contains(a, b) && ZeroBeyond(a, b.dim) {
      forall p: Point | In(p, b) ensures In(p, a) {
        forall i: nat ensures Lo(a, i) <= p(i) <= Hi(a, i) {
          assert Lo(b, i) <= p(i) <= Hi(b, i);
          if i < b.dim { assert SpansAt(a, b, i); }
        }
      }
    }
    if Subset(b, a) {
      var low: Point, high: Point := (i: nat) => Lo(b, i), (i: nat) => Hi(b, i);
      assert In(low, b) && In(high, b);
      assert In(low, a) && In(high, a);
      forall i: nat ensures SpansAt(a, b, i) {
        assert Lo(a, i) <= low(i) <= Hi(a, i) && Lo(a, i) <= high(i) <= Hi(a, i);
      }
      forall i | b.dim <= i < a.dim ensures Lo(a, i) <= 0.0 <= Hi(a, i) {
        assert SpansAt(a, b, i);
      }
    }
  }

  /** The ignored dimensions matter: a containing box that shares no point with the contained. */
  lemma ContainsWithoutSharedPoint()
    ensures var a, b: Box := NDBox(2, [0.0, 5.0, 2.0, 6.0]), NDBox(1, [1.0, 1.0]);
            Contains(a, b) && !Overlaps(a, b)
  {
    var a, b: Box := NDBox(2, [0.0, 5.0, 2.0, 6.0]), NDBox(1, [1.0, 1.0]);
    assert SpansAt(a, b, 0);
    assert !OverlapsAt(a, b, 1);
  }

  /** The same box, possibly given by other corners. */
  predicate Same(a: Box, b: Box) {
    a.dim == b.dim && forall i :: 0 <= i < a.dim ==> Lo(a, i) == Lo(b, i) && Hi(a, i) == Hi(b, i)
  }

  /** Dictionary order. */
  function Lex(u: seq<real>, v: seq<real>): (r: int)
    requires |u| == |v|
    ensures -1 <= r <= 1 && (r == 0 <==> u == v)
  {
    if u == [] then 0
    else if u[0] > v[0] then 1
    else if u[0] < v[0] then -1
    else
      assert u == [u[0]] + u[1..] && v == [v[0]] + v[1..];
      Lex(u[1..], v[1..])
  }

  function Lows(b: Box, from: nat, to: nat): (s: seq<real>)
    requires from <= to
    ensures |s| == to - from && forall i :: 0 <= i < |s| ==> s[i] == Lo(b, from + i)
  {
    seq(to - from, i requires 0 <= i => Lo(b, from + i))
  }

  function Highs(b: Box, from: nat, to: nat): (s: seq<real>)
    requires from <= to
    ensures |s| == to - from && forall i :: 0 <= i < |s| ==> s[i] == Hi(b, from + i)
  {
    seq(to - from, i requires 0 <= i => Hi(b, from + i))
  }

  function CmpRange(a: Box, b: Box, from: nat, to: nat): int
    requires from <= to
  {
    var low := Lex(Lows(a, from, to), Lows(b, from, to));
    if low != 0 then low else Lex(Highs(a, from, to), Highs(b, from, to))
  }

  function Cmp(a: Box, b: Box): int {
    var dim := if a.dim < b.dim then a.dim else b.dim;
    var common, beyond := CmpRange(a, b, 0, dim), CmpRange(a, b, dim, MaxDim(a, b));
    if common != 0 then common
    else if beyond != 0 then beyond
    else if a.dim > b.dim then 1 else if a.dim < b.dim then -1 else 0
  }

  lemma LexNext(u: seq<real>, v: seq<real>, i: nat)
    requires |u| == |v| && i < |u|
    ensures Lex(u[i..], v[i..]) ==
            if u[i] > v[i] then 1 else if u[i] < v[i] then -1 else Lex(u[i + 1..], v[i + 1..])
  {
    assert u[i..][1..] == u[i + 1..] && v[i..][1..] == v[i + 1..];
  }

  lemma {:induction false} LexAntisymmetric(u: seq<real>, v: seq<real>)
    requires |u| == |v|
    ensures Lex(u, v) == -Lex(v, u)
  {
    if u != [] { LexAntisymmetric(u[1..], v[1..]); }
  }

  lemma {:induction false} LexTransitive(u: seq<real>, v: seq<real>, w: seq<real>)
    requires |u| == |v| == |w| && Lex(u, v) <= 0 && Lex(v, w) <= 0
    ensures Lex(u, w) <= 0 && (Lex(u, w) == 0 ==> u == v == w)
  {
    if u != [] {
      if u[0] == v[0] == w[0] { LexTransitive(u[1..], v[1..], w[1..]); }
      assert u == [u[0]] + u[1..] && v == [v[0]] + v[1..] && w == [w[0]] + w[1..];
    }
  }

  /** Swapping the boxes swaps the verdict, whatever their dimensions, and only the same boxes
      compare equal. */
  lemma CmpAntisymmetric(a: Box, b: Box)
    ensures Cmp(a, b) == -Cmp(b, a)
    ensures -1 <= Cmp(a, b) <= 1 && (Cmp(a, b) == 0 <==> Same(a, b))
  {
    var dim, max := if a.dim < b.dim then a.dim else b.dim, MaxDim(a, b);
    LexAntisymmetric(Lows(a, 0, dim), Lows(b, 0, dim));
    LexAntisymmetric(Highs(a, 0, dim), Highs(b, 0, dim));
    LexAntisymmetric(Lows(a, dim, max), Lows(b, dim, max));
    LexAntisymmetric(Highs(a, dim, max), Highs(b, dim, max));
    SameEnds(a, b, dim);
  }

  lemma SameEnds(a: Box, b: Box, dim: nat)
    ensures CmpRange(a, b, 0, dim) == 0 <==> forall i :: 0 <= i < dim ==> Lo(a, i) == Lo(b, i) && Hi(a, i) == Hi(b, i)
  {
    if CmpRange(a, b, 0, dim) == 0 {
      forall i | 0 <= i < dim ensures Lo(a, i) == Lo(b, i) && Hi(a, i) == Hi(b, i) {
        assert Lo(a, i) == Lows(a, 0, dim)[i] == Lows(b, 0, dim)[i];
        assert Hi(a, i) == Highs(a, 0, dim)[i] == Highs(b, 0, dim)[i];
      }
    } else {
      assert Lows(a, 0, dim) != Lows(b, 0, dim) || Highs(a, 0, dim) != Highs(b, 0, dim);
    }
  }

  /** The comparison loops of cube_cmp_v0 over dimensions from..to: first the lower ends, then
      the upper ends; a box without the dimension counts as zero there. */
  method CmpDims(a: Box, b: Box, from: nat, to: nat) returns (r: int)
    requires from <= to
    ensures r == CmpRange(a, b, from, to)
  {
    ghost var la, lb, ha, hb := Lows(a, from, to), Lows(b, from, to), Highs(a, from, to), Highs(b, from, to);
    for i := from to to
      invariant Lex(la, lb) == Lex(la[i - from..], lb[i - from..])
    {
      LexNext(la, lb, i - from);
      if Lo(a, i) > Lo(b, i) {
        return 1;
      }
      if Lo(a, i) < Lo(b, i) {
        return -1;
      }
    }
    for i := from to to
      invariant Lex(ha, hb) == Lex(ha[i - from..], hb[i - from..])
    {
      LexNext(ha, hb, i - from);
      if Hi(a, i) > Hi(b, i) {
        return 1;
      }
      if Hi(a, i) < Hi(b, i) {
        return -1;
      }
    }
    return 0;
  }

  /** cube_cmp_v0. Boxes of different dimensions are never the same. */
  method CubeCmpV0(a: Box, b: Box) returns (r: int)
    ensures r == Cmp(a, b) && (r == 0 <==> Same(a, b))
  {
    CmpAntisymmetric(a, b);
    var dim := if a.dim < b.dim then a.dim else b.dim;
    r := CmpDims(a, b, 0, dim);
    if r != 0 {
      return;
    }
    if a.dim > b.dim {
      r := CmpDims(a, b, dim, a.dim);
      if r == 0 {
        r := 1;
      }
    } else if a.dim < b.dim {
      r := CmpDims(a, b, dim, b.dim);
      if r == 0 {
        r := -1;
      }
    }
  }
}
