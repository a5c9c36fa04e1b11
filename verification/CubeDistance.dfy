/** cube_distance, up to the final square root: the squared distance between two boxes. */
module CubeDistance {
  import opened Cube

  /** distance_1D */
  function Distance1D(a1: real, a2: real, b1: real, b2: real): real {
    if a1 <= b1 && a2 <= b1 && a1 <= b2 && a2 <= b2 then Min(b1, b2) - Max(a1, a2)
    else if a1 > b1 && a2 > b1 && a1 > b2 && a2 > b2 then Min(a1, a2) - Max(b1, b2)
    else 0.0
  }

  /** The space between two boxes' intervals in dimension i. */
  function Gap(a: Box, b: Box, i: nat): real {
    Max(0.0, Max(Lo(b, i) - Hi(a, i), Lo(a, i) - Hi(b, i)))
  }

  function Times(x: real, y: real): real { x * y }

  function Square(r: real): real { Times(r, r) }

  function SumOfGaps(a: Box, b: Box, n: nat): real {
    if n == 0 then 0.0 else SumOfGaps(a, b, n - 1) + Square(Gap(a, b, n - 1))
  }

  function SquaredDistance(a: Box, b: Box): real {
    SumOfGaps(a, b, MaxDim(a, b))
  }

  function PointDistance(p: Point, q: Point, n: nat): real {
    if n == 0 then 0.0 else PointDistance(p, q, n - 1) + Square(p(n - 1) - q(n - 1))
  }

  lemma {:induction false} GapCommutes(a: Box, b: Box, n: nat)
    ensures SumOfGaps(a, b, n) == SumOfGaps(b, a, n)
  {
    if n > 0 { GapCommutes(a, b, n - 1); }
  }

  lemma GapIsDistance1D(a: Box, b: Box, i: nat)
    requires i < a.dim
    ensures Gap(a, b, i) == Distance1D(a.x[i], a.x[i + a.dim],
                                       if i < b.dim then b.x[i] else 0.0, if i < b.dim then b.x[i + b.dim] else 0.0)
  {
  }

  /** The two loops of cube_distance */
  method CubeDistanceSquared(a0: Box, b0: Box) returns (distance: real)
    ensures distance == SquaredDistance(a0, b0)
  {
    var a, b := a0, b0;
    if a.dim < b.dim {
      a, b := b, a;
    }
    GapCommutes(a0, b0, MaxDim(a0, b0));
    distance := 0.0;
    for i := 0 to b.dim
      invariant distance == SumOfGaps(a, b, i)
    {
      var d := Distance1D(a.x[i], a.x[i + a.dim], b.x[i], b.x[i + b.dim]);
      GapIsDistance1D(a, b, i);
      distance := distance + Square(d);
    }
    for i := b.dim to a.dim
      invariant distance == SumOfGaps(a, b, i)
    {
      var d := Distance1D(a.x[i], a.x[i + a.dim], 0.0, 0.0);
      GapIsDistance1D(a, b, i);
      distance := distance + Square(d);
    }
  }

  // ----- it is the distance between the nearest points -----

  lemma SquareGrows(x: real, y: real)
    requires 0.0 <= x && (x <= y || x <= -y)
    ensures Square(x) <= Square(y)
  {
    var z := if y < 0.0 then -y else y;
    assert Times(z, z) == Times(y, y);
    assert Times(x, x) <= Times(x, z) <= Times(z, z);
  }

  lemma {:induction false} NoPointsNearer(a: Box, b: Box, p: Point, q: Point, n: nat)
    requires In(p, a) && In(q, b)
    ensures SumOfGaps(a, b, n) <= PointDistance(p, q, n)
  {
    if n > 0 {
      NoPointsNearer(a, b, p, q, n - 1);
      var i := n - 1;
      assert Lo(a, i) <= p(i) <= Hi(a, i) && Lo(b, i) <= q(i) <= Hi(b, i);
      SquareGrows(Gap(a, b, i), p(i) - q(i));
    }
  }

  /** The coordinate of box a nearest to box b. */
  function Nearest(a: Box, b: Box, i: nat): real {
    if Hi(a, i) < Lo(b, i) then Hi(a, i) else Max(Lo(a, i), Lo(b, i))
  }

  lemma NearestApart(a: Box, b: Box, i: nat)
    ensures Lo(a, i) <= Nearest(a, b, i) <= Hi(a, i)
    ensures Square(Nearest(a, b, i) - Nearest(b, a, i)) == Square(Gap(a, b, i))
  {
  }

  lemma {:induction false} NearestPoints(a: Box, b: Box, p: Point, q: Point, n: nat)
    requires forall i: nat :: p(i) == Nearest(a, b, i) && q(i) == Nearest(b, a, i)
    ensures PointDistance(p, q, n) == SumOfGaps(a, b, n)
  {
    if n > 0 {
      NearestPoints(a, b, p, q, n - 1);
      NearestApart(a, b, n - 1);
      assert p(n - 1) == Nearest(a, b, n - 1);
    }
  }

  lemma {:induction false} NoGapBeyond(a: Box, b: Box, n: nat)
    requires n >= MaxDim(a, b)
    ensures SumOfGaps(a, b, n) == SquaredDistance(a, b)
  {
    if n > MaxDim(a, b) { NoGapBeyond(a, b, n - 1); }
  }

  /** In a space with room for both boxes, the squared distance is that of some pair of
      points, and no pair is nearer. */
  lemma DistanceIsMinimum(a: Box, b: Box, n: nat)
    requires n >= MaxDim(a, b)
    ensures forall p: Point, q: Point :: In(p, a) && In(q, b) ==> SquaredDistance(a, b) <= PointDistance(p, q, n)
    ensures exists p: Point, q: Point :: In(p, a) && In(q, b) && SquaredDistance(a, b) == PointDistance(p, q, n)
  {
    NoGapBeyond(a, b, n);
    forall p: Point, q: Point | In(p, a) && In(q, b) ensures SquaredDistance(a, b) <= PointDistance(p, q, n) {
      NoPointsNearer(a, b, p, q, n);
    }
    var p: Point, q: Point := (i: nat) => Nearest(a, b, i), (i: nat) => Nearest(b, a, i);
    forall i: nat ensures Lo(a, i) <= p(i) <= Hi(a, i) && Lo(b, i) <= q(i) <= Hi(b, i) {
      NearestApart(a, b, i);
      NearestApart(b, a, i);
    }
    assert In(p, a) && In(q, b);
    NearestPoints(a, b, p, q, n);
  }

  lemma DistanceSymmetric(a: Box, b: Box)
    ensures SquaredDistance(a, b) == SquaredDistance(b, a)
  {
    GapCommutes(a, b, MaxDim(a, b));
  }

  lemma ProductSign(x: real, y: real)
    requires 0.0 <= x && 0.0 <= y
    ensures 0.0 <= Times(x, y) && (Times(x, y) == 0.0 <==> x == 0.0 || y == 0.0)
  {
  }

  lemma {:induction false} NoGaps(a: Box, b: Box, n: nat)
    ensures 0.0 <= SumOfGaps(a, b, n)
    ensures SumOfGaps(a, b, n) == 0.0 <==> forall i :: 0 <= i < n ==> OverlapsAt(a, b, i)
  {
    if n > 0 {
      NoGaps(a, b, n - 1);
      var g := Gap(a, b, n - 1);
      ProductSign(g, g);
      assert g == 0.0 <==> OverlapsAt(a, b, n - 1);
    }
  }

  /** Boxes are at distance zero exactly if they overlap. */
  lemma ZeroIsOverlap(a: Box, b: Box)
    ensures SquaredDistance(a, b) == 0.0 <==> Overlaps(a, b)
  {
    NoGaps(a, b, MaxDim(a, b));
  }
}
