/** When cube_cmp_v0 is an order. It compares the common dimensions to the end before it looks
    at the others, so boxes of different dimensions can form a circle. For three numbers of
    dimensions, whether they can is decided exactly.
 */
module CubeOrder {
  import opened Cube

  function Sign(x: int): int {
    if x > 0 then 1 else if x < 0 then -1 else 0
  }

  // ----- where it is an order -----

  lemma RangeTransitive(a: Box, b: Box, c: Box, from: nat, to: nat)
    requires from <= to && CmpRange(a, b, from, to) <= 0 && CmpRange(b, c, from, to) <= 0
    ensures CmpRange(a, c, from, to) <= 0
    ensures CmpRange(a, c, from, to) == 0 ==> CmpRange(a, b, from, to) == CmpRange(b, c, from, to) == 0
  {
    LexTransitive(Lows(a, from, to), Lows(b, from, to), Lows(c, from, to));
    if Lex(Lows(a, from, to), Lows(c, from, to)) == 0 {
      LexTransitive(Highs(a, from, to), Highs(b, from, to), Highs(c, from, to));
    }
  }

  lemma RangeAntisymmetric(a: Box, b: Box, from: nat, to: nat)
    requires from <= to
    ensures CmpRange(a, b, from, to) == -CmpRange(b, a, from, to) && -1 <= CmpRange(a, b, from, to) <= 1
  {
    LexAntisymmetric(Lows(a, from, to), Lows(b, from, to));
    LexAntisymmetric(Highs(a, from, to), Highs(b, from, to));
  }

  /** First by the dimensions below n, then by the numbers s and t given to the boxes. */
  function Ranked(a: Box, s: int, b: Box, t: int, n: nat): int {
    var r := CmpRange(a, b, 0, n);
    if r != 0 then r else Sign(s - t)
  }

  lemma RankedTransitive(a: Box, s: int, b: Box, t: int, c: Box, u: int, n: nat)
    requires Ranked(a, s, b, t, n) <= 0 && Ranked(b, t, c, u, n) <= 0
    ensures Ranked(a, s, c, u, n) <= 0
  {
    RangeTransitive(a, b, c, 0, n);
  }

  const ORIGIN: Box := NDBox(0, [])

  /** How the dimensions from p on compare with having none. */
  function Tail(b: Box, p: nat): int
    requires p <= b.dim
  {
    if b.dim == p then 0
    else
      var t := CmpRange(b, ORIGIN, p, b.dim);
      if t != 0 then t else 1
  }

  lemma NothingBeyond(a: Box, p: nat, n: nat)
    requires a.dim <= p <= n
    ensures Lows(a, p, n) == Lows(ORIGIN, p, n) && Highs(a, p, n) == Highs(ORIGIN, p, n)
  {
  }

  lemma EmptyRange(a: Box, b: Box, p: nat)
    ensures CmpRange(a, b, p, p) == 0
  {
  }

  /** Of two boxes, one of which has just p dimensions. */
  lemma RankedByTail(a: Box, b: Box, p: nat)
    requires p <= a.dim && p <= b.dim && (a.dim == p || b.dim == p)
    ensures Cmp(a, b) == Ranked(a, Tail(a, p), b, Tail(b, p), p)
  {
    RangeAntisymmetric(a, ORIGIN, p, a.dim);
    RangeAntisymmetric(b, ORIGIN, p, b.dim);
    if a.dim == p {
      NothingBeyond(a, p, b.dim);
      EmptyRange(a, b, p);
      assert CmpRange(a, b, p, b.dim) == CmpRange(ORIGIN, b, p, b.dim);
    } else {
      NothingBeyond(b, p, a.dim);
      assert CmpRange(a, b, p, a.dim) == CmpRange(a, ORIGIN, p, a.dim);
    }
  }

  /** Of two boxes, each of which has n dimensions or none. */
  lemma RankedByDim(a: Box, b: Box, n: nat)
    requires (a.dim == 0 || a.dim == n) && (b.dim == 0 || b.dim == n)
    ensures Cmp(a, b) == Ranked(a, a.dim, b, b.dim, n)
  {
    EmptyRange(a, b, 0);
    EmptyRange(a, b, n);
    if a.dim == b.dim == 0 {
      NothingBeyond(a, 0, n);
      NothingBeyond(b, 0, n);
    }
  }

  // ----- where it is not -----

  /** A box that is zero but for the lower end of dimension k and the upper end of dimension 0. */
  function Spike(dim: nat, k: nat, low: real, high: real): Box {
    MakeBox(seq(dim, i => if i == k then low else 0.0), seq(dim, i => if i == 0 then high else 0.0))
  }

  lemma SpikeEnds(dim: nat, k: nat, low: real, high: real, i: nat)
    requires low <= 0.0 <= high
    ensures var b := Spike(dim, k, low, high);
            && b.dim == dim
            && Lo(b, i) == (if i == k && i < dim then low else 0.0)
            && Hi(b, i) == (if i == 0 && i < dim then high else 0.0)
  {
  }

  lemma {:induction false} LexFirst(u: seq<real>, v: seq<real>, k: nat)
    requires |u| == |v| && k < |u| && u[k] < v[k] && forall i :: 0 <= i < k ==> u[i] == v[i]
    ensures Lex(u, v) == -1
  {
    if k > 0 { LexFirst(u[1..], v[1..], k - 1); }
  }

  /** Equal lower ends, and a smaller upper end in the first dimension. */
  lemma LessByHigh(a: Box, b: Box, n: nat)
    requires 0 < n && (forall i: nat :: i < n ==> Lo(a, i) == Lo(b, i)) && Hi(a, 0) < Hi(b, 0)
    ensures CmpRange(a, b, 0, n) == -1
  {
    assert Lows(a, 0, n) == Lows(b, 0, n);
    LexFirst(Highs(a, 0, n), Highs(b, 0, n), 0);
  }

  /** A smaller lower end in dimension k, and equal ones before. */
  lemma LessByLow(a: Box, b: Box, k: nat, n: nat)
    requires k < n && (forall i: nat :: i < k ==> Lo(a, i) == Lo(b, i)) && Lo(a, k) < Lo(b, k)
    ensures CmpRange(a, b, 0, n) == -1
  {
    LexFirst(Lows(a, 0, n), Lows(b, 0, n), k);
  }

  /** One box has fewer dimensions than both others, and some. */
  lemma CycleAbove(p: nat, q: nat, r: nat) returns (a: Box, b: Box, c: Box)
    requires 0 < p < q <= r
    ensures a.dim == q && b.dim == p && c.dim == r && Cmp(a, b) < 0 && Cmp(b, c) < 0 && Cmp(c, a) < 0
  {
    a, b, c := Spike(q, p, -1.0, 1.0), Spike(p, p, 0.0, 2.0), Spike(r, p, -5.0, 3.0);
    forall i: nat
      ensures i < p ==> Lo(a, i) == Lo(b, i) == Lo(c, i) == 0.0
      ensures Hi(a, 0) == 1.0 && Hi(b, 0) == 2.0 && Hi(c, 0) == 3.0 && Lo(a, p) == -1.0 && Lo(c, p) == -5.0
    {
      SpikeEnds(q, p, -1.0, 1.0, i);
      SpikeEnds(p, p, 0.0, 2.0, i);
      SpikeEnds(r, p, -5.0, 3.0, i);
      SpikeEnds(q, p, -1.0, 1.0, 0);
      SpikeEnds(p, p, 0.0, 2.0, 0);
      SpikeEnds(r, p, -5.0, 3.0, 0);
      SpikeEnds(q, p, -1.0, 1.0, p);
      SpikeEnds(r, p, -5.0, 3.0, p);
    }
    LessByHigh(a, b, p);
    LessByHigh(b, c, p);
    LessByLow(c, a, p, q);
  }

  /** One box has none, and the others differ. */
  lemma CycleAtOrigin(q: nat, r: nat) returns (a: Box, b: Box, c: Box)
    requires 0 < q < r
    ensures a.dim == 0 && b.dim == q && c.dim == r && Cmp(a, b) < 0 && Cmp(b, c) < 0 && Cmp(c, a) < 0
  {
    a, b, c := ORIGIN, Spike(q, q, 0.0, 1.0), Spike(r, q, -1.0, 2.0);
    forall i: nat
      ensures Lo(b, i) == 0.0 && (i < q ==> Lo(c, i) == 0.0)
      ensures Hi(b, 0) == 1.0 && Hi(c, 0) == 2.0 && Lo(c, q) == -1.0
    {
      SpikeEnds(q, q, 0.0, 1.0, i);
      SpikeEnds(r, q, -1.0, 2.0, i);
      SpikeEnds(q, q, 0.0, 1.0, 0);
      SpikeEnds(r, q, -1.0, 2.0, 0);
      SpikeEnds(r, q, -1.0, 2.0, q);
    }
    EmptyRange(a, b, 0);
    EmptyRange(c, a, 0);
    LessByHigh(a, b, q);
    LessByHigh(b, c, q);
    LessByLow(c, a, q, r);
  }

  // ----- exactly when -----

  /** The comparison is transitive among boxes of these three numbers of dimensions, in any order. */
  ghost predicate TransitiveAmong(p: nat, q: nat, r: nat) {
    forall a: Box, b: Box, c: Box ::
      multiset{a.dim, b.dim, c.dim} == multiset{p, q, r} && Cmp(a, b) <= 0 && Cmp(b, c) <= 0 ==> Cmp(a, c) <= 0
  }

  /** The two least numbers agree, or one is zero and the others agree. */
  predicate Compatible(p: nat, q: nat, r: nat) {
    p == q || (p == 0 && q == r)
  }

  lemma InOrder(a: Box, b: Box, c: Box, p: nat, q: nat, r: nat)
    requires p <= q <= r && Compatible(p, q, r) && multiset{a.dim, b.dim, c.dim} == multiset{p, q, r}
    requires Cmp(a, b) <= 0 && Cmp(b, c) <= 0
    ensures Cmp(a, c) <= 0
  {
    DimsAre(a.dim, b.dim, c.dim, p, q, r);
    if p == q {
      RankedByTail(a, b, p);
      RankedByTail(b, c, p);
      RankedByTail(a, c, p);
      RankedTransitive(a, Tail(a, p), b, Tail(b, p), c, Tail(c, p), p);
    } else {
      RankedByDim(a, b, r);
      RankedByDim(b, c, r);
      RankedByDim(a, c, r);
      RankedTransitive(a, a.dim, b, b.dim, c, c.dim, r);
    }
  }

  lemma DimsAre(x: nat, y: nat, z: nat, p: nat, q: nat, r: nat)
    requires multiset{x, y, z} == multiset{p, q, r}
    ensures (x, y, z) in {(p, q, r), (p, r, q), (q, p, r), (q, r, p), (r, p, q), (r, q, p)}
  {
    assert x in multiset{p, q, r} && y in multiset{p, q, r} && z in multiset{p, q, r};
    assert multiset{x, y, z}[p] == multiset{p, q, r}[p] && multiset{x, y, z}[q] == multiset{p, q, r}[q];
    assert multiset{x, y, z}[r] == multiset{p, q, r}[r];
  }

  /** For three numbers of dimensions, however they are spread over the boxes, the comparison is
      transitive if and only if the two least agree, or one is zero and the others agree. */
  lemma CmpTransitiveIff(p: nat, q: nat, r: nat)
    requires p <= q <= r
    ensures TransitiveAmong(p, q, r) <==> Compatible(p, q, r)
  {
    if Compatible(p, q, r) {
      forall a: Box, b: Box, c: Box
        | multiset{a.dim, b.dim, c.dim} == multiset{p, q, r} && Cmp(a, b) <= 0 && Cmp(b, c) <= 0
        ensures Cmp(a, c) <= 0
      {
        InOrder(a, b, c, p, q, r);
      }
    } else {
      var a, b, c;
      if p > 0 { a, b, c := CycleAbove(p, q, r); } else { a, b, c := CycleAtOrigin(q, r); }
      CmpAntisymmetric(a, c);
    }
  }

  // ----- the comparison as one dictionary order -----

  /** Where the two first differ, u is smaller. */
  predicate Precedes(u: seq<real>, v: seq<real>)
    requires |u| == |v|
  {
    exists i :: 0 <= i < |u| && u[..i] == v[..i] && u[i] < v[i]
  }

  lemma {:induction false} LexIff(u: seq<real>, v: seq<real>)
    requires |u| == |v|
    ensures Lex(u, v) < 0 <==> Precedes(u, v)
  {
    if u != [] {
      LexIff(u[1..], v[1..]);
      if i :| 0 <= i < |u| && u[..i] == v[..i] && u[i] < v[i] {
        if i > 0 {
          assert u[0] == u[..i][0] == v[..i][0] == v[0];
          assert u[1..][..i - 1] == u[..i][1..] && v[1..][..i - 1] == v[..i][1..];
        }
      }
      if u[0] == v[0] && Precedes(u[1..], v[1..]) {
        var i :| 0 <= i < |u| - 1 && u[1..][..i] == v[1..][..i] && u[1..][i] < v[1..][i];
        assert u[..i + 1] == [u[0]] + u[1..][..i] && v[..i + 1] == [v[0]] + v[1..][..i];
        assert u[i + 1] < v[i + 1];
      }
      if u[0] < v[0] { assert u[..0] == v[..0]; }
    }
  }

  lemma {:induction false} LexAppend(u: seq<real>, v: seq<real>, u': seq<real>, v': seq<real>)
    requires |u| == |v| && |u'| == |v'|
    ensures Lex(u + u', v + v') == if Lex(u, v) != 0 then Lex(u, v) else Lex(u', v')
  {
    if u == [] {
      assert u + u' == u' && v + v' == v';
    } else {
      assert (u + u')[1..] == u[1..] + u' && (v + v')[1..] == v[1..] + v';
      LexAppend(u[1..], v[1..], u', v');
    }
  }

  /** The ends of a box in the order in which they are compared: lower and then upper ends in the
      dimensions both boxes have, and the same in the rest. */
  function Ends(b: Box, dim: nat, max: nat): seq<real>
    requires dim <= max
  {
    Lows(b, 0, dim) + Highs(b, 0, dim) + (Lows(b, dim, max) + Highs(b, dim, max))
  }

  /** One box is below another if and only if its ends come first in the dictionary, or are the same
      and it has fewer dimensions. */
  lemma CmpIff(a: Box, b: Box)
    ensures var dim, max := if a.dim < b.dim then a.dim else b.dim, MaxDim(a, b);
            var u, v := Ends(a, dim, max), Ends(b, dim, max);
            Cmp(a, b) < 0 <==> Precedes(u, v) || (u == v && a.dim < b.dim)
  {
    var dim, max := if a.dim < b.dim then a.dim else b.dim, MaxDim(a, b);
    LexAppend(Lows(a, 0, dim), Lows(b, 0, dim), Highs(a, 0, dim), Highs(b, 0, dim));
    LexAppend(Lows(a, dim, max), Lows(b, dim, max), Highs(a, dim, max), Highs(b, dim, max));
    LexAppend(Lows(a, 0, dim) + Highs(a, 0, dim), Lows(b, 0, dim) + Highs(b, 0, dim),
              Lows(a, dim, max) + Highs(a, dim, max), Lows(b, dim, max) + Highs(b, dim, max));
    LexIff(Ends(a, dim, max), Ends(b, dim, max));
  }
}
