/** rt_cube_size, and what makes it the volume of a box: the unit box has size one, cutting a box
    in two adds up, moving a box changes nothing, and only flat boxes have size zero.
 */
module CubeSize {
  import opened Cube

  function Abs(r: real): real { if r < 0.0 then -r else r }

  function Product(s: seq<real>): real {
    if s == [] then 1.0 else Product(s[..|s| - 1]) * s[|s| - 1]
  }

  /** The lengths of the intervals. */
  function Sides(b: Box): (s: seq<real>)
    ensures |s| == b.dim && forall i :: 0 <= i < b.dim ==> s[i] == Hi(b, i) - Lo(b, i)
  {
    seq(b.dim, i requires 0 <= i < b.dim => Hi(b, i) - Lo(b, i))
  }

  function Size(b: Box): real {
    Product(Sides(b))
  }

  /** rt_cube_size */
  method RtCubeSize(b: Box) returns (size: real)
    ensures size == Size(b)
  {
    size := 1.0;
    ghost var s := Sides(b);
    for i := 0 to b.dim
      invariant size == Product(s[..i])
    {
      assert s[..i + 1][..i] == s[..i];
      size := size * Abs(b.x[b.dim + i] - b.x[i]);
    }
    assert s[..b.dim] == s;
  }

  // ----- moving -----

  /** The box as far from b as the vector says. */
  function Moved(b: Box, v: seq<real>): Box
    requires |v| == b.dim
  {
    MakeBox(seq(b.dim, i requires 0 <= i < b.dim => Lo(b, i) + v[i]),
            seq(b.dim, i requires 0 <= i < b.dim => Hi(b, i) + v[i]))
  }

  lemma MovingKeepsSize(b: Box, v: seq<real>)
    requires |v| == b.dim
    ensures Size(Moved(b, v)) == Size(b)
  {
    assert Sides(Moved(b, v)) == Sides(b);
  }

  // ----- the unit -----

  function Unit(n: nat): Box {
    MakeBox(seq(n, i => 0.0), seq(n, i => 1.0))
  }

  lemma {:induction false} ProductOfOnes(s: seq<real>)
    requires forall i :: 0 <= i < |s| ==> s[i] == 1.0
    ensures Product(s) == 1.0
    decreases |s|
  {
    if s != [] { ProductOfOnes(s[..|s| - 1]); }
  }

  lemma UnitHasSizeOne(n: nat)
    ensures Size(Unit(n)) == 1.0
  {
    ProductOfOnes(Sides(Unit(n)));
  }

  // ----- cutting -----

  /** Box b with another interval in dimension i. */
  function With(b: Box, i: nat, lo: real, hi: real): Box
    requires i < b.dim
  {
    MakeBox(seq(b.dim, k requires 0 <= k < b.dim => if k == i then lo else Lo(b, k)),
            seq(b.dim, k requires 0 <= k < b.dim => if k == i then hi else Hi(b, k)))
  }

  lemma Exchange(x: real, y: real, z: real)
    ensures x * y * z == x * z * y
  {
  }

  /** A product is proportional to each of its factors. */
  lemma {:induction false} OneFactor(s: seq<real>, i: nat, x: real)
    requires i < |s|
    ensures Product(s[i := x]) == Product(s[i := 1.0]) * x
    decreases |s|
  {
    var n := |s| - 1;
    if i == n {
      assert s[i := x][..n] == s[..n] == s[i := 1.0][..n];
    } else {
      OneFactor(s[..n], i, x);
      assert s[i := x][..n] == s[..n][i := x] && s[i := 1.0][..n] == s[..n][i := 1.0];
      Exchange(Product(s[..n][i := 1.0]), x, s[n]);
    }
  }

  lemma Distributes(base: real, y: real, z: real)
    ensures base * y + base * z == base * (y + z)
  {
  }

  lemma FactorsAddUp(s: seq<real>, i: nat, y: real, z: real)
    requires i < |s| && s[i] == y + z
    ensures Product(s) == Product(s[i := y]) + Product(s[i := z])
  {
    assert s[i := y + z] == s;
    OneFactor(s, i, y);
    OneFactor(s, i, z);
    OneFactor(s, i, y + z);
    Distributes(Product(s[i := 1.0]), y, z);
  }

  /** Cutting a box in two at a coordinate inside it gives parts whose sizes add up. */
  lemma CutAddsUp(b: Box, i: nat, c: real)
    requires i < b.dim && Lo(b, i) <= c <= Hi(b, i)
    ensures Size(b) == Size(With(b, i, Lo(b, i), c)) + Size(With(b, i, c, Hi(b, i)))
  {
    var s := Sides(b);
    assert Sides(With(b, i, Lo(b, i), c)) == s[i := c - Lo(b, i)];
    assert Sides(With(b, i, c, Hi(b, i))) == s[i := Hi(b, i) - c];
    FactorsAddUp(s, i, c - Lo(b, i), Hi(b, i) - c);
  }

  // ----- flat boxes -----

  lemma ProductSign(x: real, y: real)
    requires 0.0 <= x && 0.0 <= y
    ensures 0.0 <= x * y && (x * y == 0.0 <==> x == 0.0 || y == 0.0)
  {
  }

  lemma {:induction false} ZeroFactor(s: seq<real>)
    requires forall i :: 0 <= i < |s| ==> 0.0 <= s[i]
    ensures 0.0 <= Product(s) && (Product(s) == 0.0 <==> exists i :: 0 <= i < |s| && s[i] == 0.0)
    decreases |s|
  {
    if s != [] {
      var n := |s| - 1;
      ZeroFactor(s[..n]);
      ProductSign(Product(s[..n]), s[n]);
      if i :| 0 <= i < n && s[..n][i] == 0.0 { assert s[i] == 0.0; }
      if i :| 0 <= i < n && s[i] == 0.0 { assert s[..n][i] == 0.0; }
    }
  }

  lemma ZeroIffFlat(b: Box)
    ensures 0.0 <= Size(b) && (Size(b) == 0.0 <==> exists i :: 0 <= i < b.dim && Lo(b, i) == Hi(b, i))
  {
    ZeroFactor(Sides(b));
    if i :| 0 <= i < b.dim && Lo(b, i) == Hi(b, i) { assert Sides(b)[i] == 0.0; }
  }
}
