/** The notional (m+1) x (n+1) edit-distance matrix that both compiled forms of
    contrib/fuzzystrmatch/levenshtein.cpp evaluate, and the facts about it that
    the bounded form relies on.

    Column i of row j is the cost of turning the first i characters of the source
    string into the first j characters of the target string.
 */
module EditDistance {
  import opened Sequences

  datatype Costs = Costs(ins: int, del: int, sub: int) {
    predicate NonNegative() {
      0 <= ins && 0 <= del && 0 <= sub
    }

    /** Nothing is earned by detours: neither a substitution nor an insertion together with
        a deletion has a negative price. */
    predicate NoGain() {
      0 <= ins + del && 0 <= sub
    }

    /** The bounded form never pays more for a substitution than for a deletion
        followed by an insertion. */
    function Clamped(): Costs {
      if ins + del < sub then this.(sub := ins + del) else this
    }

    function Mirrored(): Costs {
      Costs(del, ins, sub)
    }
  }

  function Min(a: int, b: int): int {
    if a < b then a else b
  }

  /** A source string, a target string and a price list. */
  datatype Grid<T(==)> = Grid(c: Costs, s: seq<T>, t: seq<T>) {

    predicate Within(i: int, j: int) {
      0 <= i <= |s| && 0 <= j <= |t|
    }

    /** What the diagonal step into cell (i, j) costs. */
    function Diag(i: nat, j: nat): int
      requires 0 < i <= |s| && 0 < j <= |t|
    {
      if s[i - 1] == t[j - 1] then 0 else c.sub
    }

    function Cell(i: nat, j: nat): int
      requires Within(i, j)
      decreases i + j
    {
      if i == 0 && j == 0 then 0
      else if i == 0 then Cell(0, j - 1) + c.ins
      else if j == 0 then Cell(i - 1, 0) + c.del
      else Min(Min(Cell(i, j - 1) + c.ins, Cell(i - 1, j) + c.del), Cell(i - 1, j - 1) + Diag(i, j))
    }

    function Distance(): int {
      Cell(|s|, |t|)
    }

    /** The minimum residual distance: what it costs, at the very least, to bring
        the untransformed remainders to the same length. */
    function Residual(i: int, j: int): int {
      var net := i - (j - (|t| - |s|));
      if net > 0 then net * c.ins else -net * c.del
    }

    /** The best total any path through cell (i, j) can still hope for. */
    function Hope(i: nat, j: nat): int
      requires Within(i, j)
    {
      Cell(i, j) + Residual(i, j)
    }
  }

  function Price<T(==)>(c: Costs, s: seq<T>, t: seq<T>): int {
    Grid(c, s, t).Distance()
  }

  // ----- the border of the matrix -----

  lemma {:induction false} TopRow<T>(g: Grid<T>, i: nat)
    requires i <= |g.s|
    ensures g.Cell(i, 0) == i * g.c.del
  {
    if i > 0 {
      TopRow(g, i - 1);
      assert i * g.c.del == (i - 1) * g.c.del + g.c.del;
    }
  }

  lemma {:induction false} LeftColumn<T>(g: Grid<T>, j: nat)
    requires j <= |g.t|
    ensures g.Cell(0, j) == j * g.c.ins
  {
    if j > 0 {
      LeftColumn(g, j - 1);
      assert j * g.c.ins == (j - 1) * g.c.ins + g.c.ins;
    }
  }

  // ----- neighbouring cells -----

  /** One more source character saves at most one insertion. */
  lemma {:induction false} ShrinkSource<T>(g: Grid<T>, i: nat, j: nat)
    requires g.c.NoGain() && i < |g.s| && j <= |g.t|
    ensures g.Cell(i, j) <= g.Cell(i + 1, j) + g.c.ins
    decreases j
  {
    if j > 0 {
      ShrinkSource(g, i, j - 1);
    }
  }

  /** One more target character saves at most one deletion. */
  lemma {:induction false} ShrinkTarget<T>(g: Grid<T>, i: nat, j: nat)
    requires g.c.NoGain() && i <= |g.s| && j < |g.t|
    ensures g.Cell(i, j) <= g.Cell(i, j + 1) + g.c.del
    decreases i
  {
    if i > 0 {
      ShrinkTarget(g, i - 1, j);
    }
  }

  /** Values never drop along a diagonal. */
  lemma DiagonalGrows<T>(g: Grid<T>, i: nat, j: nat)
    requires g.c.NoGain() && i < |g.s| && j < |g.t|
    ensures g.Cell(i, j) <= g.Cell(i + 1, j + 1)
  {
    ShrinkSource(g, i, j);
    ShrinkTarget(g, i, j);
  }

  /** A step right or down lowers the residual by no more than the step costs, and a
      diagonal step leaves it alone. */
  lemma ResidualSteps<T>(g: Grid<T>, i: int, j: int)
    requires 0 <= g.c.ins + g.c.del
    ensures g.Residual(i, j - 1) <= g.Residual(i, j) + g.c.ins
    ensures g.Residual(i - 1, j) <= g.Residual(i, j) + g.c.del
    ensures g.Residual(i - 1, j - 1) == g.Residual(i, j)
  {
    var net := i - (j - (|g.t| - |g.s|));
    var up := i - (j - 1 - (|g.t| - |g.s|));
    var left := i - 1 - (j - (|g.t| - |g.s|));
    assert up == net + 1 && left == net - 1;
    assert i - 1 - (j - 1 - (|g.t| - |g.s|)) == net;
    assert (net + 1) * g.c.ins == net * g.c.ins + g.c.ins;
    assert (net - 1) * g.c.ins == net * g.c.ins - g.c.ins;
    assert (net + 1) * g.c.del == net * g.c.del + g.c.del;
    assert (net - 1) * g.c.del == net * g.c.del - g.c.del;
  }

  lemma ResidualNonNegative<T>(g: Grid<T>, i: int, j: int)
    requires g.c.NonNegative()
    ensures 0 <= g.Residual(i, j)
  {
    var net := i - (j - (|g.t| - |g.s|));
    if net > 0 { assert 0 <= net * g.c.ins; } else { assert 0 <= -net * g.c.del; }
  }

  // ----- hope never improves from one row to the next -----

  lemma HopeGrows<T>(g: Grid<T>, i: nat, j: nat)
    requires g.c.NoGain() && i <= |g.s| && j < |g.t|
    ensures i < |g.s| ==> g.Hope(i, j) <= g.Hope(i + 1, j + 1)
    ensures i == 0 ==> g.Hope(0, j) <= g.Hope(0, j + 1)
  {
    ResidualSteps(g, i, j + 1);
    ResidualSteps(g, i + 1, j + 1);
    if i < |g.s| { DiagonalGrows(g, i, j); }
  }

  /** No later cell reachable from row j can beat every hope of row j: if a whole
      row is above the bound, so is the answer. */
  lemma {:induction false} DeadRow<T>(g: Grid<T>, j: nat, bound: int)
    requires g.c.NoGain() && j <= |g.t|
    requires forall i :: 0 <= i <= |g.s| ==> g.Hope(i, j) > bound
    ensures g.Distance() > bound
    decreases |g.t| - j
  {
    if j == |g.t| {
      assert g.Hope(|g.s|, |g.t|) == g.Distance();
    } else {
      var next := j + 1;
      forall i | 0 <= i <= |g.s| ensures g.Hope(i, next) > bound {
        if i == 0 { HopeGrows(g, 0, j); } else { HopeGrows(g, i - 1, j); }
      }
      DeadRow(g, next, bound);
    }
  }

  /** No script is cheaper than making up the difference in length. */
  lemma {:induction false} HopeIsLowerBound<T>(g: Grid<T>, i: nat, j: nat)
    requires g.c.NoGain() && g.Within(i, j)
    ensures g.Hope(0, 0) <= g.Hope(i, j)
    decreases i + j
  {
    ResidualSteps(g, i, j);
    if i > 0 { HopeIsLowerBound(g, i - 1, j); }
    if j > 0 { HopeIsLowerBound(g, i, j - 1); }
    if i > 0 && j > 0 { HopeIsLowerBound(g, i - 1, j - 1); }
  }

  // ----- price lists that give the same matrix -----

  /** Capping the substitution price changes no cell, whatever the signs of the prices. */
  lemma {:induction false} ClampKeepsCells<T(!new)>(g: Grid<T>, i: nat, j: nat)
    requires g.Within(i, j)
    ensures Grid(g.c.Clamped(), g.s, g.t).Cell(i, j) == g.Cell(i, j)
    decreases i + j
  {
    if i > 0 { ClampKeepsCells(g, i - 1, j); }
    if j > 0 { ClampKeepsCells(g, i, j - 1); }
    if i > 0 && j > 0 {
      ClampKeepsCells(g, i - 1, j - 1);
      ClampKeepsCell(g, Grid(g.c.Clamped(), g.s, g.t), i, j);
    }
  }

  lemma ClampKeepsCell<T(!new)>(g: Grid<T>, h: Grid<T>, i: nat, j: nat)
    requires h == Grid(g.c.Clamped(), g.s, g.t) && g.Within(i, j) && i > 0 && j > 0
    requires h.Cell(i - 1, j) == g.Cell(i - 1, j) && h.Cell(i, j - 1) == g.Cell(i, j - 1)
    requires h.Cell(i - 1, j - 1) == g.Cell(i - 1, j - 1)
    ensures h.Cell(i, j) == g.Cell(i, j)
  {
    NoBetterStep(g, i - 1, j, Insertion, g.Cell(i - 1, j - 1) + g.c.ins);
  }

  /** Reading the matrix by columns swaps the two strings and the two prices. */
  lemma {:induction false} Transpose<T>(g: Grid<T>, i: nat, j: nat)
    requires g.Within(i, j)
    ensures Grid(g.c.Mirrored(), g.t, g.s).Cell(j, i) == g.Cell(i, j)
    decreases i + j
  {
    if i > 0 { Transpose(g, i - 1, j); }
    if j > 0 { Transpose(g, i, j - 1); }
    if i > 0 && j > 0 { Transpose(g, i - 1, j - 1); }
  }

  lemma Symmetric<T>(c: Costs, s: seq<T>, t: seq<T>)
    ensures Price(c, s, t) == Price(c.Mirrored(), t, s)
    ensures c.ins == c.del ==> Price(c, s, t) == Price(c, t, s)
  {
    Transpose(Grid(c, s, t), |s|, |t|);
  }

  // ----- the distance is a metric -----

  lemma {:induction false} CellNonNegative<T>(g: Grid<T>, i: nat, j: nat)
    requires g.c.NonNegative() && g.Within(i, j)
    ensures 0 <= g.Cell(i, j)
    decreases i + j
  {
    if i > 0 { CellNonNegative(g, i - 1, j); }
    if j > 0 { CellNonNegative(g, i, j - 1); }
    if i > 0 && j > 0 { CellNonNegative(g, i - 1, j - 1); }
  }

  /** The ways into a cell. */
  datatype Step = Start | Insertion | Deletion | Diagonal

  /** Value v is what the step last into cell (i, j) makes of its predecessor's value. */
  ghost predicate Arrives<T(!new)>(g: Grid<T>, i: nat, j: nat, last: Step, v: int)
    requires g.Within(i, j)
  {
    match last
    case Start => i == 0 && j == 0 && v == 0
    case Insertion => j > 0 && v == g.Cell(i, j - 1) + g.c.ins
    case Deletion => i > 0 && v == g.Cell(i - 1, j) + g.c.del
    case Diagonal => i > 0 && j > 0 && v == g.Cell(i - 1, j - 1) + g.Diag(i, j)
  }

  /** A cell's value is reached by one of the steps and beaten by none. */
  lemma LastStep<T(!new)>(g: Grid<T>, i: nat, j: nat) returns (last: Step, v: int)
    requires g.Within(i, j)
    ensures v == g.Cell(i, j) && Arrives(g, i, j, last, v)
  {
    v := g.Cell(i, j);
    last :=
      if i == 0 && j == 0 then Start
      else if j > 0 && v == g.Cell(i, j - 1) + g.c.ins then Insertion
      else if i > 0 && v == g.Cell(i - 1, j) + g.c.del then Deletion
      else Diagonal;
  }

  lemma NoBetterStep<T(!new)>(g: Grid<T>, i: nat, j: nat, last: Step, v: int)
    requires g.Within(i, j) && Arrives(g, i, j, last, v)
    ensures g.Cell(i, j) <= v
  {
  }

  lemma StepFrom<T(!new)>(g: Grid<T>, i: nat, j: nat, x: int)
    requires g.Within(i, j)
    ensures j > 0 && g.Cell(i, j - 1) <= x ==> g.Cell(i, j) <= x + g.c.ins
    ensures i > 0 && g.Cell(i - 1, j) <= x ==> g.Cell(i, j) <= x + g.c.del
    ensures i > 0 && j > 0 && g.Cell(i - 1, j - 1) <= x ==> g.Cell(i, j) <= x + g.Diag(i, j)
  {
  }

  /** Going from s to u by way of t is never a short cut: the last step of the path
      through (i, j) and the last step of the path through (j, k) combine into at most
      one step between s and u. */
  lemma {:induction false} TriangleCells<T(!new)>(st: Grid<T>, tu: Grid<T>, su: Grid<T>, i: nat, j: nat, k: nat)
    requires st.c == tu.c == su.c && st.c.NoGain()
    requires st.t == tu.s && st.s == su.s && tu.t == su.t
    requires st.Within(i, j) && tu.Within(j, k)
    ensures su.Cell(i, k) <= st.Cell(i, j) + tu.Cell(j, k)
    decreases i + j + k, 2
  {
    var a, v := LastStep(st, i, j);
    var b, w := LastStep(tu, j, k);
    if a == Deletion {
      TriangleCells(st, tu, su, i - 1, j, k);
      StepFrom(su, i, k, v + w - su.c.del);
    } else if b == Insertion {
      TriangleCells(st, tu, su, i, j, k - 1);
      StepFrom(su, i, k, v + w - su.c.ins);
    } else if a != Start && b != Start {
      ThroughMiddle(st, tu, su, i, j, k, a, v, b, w);
    }
  }

  /** The case of TriangleCells in which both last steps touch character j of t. */
  lemma {:induction false} ThroughMiddle<T(!new)>(st: Grid<T>, tu: Grid<T>, su: Grid<T>, i: nat, j: nat, k: nat,
                                                  a: Step, v: int, b: Step, w: int)
    requires st.c == tu.c == su.c && st.c.NoGain()
    requires st.t == tu.s && st.s == su.s && tu.t == su.t
    requires st.Within(i, j) && tu.Within(j, k)
    requires (a == Insertion || a == Diagonal) && Arrives(st, i, j, a, v)
    requires (b == Deletion || b == Diagonal) && Arrives(tu, j, k, b, w)
    ensures su.Cell(i, k) <= v + w
    decreases i + j + k, 1
  {
    if a == Insertion && b == Deletion {
      TriangleCells(st, tu, su, i, j - 1, k);
    } else if a == Insertion {
      TriangleCells(st, tu, su, i, j - 1, k - 1);
      StepFrom(su, i, k, v - st.c.ins + w - tu.Diag(j, k));
    } else if b == Deletion {
      TriangleCells(st, tu, su, i - 1, j - 1, k);
      StepFrom(su, i, k, v - st.Diag(i, j) + w - tu.c.del);
    } else {
      DiagonalsMeet(st, tu, su, i, j, k, v, w);
    }
  }

  lemma {:induction false} DiagonalsMeet<T(!new)>(st: Grid<T>, tu: Grid<T>, su: Grid<T>, i: nat, j: nat, k: nat,
                                                  v: int, w: int)
    requires st.c == tu.c == su.c && st.c.NoGain()
    requires st.t == tu.s && st.s == su.s && tu.t == su.t
    requires st.Within(i, j) && tu.Within(j, k)
    requires Arrives(st, i, j, Diagonal, v) && Arrives(tu, j, k, Diagonal, w)
    ensures su.Cell(i, k) <= v + w
    decreases i + j + k, 0
  {
    TriangleCells(st, tu, su, i - 1, j - 1, k - 1);
    StepFrom(su, i, k, v - st.Diag(i, j) + w - tu.Diag(j, k));
    DiagonalTriangle(st, tu, su, i, j, k);
  }

  lemma DiagonalTriangle<T>(st: Grid<T>, tu: Grid<T>, su: Grid<T>, i: nat, j: nat, k: nat)
    requires st.c == tu.c == su.c && st.c.NoGain()
    requires st.t == tu.s && st.s == su.s && tu.t == su.t
    requires 0 < i <= |st.s| && 0 < j <= |st.t| && 0 < k <= |tu.t|
    ensures su.Diag(i, k) <= st.Diag(i, j) + tu.Diag(j, k)
  {
  }

  lemma Triangle<T(!new)>(c: Costs, s: seq<T>, t: seq<T>, u: seq<T>)
    requires c.NoGain()
    ensures Price(c, s, u) <= Price(c, s, t) + Price(c, t, u)
  {
    TriangleCells(Grid(c, s, t), Grid(c, t, u), Grid(c, s, u), |s|, |t|, |u|);
  }

  /** With positive prices, only equal prefixes are at distance zero. */
  lemma {:induction false} ZeroCell<T(!new)>(g: Grid<T>, i: nat, j: nat)
    requires 0 < g.c.ins && 0 < g.c.del && 0 < g.c.sub && g.Within(i, j)
    ensures g.Cell(i, j) == 0 <==> g.s[..i] == g.t[..j]
    decreases i + j
  {
    EqualPrefixes(g.s, g.t, i, j);
    CellNonNegative(g, i, j);
    var last, v := LastStep(g, i, j);
    match last {
      case Start =>
      case Insertion => CellNonNegative(g, i, j - 1);
      case Deletion => CellNonNegative(g, i - 1, j);
      case Diagonal => CellNonNegative(g, i - 1, j - 1);
    }
    if i > 0 && j > 0 {
      ZeroCell(g, i - 1, j - 1);
      NoBetterStep(g, i, j, Diagonal, g.Cell(i - 1, j - 1) + g.Diag(i, j));
    }
  }

  lemma ZeroOnlyForEqual<T(!new)>(c: Costs, s: seq<T>, t: seq<T>)
    requires 0 < c.ins && 0 < c.del && 0 < c.sub
    ensures Price(c, s, t) == 0 <==> s == t
  {
    ZeroCell(Grid(c, s, t), |s|, |t|);
    assert s[..|s|] == s && t[..|t|] == t;
  }
}
