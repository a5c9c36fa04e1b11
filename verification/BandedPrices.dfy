/** Exactly for which prices the bounded program of contrib/fuzzystrmatch/levenshtein.cpp is
    right: it relies on residuals that bound the distance from below, and on sentinels that
    no negative residual can undo.
 */
module BandedPrices {
  import opened EditDistance
  import opened Banded

  /** Strings the program accepts; what the characters are does not matter. */
  type Text = seq<int>

  predicate Accepted(s: Text, t: Text) {
    0 < |s| <= 255 && 0 < |t| <= 255
  }

  // ----- the early exit -----

  /** If the theoretical minimum exceeds the bound, so does the distance. */
  predicate ExitIsRight(g: Grid<int>, bound: int) {
    0 <= bound < g.Residual(0, 0) ==> bound < g.Distance()
  }

  ghost predicate ExitIsSound(c: Costs) {
    forall s: Text, t: Text, bound: int :: Accepted(s, t) ==> ExitIsRight(Grid(c, s, t), bound)
  }

  /** Insertions and deletions cost nothing or less, so that the exit is never taken, or nothing
      is earned by detours. */
  predicate ExitPrices(c: Costs) {
    (c.ins <= 0 && c.del <= 0) || c.NoGain()
  }

  lemma ResidualNotPositive(g: Grid<int>)
    requires g.c.ins <= 0 && g.c.del <= 0
    ensures g.Residual(0, 0) <= 0
  {
    var net := 0 - (0 - (|g.t| - |g.s|));
    if net > 0 { ProductNotPositive(net, g.c.ins); } else { ProductNotPositive(-net, g.c.del); }
  }

  /** One string is a character longer than the other and they share none. */
  lemma ShortStrings(c: Costs) returns (s: Text, t: Text, bound: int)
    requires !ExitPrices(c)
    ensures Accepted(s, t) && bound >= 0 && Grid(c, s, t).Residual(0, 0) == bound + 1
    ensures Grid(c, s, t).Distance() <= bound
  {
    if c.ins > 0 {
      s, t, bound := [0], [1, 2], c.ins - 1;
      var g := Grid(c, s, t);
      RewriteAll(g);
      NoBetterStep(g, 1, 1, Diagonal, g.Cell(0, 0) + c.sub);
      NoBetterStep(g, 1, 2, Insertion, g.Cell(1, 1) + c.ins);
    } else {
      s, t, bound := [1, 2], [0], c.del - 1;
      var g := Grid(c, s, t);
      RewriteAll(g);
      NoBetterStep(g, 1, 1, Diagonal, g.Cell(0, 0) + c.sub);
      NoBetterStep(g, 2, 1, Deletion, g.Cell(1, 1) + c.del);
    }
  }

  /** The exit is sound for all strings and bounds if and only if the prices are such. */
  lemma EarlyExitIff(c: Costs)
    ensures ExitIsSound(c) <==> ExitPrices(c)
  {
    if ExitPrices(c) {
      forall s: Text, t: Text, bound: int | Accepted(s, t) ensures ExitIsRight(Grid(c, s, t), bound) {
        var g := Grid(c, s, t);
        if c.NoGain() { TheoreticalRange(g); } else { ResidualNotPositive(g); }
      }
    } else {
      var s, t, bound := ShortStrings(c);
      assert !ExitIsRight(Grid(c, s, t), bound);
    }
  }

  // ----- the sentinels -----

  const PQ: Text := [0, 1]
  const PR: Text := [0, 2]

  /** Prices for which the sentinels fail: one of insertion and deletion earns something, but
      less than the other costs, and substitutions are not free. */
  predicate Tempting(c: Costs) {
    c.NoGain() && Min(c.sub, c.ins + c.del) > 0 && (c.ins < 0 || c.del < 0)
  }

  /** The true distance of the two strings is one substitution. */
  lemma PairDistance(g: Grid<int>)
    requires g.s == PQ && g.t == PR && Tempting(g.c) && g.c.sub <= g.c.ins + g.c.del
    ensures g.Distance() == g.c.sub
  {
    assert g.Cell(0, 0) == 0 && g.Cell(1, 0) == g.c.del && g.Cell(0, 1) == g.c.ins;
    assert g.Cell(2, 0) == 2 * g.c.del && g.Cell(0, 2) == 2 * g.c.ins;
    assert g.Cell(1, 1) == 0;
    assert g.Cell(2, 1) == g.c.del;
    assert g.Cell(1, 2) == g.c.ins;
  }

  /** The plan for bound zero: one column of the first row. */
  lemma PairPlan(g: Grid<int>)
    requires g.s == PQ && g.t == PR && Tempting(g.c)
    ensures PlanFor(g, 0) == Band(g.c.Clamped(), 0, 1)
  {
    var c := g.c.Clamped();
    assert g.Residual(0, 0) == 0;
    assert c.sub * 2 > 0;
    assert 0 / (c.ins + c.del) == 0;
  }

  /** What the first row makes of the band. The value in column 1 is the cell's own, or worse
      if insertions earn something. */
  lemma PairFirstRow(g: Grid<int>)
    requires g.s == PQ && g.t == PR && Tempting(g.c) && g.c.sub <= g.c.ins + g.c.del
    ensures var v := if g.c.ins < 0 then 1 + g.c.ins else 0;
            NextState(g, 0, 1, StartState(g, 1)) == State([Set(1), Set(v), Unset], [Set(1), Set(1), Unset], 1, 2)
  {
    var c, v := g.c, if g.c.ins < 0 then 1 + g.c.ins else 0;
    var st := StartState(g, 1);
    assert st.prev == [Set(0), Unset, Unset] && st.curr == [Unset, Unset, Unset];
    var w := Widened(g, 0, st);
    assert w == State([Set(0), Set(1), Unset], [Unset, Unset, Unset], 0, 2);
    var row0 := w.curr[0 := Set(1 * c.ins)];
    assert row0 == [Set(c.ins), Unset, Unset];
    assert CellValue(g, 1, 1, w.prev[1], row0[0], w.prev[0]) == Set(v);
    assert row0[1 := Set(v)] == [Set(c.ins), Set(v), Unset];
    assert FillFrom(g, 1, w.prev, row0, 1, 2) == FillFrom(g, 1, w.prev, row0[1 := Set(v)], 2, 2);
    var row := FilledRow(g, 1, w.prev, w.curr, 0, 2);
    assert row == [Set(c.ins), Set(v), Unset];
    assert g.Residual(1, 1) == 0 && g.Residual(0, 1) == c.del;
    assert Expected(g, row, 1, 1) == v && Expected(g, row, 0, 1) == c.ins + c.del;
    assert SlideStopTo(g, row, 2, 1, 0) == 2;
    assert SlideStartTo(g, row, 1, 2, 1, 0) == 1;
    assert SlideStartTo(g, row, 0, 2, 1, 0) == 1;
    assert Marked(row, 0, 1, 0) == [Set(1), Set(v), Unset];
    assert Marked(w.prev, 0, 1, 0) == [Set(1), Set(1), Unset];
  }

  /** What the second row then makes of the last column. */
  lemma PairSecondRow(g: Grid<int>, v: int)
    requires g.s == PQ && g.t == PR && Tempting(g.c) && g.c.sub <= g.c.ins + g.c.del
    requires v == if g.c.ins < 0 then 1 + g.c.ins else 0
    ensures var r := NextState(g, 0, 2, State([Set(1), Set(v), Unset], [Set(1), Set(1), Unset], 1, 2));
            r.State? && r.prev[2].Set? && r.prev[2].v <= 0
  {
    var c := g.c;
    var st := State([Set(1), Set(v), Unset], [Set(1), Set(1), Unset], 1, 2);
    var w := Widened(g, 0, st);
    assert w == State([Set(1), Set(v), Set(1)], [Set(1), Set(1), Unset], 1, 3);
    var x := Min(Min(v + c.ins, 1 + c.del), 1 + c.sub);
    assert CellValue(g, 1, 2, w.prev[1], w.curr[0], w.prev[0]) == Set(x);
    var row1 := w.curr[1 := Set(x)];
    assert row1 == [Set(1), Set(x), Unset];
    var y := Min(Min(1 + c.ins, x + c.del), v + c.sub);
    assert CellValue(g, 2, 2, w.prev[2], row1[1], w.prev[1]) == Set(y);
    assert row1[2 := Set(y)] == [Set(1), Set(x), Set(y)];
    assert FillFrom(g, 2, w.prev, row1, 2, 3) == FillFrom(g, 2, w.prev, row1[2 := Set(y)], 3, 3);
    var row := FilledRow(g, 2, w.prev, w.curr, 1, 3);
    assert row == [Set(1), Set(x), Set(y)];
    assert y <= 0;
    assert g.Residual(2, 2) == 0;
    assert SlideStopTo(g, row, 3, 2, 0) == 3;
    assert SlideStartTo(g, row, 2, 3, 2, 0) == 2;
    assert SlideStartTo(g, row, 1, 3, 2, 0) <= 2;
  }

  /** With such prices the program says that the strings are within bound zero, and they are
      not. */
  lemma SentinelsMislead(c: Costs)
    requires Tempting(c)
    ensures Answer(Grid(c, PQ, PR), 0) <= 0 < Grid(c, PQ, PR).Distance()
  {
    var g, h := Grid(c, PQ, PR), Grid(c.Clamped(), PQ, PR);
    PairPlan(g);
    ClampedRun(g, h);
    PairDistance(h);
    PairFirstRow(h);
    var v := if c.ins < 0 then 1 + c.ins else 0;
    PairSecondRow(h, v);
    var st1 := NextState(h, 0, 1, StartState(h, 1));
    var st2 := NextState(h, 0, 2, st1);
    assert RunFrom(h, 0, 2, st2) == Val(st2.prev[2]);
    assert RunFrom(h, 0, 1, st1) == RunFrom(h, 0, 2, st2);
  }

  /** A wrong answer at the early exit: the strings are at distance zero, and the program says
      that they are farther than four apart. */
  lemma ExitMisleads()
    ensures var g := Grid(Costs(5, -10, 1), [0], [0, 1]); Answer(g, 4) == 5 && g.Distance() == 0
  {
    var g := Grid(Costs(5, -10, 1), [0], [0, 1]);
    assert g.Cell(0, 0) == 0;
    assert g.Cell(0, 1) == 5 && g.Cell(1, 0) == -10;
    assert g.Cell(0, 2) == 10;
    assert g.Cell(1, 1) == -5;
  }

  // ----- exactly when -----

  /** The program answers rightly for all strings it accepts and all bounds. */
  ghost predicate AlwaysRight(c: Costs) {
    forall s: Text, t: Text, bound: int ::
      Accepted(s, t) ==> Right(Answer(Grid(c, s, t), bound), Grid(c, s, t).Distance(), bound)
  }

  /** The bounded program is right for all strings and bounds if and only if the prices are
      honest. */
  lemma AlwaysRightIff(c: Costs)
    ensures AlwaysRight(c) <==> Honest(c)
  {
    if Honest(c) {
      forall s: Text, t: Text, bound: int | Accepted(s, t)
        ensures Right(Answer(Grid(c, s, t), bound), Grid(c, s, t).Distance(), bound)
      {
        HonestAnswer(Grid(c, s, t), bound);
      }
    } else if !ExitPrices(c) {
      var s, t, bound := ShortStrings(c);
      assert !Right(Answer(Grid(c, s, t), bound), Grid(c, s, t).Distance(), bound);
    } else {
      SentinelsMislead(c);
      assert !Right(Answer(Grid(c, PQ, PR), 0), Grid(c, PQ, PR).Distance(), 0);
    }
  }
}
