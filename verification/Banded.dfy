/** The program of contrib/fuzzystrmatch/levenshtein.cpp as a function of the matrix, for
    prices of any sign: two rows of cells, a band of columns, sentinels at its edges. The
    methods of module Levenshtein compute this function; here it is shown when its answer is
    the distance.

    Memory from palloc holds nothing until it is written: a cell of the two rows is Unset at
    first.
 */
module Banded {
  import opened EditDistance

  datatype Slot = Unset | Set(v: int)

  function Val(slot: Slot): int {
    if slot.Set? then slot.v else 0
  }

  // ----- one row -----

  function CellValue<T(==)>(g: Grid<T>, i: nat, j: nat, up: Slot, left: Slot, diag: Slot): Slot
    requires 0 < i <= |g.s| && 0 < j <= |g.t|
  {
    Set(Min(Min(Val(up) + g.c.ins, Val(left) + g.c.del), Val(diag) + g.Diag(i, j)))
  }

  /** Row j in the columns from i to stop. */
  function FillFrom<T(==)>(g: Grid<T>, j: nat, prev: seq<Slot>, curr: seq<Slot>, i: nat, stop: nat): (r: seq<Slot>)
    requires |prev| == |curr| == |g.s| + 1 && 0 < i && stop <= |prev| && 0 < j <= |g.t|
    ensures |r| == |curr|
    decreases stop - i
  {
    if i >= stop then curr
    else FillFrom(g, j, prev, curr[i := CellValue(g, i, j, prev[i], curr[i - 1], prev[i - 1])], i + 1, stop)
  }

  function FilledRow<T(==)>(g: Grid<T>, j: nat, prev: seq<Slot>, curr: seq<Slot>, start: nat, stop: nat): (r: seq<Slot>)
    requires |prev| == |curr| == |g.s| + 1 && stop <= |prev| && 0 < j <= |g.t|
    ensures |r| == |curr|
  {
    if start == 0 then FillFrom(g, j, prev, curr[0 := Set(j * g.c.ins)], 1, stop)
    else FillFrom(g, j, prev, curr, start, stop)
  }

  // ----- the band -----

  /** Between two rows: the row filled last, the other, and the columns in the band; or the
      bound is found to be exceeded. */
  datatype State = State(prev: seq<Slot>, curr: seq<Slot>, start: nat, stop: nat) | Exceeded

  predicate Shaped<T(==)>(g: Grid<T>, st: State) {
    st.State? ==> |st.prev| == |st.curr| == |g.s| + 1 && st.start < st.stop <= |g.s| + 1
  }

  /** What the slides test: the value of a column and the price, at least, of what is left. */
  function Expected<T(==)>(g: Grid<T>, row: seq<Slot>, i: nat, j: nat): int
    requires i < |row|
  {
    Val(row[i]) + g.Residual(i, j)
  }

  function SlideStopTo<T(==)>(g: Grid<T>, row: seq<Slot>, stop: nat, j: nat, bound: int): (r: nat)
    requires stop <= |row|
    ensures r <= stop
  {
    if stop == 0 || Expected(g, row, stop - 1, j) <= bound then stop
    else SlideStopTo(g, row, stop - 1, j, bound)
  }

  function SlideStartTo<T(==)>(g: Grid<T>, row: seq<Slot>, start: nat, stop: nat, j: nat, bound: int): (r: nat)
    requires stop <= |row|
    ensures start <= r && (start <= stop ==> r <= stop)
    decreases stop - start
  {
    if start >= stop || Expected(g, row, start, j) <= bound then start
    else SlideStartTo(g, row, start + 1, stop, j, bound)
  }

  /** A row with the sentinel in some columns. */
  function Marked(row: seq<Slot>, from: nat, to: nat, bound: int): (r: seq<Slot>)
    ensures |r| == |row| && forall k :: 0 <= k < |row| ==> r[k] == if from <= k < to then Set(bound + 1) else row[k]
  {
    seq(|row|, k requires 0 <= k < |row| => if from <= k < to then Set(bound + 1) else row[k])
  }

  function Widened<T(==)>(g: Grid<T>, bound: int, st: State): (r: State)
    requires st.State? && Shaped(g, st)
    ensures r.State? && Shaped(g, r)
  {
    if st.stop <= |g.s| then st.(prev := st.prev[st.stop := Set(bound + 1)], stop := st.stop + 1) else st
  }

  function Trimmed<T(==)>(g: Grid<T>, bound: int, j: nat, st: State): (r: State)
    requires st.State? && Shaped(g, st)
    ensures Shaped(g, r)
  {
    var stop := SlideStopTo(g, st.prev, st.stop, j, bound);
    var start := SlideStartTo(g, st.prev, st.start, stop, j, bound);
    if start >= stop then Exceeded
    else State(Marked(st.prev, st.start, start, bound), Marked(st.curr, st.start, start, bound), start, stop)
  }

  /** Row j is filled and becomes the previous one. */
  function NextState<T(==)>(g: Grid<T>, bound: int, j: nat, st: State): (r: State)
    requires st.State? && Shaped(g, st) && 0 < j <= |g.t|
    ensures Shaped(g, r)
  {
    var w := Widened(g, bound, st);
    var filled := State(FilledRow(g, j, w.prev, w.curr, w.start, w.stop), w.prev, w.start, w.stop);
    if bound < 0 then filled else Trimmed(g, bound, j, filled)
  }

  function RunFrom<T(==)>(g: Grid<T>, bound: int, j: nat, st: State): int
    requires Shaped(g, st) && j <= |g.t|
    decreases |g.t| - j
  {
    if st.Exceeded? then bound + 1
    else if j == |g.t| then Val(st.prev[|g.s|])
    else RunFrom(g, bound, j + 1, NextState(g, bound, j + 1, st))
  }

  lemma RunUnfold<T(!new)>(g: Grid<T>, bound: int, j: nat, st: State)
    requires st.State? && Shaped(g, st) && j < |g.t|
    ensures RunFrom(g, bound, j, st) == RunFrom(g, bound, j + 1, NextState(g, bound, j + 1, st))
    ensures NextState(g, bound, j + 1, st).Exceeded? ==> RunFrom(g, bound, j, st) == bound + 1
  {
  }

  function FirstRow<T(==)>(g: Grid<T>, stop: nat): (r: seq<Slot>)
    ensures |r| == |g.s| + 1 && forall k :: 0 <= k <= |g.s| ==> r[k] == if k < stop then Set(k * g.c.del) else Unset
  {
    seq(|g.s| + 1, k => if k < stop then Set(k * g.c.del) else Unset)
  }

  function StartState<T(==)>(g: Grid<T>, stop: nat): (st: State)
    requires 0 < stop <= |g.s| + 1
    ensures st.State? && Shaped(g, st)
  {
    State(FirstRow(g, stop), seq(|g.s| + 1, _ => Unset), 0, stop)
  }

  // ----- what a bound leaves to do -----

  datatype Plan = Hopeless | Band(c: Costs, bound: int, stop: nat)

  function BestColumn<T(==)>(g: Grid<T>): nat {
    if |g.t| < |g.s| then |g.s| - |g.t| else 0
  }

  /** The block under "max_d >= 0". */
  function PlanFor<T(==)>(g: Grid<T>, bound: int): (p: Plan)
    ensures p.Band? ==> 0 < p.stop <= |g.s| + 1
  {
    var minTheo := g.Residual(0, 0);
    if minTheo > bound then Hopeless
    else
      var c := g.c.Clamped();
      var maxTheo := minTheo + c.sub * Min(|g.s|, |g.t|);
      if bound >= maxTheo then Band(c, -1, |g.s| + 1)
      else if c.ins + c.del > 0 then
        var stop := BestColumn(g) + (bound - minTheo) / (c.ins + c.del) + 1;
        Band(c, bound, if stop > |g.s| then |g.s| + 1 else stop)
      else Band(c, bound, |g.s| + 1)
  }

  /** The whole program on two strings that are not empty. */
  function Answer<T(==)>(g: Grid<T>, bound: int): int {
    if bound < 0 then RunFrom(g, bound, 0, StartState(g, |g.s| + 1))
    else
      match PlanFor(g, bound)
      case Hopeless => bound + 1
      case Band(c, b, stop) => RunFrom(Grid(c, g.s, g.t), b, 0, StartState(Grid(c, g.s, g.t), stop))
  }

  // ===== when the answer is the distance =====

  // ----- what a row is known to hold -----

  /** Slot holds a value that can stand for cell (i, j): without a bound, the cell itself;
      with a bound, the cell itself if it can still matter, and otherwise anything that
      is just as hopeless. */
  ghost predicate Stands<T(!new)>(g: Grid<T>, bound: int, i: int, j: int, slot: Slot)
    requires g.Within(i, j)
  {
    && slot.Set?
    && (bound < 0 || g.Hope(i, j) <= bound ==> slot.v == g.Cell(i, j))
    && (bound >= 0 && g.Hope(i, j) > bound ==> slot.v + g.Residual(i, j) > bound)
  }

  /** The first columns of a row, up to but not including column to. */
  ghost predicate RowStands<T(!new)>(g: Grid<T>, bound: int, j: int, row: seq<Slot>, to: int)
    requires 0 <= j <= |g.t| && |row| == |g.s| + 1
  {
    forall i :: 0 <= i < to <= |g.s| + 1 ==> Stands(g, bound, i, j, row[i])
  }

  /** Cells that no answer within the bound can come from. */
  ghost predicate Dead<T(!new)>(g: Grid<T>, bound: int, j: int, from: int, to: int)
    requires 0 <= j <= |g.t|
  {
    forall i :: 0 <= from <= i < to <= |g.s| + 1 ==> g.Hope(i, j) > bound
  }

  /** Prices with which the band can be trusted, if there is one. */
  predicate Usable(c: Costs, bound: int) {
    bound >= 0 ==> c.NonNegative()
  }

  /** The sentinel can stand where no residual is negative. */
  lemma SentinelStands<T(!new)>(g: Grid<T>, bound: int, i: int, j: int)
    requires 0 <= bound && g.c.NonNegative() && g.Within(i, j) && g.Hope(i, j) > bound
    ensures Stands(g, bound, i, j, Set(bound + 1))
  {
    ResidualNonNegative(g, i, j);
  }

  /** The recurrence carries "stands for" from three neighbours to the cell. */
  lemma StandsStep<T(!new)>(g: Grid<T>, bound: int, i: int, j: int, up: Slot, left: Slot, diag: Slot)
    requires 0 < i <= |g.s| && 0 < j <= |g.t| && Usable(g.c, bound)
    requires Stands(g, bound, i, j - 1, up)
    requires Stands(g, bound, i - 1, j, left)
    requires Stands(g, bound, i - 1, j - 1, diag)
    ensures Stands(g, bound, i, j, CellValue(g, i, j, up, left, diag))
  {
    if bound >= 0 { ResidualSteps(g, i, j); }
  }

  lemma {:induction false} FillStands<T(!new)>(g: Grid<T>, bound: int, j: nat, prev: seq<Slot>, curr: seq<Slot>,
                                               i: nat, stop: nat)
    requires |prev| == |curr| == |g.s| + 1 && 0 < i <= stop <= |prev| && 0 < j <= |g.t| && Usable(g.c, bound)
    requires RowStands(g, bound, j - 1, prev, stop) && RowStands(g, bound, j, curr, i)
    ensures RowStands(g, bound, j, FillFrom(g, j, prev, curr, i, stop), stop)
    decreases stop - i
  {
    if i < stop {
      StandsStep(g, bound, i, j, prev[i], curr[i - 1], prev[i - 1]);
      FillStands(g, bound, j, prev, curr[i := CellValue(g, i, j, prev[i], curr[i - 1], prev[i - 1])], i + 1, stop);
    }
  }

  lemma FilledStands<T(!new)>(g: Grid<T>, bound: int, j: nat, prev: seq<Slot>, curr: seq<Slot>, start: nat, stop: nat)
    requires |prev| == |curr| == |g.s| + 1 && start < stop <= |prev| && 0 < j <= |g.t| && Usable(g.c, bound)
    requires RowStands(g, bound, j - 1, prev, stop) && RowStands(g, bound, j, curr, start)
    ensures RowStands(g, bound, j, FilledRow(g, j, prev, curr, start, stop), stop)
  {
    LeftColumn(g, j);
    if start == 0 {
      FillStands(g, bound, j, prev, curr[0 := Set(j * g.c.ins)], 1, stop);
    } else {
      FillStands(g, bound, j, prev, curr, start, stop);
    }
  }

  // ----- the band between two rows -----

  /** What holds between two rows. With a bound, the columns outside the band are dead, and
      both rows hold the sentinel to its left. */
  ghost predicate InBand<T(!new)>(g: Grid<T>, bound: int, j: int, st: State)
    requires 0 <= j <= |g.t|
  {
    && st.State? && Shaped(g, st)
    && RowStands(g, bound, j, st.prev, st.stop)
    && (bound < 0 ==> st.start == 0 && st.stop == |g.s| + 1)
    && (bound >= 0 ==>
          && Dead(g, bound, j, 0, st.start)
          && Dead(g, bound, j, st.stop, |g.s| + 1)
          && forall k :: 0 <= k < st.start ==> st.prev[k] == st.curr[k] == Set(bound + 1))
  }

  lemma NextRowDead<T(!new)>(g: Grid<T>, bound: int, j: int, start: int, stop: int)
    requires g.c.NoGain() && 0 <= j < |g.t| && 0 <= start && 0 <= stop
    requires Dead(g, bound, j, 0, start) && Dead(g, bound, j, stop, |g.s| + 1)
    ensures Dead(g, bound, j + 1, 0, start) && Dead(g, bound, j + 1, stop + 1, |g.s| + 1)
  {
    var next := j + 1;
    forall i | 0 <= i <= |g.s| && (i < start <= |g.s| + 1 || stop < i) ensures g.Hope(i, next) > bound {
      if i == 0 {
        HopeGrows(g, 0, j);
      } else {
        assert g.Hope(i - 1, j) > bound;
        HopeGrows(g, i - 1, j);
      }
    }
  }

  lemma LeftOfBandStands<T(!new)>(g: Grid<T>, bound: int, j: int, row: seq<Slot>, start: nat)
    requires 0 <= bound && g.c.NonNegative() && 0 <= j <= |g.t| && |row| == |g.s| + 1
    requires start <= |g.s| + 1 && Dead(g, bound, j, 0, start)
    requires forall k :: 0 <= k < start ==> row[k] == Set(bound + 1)
    ensures RowStands(g, bound, j, row, start)
  {
    forall i | 0 <= i < start ensures Stands(g, bound, i, j, row[i]) {
      assert g.Hope(i, j) > bound;
      SentinelStands(g, bound, i, j);
    }
  }

  /** The band grows by one column to the right before the next row is filled. */
  lemma WidenedStands<T(!new)>(g: Grid<T>, bound: int, j: nat, st: State)
    requires j < |g.t| && InBand(g, bound, j, st) && Usable(g.c, bound)
    ensures var w := Widened(g, bound, st);
            && RowStands(g, bound, j, w.prev, w.stop) && RowStands(g, bound, j + 1, w.curr, w.start)
            && (bound < 0 ==> w.stop == |g.s| + 1)
            && (bound >= 0 ==> Dead(g, bound, j + 1, 0, w.start) && Dead(g, bound, j + 1, w.stop, |g.s| + 1))
            && (bound >= 0 ==> forall k :: 0 <= k < w.start ==> w.prev[k] == w.curr[k] == Set(bound + 1))
  {
    if bound >= 0 {
      NextRowDead(g, bound, j, st.start, st.stop);
      LeftOfBandStands(g, bound, j + 1, st.curr, st.start);
    }
    if st.stop <= |g.s| {
      SentinelStands(g, bound, st.stop, j);
    }
  }

  lemma {:induction false} SlideStopStands<T(!new)>(g: Grid<T>, bound: int, j: nat, row: seq<Slot>, stop: nat)
    requires j <= |g.t| && |row| == |g.s| + 1 && stop <= |row| && 0 <= bound
    requires RowStands(g, bound, j, row, stop) && Dead(g, bound, j, stop, |g.s| + 1)
    ensures var r := SlideStopTo(g, row, stop, j, bound);
            Dead(g, bound, j, r, |g.s| + 1) && (r > 0 ==> g.Hope(r - 1, j) <= bound)
  {
    if stop > 0 {
      assert Stands(g, bound, stop - 1, j, row[stop - 1]);
      if Expected(g, row, stop - 1, j) > bound { SlideStopStands(g, bound, j, row, stop - 1); }
    }
  }

  lemma {:induction false} SlideStartStands<T(!new)>(g: Grid<T>, bound: int, j: nat, row: seq<Slot>, start: nat,
                                                     stop: nat)
    requires j <= |g.t| && |row| == |g.s| + 1 && stop <= |row| && 0 <= bound
    requires RowStands(g, bound, j, row, stop) && Dead(g, bound, j, 0, start)
    ensures var r := SlideStartTo(g, row, start, stop, j, bound);
            Dead(g, bound, j, 0, r) && (r < stop ==> g.Hope(r, j) <= bound)
    decreases stop - start
  {
    if start < stop {
      assert Stands(g, bound, start, j, row[start]);
      if Expected(g, row, start, j) > bound { SlideStartStands(g, bound, j, row, start + 1, stop); }
    }
  }

  /** Trimming leaves a sound band, in which there is still hope, or the bound is exceeded. */
  lemma TrimmedStands<T(!new)>(g: Grid<T>, bound: int, j: nat, st: State)
    requires 0 < j <= |g.t| && 0 <= bound && g.c.NonNegative() && st.State? && Shaped(g, st)
    requires RowStands(g, bound, j, st.prev, st.stop)
    requires Dead(g, bound, j, 0, st.start) && Dead(g, bound, j, st.stop, |g.s| + 1)
    requires forall k :: 0 <= k < st.start ==> st.prev[k] == st.curr[k] == Set(bound + 1)
    ensures var r := Trimmed(g, bound, j, st);
            && (r.Exceeded? ==> g.Distance() > bound)
            && (r.State? ==> InBand(g, bound, j, r) && g.Hope(r.start, j) <= bound)
  {
    var stop := SlideStopTo(g, st.prev, st.stop, j, bound);
    SlideStopStands(g, bound, j, st.prev, st.stop);
    var start := SlideStartTo(g, st.prev, st.start, stop, j, bound);
    SlideStartStands(g, bound, j, st.prev, st.start, stop);
    if start >= stop {
      DeadRow(g, j, bound);
    } else {
      MarkedStands(g, bound, j, st.prev, st.start, start, stop);
    }
  }

  lemma MarkedStands<T(!new)>(g: Grid<T>, bound: int, j: nat, row: seq<Slot>, from: nat, to: nat, stop: nat)
    requires j <= |g.t| && |row| == |g.s| + 1 && to <= stop <= |row| && 0 <= bound && g.c.NonNegative()
    requires RowStands(g, bound, j, row, stop) && Dead(g, bound, j, 0, to)
    ensures RowStands(g, bound, j, Marked(row, from, to, bound), stop)
  {
    forall i | 0 <= i < stop ensures Stands(g, bound, i, j, Marked(row, from, to, bound)[i]) {
      if from <= i < to {
        assert g.Hope(i, j) > bound;
        SentinelStands(g, bound, i, j);
      } else {
        assert Stands(g, bound, i, j, row[i]);
      }
    }
  }

  /** One row keeps the invariant, or reports rightly that the bound is exceeded. */
  lemma NextStateStands<T(!new)>(g: Grid<T>, bound: int, j: nat, st: State)
    requires j < |g.t| && InBand(g, bound, j, st) && Usable(g.c, bound)
    ensures var r := NextState(g, bound, j + 1, st);
            && (r.Exceeded? ==> 0 <= bound < g.Distance())
            && (r.State? ==> InBand(g, bound, j + 1, r) && (bound >= 0 ==> g.Hope(r.start, j + 1) <= bound))
  {
    var w := Widened(g, bound, st);
    WidenedStands(g, bound, j, st);
    FilledStands(g, bound, j + 1, w.prev, w.curr, w.start, w.stop);
    if bound >= 0 {
      var row := FilledRow(g, j + 1, w.prev, w.curr, w.start, w.stop);
      FilledKeepsLeft(g, j + 1, w.prev, w.curr, w.start, w.stop);
      TrimmedStands(g, bound, j + 1, State(row, w.prev, w.start, w.stop));
    }
  }

  lemma {:induction false} FillKeepsLeft<T(!new)>(g: Grid<T>, j: nat, prev: seq<Slot>, curr: seq<Slot>, i: nat,
                                                  stop: nat)
    requires |prev| == |curr| == |g.s| + 1 && 0 < i && stop <= |prev| && 0 < j <= |g.t|
    ensures var r := FillFrom(g, j, prev, curr, i, stop);
            forall k :: 0 <= k < |curr| && (k < i || k >= stop) ==> r[k] == curr[k]
    decreases stop - i
  {
    if i < stop {
      FillKeepsLeft(g, j, prev, curr[i := CellValue(g, i, j, prev[i], curr[i - 1], prev[i - 1])], i + 1, stop);
    }
  }

  lemma FilledKeepsLeft<T(!new)>(g: Grid<T>, j: nat, prev: seq<Slot>, curr: seq<Slot>, start: nat, stop: nat)
    requires |prev| == |curr| == |g.s| + 1 && stop <= |prev| && 0 < j <= |g.t|
    ensures forall k :: 0 <= k < start && k < |curr| ==> FilledRow(g, j, prev, curr, start, stop)[k] == curr[k]
  {
    if start > 0 { FillKeepsLeft(g, j, prev, curr, start, stop); }
  }

  // ----- the band always reaches the column it has to, whatever the prices -----

  /** The column of row j from which on the remainders of the strings are of equal length. */
  function ZeroPoint<T(==)>(g: Grid<T>, j: int): int {
    j - (|g.t| - |g.s|)
  }

  /** A value is at most its left neighbour's and a deletion. */
  ghost predicate DeletesAlong<T(!new)>(g: Grid<T>, row: seq<Slot>, from: int, stop: int) {
    forall i :: 0 <= from < i < stop <= |row| ==> Val(row[i]) <= Val(row[i - 1]) + g.c.del
  }

  lemma {:induction false} FillDeletesAlong<T(!new)>(g: Grid<T>, j: nat, prev: seq<Slot>, curr: seq<Slot>, from: nat,
                                                     i: nat, stop: nat)
    requires |prev| == |curr| == |g.s| + 1 && from < i <= stop <= |prev| && 0 < j <= |g.t|
    requires DeletesAlong(g, curr, from, i)
    ensures DeletesAlong(g, FillFrom(g, j, prev, curr, i, stop), from, stop)
    decreases stop - i
  {
    if i < stop {
      FillDeletesAlong(g, j, prev, curr[i := CellValue(g, i, j, prev[i], curr[i - 1], prev[i - 1])], from, i + 1, stop);
    }
  }

  lemma FilledDeletesAlong<T(!new)>(g: Grid<T>, j: nat, prev: seq<Slot>, curr: seq<Slot>, start: nat, stop: nat)
    requires |prev| == |curr| == |g.s| + 1 && start < stop <= |prev| && 0 < j <= |g.t|
    ensures DeletesAlong(g, FilledRow(g, j, prev, curr, start, stop), start, stop)
  {
    if start == 0 {
      FillDeletesAlong(g, j, prev, curr[0 := Set(j * g.c.ins)], 0, 1, stop);
    } else {
      FillDeletesAlong(g, j, prev, curr[start := CellValue(g, start, j, prev[start], curr[start - 1], prev[start - 1])],
                       start, start + 1, stop);
    }
  }

  /** Up to the zero point, a column to the right of one within the bound is within it. */
  lemma {:induction false} AliveAlong<T(!new)>(g: Grid<T>, j: nat, row: seq<Slot>, from: nat, i: nat, k: nat,
                                               stop: nat, bound: int)
    requires from <= i <= k < stop <= |row| && k <= ZeroPoint(g, j) && DeletesAlong(g, row, from, stop)
    requires Expected(g, row, i, j) <= bound
    ensures Expected(g, row, k, j) <= bound
    decreases k - i
  {
    if i < k {
      AliveAlong(g, j, row, from, i, k - 1, stop, bound);
      var net := k - ZeroPoint(g, j);
      assert -(net - 1) * g.c.del == -net * g.c.del + g.c.del;
    }
  }

  lemma {:induction false} SlideStopAt<T(!new)>(g: Grid<T>, row: seq<Slot>, k: nat, stop: nat, j: nat, bound: int)
    requires k < stop <= |row| && Expected(g, row, k, j) <= bound
    ensures SlideStopTo(g, row, stop, j, bound) > k
  {
    if k < stop - 1 && Expected(g, row, stop - 1, j) > bound { SlideStopAt(g, row, k, stop - 1, j, bound); }
  }

  lemma {:induction false} SlideStartAt<T(!new)>(g: Grid<T>, row: seq<Slot>, start: nat, stop: nat, j: nat, bound: int)
    requires stop <= |row|
    ensures var r := SlideStartTo(g, row, start, stop, j, bound); r < stop ==> Expected(g, row, r, j) <= bound
    decreases stop - start
  {
    if start < stop && Expected(g, row, start, j) > bound { SlideStartAt(g, row, start + 1, stop, j, bound); }
  }

  lemma TrimmedIsWide<T(!new)>(g: Grid<T>, bound: int, j: nat, st: State)
    requires j <= |g.t| && st.State? && Shaped(g, st) && st.stop > ZeroPoint(g, j)
    requires DeletesAlong(g, st.prev, st.start, st.stop)
    ensures var r := Trimmed(g, bound, j, st); r.State? ==> r.stop > ZeroPoint(g, j)
  {
    var stop := SlideStopTo(g, st.prev, st.stop, j, bound);
    var start := SlideStartTo(g, st.prev, st.start, stop, j, bound);
    SlideStartAt(g, st.prev, st.start, stop, j, bound);
    if start < stop && start <= ZeroPoint(g, j) {
      var zp := ZeroPoint(g, j);
      AliveAlong(g, j, st.prev, st.start, start, zp, st.stop, bound);
      SlideStopAt(g, st.prev, zp, st.stop, j, bound);
    }
  }

  /** So the last cell of the last row is always filled. */
  lemma NextStateIsWide<T(!new)>(g: Grid<T>, bound: int, j: nat, st: State)
    requires 0 < j <= |g.t| && st.State? && Shaped(g, st) && st.stop > ZeroPoint(g, j - 1)
    ensures var r := NextState(g, bound, j, st); r.State? ==> r.stop > ZeroPoint(g, j)
  {
    var w := Widened(g, bound, st);
    FilledDeletesAlong(g, j, w.prev, w.curr, w.start, w.stop);
    if bound >= 0 {
      TrimmedIsWide(g, bound, j, State(FilledRow(g, j, w.prev, w.curr, w.start, w.stop), w.prev, w.start, w.stop));
    }
  }

  // ----- the answer -----

  /** The last column of the last row is the best hope of the last row. */
  lemma LastRow<T(!new)>(g: Grid<T>, i: nat)
    requires i <= |g.s|
    ensures g.Distance() <= g.Hope(i, |g.t|)
  {
    AlongRow(g, i, |g.t|, |g.s| - i);
  }

  /** With the last row in a band that still holds some hope, the answer is in the band. */
  lemma AnswerInBand<T(!new)>(g: Grid<T>, bound: int, st: State)
    requires InBand(g, bound, |g.t|, st) && (bound >= 0 ==> g.Hope(st.start, |g.t|) <= bound)
    ensures st.prev[|g.s|] == Set(g.Distance()) && (bound >= 0 ==> g.Distance() <= bound)
  {
    LastRow(g, st.start);
    assert g.Hope(|g.s|, |g.t|) == g.Distance();
    assert st.stop == |g.s| + 1;
    assert Stands(g, bound, |g.s|, |g.t|, st.prev[|g.s|]);
  }

  /** From any row on: the distance, or one more than the bound if that is less. */
  lemma {:induction false} RunIsRight<T(!new)>(g: Grid<T>, bound: int, j: nat, st: State)
    requires j <= |g.t| && InBand(g, bound, j, st) && Usable(g.c, bound)
    requires bound >= 0 && j == |g.t| ==> g.Hope(st.start, j) <= bound
    ensures RunFrom(g, bound, j, st) == if bound < 0 then g.Distance() else Min(g.Distance(), bound + 1)
    decreases |g.t| - j
  {
    if j == |g.t| {
      AnswerInBand(g, bound, st);
    } else {
      NextStateStands(g, bound, j, st);
      var next := NextState(g, bound, j + 1, st);
      if next.State? { RunIsRight(g, bound, j + 1, next); }
    }
  }

  lemma StartStands<T(!new)>(g: Grid<T>, bound: int, stop: nat)
    requires 0 < stop <= |g.s| + 1 && (bound < 0 ==> stop == |g.s| + 1)
    requires bound >= 0 ==> Dead(g, bound, 0, stop, |g.s| + 1)
    ensures InBand(g, bound, 0, StartState(g, stop))
  {
    forall i | 0 <= i < stop ensures Stands(g, bound, i, 0, FirstRow(g, stop)[i]) {
      TopRow(g, i);
    }
  }

  /** Without a bound, prices of any sign are right. */
  lemma FullRunIsRight<T(!new)>(g: Grid<T>, bound: int)
    requires bound < 0
    ensures RunFrom(g, bound, 0, StartState(g, |g.s| + 1)) == g.Distance()
  {
    StartStands(g, bound, |g.s| + 1);
    RunIsRight(g, bound, 0, StartState(g, |g.s| + 1));
  }

  // ----- how much of the matrix the bound leaves -----

  lemma {:induction false} DiagonalAtMost<T(!new)>(g: Grid<T>, k: nat)
    requires 0 <= g.c.sub && k <= |g.s| && k <= |g.t|
    ensures g.Cell(k, k) <= k * g.c.sub
  {
    if k > 0 {
      DiagonalAtMost(g, k - 1);
      NoBetterStep(g, k, k, Diagonal, g.Cell(k - 1, k - 1) + g.Diag(k, k));
      assert k * g.c.sub == (k - 1) * g.c.sub + g.c.sub;
    }
  }

  lemma {:induction false} AlongRow<T(!new)>(g: Grid<T>, i: nat, j: nat, len: nat)
    requires g.Within(i + len, j)
    ensures g.Cell(i + len, j) <= g.Cell(i, j) + len * g.c.del
    decreases len
  {
    if len > 0 {
      AlongRow(g, i, j, len - 1);
      NoBetterStep(g, i + len, j, Deletion, g.Cell(i + len - 1, j) + g.c.del);
      assert len * g.c.del == (len - 1) * g.c.del + g.c.del;
    }
  }

  lemma {:induction false} AlongColumn<T(!new)>(g: Grid<T>, i: nat, j: nat, len: nat)
    requires g.Within(i, j + len)
    ensures g.Cell(i, j + len) <= g.Cell(i, j) + len * g.c.ins
    decreases len
  {
    if len > 0 {
      AlongColumn(g, i, j, len - 1);
      NoBetterStep(g, i, j + len, Insertion, g.Cell(i, j + len - 1) + g.c.ins);
      assert len * g.c.ins == (len - 1) * g.c.ins + g.c.ins;
    }
  }

  /** The theoretical minimum and maximum of the distance. */
  lemma TheoreticalRange<T(!new)>(g: Grid<T>)
    requires g.c.NoGain()
    ensures g.Residual(0, 0) <= g.Distance() <= g.Residual(0, 0) + g.c.sub * Min(|g.s|, |g.t|)
  {
    HopeIsLowerBound(g, |g.s|, |g.t|);
    assert g.Residual(|g.s|, |g.t|) == 0;
    var k := Min(|g.s|, |g.t|);
    DiagonalAtMost(g, k);
    if |g.s| <= |g.t| {
      AlongColumn(g, k, k, |g.t| - k);
    } else {
      AlongRow(g, k, k, |g.s| - k);
    }
  }

  /** Each column beyond the best one of the first row costs a deletion that must be
      made good by an insertion. */
  lemma FirstRowBeyond<T(!new)>(g: Grid<T>, i: nat, best: nat)
    requires i <= |g.s| && best <= i && best == BestColumn(g)
    ensures g.Hope(i, 0) == g.Residual(0, 0) + (i - best) * (g.c.ins + g.c.del)
  {
    TopRow(g, i);
    var net := i - (0 - (|g.t| - |g.s|));
    assert net == i - best + (if |g.t| < |g.s| then 0 else |g.t| - |g.s|);
    assert (i - best) * (g.c.ins + g.c.del) == (i - best) * g.c.ins + (i - best) * g.c.del;
    if |g.t| < |g.s| {
      assert i * g.c.del == best * g.c.del + (i - best) * g.c.del;
    } else {
      assert net * g.c.ins == i * g.c.ins + (|g.t| - |g.s|) * g.c.ins;
    }
  }

  lemma MulMonotone(a: int, b: int, m: int)
    requires a <= b && 0 <= m
    ensures a * m <= b * m
  {
  }

  lemma FirstRowDead<T(!new)>(g: Grid<T>, bound: int, best: nat, stop: int)
    requires g.c.ins + g.c.del > 0 && g.Residual(0, 0) <= bound && best == BestColumn(g)
    requires stop == best + (bound - g.Residual(0, 0)) / (g.c.ins + g.c.del) + 1
    ensures best < stop && Dead(g, bound, 0, stop, |g.s| + 1)
  {
    var step := g.c.ins + g.c.del;
    var slack := bound - g.Residual(0, 0);
    var q := slack / step;
    assert slack < (q + 1) * step;
    forall i | stop <= i <= |g.s| ensures g.Hope(i, 0) > bound {
      FirstRowBeyond(g, i, best);
      MulMonotone(q + 1, i - best, step);
    }
  }

  // ----- prices for which the bounded form is right -----

  /** An answer is right if it is the distance where that is within the bound, and otherwise
      anything beyond the bound. */
  predicate Right(answer: int, distance: int, bound: int) {
    if bound < 0 || distance <= bound then answer == distance else answer > bound
  }

  /** Insertions and deletions cost nothing or less; or nothing is earned by detours, and, unless
      substitutions are free or can be replaced for free, neither insertions nor deletions
      have a negative price. */
  predicate Honest(c: Costs) {
    || (c.ins <= 0 && c.del <= 0)
    || (c.NoGain() && (Min(c.sub, c.ins + c.del) == 0 || (0 <= c.ins && 0 <= c.del)))
  }

  /** All insertions and deletions: what the distance never exceeds. */
  lemma RewriteAll<T(!new)>(g: Grid<T>)
    ensures g.Distance() <= |g.s| * g.c.del + |g.t| * g.c.ins
  {
    AlongRow(g, 0, 0, |g.s|);
    AlongColumn(g, |g.s|, 0, |g.t|);
  }

  lemma ProductNotPositive(k: nat, x: int)
    requires x <= 0
    ensures k * x <= 0
  {
  }

  /** Where nothing costs anything the bound is given up. */
  lemma NothingCosts<T(!new)>(g: Grid<T>, bound: int)
    requires g.c.ins <= 0 && g.c.del <= 0 && bound >= 0
    ensures g.Distance() <= bound && PlanFor(g, bound) == Band(g.c.Clamped(), -1, |g.s| + 1)
  {
    RewriteAll(g);
    ProductNotPositive(|g.s|, g.c.del);
    ProductNotPositive(|g.t|, g.c.ins);
    ProductNotPositive(Min(|g.s|, |g.t|), g.c.Clamped().sub);
    var net := 0 - (0 - (|g.t| - |g.s|));
    if net > 0 { ProductNotPositive(net, g.c.ins); } else { ProductNotPositive(-net, g.c.del); }
  }

  lemma ClampedRun<T(!new)>(g: Grid<T>, h: Grid<T>)
    requires h == Grid(g.c.Clamped(), g.s, g.t)
    ensures h.Distance() == g.Distance() && h.Residual(0, 0) == g.Residual(0, 0) && BestColumn(h) == BestColumn(g)
  {
    ClampKeepsCells(g, |g.s|, |g.t|);
  }

  lemma BandedIsRight<T(!new)>(g: Grid<T>, bound: int, stop: nat)
    requires g.c.NonNegative() && bound >= 0 && |g.t| > 0 && 0 < stop <= |g.s| + 1 && Dead(g, bound, 0, stop, |g.s| + 1)
    ensures RunFrom(g, bound, 0, StartState(g, stop)) == Min(g.Distance(), bound + 1)
  {
    StartStands(g, bound, stop);
    RunIsRight(g, bound, 0, StartState(g, stop));
  }

  /** With honest prices: the distance if it is within the bound, and otherwise one more than
      the bound. */
  lemma HonestAnswer<T(!new)>(g: Grid<T>, bound: int)
    requires |g.s| > 0 && |g.t| > 0 && (bound >= 0 ==> Honest(g.c))
    ensures Answer(g, bound) == if bound < 0 || g.Distance() <= bound then g.Distance() else bound + 1
  {
    if bound < 0 {
      FullRunIsRight(g, bound);
    } else {
      var h := Grid(g.c.Clamped(), g.s, g.t);
      ClampedRun(g, h);
      if g.c.ins <= 0 && g.c.del <= 0 {
        NothingCosts(g, bound);
        FullRunIsRight(h, -1);
      } else {
        TheoreticalRange(h);
        match PlanFor(g, bound)
        case Hopeless =>
        case Band(c, b, stop) =>
          if b < 0 {
            FullRunIsRight(h, b);
          } else {
            PlannedBand(g, h, bound, stop);
            BandedIsRight(h, bound, stop);
          }
      }
    }
  }

  /** Where the matrix needs no paid substitution the bound is hopeless or given up. */
  lemma FreeSubstitution<T(!new)>(g: Grid<T>, bound: int)
    requires g.c.NoGain() && Min(g.c.sub, g.c.ins + g.c.del) == 0
    ensures PlanFor(g, bound).Band? ==> PlanFor(g, bound).bound == -1
  {
    assert g.c.Clamped().sub == 0;
  }

  lemma PlannedBand<T(!new)>(g: Grid<T>, h: Grid<T>, bound: int, stop: nat)
    requires bound >= 0 && Honest(g.c) && !(g.c.ins <= 0 && g.c.del <= 0) && h == Grid(g.c.Clamped(), g.s, g.t)
    requires PlanFor(g, bound) == Band(g.c.Clamped(), bound, stop)
    ensures h.c.NonNegative() && 0 < stop <= |g.s| + 1 && Dead(h, bound, 0, stop, |g.s| + 1)
  {
    if Min(g.c.sub, g.c.ins + g.c.del) == 0 {
      FreeSubstitution(g, bound);
    } else if h.c.ins + h.c.del > 0 {
      FirstRowDead(h, bound, BestColumn(h), BestColumn(h) + (bound - h.Residual(0, 0)) / (h.c.ins + h.c.del) + 1);
    }
  }
}
