/** The two programs of contrib/fuzzystrmatch/levenshtein.cpp: the plain two-row
    evaluation of the edit-distance matrix, and the form that is given a bound and
    fills only a moving band of columns. They work on bytes and in place; what they
    compute, for prices of any sign, is the function of module Banded.

    Only cells that are Set can be read. C's int is modelled by the ghost parameter lim:
    every sum and product goes through Int, which demands a result within the limits. The
    callers at the end of the module choose lim.
 */
module Levenshtein {
  import opened EditDistance
  import opened Banded
  import opened MultiByte

  const MAX_LEVENSHTEIN_STRLEN := 255

  datatype Result = Ok(value: int) | TooLong

  /** The result of an arithmetic operation on C ints. */
  function Int(ghost lim: int, x: int): (r: int)
    requires -lim - 1 <= x <= lim
    ensures r == x
  {
    x
  }

  function Max(a: int, b: int): int {
    if a < b then b else a
  }

  function Abs(a: int): int {
    if a < 0 then -a else a
  }

  function Largest(c: Costs): (m: int)
    ensures Abs(c.ins) <= m && Abs(c.del) <= m && Abs(c.sub) <= m
  {
    Max(Max(Abs(c.ins), Abs(c.del)), Abs(c.sub))
  }

  // ----- which cells can be read, and how large their values are -----

  ghost predicate Written(row: seq<Slot>, to: int) {
    forall k :: 0 <= k < to <= |row| ==> row[k].Set?
  }

  /** A value of row j, sentinels included, is at most so many times the largest price. */
  ghost predicate Fits(slot: Slot, i: int, j: int, big: int) {
    slot.Set? ==> Abs(slot.v) <= (510 + i + j) * big
  }

  ghost predicate Small(row: seq<Slot>, j: int, big: int) {
    forall k :: 0 <= k < |row| ==> Fits(row[k], k, j, big)
  }

  lemma MulBound(k: int, x: int, a: int, m: int)
    requires 0 <= k <= a && Abs(x) <= m
    ensures Abs(k * x) <= a * m
  {
    if x >= 0 {
      assert k * x <= k * m;
    } else {
      assert k * -x <= k * m;
    }
    assert k * m <= a * m;
  }

  lemma FitsLater(slot: Slot, i: int, j: int, j': int, big: int)
    requires Fits(slot, i, j, big) && j <= j' && 0 <= big
    ensures Fits(slot, i, j', big)
  {
    MulMonotone(510 + i + j, 510 + i + j', big);
  }

  lemma SmallLater(row: seq<Slot>, j: int, big: int)
    requires Small(row, j, big) && 0 <= big
    ensures Small(row, j + 1, big)
  {
    forall k | 0 <= k < |row| ensures Fits(row[k], k, j + 1, big) { FitsLater(row[k], k, j, j + 1, big); }
  }

  lemma SentinelFits(bound: int, i: int, j: int, big: int)
    requires 0 <= bound < 510 * big && 0 <= i && 0 <= j && 0 <= big
    ensures Fits(Set(bound + 1), i, j, big)
  {
    MulMonotone(510, 510 + i + j, big);
  }

  /** The recurrence keeps to one more unit of the largest price. */
  lemma StepFits(v: int, step: int, i: int, j: int, big: int)
    requires Abs(step) <= big && Abs(v) <= (510 + i + j - 1) * big
    ensures Abs(v + step) <= (510 + i + j) * big
  {
    assert (510 + i + j) * big == (510 + i + j - 1) * big + big;
  }

  // ----- one row -----

  /** The body of the inner loop. */
  method FillCell(prev: array<Slot>, curr: array<Slot>, i: nat, c: Costs, same: bool,
                  ghost g: Grid<seq<byte>>, ghost j: nat, ghost lim: int)
    requires g.c == c && 0 < i <= |g.s| <= 255 && 0 < j <= |g.t| <= 255 && 1275 * Largest(c) <= lim
    requires prev != curr && prev.Length == curr.Length == |g.s| + 1
    requires same <==> g.s[i - 1] == g.t[j - 1]
    requires prev[i].Set? && prev[i - 1].Set? && curr[i - 1].Set?
    requires Fits(prev[i], i, j - 1, Largest(c)) && Fits(prev[i - 1], i - 1, j - 1, Largest(c))
    requires Fits(curr[i - 1], i - 1, j, Largest(c))
    modifies curr
    ensures curr[..] == old(curr[..])[i := CellValue(g, i, j, prev[i], old(curr[i - 1]), prev[i - 1])]
    ensures curr[i].Set? && Fits(curr[i], i, j, Largest(c))
  {
    MulMonotone(510 + i + j, 1275, Largest(c));
    MulMonotone(510 + i + j - 2, 510 + i + j - 1, Largest(c));
    StepFits(prev[i].v, c.ins, i, j, Largest(c));
    StepFits(curr[i - 1].v, c.del, i, j, Largest(c));
    StepFits(prev[i - 1].v, c.sub, i, j, Largest(c));
    StepFits(prev[i - 1].v, 0, i, j, Largest(c));
    var ins := Int(lim, prev[i].v + c.ins);
    var del := Int(lim, curr[i - 1].v + c.del);
    var sub := if same then prev[i - 1].v else Int(lim, prev[i - 1].v + c.sub);
    curr[i] := Set(Min(ins, del));
    curr[i] := Set(Min(curr[i].v, sub));
  }

  /** The grid of two texts. */
  ghost function TextGrid(mblen: Mblen, s: seq<byte>, t: seq<byte>, c: Costs): Grid<seq<byte>>
    requires WellFormed(mblen, s) && WellFormed(mblen, t)
  {
    Grid(c, Chars(mblen, s), Chars(mblen, t))
  }

  /** The cached lengths, if there are any; without them both texts are single-byte. */
  ghost predicate Cached(g: Grid<seq<byte>>, s: seq<byte>, t: seq<byte>, lens: array?<nat>)
    reads lens
  {
    if lens == null then |g.s| == |s| && |g.t| == |t|
    else lens.Length == |g.s| + 1 && forall k :: 0 <= k < |g.s| ==> lens[k] == |g.s[k]|
  }

  function Before(column: nat): nat {
    if column == 0 then 0 else column - 1
  }

  /** Compare the source character that column i consumes with the target character that
      row j consumes. */
  method CompareChars(s: seq<byte>, t: seq<byte>, lens: array<nat>, x: nat, y: nat, yLen: nat, i: nat,
                      ghost j: nat, ghost g: Grid<seq<byte>>)
    returns (same: bool, xLen: nat)
    requires LaidOut(s, g.s) && LaidOut(t, g.t) && Cached(g, s, t, lens)
    requires 0 < i <= |g.s| && 0 < j <= |g.t|
    requires x == Offset(g.s, i - 1) && y == Offset(g.t, j - 1) && yLen == |g.t[j - 1]|
    ensures same <==> g.s[i - 1] == g.t[j - 1]
    ensures x + xLen == Offset(g.s, i)
  {
    assert LiesAt(s, g.s, i - 1) && LiesAt(t, g.t, j - 1);
    xLen := lens[i - 1];
    same := SameChar(s, x, xLen, t, y, yLen);
  }

  /** What the inner loop needs of the two rows. */
  ghost predicate Fillable(g: Grid<seq<byte>>, j: nat, prev: seq<Slot>, curr: seq<Slot>, from: int, stop: int)
    requires 0 < j
  {
    && |prev| == |curr| == |g.s| + 1 && from <= stop <= |g.s| + 1
    && Written(prev, stop) && Written(curr, from)
    && Small(prev, j - 1, Largest(g.c)) && Small(curr, j, Largest(g.c))
  }

  lemma FillStep(g: Grid<seq<byte>>, j: nat, prev: seq<Slot>, curr: seq<Slot>, i: nat, stop: nat, slot: Slot)
    requires 0 < j && Fillable(g, j, prev, curr, i, stop) && i < stop && slot.Set? && Fits(slot, i, j, Largest(g.c))
    ensures Fillable(g, j, prev, curr[i := slot], i + 1, stop)
  {
  }

  /** The body of the inner loop for texts with multibyte characters. */
  method FillColumn(s: seq<byte>, t: seq<byte>, lens: array<nat>, x: nat, y: nat, yLen: nat,
                    prev: array<Slot>, curr: array<Slot>, i: nat, ghost stop: nat, j: nat, c: Costs,
                    ghost g: Grid<seq<byte>>, ghost lim: int)
    returns (xLen: nat)
    requires g.c == c && LaidOut(s, g.s) && LaidOut(t, g.t)
    requires Cached(g, s, t, lens)
    requires |g.s| <= 255 && 0 < j <= |g.t| <= 255 && 1275 * Largest(c) <= lim
    requires prev != curr && 0 < i < stop && Fillable(g, j, prev[..], curr[..], i, stop)
    requires x == Offset(g.s, i - 1) && y == Offset(g.t, j - 1) && yLen == |g.t[j - 1]|
    modifies curr
    ensures x + xLen == Offset(g.s, i) && Fillable(g, j, prev[..], curr[..], i + 1, stop)
    ensures FillFrom(g, j, prev[..], curr[..], i + 1, stop) == FillFrom(g, j, prev[..], old(curr[..]), i, stop)
  {
    var same;
    same, xLen := CompareChars(s, t, lens, x, y, yLen, i, j, g);
    ghost var was := curr[..];
    FillCell(prev, curr, i, c, same, g, j, lim);
    FillStep(g, j, prev[..], was, i, stop, curr[i]);
  }

  /** The inner loop for texts with multibyte characters, from column i on. */
  method FillMultibyte(s: seq<byte>, t: seq<byte>, lens: array<nat>, x: nat, y: nat, yLen: nat,
                       prev: array<Slot>, curr: array<Slot>, from: nat, stop: nat, j: nat, c: Costs,
                       ghost g: Grid<seq<byte>>, ghost lim: int)
    requires g.c == c && LaidOut(s, g.s) && LaidOut(t, g.t)
    requires Cached(g, s, t, lens)
    requires |g.s| <= 255 && 0 < j <= |g.t| <= 255 && 1275 * Largest(c) <= lim
    requires prev != curr && 0 < from && Fillable(g, j, prev[..], curr[..], from, stop)
    requires x == Offset(g.s, from - 1) && y == Offset(g.t, j - 1) && yLen == |g.t[j - 1]|
    modifies curr
    ensures curr[..] == FillFrom(g, j, prev[..], old(curr[..]), from, stop)
    ensures Fillable(g, j, prev[..], curr[..], stop, stop)
  {
    var x := x;
    for i := from to stop
      invariant x == Offset(g.s, i - 1)
      invariant Fillable(g, j, prev[..], curr[..], i, stop)
      invariant FillFrom(g, j, prev[..], curr[..], i, stop) == FillFrom(g, j, prev[..], old(curr[..]), from, stop)
    {
      var xLen := FillColumn(s, t, lens, x, y, yLen, prev, curr, i, stop, j, c, g, lim);
      x := x + xLen;
    }
  }

  /** The inner loop's fast path: every character is one byte. */
  method FillSingleByte(s: seq<byte>, t: seq<byte>, x: nat, y: nat,
                        prev: array<Slot>, curr: array<Slot>, from: nat, stop: nat, j: nat, c: Costs,
                        ghost g: Grid<seq<byte>>, ghost lim: int)
    requires g.c == c && LaidOut(s, g.s) && LaidOut(t, g.t)
    requires Cached(g, s, t, null)
    requires |g.s| <= 255 && 0 < j <= |g.t| <= 255 && 1275 * Largest(c) <= lim
    requires prev != curr && 0 < from && Fillable(g, j, prev[..], curr[..], from, stop)
    requires x == Offset(g.s, from - 1) && y == Offset(g.t, j - 1)
    modifies curr
    ensures curr[..] == FillFrom(g, j, prev[..], old(curr[..]), from, stop)
    ensures Fillable(g, j, prev[..], curr[..], stop, stop)
  {
    var x := x;
    AllSingle(t, g.t, j - 1);
    AllSingle(s, g.s, from - 1);
    for i := from to stop
      invariant x == i - 1
      invariant Fillable(g, j, prev[..], curr[..], i, stop)
      invariant FillFrom(g, j, prev[..], curr[..], i, stop) == FillFrom(g, j, prev[..], old(curr[..]), from, stop)
    {
      AllSingle(s, g.s, i - 1);
      ghost var was := curr[..];
      FillCell(prev, curr, i, c, s[x] == t[y], g, j, lim);
      FillStep(g, j, prev[..], was, i, stop, curr[i]);
      x := x + 1;
    }
  }

  /** Compute row j of the notional array in the columns below stop. Columns below start
      are left as they are. The pointer data is s_data: it points at the character that
      column start, or column 1, consumes. */
  method FillRow(s: seq<byte>, t: seq<byte>, lens: array?<nat>, data: nat, y: nat, yLen: nat,
                 prev: array<Slot>, curr: array<Slot>, start: nat, stop: nat, j: nat, c: Costs,
                 ghost g: Grid<seq<byte>>, ghost lim: int)
    requires g.c == c && LaidOut(s, g.s) && LaidOut(t, g.t)
    requires Cached(g, s, t, lens)
    requires |g.s| <= 255 && 0 < j <= |g.t| <= 255 && 1275 * Largest(c) <= lim
    requires prev != curr && start < stop && Fillable(g, j, prev[..], curr[..], start, stop)
    requires data == Offset(g.s, Before(start)) && y == Offset(g.t, j - 1) && yLen == |g.t[j - 1]|
    modifies curr
    ensures curr[..] == FilledRow(g, j, prev[..], old(curr[..]), start, stop)
    ensures Fillable(g, j, prev[..], curr[..], stop, stop)
  {
    var i := start;
    if start == 0 {
      MulBound(j, c.ins, 255, Largest(c));
      FirstColumnFits(c, j);
      ghost var was := curr[..];
      curr[0] := Set(Int(lim, j * c.ins));
      FillStep(g, j, prev[..], was, 0, stop, curr[0]);
      assert curr[..] == was[0 := Set(j * c.ins)];
      i := 1;
    }
    if lens != null {
      FillMultibyte(s, t, lens, data, y, yLen, prev, curr, i, stop, j, c, g, lim);
    } else {
      FillSingleByte(s, t, data, y, prev, curr, i, stop, j, c, g, lim);
    }
  }

  lemma FirstColumnFits(c: Costs, j: nat)
    ensures Fits(Set(j * c.ins), 0, j, Largest(c))
  {
    MulBound(j, c.ins, j, Largest(c));
    MulMonotone(j, 510 + j, Largest(c));
  }

  // ----- the band between two rows -----

  /** What the loop over the rows keeps up. The band reaches the column it has to. */
  ghost predicate Tidy(g: Grid<seq<byte>>, bound: int, j: int, st: State) {
    && st.State? && Shaped(g, st)
    && (bound < 0 ==> st.start == 0 && st.stop == |g.s| + 1) && (bound >= 0 ==> bound < 510 * Largest(g.c))
    && st.stop > ZeroPoint(g, j)
    && Written(st.prev, st.stop) && Written(st.curr, st.start)
    && Small(st.prev, j, Largest(g.c)) && Small(st.curr, j, Largest(g.c))
  }

  /** Let the band grow by one column to the right before the next row is filled. */
  method WidenBand(prev: array<Slot>, curr: array<Slot>, start: nat, stop: nat, maxD: int,
                   ghost g: Grid<seq<byte>>, ghost j: nat, ghost lim: int)
    returns (wider: nat)
    requires prev != curr && 510 * Largest(g.c) <= lim && Tidy(g, maxD, j, State(prev[..], curr[..], start, stop))
    modifies prev
    ensures State(prev[..], curr[..], start, wider) == Widened(g, maxD, State(old(prev[..]), curr[..], start, stop))
    ensures Fillable(g, j + 1, prev[..], curr[..], start, wider)
  {
    wider := stop;
    SmallLater(curr[..], j, Largest(g.c));
    if stop < prev.Length {
      SentinelFits(maxD, stop, j, Largest(g.c));
      ghost var was := prev[..];
      prev[stop] := Set(Int(lim, maxD + 1));
      assert prev[..] == was[stop := Set(maxD + 1)];
      wider := wider + 1;
    }
  }

  /** The price, at least, of what is left to do after this column: the expression both
      slides test. */
  method ExpectedTotal(slot: Slot, ii: nat, j: nat, c: Costs, m: nat, n: nat, ghost g: Grid<seq<byte>>, ghost lim: int)
    returns (d: int)
    requires g.c == c && |g.s| == m <= 255 && |g.t| == n <= 255 && ii <= m && j <= n
    requires 1275 * Largest(c) <= lim && slot.Set? && Fits(slot, ii, j, Largest(c))
    ensures d == slot.v + g.Residual(ii, j)
  {
    var zp := j - (n - m);
    var netInserts := ii - zp;
    if netInserts > 0 {
      MulBound(netInserts, c.ins, 255, Largest(c));
    } else {
      MulBound(-netInserts, c.del, 255, Largest(c));
    }
    MulMonotone(510 + ii + j, 1020, Largest(c));
    d := Int(lim, slot.v + (if netInserts > 0 then Int(lim, netInserts * c.ins) else Int(lim, -netInserts * c.del)));
  }

  method SlideStop(prev: array<Slot>, stop: nat, j: nat, c: Costs, maxD: int, m: nat, n: nat,
                   ghost g: Grid<seq<byte>>, ghost lim: int)
    returns (left: nat)
    requires g.c == c && |g.s| == m <= 255 && |g.t| == n <= 255 && j <= n && prev.Length == m + 1 && stop <= m + 1
    requires 1275 * Largest(c) <= lim && Written(prev[..], stop) && Small(prev[..], j, Largest(c))
    ensures left == SlideStopTo(g, prev[..], stop, j, maxD)
  {
    left := stop;
    while left > 0
      invariant left <= stop && SlideStopTo(g, prev[..], left, j, maxD) == SlideStopTo(g, prev[..], stop, j, maxD)
    {
      var ii := left - 1;
      assert prev[..][ii].Set? && Fits(prev[..][ii], ii, j, Largest(c));
      var d := ExpectedTotal(prev[ii], ii, j, c, m, n, g, lim);
      if d <= maxD {
        return;
      }
      left := left - 1;
    }
  }

  lemma MarkNext(row: seq<Slot>, now: seq<Slot>, from: nat, to: nat, bound: int)
    requires from <= to < |row| && now == Marked(row, from, to, bound)
    ensures now[to] == row[to] && now[to := Set(bound + 1)] == Marked(row, from, to + 1, bound)
  {
  }

  lemma MarkNone(row: seq<Slot>, from: nat, bound: int)
    ensures Marked(row, from, from, bound) == row
  {
  }

  /** The start column leaves column i: s_data moves past the character the column consumes. */
  method MoveData(s: seq<byte>, t: seq<byte>, lens: array?<nat>, data: nat, i: nat, ghost g: Grid<seq<byte>>)
    returns (moved: nat)
    requires LaidOut(s, g.s) && Cached(g, s, t, lens) && i <= |g.s| && data == Offset(g.s, Before(i))
    ensures moved == Offset(g.s, Before(i + 1))
  {
    moved := data;
    if i != 0 {
      if lens == null { AllSingle(s, g.s, i - 1); }
      moved := moved + (if lens != null then lens[i - 1] else 1);
    }
  }

  method SlideStart(prev: array<Slot>, curr: array<Slot>, start: nat, stop: nat, j: nat, c: Costs, maxD: int,
                    m: nat, n: nat, lens: array?<nat>, data: nat, s: seq<byte>, t: seq<byte>,
                    ghost g: Grid<seq<byte>>, ghost lim: int)
    returns (right: nat, moved: nat)
    requires g.c == c && |g.s| == m <= 255 && |g.t| == n <= 255 && j <= n && stop <= m + 1
    requires prev != curr && prev.Length == curr.Length == m + 1 && 1275 * Largest(c) <= lim
    requires 0 <= maxD < 510 * Largest(c)
    requires Written(prev[..], stop) && Small(prev[..], j, Largest(c)) && start <= m + 1
    requires LaidOut(s, g.s) && Cached(g, s, t, lens) && data == Offset(g.s, Before(start))
    modifies prev, curr
    ensures right == SlideStartTo(g, old(prev[..]), start, stop, j, maxD)
    ensures prev[..] == Marked(old(prev[..]), start, right, maxD)
    ensures curr[..] == Marked(old(curr[..]), start, right, maxD)
    ensures right <= m + 1 && moved == Offset(g.s, Before(right))
  {
    right, moved := start, data;
    ghost var row, other := prev[..], curr[..];
    MarkNone(row, start, maxD);
    MarkNone(other, start, maxD);
    while right < stop
      invariant start <= right <= Max(start, stop)
      invariant SlideStartTo(g, row, right, stop, j, maxD) == SlideStartTo(g, row, start, stop, j, maxD)
      invariant prev[..] == Marked(row, start, right, maxD) && curr[..] == Marked(other, start, right, maxD)
      invariant moved == Offset(g.s, Before(right))
    {
      MarkNext(row, prev[..], start, right, maxD);
      MarkNext(other, curr[..], start, right, maxD);
      assert prev[right] == row[right] && row[right].Set? && Fits(row[right], right, j, Largest(c));
      var d := ExpectedTotal(prev[right], right, j, c, m, n, g, lim);
      if d <= maxD {
        return;
      }
      prev[right] := Set(Int(lim, maxD + 1));
      curr[right] := Set(Int(lim, maxD + 1));
      moved := MoveData(s, t, lens, moved, right, g);
      right := right + 1;
    }
  }

  lemma MarkedFits(row: seq<Slot>, from: nat, to: nat, bound: int, j: int, big: int)
    requires Small(row, j, big) && 0 <= bound < 510 * big && 0 <= j
    ensures Small(Marked(row, from, to, bound), j, big)
  {
    forall k | 0 <= k < |row| ensures Fits(Marked(row, from, to, bound)[k], k, j, big) {
      SentinelFits(bound, k, j, big);
      assert Fits(row[k], k, j, big);
    }
  }

  lemma MarkedIsWritten(row: seq<Slot>, from: nat, to: nat, stop: nat, bound: int)
    requires Written(row, stop)
    ensures Written(Marked(row, from, to, bound), stop)
  {
    forall k | 0 <= k < stop <= |row| ensures Marked(row, from, to, bound)[k].Set? { assert row[k].Set?; }
  }

  lemma TrimmedIsTidy(g: Grid<seq<byte>>, bound: int, j: nat, st: State)
    requires j <= |g.t| && Tidy(g, bound, j, st) && 0 <= bound && DeletesAlong(g, st.prev, st.start, st.stop)
    ensures var r := Trimmed(g, bound, j, st); r.State? ==> Tidy(g, bound, j, r)
  {
    var r := Trimmed(g, bound, j, st);
    TrimmedIsWide(g, bound, j, st);
    if r.State? {
      MarkedFits(st.prev, st.start, r.start, bound, j, Largest(g.c));
      MarkedFits(st.curr, st.start, r.start, bound, j, Largest(g.c));
      MarkedIsWritten(st.prev, st.start, r.start, st.stop, bound);
      forall k | 0 <= k < r.start <= |st.curr| ensures r.curr[k].Set? { assert k < st.start ==> st.curr[k].Set?; }
    }
  }

  /** Trim the band around row j, which has just been filled and is now the previous row. */
  method TrimBand(s: seq<byte>, t: seq<byte>, lens: array?<nat>, prev: array<Slot>, curr: array<Slot>,
                  start0: nat, stop0: nat, data0: nat, j: nat, m: nat, n: nat, c: Costs, maxD: int,
                  ghost g: Grid<seq<byte>>, ghost lim: int)
    returns (exceeded: bool, start: nat, stop: nat, data: nat)
    requires g.c == c && m == |g.s| <= 255 && 0 < j <= n == |g.t| <= 255 && 1275 * Largest(c) <= lim
    requires LaidOut(s, g.s) && Cached(g, s, t, lens) && prev != curr && 0 <= maxD
    requires Tidy(g, maxD, j, State(prev[..], curr[..], start0, stop0)) && data0 == Offset(g.s, Before(start0))
    modifies prev, curr
    ensures var r := Trimmed(g, maxD, j, State(old(prev[..]), old(curr[..]), start0, stop0));
            && (exceeded <==> r.Exceeded?)
            && (!exceeded ==> r == State(prev[..], curr[..], start, stop) && data == Offset(g.s, Before(start)))
  {
    stop := SlideStop(prev, stop0, j, c, maxD, m, n, g, lim);
    start, data := SlideStart(prev, curr, start0, stop, j, c, maxD, m, n, lens, data0, s, t, g, lim);
    exceeded := start >= stop;
  }

  /** A filled row before it is trimmed. */
  lemma FilledIsTidy(g: Grid<seq<byte>>, bound: int, j: nat, w: State, row: seq<Slot>)
    requires 0 < j <= |g.t| && w.State? && Shaped(g, w) && w.stop > ZeroPoint(g, j)
    requires (bound < 0 ==> w.start == 0 && w.stop == |g.s| + 1) && (bound >= 0 ==> bound < 510 * Largest(g.c))
    requires |row| == |g.s| + 1 && Fillable(g, j, w.prev, row, w.stop, w.stop)
    ensures Tidy(g, bound, j, State(row, w.prev, w.start, w.stop))
  {
    SmallLater(w.prev, j - 1, Largest(g.c));
  }

  /** One iteration of the loop over the rows. The filled row ends up in curr: the caller
      swaps the two. */
  method NextRow(s: seq<byte>, t: seq<byte>, lens: array?<nat>, prev: array<Slot>, curr: array<Slot>,
                 start0: nat, stop0: nat, data0: nat, y: nat, yLen: nat, j: nat, m: nat, n: nat, c: Costs, maxD: int,
                 ghost g: Grid<seq<byte>>, ghost lim: int)
    returns (exceeded: bool, start: nat, stop: nat, data: nat)
    requires g.c == c && m == |g.s| <= 255 && 0 < j <= n == |g.t| <= 255 && 1275 * Largest(c) <= lim
    requires LaidOut(s, g.s) && LaidOut(t, g.t) && Cached(g, s, t, lens) && prev != curr
    requires Tidy(g, maxD, j - 1, State(prev[..], curr[..], start0, stop0))
    requires data0 == Offset(g.s, Before(start0)) && y == Offset(g.t, j - 1) && yLen == |g.t[j - 1]|
    modifies prev, curr
    ensures var r := NextState(g, maxD, j, State(old(prev[..]), old(curr[..]), start0, stop0));
            && (exceeded <==> r.Exceeded?)
            && (!exceeded ==> r == State(curr[..], prev[..], start, stop) && Tidy(g, maxD, j, r)
                              && data == Offset(g.s, Before(start)))
  {
    exceeded, start, stop, data := false, start0, stop0, data0;
    stop := WidenBand(prev, curr, start, stop, maxD, g, j - 1, lim);
    ghost var w := State(prev[..], curr[..], start, stop);
    FillRow(s, t, lens, data, y, yLen, prev, curr, start, stop, j, c, g, lim);
    FilledIsTidy(g, maxD, j, w, curr[..]);
    if maxD >= 0 {
      FilledDeletesAlong(g, j, w.prev, w.curr, start, stop);
      TrimmedIsTidy(g, maxD, j, State(curr[..], prev[..], start, stop));
      exceeded, start, stop, data :=
        TrimBand(s, t, lens, curr, prev, start, stop, data, j, m, n, c, maxD, g, lim);
    }
  }

  // ----- the programs -----

  method FillFirstRow(prev: array<Slot>, stop: nat, c: Costs, ghost g: Grid<seq<byte>>, ghost lim: int)
    requires g.c == c && prev.Length == |g.s| + 1 && |g.s| <= 255 && stop <= prev.Length && 1275 * Largest(c) <= lim
    requires forall k :: 0 <= k < prev.Length ==> prev[k] == Unset
    modifies prev
    ensures prev[..] == FirstRow(g, stop)
  {
    for i := 0 to stop
      invariant forall k :: 0 <= k < prev.Length ==> prev[k] == if k < i then Set(k * c.del) else Unset
    {
      MulBound(i, c.del, 255, Largest(c));
      prev[i] := Set(Int(lim, i * c.del));
    }
  }

  lemma StartIsTidy(g: Grid<seq<byte>>, bound: int, stop: nat)
    requires 0 < stop <= |g.s| + 1 && stop > ZeroPoint(g, 0)
    requires (bound < 0 ==> stop == |g.s| + 1) && (bound >= 0 ==> bound < 510 * Largest(g.c))
    ensures Tidy(g, bound, 0, StartState(g, stop))
  {
    forall k | 0 <= k <= |g.s| ensures Fits(FirstRow(g, stop)[k], k, 0, Largest(g.c)) {
      MulBound(k, g.c.del, k, Largest(g.c));
      MulMonotone(k, 510 + k, Largest(g.c));
    }
  }

  /** The length of the target character that starts at y. */
  method TargetCharLength(mblen: Mblen, t: seq<byte>, n: nat, y: nat, ghost j: nat) returns (len: nat)
    requires WellFormed(mblen, t) && n == |Chars(mblen, t)| && j < n && y == Offset(Chars(mblen, t), j)
    ensures len == |Chars(mblen, t)[j]|
  {
    CharAt(mblen, t, j);
    CharsAreLaidOut(mblen, t);
    if n == |t| { AllSingle(t, Chars(mblen, t), j); }
    len := if n != |t| then mblen(t[y..]) else 1;
  }

  /** The loop over the rows is to end with this total. */
  ghost predicate OnTrack(g: Grid<seq<byte>>, bound: int, j: nat, st: State, total: int)
    requires j <= |g.t|
  {
    Tidy(g, bound, j, st) && RunFrom(g, bound, j, st) == total
  }

  lemma KeepsTrack(g: Grid<seq<byte>>, bound: int, j: nat, st: State, total: int)
    requires j < |g.t| && OnTrack(g, bound, j, st, total)
    ensures var next := NextState(g, bound, j + 1, st);
            && (next.Exceeded? ==> total == bound + 1)
            && (Tidy(g, bound, j + 1, next) ==> OnTrack(g, bound, j + 1, next, total))
  {
    RunUnfold(g, bound, j, st);
  }

  lemma EndOfTrack(g: Grid<seq<byte>>, bound: int, st: State, total: int)
    requires OnTrack(g, bound, |g.t|, st, total)
    ensures st.prev[|g.s|] == Set(total)
  {
  }

  /** The two rows at the start of the loop. */
  method FirstRows(stop: nat, m: nat, c: Costs, ghost g: Grid<seq<byte>>, ghost lim: int)
    returns (prev: array<Slot>, curr: array<Slot>)
    requires g.c == c && |g.s| == m <= 255 && 0 < stop <= m + 1 && 1275 * Largest(c) <= lim
    ensures fresh(prev) && fresh(curr) && prev != curr && prev.Length == curr.Length == m + 1
    ensures State(prev[..], curr[..], 0, stop) == StartState(g, stop)
  {
    prev, curr := new Slot[m + 1](_ => Unset), new Slot[m + 1](_ => Unset);
    FillFirstRow(prev, stop, c, g, lim);
    assert curr[..] == StartState(g, stop).curr;
  }

  /** The body of the loop over the rows: the next target character, and the row it takes. */
  method TrackedRow(mblen: Mblen, s: seq<byte>, t: seq<byte>, lens: array?<nat>, prev: array<Slot>, curr: array<Slot>,
                    start0: nat, stop0: nat, data0: nat, y: nat, j: nat, m: nat, n: nat, c: Costs, maxD: int,
                    ghost g: Grid<seq<byte>>, ghost lim: int, ghost total: int)
    returns (exceeded: bool, start: nat, stop: nat, data: nat, yLen: nat)
    requires WellFormed(mblen, s) && WellFormed(mblen, t) && g == TextGrid(mblen, s, t, c)
    requires m == |g.s| <= 255 && j < n == |g.t| <= 255 && Cached(g, s, t, lens) && 1275 * Largest(c) <= lim
    requires prev != curr
    requires OnTrack(g, maxD, j, State(prev[..], curr[..], start0, stop0), total)
    requires data0 == Offset(g.s, Before(start0)) && y == Offset(g.t, j)
    modifies prev, curr
    ensures exceeded ==> 0 < total == maxD + 1 <= lim
    ensures !exceeded ==> OnTrack(g, maxD, j + 1, State(curr[..], prev[..], start, stop), total)
    ensures !exceeded ==> data == Offset(g.s, Before(start)) && y + yLen == Offset(g.t, j + 1)
  {
    CharsAreLaidOut(mblen, s);
    CharsAreLaidOut(mblen, t);
    yLen := TargetCharLength(mblen, t, n, y, j);
    KeepsTrack(g, maxD, j, State(prev[..], curr[..], start0, stop0), total);
    exceeded, start, stop, data :=
      NextRow(s, t, lens, prev, curr, start0, stop0, data0, y, yLen, j + 1, m, n, c, maxD, g, lim);
  }

  /** The loop over the rows. */
  method RowLoop(mblen: Mblen, s: seq<byte>, t: seq<byte>, lens: array?<nat>, row0: array<Slot>, row1: array<Slot>,
                 firstStop: nat, m: nat, n: nat, c: Costs, maxD: int,
                 ghost g: Grid<seq<byte>>, ghost lim: int, ghost total: int)
    returns (d: int)
    requires WellFormed(mblen, s) && WellFormed(mblen, t) && g == TextGrid(mblen, s, t, c)
    requires m == |g.s| <= 255 && 0 < n == |g.t| <= 255 && Cached(g, s, t, lens) && 1275 * Largest(c) <= lim
    requires row0 != row1 && OnTrack(g, maxD, 0, State(row0[..], row1[..], 0, firstStop), total)
    modifies row0, row1
    ensures d == total
  {
    var prev, curr, start, stop, data, y := row0, row1, 0, firstStop, 0, 0;
    for j := 0 to n
      invariant {prev, curr} == {row0, row1} && prev != curr
      invariant OnTrack(g, maxD, j, State(prev[..], curr[..], start, stop), total)
      invariant data == Offset(g.s, Before(start)) && y == Offset(g.t, j)
    {
      var exceeded, yLen;
      exceeded, start, stop, data, yLen :=
        TrackedRow(mblen, s, t, lens, prev, curr, start, stop, data, y, j, m, n, c, maxD, g, lim, total);
      if exceeded {
        return Int(lim, maxD + 1);
      }
      prev, curr := curr, prev;
      y := y + yLen;
    }
    EndOfTrack(g, maxD, State(prev[..], curr[..], start, stop), total);
    assert prev[..][m] == prev[m];
    d := prev[m].v;
  }

  /** Both rows, with the first one filled up to column firstStop, and the loop over the rows. */
  method BandedRows(mblen: Mblen, s: seq<byte>, t: seq<byte>, lens: array?<nat>, m: nat, n: nat, c: Costs, maxD: int,
                    firstStop: nat, ghost g: Grid<seq<byte>>, ghost lim: int)
    returns (d: int)
    requires WellFormed(mblen, s) && WellFormed(mblen, t) && g == TextGrid(mblen, s, t, c)
    requires m == |g.s| <= 255 && 0 < n == |g.t| <= 255 && Cached(g, s, t, lens) && 1275 * Largest(c) <= lim
    requires 0 < firstStop <= m + 1 && firstStop > ZeroPoint(g, 0)
    requires (maxD < 0 ==> firstStop == m + 1) && (maxD >= 0 ==> maxD < 510 * Largest(c))
    ensures d == RunFrom(g, maxD, 0, StartState(g, firstStop))
  {
    var prev, curr := FirstRows(firstStop, m, c, g, lim);
    StartIsTidy(g, maxD, firstStop);
    d := RowLoop(mblen, s, t, lens, prev, curr, firstStop, m, n, c, maxD, g, lim,
                 RunFrom(g, maxD, 0, StartState(g, firstStop)));
  }

  /** s_char_len: built unless both texts are single-byte throughout. */
  method LengthsIfNeeded(mblen: Mblen, s: seq<byte>, t: seq<byte>, m: nat, n: nat, ghost g: Grid<seq<byte>>)
    returns (lens: array?<nat>)
    requires WellFormed(mblen, s) && WellFormed(mblen, t) && g.s == Chars(mblen, s) && g.t == Chars(mblen, t)
    requires m == |g.s| && n == |g.t|
    ensures Cached(g, s, t, lens)
  {
    lens := null;
    if m != |s| || n != |t| {
      lens := CacheLengths(mblen, s, m);
    }
  }

  // ----- how much of the matrix the bound leaves -----

  method TheoreticalMinimum(m: nat, n: nat, c: Costs, ghost g: Grid<seq<byte>>, ghost lim: int)
    returns (d: int)
    requires g.c == c && |g.s| == m <= 255 && |g.t| == n <= 255 && 1275 * Largest(c) <= lim
    ensures d == g.Residual(0, 0) && Abs(d) <= 255 * Largest(c)
  {
    var netInserts := n - m;
    if netInserts < 0 {
      MulBound(-netInserts, c.del, 255, Largest(c));
      d := Int(lim, -netInserts * c.del);
    } else {
      MulBound(netInserts, c.ins, 255, Largest(c));
      d := Int(lim, netInserts * c.ins);
    }
  }

  method TheoreticalMaximum(m: nat, n: nat, c: Costs, minTheo: int, ghost lim: int) returns (d: int)
    requires m <= 255 && n <= 255 && 1275 * Largest(c) <= lim && Abs(minTheo) <= 255 * Largest(c)
    ensures d == minTheo + c.sub * Min(m, n) <= 510 * Largest(c)
  {
    MulBound(Min(m, n), c.sub, 255, Largest(c));
    d := Int(lim, minTheo + Int(lim, c.sub * Min(m, n)));
  }

  lemma ClampedMinimum(g: Grid<seq<byte>>)
    requires |g.s| <= 255 && |g.t| <= 255
    ensures Abs(g.Residual(0, 0)) <= 255 * Largest(g.c.Clamped())
  {
    var net := 0 - (0 - (|g.t| - |g.s|));
    var c := g.c.Clamped();
    if net > 0 { MulBound(net, c.ins, 255, Largest(c)); } else { MulBound(-net, c.del, 255, Largest(c)); }
  }

  /** The block under "max_d >= 0": is the bound out of reach, is it idle, and if it is
      neither, how much of the first row is needed? */
  method PlanBand(m: nat, n: nat, c0: Costs, maxD0: int, ghost g: Grid<seq<byte>>, ghost lim: int)
    returns (hopeless: bool, c: Costs, maxD: int, stop: nat)
    requires g.c == c0 && |g.s| == m <= 255 && |g.t| == n <= 255 && maxD0 >= 0
    requires 1275 * Largest(c0) <= lim && 1275 * Largest(c0.Clamped()) <= lim
    ensures hopeless <==> PlanFor(g, maxD0).Hopeless?
    ensures hopeless ==> maxD0 + 1 <= lim
    ensures !hopeless ==> PlanFor(g, maxD0) == Band(c, maxD, stop) && c == c0.Clamped() && stop > ZeroPoint(g, 0)
    ensures !hopeless ==> (maxD < 0 ==> stop == m + 1) && (maxD >= 0 ==> maxD < 510 * Largest(c))
  {
    hopeless, c, maxD, stop := false, c0, maxD0, m + 1;
    var minTheo := TheoreticalMinimum(m, n, c, g, lim);
    if minTheo > maxD {
      hopeless := true;
      return;
    }
    if Int(lim, c.ins + c.del) < c.sub {
      c := c.(sub := Int(lim, c.ins + c.del));
    }
    ClampedMinimum(g);
    var maxTheo := TheoreticalMaximum(m, n, c, minTheo, lim);
    if maxD >= maxTheo {
      maxD := -1;
    } else if Int(lim, c.ins + c.del) > 0 {
      stop := FirstStopColumn(m, n, c, maxD, minTheo, g, lim);
    }
  }

  method FirstStopColumn(m: nat, n: nat, c: Costs, maxD: int, minTheo: int, ghost g: Grid<seq<byte>>, ghost lim: int)
    returns (stop: nat)
    requires |g.s| == m && |g.t| == n && 0 < c.ins + c.del && minTheo <= maxD && maxD - minTheo <= lim
    ensures var to := BestColumn(g) + (maxD - minTheo) / (c.ins + c.del) + 1;
            stop == (if to > m then m + 1 else to) && stop > ZeroPoint(g, 0)
  {
    var netInserts := n - m;
    var slack := Int(lim, maxD - minTheo);
    var best := if netInserts < 0 then -netInserts else 0;
    stop := best + slack / (c.ins + c.del) + 1;
    if stop > m {
      stop := m + 1;
    }
  }

  // ----- the programs -----

  /** levenshtein_internal: the distance itself, for prices of any sign. */
  method LevenshteinInternal(mblen: Mblen, s: seq<byte>, t: seq<byte>, c: Costs, ghost lim: int) returns (r: Result)
    requires WellFormed(mblen, s) && WellFormed(mblen, t) && 1275 * Largest(c) <= lim
    ensures var m, n := |Chars(mblen, s)|, |Chars(mblen, t)|;
            r == if 0 < m && 0 < n && (m > 255 || n > 255) then TooLong
                 else Ok(Price(c, Chars(mblen, s), Chars(mblen, t)))
  {
    ghost var g := TextGrid(mblen, s, t, c);
    var m := CountChars(mblen, s);
    var n := CountChars(mblen, t);
    if m == 0 {
      LeftColumn(g, n);
      return Ok(n * c.ins);
    }
    if n == 0 {
      TopRow(g, m);
      return Ok(m * c.del);
    }
    if m > MAX_LEVENSHTEIN_STRLEN || n > MAX_LEVENSHTEIN_STRLEN {
      return TooLong;
    }
    var lens := LengthsIfNeeded(mblen, s, t, m, n, g);
    var d := BandedRows(mblen, s, t, lens, m, n, c, -1, m + 1, g, lim);
    FullRunIsRight(g, -1);
    return Ok(d);
  }

  /** levenshtein_less_equal_internal, for prices of any sign: the program's own answer, which
      is, if the prices are honest, the distance if that is within the bound, and one more
      than the bound if it is not. */
  method LevenshteinLessEqualInternal(mblen: Mblen, s: seq<byte>, t: seq<byte>, c0: Costs, maxD0: int, ghost lim: int)
    returns (r: Result)
    requires WellFormed(mblen, s) && WellFormed(mblen, t) && 1275 * Largest(c0) <= lim
    requires maxD0 >= 0 ==> 1275 * Largest(c0.Clamped()) <= lim
    ensures var m, n := |Chars(mblen, s)|, |Chars(mblen, t)|;
            var g := TextGrid(mblen, s, t, c0);
            && r == (if m == 0 || n == 0 then Ok(g.Distance())
                     else if m > 255 || n > 255 then TooLong
                     else Ok(Answer(g, maxD0)))
            && (r.Ok? && m > 0 && n > 0 && (maxD0 >= 0 ==> Honest(c0)) ==>
                  r.value == if maxD0 < 0 || g.Distance() <= maxD0 then g.Distance() else maxD0 + 1)
  {
    ghost var g0 := TextGrid(mblen, s, t, c0);
    var m := CountChars(mblen, s);
    var n := CountChars(mblen, t);
    if m == 0 {
      LeftColumn(g0, n);
      return Ok(n * c0.ins);
    }
    if n == 0 {
      TopRow(g0, m);
      return Ok(m * c0.del);
    }
    if m > MAX_LEVENSHTEIN_STRLEN || n > MAX_LEVENSHTEIN_STRLEN {
      return TooLong;
    }
    if maxD0 >= 0 ==> Honest(c0) { HonestAnswer(g0, maxD0); }
    var c, maxD, stop := c0, maxD0, m + 1;
    if maxD >= 0 {
      var hopeless;
      hopeless, c, maxD, stop := PlanBand(m, n, c0, maxD0, g0, lim);
      if hopeless {
        return Ok(Int(lim, maxD0 + 1));
      }
    }
    ghost var g := TextGrid(mblen, s, t, c);
    var lens := LengthsIfNeeded(mblen, s, t, m, n, g);
    var d := BandedRows(mblen, s, t, lens, m, n, c, maxD, stop, g, lim);
    return Ok(d);
  }

  // ----- the SQL functions, on 32-bit ints -----

  const INT_MAX := 0x7fff_ffff

  type int32 = x: int | -0x8000_0000 <= x <= 0x7fff_ffff

  /** levenshtein_with_costs. With prices small enough no 32-bit operation of the program
      overflows, because Int holds for lim == INT_MAX. */
  method LevenshteinWithCosts(mblen: Mblen, src: seq<byte>, dst: seq<byte>, ins: int32, del: int32, sub: int32)
    returns (r: Result)
    requires WellFormed(mblen, src) && WellFormed(mblen, dst)
    requires Largest(Costs(ins, del, sub)) <= INT_MAX / 1275
    ensures r.TooLong? <==> var m, n := |Chars(mblen, src)|, |Chars(mblen, dst)|; 0 < m && 0 < n && (m > 255 || n > 255)
    ensures r.Ok? ==> r.value == Price(Costs(ins, del, sub), Chars(mblen, src), Chars(mblen, dst))
  {
    r := LevenshteinInternal(mblen, src, dst, Costs(ins, del, sub), INT_MAX);
  }

  /** levenshtein_less_equal_with_costs. The price that caps substitutions has to be small,
      too. */
  method LevenshteinLessEqualWithCosts(mblen: Mblen, src: seq<byte>, dst: seq<byte>,
                                       ins: int32, del: int32, sub: int32, maxD: int32)
    returns (r: Result)
    requires WellFormed(mblen, src) && WellFormed(mblen, dst)
    requires Largest(Costs(ins, del, sub)) <= INT_MAX / 1275
    requires maxD >= 0 ==> Largest(Costs(ins, del, sub).Clamped()) <= INT_MAX / 1275
    ensures r.TooLong? <==> var m, n := |Chars(mblen, src)|, |Chars(mblen, dst)|; 0 < m && 0 < n && (m > 255 || n > 255)
    ensures r.Ok? && Chars(mblen, src) != [] && Chars(mblen, dst) != [] ==>
              r.value == Answer(Grid(Costs(ins, del, sub), Chars(mblen, src), Chars(mblen, dst)), maxD)
    ensures
      r.Ok? && (Chars(mblen, src) == [] || Chars(mblen, dst) == [] || maxD < 0 || Honest(Costs(ins, del, sub))) ==>
              Right(r.value, Price(Costs(ins, del, sub), Chars(mblen, src), Chars(mblen, dst)), maxD)
  {
    r := LevenshteinLessEqualInternal(mblen, src, dst, Costs(ins, del, sub), maxD, INT_MAX);
  }
}
