/** What the matrix is for: the distance is the price of the cheapest way to turn one
    string into another with single-character edits, applied one after the other at any
    positions and to any intermediate string.
 */
module EditScripts {
  import opened EditDistance
  import opened Sequences

  datatype Edit<T> = Insert(pos: nat, ch: T) | Delete(pos: nat) | Substitute(pos: nat, ch: T) {
    predicate Fits(w: seq<T>) {
      if Insert? then pos <= |w| else pos < |w|
    }

    function Apply(w: seq<T>): seq<T>
      requires Fits(w)
    {
      match this
      case Insert(p, x) => w[..p] + [x] + w[p..]
      case Delete(p) => w[..p] + w[p + 1..]
      case Substitute(p, x) => w[p := x]
    }

    function Cost(c: Costs): int {
      match this
      case Insert(_, _) => c.ins
      case Delete(_) => c.del
      case Substitute(_, _) => c.sub
    }
  }

  predicate Transforms<T(==)>(es: seq<Edit<T>>, w: seq<T>, u: seq<T>) {
    if es == [] then w == u
    else es[0].Fits(w) && Transforms(es[1..], es[0].Apply(w), u)
  }

  function Total<T>(c: Costs, es: seq<Edit<T>>): int {
    if es == [] then 0 else es[0].Cost(c) + Total(c, es[1..])
  }

  // ----- no script is cheaper -----

  /** Equal stretches carry a value down the diagonal for free. */
  lemma {:induction false} FreeRun<T(!new)>(g: Grid<T>, i: nat, j: nat, len: nat)
    requires i + len <= |g.s| && j + len <= |g.t|
    requires g.s[i..i + len] == g.t[j..j + len]
    ensures g.Cell(i + len, j + len) <= g.Cell(i, j)
    decreases len
  {
    if len > 0 {
      var n := len - 1;
      assert g.s[i..i + n] == g.s[i..i + len][..n];
      assert g.t[j..j + n] == g.t[j..j + len][..n];
      FreeRun(g, i, j, n);
      assert g.s[i + n] == g.s[i..i + len][n] == g.t[j..j + len][n] == g.t[j + n];
      NoBetterStep(g, i + len, j + len, Diagonal, g.Cell(i + n, j + n));
    }
  }

  lemma FreeHead<T(!new)>(g: Grid<T>, p: nat)
    requires p <= |g.s| && p <= |g.t| && g.s[..p] == g.t[..p]
    ensures g.Cell(p, p) <= 0
  {
    assert g.s[0..p] == g.t[0..p];
    FreeRun(g, 0, 0, p);
  }

  lemma EqualTails<T>(s: seq<T>, t: seq<T>, i: nat, j: nat)
    requires i <= |s| && j <= |t| && s[i..] == t[j..]
    ensures |s| - i == |t| - j && s[i..i + (|s| - i)] == t[j..j + (|s| - i)]
  {
    assert |s[i..]| == |t[j..]|;
  }

  lemma FreeTail<T(!new)>(g: Grid<T>, i: nat, j: nat)
    requires i <= |g.s| && j <= |g.t| && g.s[i..] == g.t[j..]
    ensures g.Distance() <= g.Cell(i, j)
  {
    EqualTails(g.s, g.t, i, j);
    FreeRun(g, i, j, |g.s| - i);
  }

  /** Strings that agree before position p, and again after a characters of the one and b
      characters of the other, differ by no more than those characters cost. */
  lemma LocalChange<T(!new)>(g: Grid<T>, p: nat, a: nat, b: nat, cost: int)
    requires p + a <= |g.s| && p + b <= |g.t|
    requires g.s[..p] == g.t[..p] && g.s[p + a..] == g.t[p + b..]
    requires g.Cell(p + a, p + b) <= g.Cell(p, p) + cost
    ensures g.Distance() <= cost
  {
    FreeHead(g, p);
    FreeTail(g, p + a, p + b);
  }

  lemma OneEdit<T(!new)>(c: Costs, w: seq<T>, e: Edit<T>)
    requires c.NoGain() && e.Fits(w)
    ensures Price(c, w, e.Apply(w)) <= e.Cost(c)
  {
    var g := Grid(c, w, e.Apply(w));
    var p := e.pos;
    match e
    case Insert(_, _) =>
      NoBetterStep(g, p, p + 1, Insertion, g.Cell(p, p) + c.ins);
      LocalChange(g, p, 0, 1, c.ins);
    case Delete(_) =>
      NoBetterStep(g, p + 1, p, Deletion, g.Cell(p, p) + c.del);
      LocalChange(g, p, 1, 0, c.del);
    case Substitute(_, _) =>
      NoBetterStep(g, p + 1, p + 1, Diagonal, g.Cell(p, p) + g.Diag(p + 1, p + 1));
      LocalChange(g, p, 1, 1, c.sub);
  }

  lemma {:induction false} NoCheaperScript<T(!new)>(c: Costs, es: seq<Edit<T>>, w: seq<T>, u: seq<T>)
    requires c.NoGain() && Transforms(es, w, u)
    ensures Price(c, w, u) <= Total(c, es)
    decreases |es|
  {
    if es == [] {
      assert w[0..|w|] == u[0..|u|];
      FreeRun(Grid(c, w, u), 0, 0, |w|);
    } else {
      var mid := es[0].Apply(w);
      OneEdit(c, w, es[0]);
      NoCheaperScript(c, es[1..], mid, u);
      Triangle(c, w, mid, u);
    }
  }

  // ----- some script is as cheap -----

  lemma ApplyInFront<T>(e: Edit<T>, w: seq<T>, rest: seq<T>)
    requires e.Fits(w)
    ensures e.Fits(w + rest) && e.Apply(w + rest) == e.Apply(w) + rest
  {
    var p := e.pos;
    CutBefore(w, rest, p);
    match e
    case Insert(_, x) => Associates(w[..p] + [x], w[p..], rest);
    case Delete(_) =>
      CutBefore(w, rest, p + 1);
      Associates(w[..p], w[p + 1..], rest);
    case Substitute(_, x) => assert (w + rest)[p := x] == w[p := x] + rest;
  }

  /** Edits made inside w do not notice what follows w. */
  lemma {:induction false} InFrontOf<T>(es: seq<Edit<T>>, w: seq<T>, u: seq<T>, rest: seq<T>)
    requires Transforms(es, w, u)
    ensures Transforms(es, w + rest, u + rest)
    decreases |es|
  {
    if es != [] {
      ApplyInFront(es[0], w, rest);
      InFrontOf(es[1..], es[0].Apply(w), u, rest);
    }
  }

  lemma {:induction false} ThenEdit<T>(c: Costs, es: seq<Edit<T>>, e: Edit<T>, w: seq<T>, u: seq<T>)
    requires Transforms(es, w, u) && e.Fits(u)
    ensures Transforms(es + [e], w, e.Apply(u))
    ensures Total(c, es + [e]) == Total(c, es) + e.Cost(c)
    decreases |es|
  {
    if es == [] {
      assert es + [e] == [e] && [e][1..] == [];
    } else {
      assert (es + [e])[1..] == es[1..] + [e];
      ThenEdit(c, es[1..], e, es[0].Apply(w), u);
    }
  }

  /** How a script for two prefixes grows by one step of the matrix. */
  lemma Extend<T>(c: Costs, es: seq<Edit<T>>, w: seq<T>, u: seq<T>, x: T, y: T)
    returns (ins: Edit<T>, del: Edit<T>, sub: Edit<T>)
    requires Transforms(es, w, u)
    ensures Transforms(es + [ins], w, u + [y]) && Total(c, es + [ins]) == Total(c, es) + c.ins
    ensures Transforms(es + [del], w + [x], u) && Total(c, es + [del]) == Total(c, es) + c.del
    ensures Transforms(es + [sub], w + [x], u + [y]) && Total(c, es + [sub]) == Total(c, es) + c.sub
    ensures Transforms(es, w + [x], u + [x])
  {
    ins, del, sub := Insert(|u|, y), Delete(|u|), Substitute(|u|, y);
    ThenEdit(c, es, ins, w, u);
    assert ins.Apply(u) == u + [y];
    InFrontOf(es, w, u, [x]);
    ThenEdit(c, es, del, w + [x], u + [x]);
    assert del.Apply(u + [x]) == u;
    ThenEdit(c, es, sub, w + [x], u + [x]);
    assert sub.Apply(u + [x]) == u + [y];
  }

  lemma {:induction false} CheapestPrefixScript<T(!new)>(g: Grid<T>, i: nat, j: nat) returns (es: seq<Edit<T>>)
    requires g.Within(i, j)
    ensures Transforms(es, g.s[..i], g.t[..j]) && Total(g.c, es) == g.Cell(i, j)
    decreases i + j
  {
    if i > 0 { assert g.s[..i] == g.s[..i - 1] + [g.s[i - 1]]; }
    if j > 0 { assert g.t[..j] == g.t[..j - 1] + [g.t[j - 1]]; }
    var last, v := LastStep(g, i, j);
    match last
    case Start =>
      es := [];
    case Insertion =>
      var before := CheapestPrefixScript(g, i, j - 1);
      var e, _, _ := Extend(g.c, before, g.s[..i], g.t[..j - 1], g.t[j - 1], g.t[j - 1]);
      es := before + [e];
    case Deletion =>
      var before := CheapestPrefixScript(g, i - 1, j);
      var _, e, _ := Extend(g.c, before, g.s[..i - 1], g.t[..j], g.s[i - 1], g.s[i - 1]);
      es := before + [e];
    case Diagonal =>
      var before := CheapestPrefixScript(g, i - 1, j - 1);
      var _, _, e := Extend(g.c, before, g.s[..i - 1], g.t[..j - 1], g.s[i - 1], g.t[j - 1]);
      es := if g.s[i - 1] == g.t[j - 1] then before else before + [e];
  }

  /** If detours earn nothing, the distance is attained by a script, and no script beats it. */
  lemma DistanceIsCheapestScript<T(!new)>(c: Costs, s: seq<T>, t: seq<T>)
    requires c.NoGain()
    ensures exists es: seq<Edit<T>> :: Transforms(es, s, t) && Total(c, es) == Price(c, s, t)
    ensures forall es: seq<Edit<T>> :: Transforms(es, s, t) ==> Price(c, s, t) <= Total(c, es)
  {
    var best := CheapestPrefixScript(Grid(c, s, t), |s|, |t|);
    assert s[..|s|] == s && t[..|t|] == t;
    assert Transforms(best, s, t);
    forall es: seq<Edit<T>> | Transforms(es, s, t) ensures Price(c, s, t) <= Total(c, es) {
      NoCheaperScript(c, es, s, t);
    }
  }

  // ----- where there is a cheapest script -----

  /** A script that overwrites one character n times on its way. */
  lemma {:induction false} Overwrite<T>(c: Costs, es: seq<Edit<T>>, s: seq<T>, t: seq<T>, ch: T, n: nat)
    returns (fs: seq<Edit<T>>)
    requires Transforms(es, s, t) && c.sub < 0
    ensures Transforms(fs, s, t + [ch]) && Total(c, fs) <= Total(c, es) + c.ins - n
  {
    if n == 0 {
      ThenEdit(c, es, Insert(|t|, ch), s, t);
      fs := es + [Insert(|t|, ch)];
      assert t[..|t|] + [ch] + t[|t|..] == t + [ch];
    } else {
      fs := Overwrite(c, es, s, t, ch, n - 1);
      ThenEdit(c, fs, Substitute(|t|, ch), s, t + [ch]);
      fs := fs + [Substitute(|t|, ch)];
      assert (t + [ch])[|t| := ch] == t + [ch];
    }
  }

  /** Where a detour earns something, every script is beaten by one with a detour. */
  lemma DetourIsCheaper<T>(c: Costs, es: seq<Edit<T>>, s: seq<T>, t: seq<T>, ch: T) returns (fs: seq<Edit<T>>)
    requires Transforms(es, s, t) && !c.NoGain()
    ensures Transforms(fs, s, t) && Total(c, fs) < Total(c, es)
  {
    if c.ins + c.del < 0 {
      ThenEdit(c, es, Insert(|t|, ch), s, t);
      fs := es + [Insert(|t|, ch)];
      assert t[..|t|] + [ch] + t[|t|..] == t + [ch];
    } else {
      fs := Overwrite(c, es, s, t, ch, c.ins + c.del + 1);
    }
    ThenEdit(c, fs, Delete(|t|), s, t + [ch]);
    assert (t + [ch])[..|t|] + (t + [ch])[|t| + 1..] == t;
    fs := fs + [Delete(|t|)];
  }

  ghost predicate Cheapest<T(!new)>(c: Costs, es: seq<Edit<T>>, s: seq<T>, t: seq<T>) {
    Transforms(es, s, t) && forall fs: seq<Edit<T>> :: Transforms(fs, s, t) ==> Total(c, es) <= Total(c, fs)
  }

  /** Given any character to make a detour with, there is a cheapest script at all if and only if
      detours earn nothing. */
  lemma CheapestScriptIff<T(!new)>(c: Costs, s: seq<T>, t: seq<T>, ch: T)
    ensures (exists es: seq<Edit<T>> :: Cheapest(c, es, s, t)) <==> c.NoGain()
  {
    if c.NoGain() {
      DistanceIsCheapestScript(c, s, t);
      var es: seq<Edit<T>> :| Transforms(es, s, t) && Total(c, es) == Price(c, s, t);
      assert Cheapest(c, es, s, t);
    } else if es: seq<Edit<T>> :| Cheapest(c, es, s, t) {
      var fs := DetourIsCheaper(c, es, s, t, ch);
    }
  }
}
