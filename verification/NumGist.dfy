/** The GiST operator class for fixed-size keys, contrib/btree_gist/btree_utils_num.cpp, over
    any type with a total order and, for nearest-neighbour search, a distance that grows
    away from the query.
 */
module NumGist {
  import opened Gist
  import opened BTreeStrategy
  import opened Knn

  datatype NumKey<T> = NumKey(lower: T, upper: T)

  /** What gbtree_ninfo supplies for a type: f_le, from which the other comparisons follow,
      and f_dist. */
  datatype TypeInfo<!T(!new)> = TypeInfo(le: (T, T) -> bool, dist: (T, T) -> real) {
    predicate Gt(a: T, b: T) { !le(a, b) }

    predicate Eq(a: T, b: T) { le(a, b) && le(b, a) }

    ghost predicate TotalOrder() {
      && (forall a, b :: le(a, b) || le(b, a))
      && (forall a, b, c :: le(a, b) && le(b, c) ==> le(a, c))
      && (forall a, b :: le(a, b) && le(b, a) ==> a == b)
    }

    /** Farther on the same side of the query is no nearer. */
    ghost predicate Metric() {
      && (forall q, a, b :: le(q, a) && le(a, b) ==> dist(q, a) <= dist(q, b))
      && (forall q, a, b :: le(a, b) && le(b, q) ==> dist(q, b) <= dist(q, a))
      && (forall q, a :: 0.0 <= dist(q, a))
    }
  }

  // ----- the key operations -----

  function BinUnion<T(!new)>(u: NumKey<T>, e: NumKey<T>, o: TypeInfo<T>): NumKey<T> {
    NumKey(if o.Gt(u.lower, e.lower) then e.lower else u.lower, if o.Gt(e.upper, u.upper) then e.upper else u.upper)
  }

  function Hull<T(!new)>(first: NumKey<T>, rest: seq<NumKey<T>>, o: TypeInfo<T>): NumKey<T>
    decreases |rest|
  {
    if rest == [] then first else Hull(BinUnion(first, rest[0], o), rest[1..], o)
  }

  /** gbt_num_union */
  method NumUnion<T(!new)>(entries: seq<NumKey<T>>, o: TypeInfo<T>) returns (out: NumKey<T>)
    requires entries != []
    ensures out == Hull(entries[0], entries[1..], o)
  {
    var lower, upper := entries[0].lower, entries[0].upper;
    for i := 1 to |entries|
      invariant Hull(entries[0], entries[1..], o) == Hull(NumKey(lower, upper), entries[i..], o)
    {
      assert entries[i..][1..] == entries[i + 1..];
      var cur := entries[i];
      if o.Gt(lower, cur.lower) {
        lower := cur.lower;
      }
      if o.Gt(cur.upper, upper) {
        upper := cur.upper;
      }
    }
    out := NumKey(lower, upper);
  }

  predicate Within<T(!new)>(e: NumKey<T>, k: NumKey<T>, o: TypeInfo<T>) {
    o.le(k.lower, e.lower) && o.le(e.upper, k.upper)
  }

  /** k is the smallest range that contains all of ks. */
  ghost predicate Tightest<T(!new)>(k: NumKey<T>, ks: seq<NumKey<T>>, o: TypeInfo<T>) {
    && (forall e :: e in ks ==> Within(e, k, o))
    && (exists e :: e in ks && e.lower == k.lower)
    && (exists e :: e in ks && e.upper == k.upper)
  }

  lemma {:induction false} HullIsTightest<T(!new)>(first: NumKey<T>, rest: seq<NumKey<T>>, o: TypeInfo<T>)
    requires o.TotalOrder()
    ensures Tightest(Hull(first, rest, o), [first] + rest, o)
    decreases |rest|
  {
    var ks := [first] + rest;
    if rest == [] {
      assert first in ks;
    } else {
      var b := BinUnion(first, rest[0], o);
      var h := Hull(b, rest[1..], o);
      HullIsTightest(b, rest[1..], o);
      assert b in [b] + rest[1..];
      assert first in ks && rest[0] in ks;
      forall e | e in ks ensures Within(e, h, o) {
        if e != first && e != rest[0] { assert e in [b] + rest[1..]; }
      }
      var l :| l in [b] + rest[1..] && l.lower == h.lower;
      var u :| u in [b] + rest[1..] && u.upper == h.upper;
      assert l != b ==> l in ks;
      assert u != b ==> u in ks;
    }
  }

  // ----- searching -----

  /** The operator a strategy number stands for: x op query. */
  predicate Matches<T(!new)>(s: Strategy, x: T, query: T, o: TypeInfo<T>) {
    match s
    case Less => !o.le(query, x)
    case LessEqual => o.le(x, query)
    case Equal => o.Eq(x, query)
    case GreaterEqual => o.le(query, x)
    case Greater => !o.le(x, query)
    case NotEqual => !o.Eq(x, query)
    case Unknown => false
  }

  /** gbt_num_consistent */
  predicate Consistent<T(!new)>(k: NumKey<T>, s: Strategy, query: T, isLeaf: bool, o: TypeInfo<T>) {
    match s
    case LessEqual => o.le(k.lower, query)
    case Less => if isLeaf then o.Gt(query, k.lower) else o.le(k.lower, query)
    case Equal => if isLeaf then o.Eq(query, k.lower) else o.le(k.lower, query) && o.le(query, k.upper)
    case Greater => if isLeaf then o.Gt(k.upper, query) else o.le(query, k.upper)
    case GreaterEqual => o.le(query, k.upper)
    case NotEqual => !(o.Eq(query, k.lower) && o.Eq(query, k.upper))
    case Unknown => false
  }

  function LeafKey<T>(x: T): NumKey<T> {
    NumKey(x, x)
  }

  predicate Covers<T(!new)>(k: NumKey<T>, x: T, o: TypeInfo<T>) {
    Within(LeafKey(x), k, o)
  }

  function Ops<T(!new)>(o: TypeInfo<T>): OpClass<NumKey<T>, T> {
    OpClass((x: T) => LeafKey(x), (k: NumKey<T>, ks: seq<NumKey<T>>) => Hull(k, ks, o),
            (k: NumKey<T>, x: T) => Covers(k, x, o))
  }

  lemma OpsSound<T(!new)>(o: TypeInfo<T>)
    requires o.TotalOrder()
    ensures Ops(o).Sound()
  {
    forall k: NumKey<T>, ks: seq<NumKey<T>>, x: T | exists e :: e in [k] + ks && Covers(e, x, o)
      ensures Covers(Hull(k, ks, o), x, o)
    {
      var e :| e in [k] + ks && Covers(e, x, o);
      HullIsTightest(k, ks, o);
    }
  }

  lemma NeverPrunesRow<T(!new)>(k: NumKey<T>, s: Strategy, query: T, x: T, o: TypeInfo<T>)
    requires o.TotalOrder() && Covers(k, x, o) && Matches(s, x, query, o)
    ensures Consistent(k, s, query, false, o)
  {
  }

  /** A page is followed if and only if some value in its range satisfies that. */
  lemma FollowedIff<T(!new)>(k: NumKey<T>, s: Strategy, query: T, o: TypeInfo<T>)
    requires o.TotalOrder() && o.le(k.lower, k.upper)
    ensures Consistent(k, s, query, false, o) <==> exists x :: Covers(k, x, o) && Matches(Loosely(s), x, query, o)
  {
    assert Covers(k, k.lower, o) && Covers(k, k.upper, o);
    if Consistent(k, s, query, false, o) {
      match s
      case Less => assert Matches(LessEqual, k.lower, query, o);
      case LessEqual => assert Matches(LessEqual, k.lower, query, o);
      case Equal => assert Covers(k, query, o) && Matches(Equal, query, query, o);
      case GreaterEqual => assert Matches(GreaterEqual, k.upper, query, o);
      case Greater => assert Matches(GreaterEqual, k.upper, query, o);
      case NotEqual => assert Matches(NotEqual, k.lower, query, o) || Matches(NotEqual, k.upper, query, o);
    }
  }

  lemma LeafIsExact<T(!new)>(s: Strategy, query: T, x: T, o: TypeInfo<T>)
    requires o.TotalOrder()
    ensures Consistent(LeafKey(x), s, query, true, o) <==> Matches(s, x, query, o)
  {
  }

  /** Searching any tree in which the keys cover what is below them returns exactly the rows
      that satisfy the operator. */
  lemma SearchCovered<T(!new)>(ts: seq<Tree<NumKey<T>, T>>, s: Strategy, query: T, o: TypeInfo<T>)
    requires o.TotalOrder() && Covered(ts, Ops(o).covers)
    ensures Scan(ts, k => Consistent(k, s, query, false, o), x => Consistent(LeafKey(x), s, query, true, o))
         == Filter(Leaves(ts), x => Matches(s, x, query, o))
  {
    var page := (k: NumKey<T>) => Consistent(k, s, query, false, o);
    var leaf := (x: T) => Consistent(LeafKey(x), s, query, true, o);
    forall x: T ensures leaf(x) == Matches(s, x, query, o) { LeafIsExact(s, query, x, o); }
    forall k: NumKey<T>, x: T | Ops(o).covers(k, x) && leaf(x) ensures page(k) {
      NeverPrunesRow(k, s, query, x, o);
    }
    ScanIsFilter(ts, Ops(o).covers, page, leaf);
    FilterCongruence(Leaves(ts), leaf, x => Matches(s, x, query, o));
  }

  // ----- nearest neighbours -----

  /** gbt_num_distance */
  function Distance<T(!new)>(k: NumKey<T>, query: T, o: TypeInfo<T>): real {
    if o.le(query, k.lower) then o.dist(query, k.lower)
    else if o.le(k.upper, query) then o.dist(query, k.upper)
    else 0.0
  }

  /** A wider key is never farther away, and a row's key is as far away as the row. */
  lemma DistanceShrinks<T(!new)>(k: NumKey<T>, e: NumKey<T>, query: T, o: TypeInfo<T>)
    requires o.TotalOrder() && o.Metric() && Within(e, k, o) && o.le(e.lower, e.upper)
    ensures Distance(k, query, o) <= Distance(e, query, o)
  {
  }

  /** The distance of a key is that of the nearest value in its range. */
  lemma DistanceIsMinimum<T(!new)>(k: NumKey<T>, query: T, o: TypeInfo<T>)
    requires o.TotalOrder() && o.Metric() && o.dist(query, query) == 0.0 && o.le(k.lower, k.upper)
    ensures exists x :: Covers(k, x, o) && o.dist(query, x) == Distance(k, query, o)
    ensures forall x :: Covers(k, x, o) ==> Distance(k, query, o) <= o.dist(query, x)
  {
    var nearest := if o.le(query, k.lower) then k.lower else if o.le(k.upper, query) then k.upper else query;
    assert Covers(k, nearest, o) && o.dist(query, nearest) == Distance(k, query, o);
    forall x | Covers(k, x, o) ensures Distance(k, query, o) <= o.dist(query, x) {
      DistanceShrinks(k, LeafKey(x), query, o);
      LeafDistance(x, query, o);
    }
  }

  lemma LeafDistance<T(!new)>(x: T, query: T, o: TypeInfo<T>)
    requires o.TotalOrder()
    ensures Distance(LeafKey(x), query, o) == o.dist(query, x)
  {
  }

  function NumProbe<T(!new)>(s: Strategy, query: T, target: T, o: TypeInfo<T>): Probe<NumKey<T>, T> {
    Probe((k: NumKey<T>) => Consistent(k, s, query, false, o), (x: T) => Consistent(LeafKey(x), s, query, true, o),
          (k: NumKey<T>) => Distance(k, target, o), (x: T) => Distance(LeafKey(x), target, o))
  }

  /** A scan with a condition, ordered by the distance from a target: all matching rows,
      nearest first. */
  method NearestCovered<T(!new)>(ts: seq<Tree<NumKey<T>, T>>, s: Strategy, query: T, target: T, o: TypeInfo<T>)
    returns (out: seq<T>)
    requires o.TotalOrder() && o.Metric() && Covered(ts, Ops(o).covers)
    ensures multiset(out) == multiset(Filter(Leaves(ts), x => Matches(s, x, query, o)))
    ensures forall i, j :: 0 <= i < j < |out| ==> o.dist(target, out[i]) <= o.dist(target, out[j])
  {
    var p := NumProbe(s, query, target, o);
    forall x: T ensures p.leaf(x) == Matches(s, x, query, o) { LeafIsExact(s, query, x, o); }
    forall x: T ensures p.leafDist(x) == o.dist(target, x) { LeafDistance(x, target, o); }
    forall k: NumKey<T>, x: T | Ops(o).covers(k, x)
      ensures (p.leaf(x) ==> p.page(k)) && p.pageDist(k) <= p.leafDist(x)
    {
      if p.leaf(x) { NeverPrunesRow(k, s, query, x, o); }
      DistanceShrinks(k, LeafKey(x), target, o);
    }
    FilterCongruence(Leaves(ts), p.leaf, x => Matches(s, x, query, o));
    out := OrderedScan(ts, p, Ops(o).covers);
  }
}
