/** The GiST operator class for variable-length keys, contrib/btree_gist/btree_utils_var.cpp,
    as instantiated for bytea: byte-lexicographic order, keys truncated, no conversion of
    leaf keys.

    A page's key is a lower and an upper bound cut down to a few bytes. A cut lower bound
    is still a lower bound. A cut upper bound need not be an upper bound any more; the
    consistent method makes up for that by also accepting queries of which a bound is a
    prefix.
 */
module VarGist {
  import opened ByteOrder
  import opened Gist
  import opened BTreeStrategy

  datatype Range = Range(lower: Bytes, upper: Bytes)

  type VarKey = k: Range | Le(k.lower, k.upper) witness Range([], [])

  // ----- the key operations -----

  function LeafKey(x: Bytes): VarKey {
    Total(x, x);
    Range(x, x)
  }

  /** gbt_var_bin_union with a key already there */
  function BinUnion(u: VarKey, e: VarKey): (r: VarKey)
    ensures Le(r.lower, u.lower) && Le(r.lower, e.lower) && r.lower in {u.lower, e.lower}
    ensures Le(u.upper, r.upper) && Le(e.upper, r.upper) && r.upper in {u.upper, e.upper}
  {
    Total(u.lower, e.lower);
    Total(u.upper, e.upper);
    Total(u.lower, u.lower);
    Total(u.upper, u.upper);
    Total(e.lower, e.lower);
    Total(e.upper, e.upper);
    var lower := if Cmp(u.lower, e.lower) > 0 then e.lower else u.lower;
    var upper := if Cmp(u.upper, e.upper) < 0 then e.upper else u.upper;
    Transitive(lower, u.lower, u.upper);
    Transitive(lower, u.upper, upper);
    Range(lower, upper)
  }

  function Cut(x: Bytes, n: nat): (r: Bytes)
    ensures r <= x && |r| <= n && (|x| <= n ==> r == x) && (|x| > n ==> |r| == n)
  {
    if |x| <= n then x else x[..n]
  }

  lemma CutKeepsOrder(a: Bytes, b: Bytes, n: nat)
    requires Le(a, b)
    ensures Le(Cut(a, n), Cut(b, n))
  {
    var k := Cp(a, b);
    SameBytes(a, b, k);
    CpIs(Cut(a, n), Cut(b, n), if k < n then k else n);
  }

  /** gbt_var_node_truncate */
  function Truncate(k: VarKey, cpf: nat): VarKey {
    CutKeepsOrder(k.lower, k.upper, cpf + 1);
    Range(Cut(k.lower, cpf + 1), Cut(k.upper, cpf + 1))
  }

  /** The range from the least lower bound to the greatest upper bound. */
  function Hull(first: VarKey, rest: seq<VarKey>): VarKey
    decreases |rest|
  {
    if rest == [] then first else Hull(BinUnion(first, rest[0]), rest[1..])
  }

  function Union(first: VarKey, rest: seq<VarKey>): VarKey {
    var h := Hull(first, rest);
    Truncate(h, Cp(h.lower, h.upper) + 1)
  }

  /** gbt_var_node_cp_len, for single-byte comparison */
  method NodeCpLen(k: VarKey) returns (i: nat)
    ensures i == Cp(k.lower, k.upper)
  {
    i := 0;
    var ml := if |k.lower| < |k.upper| then |k.lower| else |k.upper|;
    if ml == 0 {
      return;
    }
    while i < ml
      invariant i <= ml && k.lower[..i] == k.upper[..i]
    {
      if k.lower[i] != k.upper[i] {
        CpIs(k.lower, k.upper, i);
        return;
      }
      i := i + 1;
    }
    CpIs(k.lower, k.upper, ml);
  }

  /** gbt_var_union */
  method VarUnion(entries: seq<VarKey>) returns (out: VarKey)
    requires entries != []
    ensures out == Union(entries[0], entries[1..])
  {
    out := entries[0];
    for i := 1 to |entries|
      invariant Hull(entries[0], entries[1..]) == Hull(out, entries[i..])
    {
      assert entries[i..][1..] == entries[i + 1..];
      out := BinUnion(out, entries[i]);
    }
    var plen := NodeCpLen(out);
    out := Truncate(out, plen + 1);
  }

  // ----- what a key means -----

  /** Keys whose upper bound may have been cut: it is long enough to tell it from the lower. */
  predicate Cuttable(k: VarKey) {
    k.lower != k.upper && |k.upper| >= Cp(k.lower, k.upper) + 2
  }

  /** Value x may lie below a page with key k. */
  predicate Covers(k: VarKey, x: Bytes) {
    Le(k.lower, x) && (Le(x, k.upper) || (k.upper <= x && Cuttable(k)))
  }

  lemma {:induction false} HullBounds(first: VarKey, rest: seq<VarKey>, e: VarKey)
    requires e in [first] + rest
    ensures var h := Hull(first, rest); Le(h.lower, e.lower) && Le(e.upper, h.upper)
    decreases |rest|
  {
    Total(e.lower, e.lower);
    Total(e.upper, e.upper);
    if rest != [] {
      var b := BinUnion(first, rest[0]);
      if e in rest[1..] {
        HullBounds(b, rest[1..], e);
      } else {
        HullBounds(b, rest[1..], b);
        var h := Hull(first, rest);
        Transitive(h.lower, b.lower, e.lower);
        Transitive(e.upper, b.upper, h.upper);
      }
    }
  }

  /** Both ends of the hull are those of members. */
  lemma {:induction false} HullAttained(first: VarKey, rest: seq<VarKey>)
    ensures exists e :: e in [first] + rest && e.lower == Hull(first, rest).lower
    ensures exists e :: e in [first] + rest && e.upper == Hull(first, rest).upper
    decreases |rest|
  {
    var ks := [first] + rest;
    assert first in ks;
    if rest != [] {
      var b := BinUnion(first, rest[0]);
      HullAttained(b, rest[1..]);
      var l :| l in [b] + rest[1..] && l.lower == Hull(first, rest).lower;
      var u :| u in [b] + rest[1..] && u.upper == Hull(first, rest).upper;
      assert rest[0] in ks && (l != b ==> l in ks) && (u != b ==> u in ks);
    }
  }

  /** Cutting two bounds to at least two bytes beyond their common prefix keeps that prefix
      and the difference. */
  lemma CutKeepsCp(a: Bytes, b: Bytes, n: nat)
    requires n >= Cp(a, b) + 1
    ensures Cp(Cut(a, n), Cut(b, n)) == Cp(a, b)
    ensures a != b ==> Cut(a, n) != Cut(b, n)
  {
    var k := Cp(a, b);
    SameBytes(a, b, k);
    CpIs(Cut(a, n), Cut(b, n), k);
    if k == |a| == |b| { assert a == b; }
  }

  /** The common prefix of an enclosing range is no longer. */
  lemma WiderIsShorter(lo: Bytes, a: Bytes, b: Bytes, hi: Bytes)
    requires Le(lo, a) && Le(a, b) && Le(b, hi)
    ensures Cp(lo, hi) <= Cp(a, b)
  {
    var k := Cp(lo, hi);
    var p := lo[..k];
    Transitive(a, b, hi);
    Transitive(lo, a, b);
    Sandwich(lo, a, hi, p);
    Sandwich(lo, b, hi, p);
    CpAtLeast(a, b, k);
  }

  lemma CutIsCuttable(h: VarKey, n: nat)
    requires n >= Cp(h.lower, h.upper) + 1 && |h.upper| > n
    ensures Cuttable(Truncate(h, n))
  {
    CutKeepsCp(h.lower, h.upper, n + 1);
    CpIs(h.upper, h.upper, |h.upper|);
  }

  /** A value within the hull is covered by any sufficiently long cut of it. */
  lemma WithinCoveredByCut(h: VarKey, x: Bytes, n: nat)
    requires n >= Cp(h.lower, h.upper) + 1
    requires Le(h.lower, x) && Le(x, h.upper)
    ensures Covers(Truncate(h, n), x)
  {
    var k := Truncate(h, n);
    PrefixLe(k.lower, h.lower);
    Transitive(k.lower, h.lower, x);
    Total(x, k.upper);
    if !Le(x, k.upper) {
      Extension(k.upper, h.upper, x);
      CutIsCuttable(h, n);
    }
  }

  /** A value beyond a cut upper bound stays covered when the enclosing range is cut to two
      bytes beyond its own common prefix. */
  lemma BeyondCoveredByCut(h: VarKey, e: VarKey, x: Bytes)
    requires Le(h.lower, e.lower) && Le(e.upper, h.upper)
    requires Le(e.lower, x) && e.upper <= x && Cuttable(e)
    ensures Covers(Truncate(h, Cp(h.lower, h.upper) + 1), x)
  {
    var cp := Cp(h.lower, h.upper);
    Transitive(h.lower, e.lower, x);
    if e.upper <= h.upper {
      WiderIsShorter(h.lower, e.lower, e.upper, h.upper);
      DifferentBounds(h, e);
      BeyondOwnCut(h, x, e.upper);
    } else {
      Extension(e.upper, x, h.upper);
      WithinCoveredByCut(h, x, cp + 1);
    }
  }

  lemma CutWithin(a: Bytes, p: Bytes, n: nat)
    requires p <= a && |p| >= n
    ensures Cut(a, n) <= p && |Cut(a, n)| == n
  {
  }

  lemma BeyondOwnCut(h: VarKey, x: Bytes, p: Bytes)
    requires h.lower != h.upper && Le(h.lower, x)
    requires p <= h.upper && p <= x && |p| >= Cp(h.lower, h.upper) + 2
    ensures Covers(Truncate(h, Cp(h.lower, h.upper) + 1), x)
  {
    var cp := Cp(h.lower, h.upper);
    var u := Cut(h.upper, cp + 2);
    CutWithin(h.upper, p, cp + 2);
    CutKeepsCp(h.lower, h.upper, cp + 2);
    PrefixLe(Cut(h.lower, cp + 2), h.lower);
    Transitive(Cut(h.lower, cp + 2), h.lower, x);
  }

  lemma DifferentBounds(h: VarKey, e: VarKey)
    requires Le(h.lower, e.lower) && Le(e.upper, h.upper) && e.lower != e.upper
    ensures h.lower != h.upper
  {
    if h.lower == h.upper {
      Transitive(h.lower, e.lower, e.upper);
      Transitive(e.lower, e.upper, h.upper);
      Total(h.lower, e.lower);
      Total(h.upper, e.upper);
    }
  }

  /** An enclosing range, cut behind its common prefix, covers whatever a key within it covers. */
  lemma CutCovers(h: VarKey, e: VarKey, x: Bytes)
    requires Le(h.lower, e.lower) && Le(e.upper, h.upper) && Covers(e, x)
    ensures Covers(Truncate(h, Cp(h.lower, h.upper) + 1), x)
  {
    if Le(x, e.upper) {
      Transitive(h.lower, e.lower, x);
      Transitive(x, e.upper, h.upper);
      WithinCoveredByCut(h, x, Cp(h.lower, h.upper) + 1);
    } else {
      BeyondCoveredByCut(h, e, x);
    }
  }

  /** The union covers whatever one of its members covers, cut or not. */
  lemma UnionCovers(first: VarKey, rest: seq<VarKey>, e: VarKey, x: Bytes)
    requires e in [first] + rest && Covers(e, x)
    ensures Covers(Union(first, rest), x)
  {
    HullBounds(first, rest, e);
    CutCovers(Hull(first, rest), e, x);
  }

  // ----- the consistent method -----

  /** The operator a strategy number stands for: x op query. */
  predicate Matches(s: Strategy, x: Bytes, query: Bytes) {
    match s
    case Less => Cmp(query, x) > 0
    case LessEqual => Cmp(query, x) >= 0
    case Equal => x == query
    case GreaterEqual => Cmp(query, x) <= 0
    case Greater => Cmp(query, x) < 0
    case NotEqual => x != query
    case Unknown => false
  }

  /** gbt_bytea_pf_match */
  predicate PrefixMatch(pf: Bytes, query: Bytes) {
    |pf| <= |query| && query[..|pf|] == pf
  }

  /** gbt_var_node_pf_match */
  predicate NodePrefixMatch(k: VarKey, query: Bytes) {
    PrefixMatch(k.lower, query) || PrefixMatch(k.upper, query)
  }

  /** gbt_var_consistent on the key of a page */
  predicate PageConsistent(k: VarKey, s: Strategy, query: Bytes) {
    match s
    case LessEqual => Cmp(query, k.lower) >= 0 || NodePrefixMatch(k, query)
    case Less => Cmp(query, k.lower) >= 0 || NodePrefixMatch(k, query)
    case Equal => (Cmp(k.lower, query) <= 0 && Cmp(query, k.upper) <= 0) || NodePrefixMatch(k, query)
    case Greater => Cmp(query, k.upper) <= 0 || NodePrefixMatch(k, query)
    case GreaterEqual => Cmp(query, k.upper) <= 0 || NodePrefixMatch(k, query)
    case NotEqual => !(query == k.lower && query == k.upper)
    case Unknown => false
  }

  /** gbt_var_consistent on a leaf key, whose bounds are both the row's value */
  predicate LeafConsistent(k: VarKey, s: Strategy, query: Bytes) {
    match s
    case LessEqual => Cmp(query, k.lower) >= 0
    case Less => Cmp(query, k.lower) > 0
    case Equal => query == k.lower
    case Greater => Cmp(query, k.upper) < 0
    case GreaterEqual => Cmp(query, k.upper) <= 0
    case NotEqual => !(query == k.lower && query == k.upper)
    case Unknown => false
  }

  lemma CmpFlips(a: Bytes, b: Bytes)
    ensures Cmp(a, b) == -Cmp(b, a) && (Cmp(a, b) == 0 <==> a == b)
  {
    CpCommutes(a, b);
    Total(a, b);
  }

  /** No matching row is below a page whose key is rejected. */
  lemma ConsistentNeverPrunes(k: VarKey, s: Strategy, query: Bytes, x: Bytes)
    requires Covers(k, x) && Matches(s, x, query)
    ensures PageConsistent(k, s, query)
  {
    CmpFlips(query, x);
    CmpFlips(query, k.lower);
    CmpFlips(query, k.upper);
    match s
    case Less => Transitive(k.lower, x, query);
    case LessEqual => Transitive(k.lower, x, query);
    case Greater => UpperNeverPrunes(k, query, x);
    case GreaterEqual => UpperNeverPrunes(k, query, x);
    case Equal =>
    case NotEqual => Total(x, k.upper);
  }

  lemma UpperNeverPrunes(k: VarKey, query: Bytes, x: Bytes)
    requires Covers(k, x) && Le(query, x)
    ensures Cmp(query, k.upper) <= 0 || NodePrefixMatch(k, query)
  {
    if Le(x, k.upper) {
      Transitive(query, x, k.upper);
    } else {
      Total(query, k.upper);
      Extension(k.upper, x, query);
    }
  }

  /** A value a page's key does not exclude: not below the lower bound, and not above the upper
      one unless it extends one of the bounds. */
  predicate Admits(k: VarKey, x: Bytes) {
    Le(k.lower, x) && (Le(x, k.upper) || k.lower <= x || k.upper <= x)
  }

  lemma AdmitsBounds(k: VarKey, query: Bytes)
    ensures Admits(k, k.lower) && Admits(k, k.upper)
    ensures NodePrefixMatch(k, query) ==> Admits(k, query)
  {
    Total(k.lower, k.lower);
    Total(k.upper, k.upper);
    if k.upper <= query {
      PrefixLe(k.upper, query);
      Transitive(k.lower, k.upper, query);
    }
    if k.lower <= query { PrefixLe(k.lower, query); }
  }

  lemma FollowedAbove(k: VarKey, query: Bytes)
    ensures Cmp(query, k.upper) <= 0 || NodePrefixMatch(k, query) <==> exists x :: Admits(k, x) && Le(query, x)
  {
    AdmitsBounds(k, query);
    Total(query, query);
    if x :| Admits(k, x) && Le(query, x) {
      if Le(x, k.upper) {
        Transitive(query, x, k.upper);
      } else {
        ExtendsOrBelow(k, query, x);
      }
    }
  }

  lemma ExtendsOrBelow(k: VarKey, query: Bytes, x: Bytes)
    requires Le(query, x) && (k.lower <= x || k.upper <= x)
    ensures Cmp(query, k.upper) <= 0 || NodePrefixMatch(k, query)
  {
    Total(query, k.upper);
    Total(query, k.lower);
    if k.upper <= x {
      Extension(k.upper, x, query);
    } else {
      if Le(query, k.lower) { Transitive(query, k.lower, k.upper); }
      Extension(k.lower, x, query);
    }
  }

  lemma FollowedBelow(k: VarKey, query: Bytes)
    ensures Cmp(query, k.lower) >= 0 || NodePrefixMatch(k, query) <==> exists x :: Admits(k, x) && Le(x, query)
  {
    AdmitsBounds(k, query);
    CmpFlips(query, k.lower);
    Total(query, query);
    if x :| Admits(k, x) && Le(x, query) { Transitive(k.lower, x, query); }
  }

  /** A page is followed if and only if its key admits a value that satisfies the operator, taken
      loosely; for not-equal, if and only if some value within the bounds does. */
  lemma FollowedIff(k: VarKey, s: Strategy, query: Bytes)
    ensures s != NotEqual ==>
              (PageConsistent(k, s, query) <==> exists x :: Admits(k, x) && Matches(Loosely(s), x, query))
    ensures PageConsistent(k, NotEqual, query) <==> exists x :: Le(k.lower, x) && Le(x, k.upper) && x != query
  {
    forall x ensures Cmp(query, x) == -Cmp(x, query) { CmpFlips(query, x); }
    FollowedAbove(k, query);
    FollowedBelow(k, query);
    AdmitsBounds(k, query);
    NotEqualFollowed(k, query);
    match s {
      case Less => SameFor(k, query, LessEqual);
      case LessEqual => SameFor(k, query, LessEqual);
      case Greater => SameFor(k, query, GreaterEqual);
      case GreaterEqual => SameFor(k, query, GreaterEqual);
      case Equal =>
        CmpFlips(k.lower, query);
        assert PageConsistent(k, Equal, query) <==> Admits(k, query);
        assert Matches(Equal, query, query);
      case _ =>
    }
  }

  lemma SameFor(k: VarKey, query: Bytes, s: Strategy)
    requires s in {LessEqual, GreaterEqual}
    ensures (exists x :: Admits(k, x) && Matches(s, x, query))
       <==> exists x :: Admits(k, x) && if s == LessEqual then Le(x, query) else Le(query, x)
  {
    forall x ensures Matches(s, x, query) <==> if s == LessEqual then Le(x, query) else Le(query, x) {
      CmpFlips(query, x);
    }
    if x :| Admits(k, x) && if s == LessEqual then Le(x, query) else Le(query, x) {
      assert Admits(k, x) && Matches(s, x, query);
    }
    if x :| Admits(k, x) && Matches(s, x, query) {
      assert Admits(k, x) && if s == LessEqual then Le(x, query) else Le(query, x);
    }
  }

  lemma NotEqualFollowed(k: VarKey, query: Bytes)
    ensures PageConsistent(k, NotEqual, query) <==> exists x :: Le(k.lower, x) && Le(x, k.upper) && x != query
  {
    Total(k.lower, k.lower);
    Total(k.upper, k.upper);
    if query == k.lower == k.upper {
      forall x | Le(k.lower, x) && Le(x, k.upper) ensures x == query { Total(x, query); }
    } else {
      assert k.lower != query || k.upper != query;
    }
  }

  /** A bound that the truncation has pulled below the values it stands for. */
  lemma UpperBoundCanBeTooSmall()
    ensures var k := Union(LeafKey([97, 97]), [LeafKey([97, 99, 122, 122])]);
            k.upper == [97, 99, 122] && !Le([97, 99, 122, 122], k.upper) && Covers(k, [97, 99, 122, 122])
  {
    var a, z := [97, 97], [97, 99, 122, 122];
    CpIs(a, z, 1);
    var zs := [LeafKey(z)];
    var h := BinUnion(LeafKey(a), LeafKey(z));
    assert Hull(LeafKey(a), zs) == Hull(h, zs[1..]) == h;
    CmpFlips(a, z);
    assert h.lower == a && h.upper == z;
    assert Cut(z, 3) == [97, 99, 122];
    CpIs(z, [97, 99, 122], 3);
    UnionCovers(LeafKey(a), zs, zs[0], z);
  }

  // ----- the operator class in the tree -----

  const BYTEA_OPS: OpClass<VarKey, Bytes> := OpClass(LeafKey, Union, Covers)

  lemma OpsSound()
    ensures BYTEA_OPS.Sound()
  {
    forall x: Bytes ensures Covers(LeafKey(x), x) { Total(x, x); }
    forall k: VarKey, ks: seq<VarKey>, x: Bytes | exists e :: e in [k] + ks && Covers(e, x)
      ensures Covers(Union(k, ks), x)
    {
      var e :| e in [k] + ks && Covers(e, x);
      UnionCovers(k, ks, e, x);
    }
  }

  /** Whatever a key may mean: where no matching row is below a page whose key is rejected, a
      search returns exactly the rows that satisfy the operator. */
  lemma SearchThrough(ts: seq<Tree<VarKey, Bytes>>, covers: (VarKey, Bytes) -> bool, s: Strategy, query: Bytes)
    requires Covered(ts, covers)
    requires forall k, x :: covers(k, x) && Matches(s, x, query) ==> PageConsistent(k, s, query)
    ensures Scan(ts, k => PageConsistent(k, s, query), x => LeafConsistent(LeafKey(x), s, query))
         == Filter(Leaves(ts), x => Matches(s, x, query))
  {
    var page := (k: VarKey) => PageConsistent(k, s, query);
    var leaf := (x: Bytes) => LeafConsistent(LeafKey(x), s, query);
    forall x: Bytes ensures leaf(x) == Matches(s, x, query) { LeafIsExact(x, s, query); }
    ScanIsFilter(ts, covers, page, leaf);
    FilterCongruence(Leaves(ts), leaf, x => Matches(s, x, query));
  }

  /** Searching any tree in which the keys cover what is below them returns exactly the rows
      that satisfy the operator. */
  lemma SearchCovered(ts: seq<Tree<VarKey, Bytes>>, s: Strategy, query: Bytes)
    requires Covered(ts, Covers)
    ensures Scan(ts, k => PageConsistent(k, s, query), x => LeafConsistent(LeafKey(x), s, query))
         == Filter(Leaves(ts), x => Matches(s, x, query))
  {
    forall k: VarKey, x: Bytes | Covers(k, x) && Matches(s, x, query) ensures PageConsistent(k, s, query) {
      ConsistentNeverPrunes(k, s, query, x);
    }
    SearchThrough(ts, Covers, s, query);
  }

  lemma LeafIsExact(x: Bytes, s: Strategy, query: Bytes)
    ensures LeafConsistent(LeafKey(x), s, query) <==> Matches(s, x, query)
  {
    CmpFlips(query, x);
  }
}
