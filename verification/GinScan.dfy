/** The GIN operator class for ordered types, contrib/btree_gin/btree_gin.cpp, and the forward
    scan over the index's sorted keys that it steers (collectMatchBitmap).
 */
module GinScan {
  import opened Gist

  datatype Strategy = Less | LessEqual | Equal | GreaterEqual | Greater | Unknown

  datatype Result<T> = Ok(value: T) | UnrecognizedStrategy

  /** What extract_query hands on to compare_prefix. */
  datatype QueryInfo<T> = QueryInfo(strategy: Strategy, datum: T)

  /** The entry to start from, and whether the scan goes on from there. */
  datatype Extracted<T> = Extracted(entry: T, partialMatch: bool, info: QueryInfo<T>)

  /** TypeInfo: the comparison function, and the value to start from when everything below a
      bound is wanted. */
  datatype TypeInfo<!T(!new)> = TypeInfo(cmp: (T, T) -> int, leftmost: T) {
    ghost predicate Comparator() {
      && (forall a, b :: cmp(a, b) == 0 <==> a == b)
      && (forall a, b :: cmp(a, b) < 0 <==> cmp(b, a) > 0)
      && (forall a, b, c :: cmp(a, b) <= 0 && cmp(b, c) <= 0 ==> cmp(a, c) <= 0)
    }

    /** The keys of the index, in order and without repetition. */
    ghost predicate Sorted(keys: seq<T>) {
      forall i, j :: 0 <= i < j < |keys| ==> cmp(keys[i], keys[j]) < 0
    }

    predicate Matches(k: T, s: Strategy, query: T) {
      match s
      case Less => cmp(k, query) < 0
      case LessEqual => cmp(k, query) <= 0
      case Equal => cmp(k, query) == 0
      case GreaterEqual => cmp(k, query) >= 0
      case Greater => cmp(k, query) > 0
      case Unknown => false
    }
  }

  predicate FromLeft(s: Strategy) {
    s == Less || s == LessEqual
  }

  /** GIN_EXTRACT_QUERY */
  method ExtractQuery<T(!new)>(ti: TypeInfo<T>, datum: T, strategy: Strategy) returns (r: Result<Extracted<T>>)
    ensures r.UnrecognizedStrategy? <==> strategy.Unknown?
    ensures r.Ok? ==> r.value.info == QueryInfo(strategy, datum)
    ensures r.Ok? ==> r.value.entry == if FromLeft(strategy) then ti.leftmost else datum
    ensures r.Ok? ==> (r.value.partialMatch <==> !strategy.Equal?)
  {
    var partialMatch := false;
    var data := QueryInfo(strategy, datum);
    var entry;
    match strategy {
      case Less =>
        entry := ti.leftmost;
        partialMatch := true;
      case LessEqual =>
        entry := ti.leftmost;
        partialMatch := true;
      case GreaterEqual =>
        partialMatch := true;
        entry := datum;
      case Greater =>
        partialMatch := true;
        entry := datum;
      case Equal =>
        entry := datum;
      case Unknown =>
        return UnrecognizedStrategy;
    }
    r := Ok(Extracted(entry, partialMatch, data));
  }

  /** GIN_COMPARE_PREFIX: 0 for a match, negative to go on, positive to stop. */
  function ComparePrefix<T(!new)>(ti: TypeInfo<T>, a: T, b: T, data: QueryInfo<T>): int
    requires !data.strategy.Unknown?
  {
    var cmp := ti.cmp(if FromLeft(data.strategy) then data.datum else a, b);
    match data.strategy
    case Less => if cmp > 0 then 0 else 1
    case LessEqual => if cmp >= 0 then 0 else 1
    case Equal => if cmp != 0 then 1 else 0
    case GreaterEqual => if cmp <= 0 then 0 else 1
    case Greater => if cmp < 0 then 0 else if cmp == 0 then -1 else 1
  }

  /** The keys a scan can return: those from the left end on, if it starts there. */
  predicate Returned<T(!new)>(ti: TypeInfo<T>, k: T, s: Strategy, query: T) {
    ti.Matches(k, s, query) && (FromLeft(s) ==> ti.cmp(ti.leftmost, k) <= 0)
  }

  method FirstNotBelow<T(!new)>(ti: TypeInfo<T>, keys: seq<T>, entry: T) returns (i: nat)
    ensures i <= |keys| && (forall k :: 0 <= k < i ==> ti.cmp(entry, keys[k]) > 0)
    ensures i < |keys| ==> ti.cmp(entry, keys[i]) <= 0
  {
    i := 0;
    while i < |keys| && ti.cmp(entry, keys[i]) > 0
      invariant i <= |keys| && forall k :: 0 <= k < i ==> ti.cmp(entry, keys[k]) > 0
    {
      i := i + 1;
    }
  }

  lemma {:induction false} FilterOnly<T>(a: seq<T>, i: nat, f: T -> bool)
    requires i <= |a| && forall k :: i <= k < |a| ==> !f(a[k])
    ensures Filter(a, f) == Filter(a[..i], f)
  {
    assert a == a[..i] + a[i..];
    FilterAppend(a[..i], a[i..], f);
    FilterNone(a[i..], f);
  }

  lemma FilterNext<T>(a: seq<T>, i: nat, f: T -> bool)
    requires i < |a|
    ensures Filter(a[..i + 1], f) == Filter(a[..i], f) + if f(a[i]) then [a[i]] else []
  {
    assert a[..i + 1] == a[..i] + [a[i]];
    FilterAppend(a[..i], [a[i]], f);
    assert [a[i]][1..] == [];
  }

  lemma FilterAtMostOne<T>(a: seq<T>, i: nat, f: T -> bool)
    requires i <= |a| && forall k :: 0 <= k < |a| && k != i ==> !f(a[k])
    ensures Filter(a, f) == if i < |a| && f(a[i]) then [a[i]] else []
  {
    FilterNone(a[..i], f);
    if i < |a| {
      FilterNext(a, i, f);
      FilterOnly(a, i + 1, f);
    } else {
      assert a[..i] == a;
    }
  }

  /** After the last key that can match, no later key does. */
  lemma NothingAfterStop<T(!new)>(ti: TypeInfo<T>, keys: seq<T>, x: Extracted<T>, i: nat, k: nat)
    requires ti.Comparator() && ti.Sorted(keys) && i <= k < |keys| && !x.info.strategy.Unknown?
    requires x.entry == if FromLeft(x.info.strategy) then ti.leftmost else x.info.datum
    requires ti.cmp(x.entry, keys[i]) <= 0 && ComparePrefix(ti, x.entry, keys[i], x.info) > 0
    ensures !Returned(ti, keys[k], x.info.strategy, x.info.datum)
  {
    assert i < k ==> ti.cmp(keys[i], keys[k]) < 0;
  }

  /** The partial-match scan from position start on. */
  method ScanForward<T(!new)>(ti: TypeInfo<T>, keys: seq<T>, x: Extracted<T>, start: nat) returns (out: seq<T>)
    requires ti.Comparator() && ti.Sorted(keys) && start <= |keys| && !x.info.strategy.Unknown?
    requires x.entry == if FromLeft(x.info.strategy) then ti.leftmost else x.info.datum
    requires forall k :: 0 <= k < start ==> !Returned(ti, keys[k], x.info.strategy, x.info.datum)
    requires forall k :: start <= k < |keys| ==> ti.cmp(x.entry, keys[k]) <= 0
    ensures out == Filter(keys, k => Returned(ti, k, x.info.strategy, x.info.datum))
  {
    ghost var f := (k: T) => Returned(ti, k, x.info.strategy, x.info.datum);
    FilterNone(keys[..start], f);
    out := [];
    var i := start;
    while i < |keys|
      invariant start <= i <= |keys| && out == Filter(keys[..i], f)
    {
      var cmp := ComparePrefix(ti, x.entry, keys[i], x.info);
      if cmp > 0 {
        forall k | i <= k < |keys| ensures !f(keys[k]) { NothingAfterStop(ti, keys, x, i, k); }
        FilterOnly(keys, i, f);
        return;
      }
      FilterNext(keys, i, f);
      if cmp == 0 {
        out := out + [keys[i]];
      }
      i := i + 1;
    }
    assert keys[..i] == keys;
  }

  /** A whole index search: extract, find the starting point, scan. */
  method Search<T(!new)>(ti: TypeInfo<T>, keys: seq<T>, datum: T, strategy: Strategy) returns (r: Result<seq<T>>)
    requires ti.Comparator() && ti.Sorted(keys)
    ensures r.UnrecognizedStrategy? <==> strategy.Unknown?
    ensures r.Ok? ==> r.value == Filter(keys, k => Returned(ti, k, strategy, datum))
  {
    var e := ExtractQuery(ti, datum, strategy);
    if e.UnrecognizedStrategy? {
      return UnrecognizedStrategy;
    }
    var x := e.value;
    var i := FirstNotBelow(ti, keys, x.entry);
    forall k | i <= k < |keys| ensures ti.cmp(x.entry, keys[k]) <= 0 {
      assert i < k ==> ti.cmp(keys[i], keys[k]) < 0;
    }
    if x.partialMatch {
      var out := ScanForward(ti, keys, x, i);
      return Ok(out);
    }
    ghost var f := (k: T) => Returned(ti, k, strategy, datum);
    forall k | 0 <= k < |keys| && k != i ensures !f(keys[k]) {
      assert k < i ==> ti.cmp(x.entry, keys[k]) > 0;
      assert i < k ==> ti.cmp(keys[i], keys[k]) < 0;
    }
    FilterAtMostOne(keys, i, f);
    if i < |keys| {
      return Ok(if ti.cmp(x.entry, keys[i]) == 0 then [keys[i]] else []);
    }
    return Ok([]);
  }

  // ----- when that is what was asked for -----

  lemma {:induction false} FilterSameIff<T>(a: seq<T>, f: T -> bool, g: T -> bool)
    requires forall v :: v in a && f(v) ==> g(v)
    ensures Filter(a, f) == Filter(a, g) <==> forall v :: v in a && g(v) ==> f(v)
    ensures |Filter(a, f)| <= |Filter(a, g)|
  {
    if a != [] {
      FilterSameIff(a[1..], f, g);
      assert a == [a[0]] + a[1..];
      var fs, gs := Filter(a[1..], f), Filter(a[1..], g);
      if f(a[0]) {
        assert ([a[0]] + fs)[1..] == fs && ([a[0]] + gs)[1..] == gs;
      } else if g(a[0]) {
        assert |Filter(a, f)| < |Filter(a, g)|;
      } else {
        assert Filter(a, f) == fs && Filter(a, g) == gs;
      }
    }
  }

  /** A search returns exactly the keys that satisfy the operator if and only if no such key is
      below the type's leftmost value when the search starts there. */
  lemma ExactIff<T(!new)>(ti: TypeInfo<T>, keys: seq<T>, datum: T, strategy: Strategy)
    requires ti.Comparator()
    ensures Filter(keys, k => Returned(ti, k, strategy, datum)) == Filter(keys, k => ti.Matches(k, strategy, datum))
       <==> FromLeft(strategy) ==>
              forall k :: k in keys && ti.cmp(k, ti.leftmost) < 0 ==> !ti.Matches(k, strategy, datum)
  {
    FilterSameIff(keys, k => Returned(ti, k, strategy, datum), k => ti.Matches(k, strategy, datum));
  }

  // ----- bigint, and money, which has the same leftmost value -----

  const SEQ_MINVALUE := -0x7fff_ffff_ffff_ffff

  function IntCmp(a: int, b: int): int { if a < b then -1 else if a == b then 0 else 1 }

  const INT8: TypeInfo<int> := TypeInfo(IntCmp, SEQ_MINVALUE)

  /** The leftmost value of type int8 is one above the least value of the type, so exactly a
      search from the left in an index with that least value misses it. */
  lemma Int8MissesLeast(keys: seq<int>, datum: int, strategy: Strategy)
    requires forall k :: k in keys ==> -0x8000_0000_0000_0000 <= k < 0x8000_0000_0000_0000
    ensures Filter(keys, k => Returned(INT8, k, strategy, datum)) == Filter(keys, k => INT8.Matches(k, strategy, datum))
       <==> !(&& FromLeft(strategy) && -0x8000_0000_0000_0000 in keys
              && INT8.Matches(-0x8000_0000_0000_0000, strategy, datum))
  {
    ExactIff(INT8, keys, datum, strategy);
  }

  // ----- "char" -----

  /** A C char, where char is signed. */
  type schar = x: int | -128 <= x < 128

  function Unsigned(c: schar): int { if c < 0 then c + 256 else c }

  /** btcharcmp */
  function CharCmp(a: schar, b: schar): int { Unsigned(a) - Unsigned(b) }

  const SCHAR_MIN: schar := -128

  const CHAR: TypeInfo<schar> := TypeInfo(CharCmp, SCHAR_MIN)

  /** The leftmost value of "char" is the least signed one, but the comparison is unsigned and
      puts it in the middle: exactly a search from the left misses keys, namely all matching
      ones from 0 to 127. */
  lemma CharMissesLowerHalf(keys: seq<schar>, datum: schar, strategy: Strategy)
    ensures CHAR.Comparator()
    ensures Filter(keys, k => Returned(CHAR, k, strategy, datum)) == Filter(keys, k => CHAR.Matches(k, strategy, datum))
       <==> !(FromLeft(strategy) && exists k :: k in keys && 0 <= k && CHAR.Matches(k, strategy, datum))
  {
    ExactIff(CHAR, keys, datum, strategy);
    forall k: schar ensures CHAR.cmp(k, CHAR.leftmost) < 0 <==> 0 <= k {
    }
  }

  // ----- numeric -----

  /** A numeric value, or the null pointer that stands for a value below all others. */
  datatype Numeric<T> = Leftmost | Value(v: T)

  /** gin_numeric_cmp, over the comparison function of the type itself */
  function NumericCmp<T(!new)>(cmp: (T, T) -> int, a: Numeric<T>, b: Numeric<T>): int {
    if a.Leftmost? then (if b.Leftmost? then 0 else -1)
    else if b.Leftmost? then 1
    else cmp(a.v, b.v)
  }

  function NumericInfo<T(!new)>(cmp: (T, T) -> int): TypeInfo<Numeric<T>> {
    TypeInfo((a, b) => NumericCmp(cmp, a, b), Leftmost)
  }

  /** The sentinel extends the order downwards, so every search is exact. */
  lemma NumericIsExact<T(!new)>(ti: TypeInfo<T>, keys: seq<Numeric<T>>, datum: Numeric<T>, strategy: Strategy)
    requires ti.Comparator()
    ensures var n := NumericInfo(ti.cmp);
            && n.Comparator()
            && Filter(keys, k => Returned(n, k, strategy, datum)) == Filter(keys, k => n.Matches(k, strategy, datum))
  {
    var n := NumericInfo(ti.cmp);
    assert n.Comparator();
    ExactIff(n, keys, datum, strategy);
  }
}
