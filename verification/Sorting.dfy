/** A stand-in for qsort: some permutation of the input that is in order. Nothing else is
    known about it, in particular not how it treats entries that compare equal.
 */
module Sorting {
  ghost predicate TotalPreorder<T(!new)>(le: (T, T) -> bool) {
    && (forall a, b :: le(a, b) || le(b, a))
    && (forall a, b, c :: le(a, b) && le(b, c) ==> le(a, c))
  }

  predicate SortedBy<T>(s: seq<T>, le: (T, T) -> bool) {
    forall i, j :: 0 <= i < j < |s| ==> le(s[i], s[j])
  }

  method QSort<T(!new)>(s: seq<T>, le: (T, T) -> bool) returns (r: seq<T>)
    requires TotalPreorder(le)
    ensures multiset(r) == multiset(s) && |r| == |s| && SortedBy(r, le)
  {
    r := [];
    for i := 0 to |s|
      invariant multiset(r) == multiset(s[..i]) && |r| == i && SortedBy(r, le)
    {
      assert s[..i + 1] == s[..i] + [s[i]];
      r := InsertInOrder(r, s[i], le);
    }
    assert s[..|s|] == s;
  }

  method InsertInOrder<T(!new)>(r: seq<T>, x: T, le: (T, T) -> bool) returns (r': seq<T>)
    requires TotalPreorder(le) && SortedBy(r, le)
    ensures multiset(r') == multiset(r) + multiset{x} && |r'| == |r| + 1 && SortedBy(r', le)
  {
    var k := |r|;
    while k > 0 && !le(r[k - 1], x)
      invariant 0 <= k <= |r|
      invariant forall j :: k <= j < |r| ==> le(x, r[j])
    {
      k := k - 1;
    }
    r' := r[..k] + [x] + r[k..];
    assert r == r[..k] + r[k..];
    Between(r, k, x, le);
  }

  lemma Between<T(!new)>(r: seq<T>, k: nat, x: T, le: (T, T) -> bool)
    requires TotalPreorder(le) && SortedBy(r, le) && k <= |r|
    requires k > 0 ==> le(r[k - 1], x)
    requires forall j :: k <= j < |r| ==> le(x, r[j])
    ensures SortedBy(r[..k] + [x] + r[k..], le)
  {
    forall i | 0 <= i < k ensures le(r[i], x) {
      if i < k - 1 { assert le(r[i], r[k - 1]); }
    }
  }

  lemma SliceSnoc<T>(s: seq<T>, a: nat, i: nat)
    requires a <= i < |s|
    ensures s[a..i + 1] == s[a..i] + [s[i]]
  {
  }

  lemma SliceJoin<T>(arr: seq<T>, half: nat)
    requires half <= |arr|
    ensures arr[0..half] + arr[half..|arr|] == arr
  {
  }
}
