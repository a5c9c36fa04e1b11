/** gbt_num_picksplit: sort the entries and give the smaller half to the left page and the
    rest to the right page, each with the range of what it got.
 */
module NumSplit {
  import opened Wrappers
  import opened NumGist
  import opened Sorting
  import opened PageEntries

  /** The types' key comparisons order by lower bound, then by upper bound. */
  predicate NotAfter<T(!new)>(a: Entry<NumKey<T>>, b: Entry<NumKey<T>>, o: TypeInfo<T>) {
    if o.Eq(a.key.lower, b.key.lower) then o.le(a.key.upper, b.key.upper) else o.le(a.key.lower, b.key.lower)
  }

  lemma {:induction false} HullIsFold<T(!new)>(first: NumKey<T>, rest: seq<NumKey<T>>, o: TypeInfo<T>)
    ensures Hull(first, rest, o) == Fold(first, rest, (a, b) => BinUnion(a, b, o))
    decreases |rest|
  {
    if rest != [] { HullIsFold(BinUnion(first, rest[0], o), rest[1..], o); }
  }

  /** The running union of a side is the tightest range around it. */
  lemma JoinedIsTightest<T(!new)>(ks: seq<NumKey<T>>, o: TypeInfo<T>)
    requires ks != [] && o.TotalOrder()
    ensures var u := Joined(ks, (a, b) => BinUnion(a, b, o)); u.Some? && Tightest(u.value, ks, o)
  {
    HullIsFold(ks[0], ks[1..], o);
    JoinedIsFold(ks, (a, b) => BinUnion(a, b, o));
    HullIsTightest(ks[0], ks[1..], o);
    assert ks == [ks[0]] + ks[1..];
  }

  method SortEntries<T(!new)>(keys: seq<NumKey<T>>, o: TypeInfo<T>) returns (arr: seq<Entry<NumKey<T>>>)
    requires o.TotalOrder()
    ensures multiset(arr) == multiset(Numbered(keys)) && |arr| == |keys|
    ensures SortedBy(arr, (x, y) => NotAfter(x, y, o))
  {
    arr := QSort(Numbered(keys), (x, y) => NotAfter(x, y, o));
  }

  /** Ranges in the order of their lower and, where these agree, of their upper bounds. */
  predicate KeyLe<T(!new)>(a: NumKey<T>, b: NumKey<T>, o: TypeInfo<T>) {
    o.le(a.lower, b.lower) && (o.le(b.lower, a.lower) ==> o.le(a.upper, b.upper))
  }

  /** The offsets name the keys in that order. */
  ghost predicate InOrder<T(!new)>(keys: seq<NumKey<T>>, os: seq<nat>, o: TypeInfo<T>)
    requires InRange(os, |keys|)
  {
    forall i, j :: 0 <= i < j < |os| ==> KeyLe(keys[os[i] - 1], keys[os[j] - 1], o)
  }

  lemma HalvesInOrder<T(!new)>(keys: seq<NumKey<T>>, left: seq<Entry<NumKey<T>>>, right: seq<Entry<NumKey<T>>>,
                               o: TypeInfo<T>)
    requires o.TotalOrder() && multiset(left) + multiset(right) == multiset(Numbered(keys))
    requires SortedBy(left + right, (x, y) => NotAfter(x, y, o))
    ensures InRange(OffsetsOf(left) + OffsetsOf(right), |keys|)
    ensures InOrder(keys, OffsetsOf(left) + OffsetsOf(right), o)
  {
    HalvesByOffset(keys, left, right);
    var all, os := left + right, OffsetsOf(left) + OffsetsOf(right);
    forall i | 0 <= i < |os| ensures 1 <= os[i] <= |keys| && all[i].key == keys[os[i] - 1] {
      if i < |left| {
        assert KeysOf(left)[i] == keys[os[i] - 1];
      } else {
        assert KeysOf(right)[i - |left|] == keys[os[i] - 1];
      }
    }
    forall i, j | 0 <= i < j < |os| ensures KeyLe(keys[os[i] - 1], keys[os[j] - 1], o) {
      assert NotAfter(all[i], all[j], o);
    }
  }

  /** What a split of these keys amounts to: all entries in sorted order, the smaller half to the
      left, and each half with the tightest range around it. */
  ghost predicate IsSplit<T(!new)>(keys: seq<NumKey<T>>, sp: Split<NumKey<T>>, o: TypeInfo<T>) {
    && |keys| >= 2 && Divides(sp, |keys|) && |sp.left| == |keys| / 2 && |sp.right| == |keys| - |keys| / 2
    && InRange(sp.left + sp.right, |keys|) && InOrder(keys, sp.left + sp.right, o)
    && Tightest(sp.ldatum, Pick(keys, sp.left), o) && Tightest(sp.rdatum, Pick(keys, sp.right), o)
  }

  method Picksplit<T(!new)>(keys: seq<NumKey<T>>, o: TypeInfo<T>) returns (sp: Split<NumKey<T>>)
    requires |keys| >= 2 && o.TotalOrder()
    ensures IsSplit(keys, sp, o)
  {
    var arr := SortEntries(keys, o);
    var left, right, lu, ru := Halve(arr, (a, b) => BinUnion(a, b, o));
    JoinedIsTightest(KeysOf(left), o);
    JoinedIsTightest(KeysOf(right), o);
    HalvesInOrder(keys, left, right, o);
    HalvesByOffset(keys, left, right);
    sp := Split(OffsetsOf(left), OffsetsOf(right), lu.value, ru.value);
  }
}
