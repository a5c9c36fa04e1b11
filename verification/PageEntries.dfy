/** The entries of a page, as the split methods handle them: numbered, sorted, in two halves. */
module PageEntries {
  import opened Wrappers
  import opened Sequences
  import opened Sorting

  datatype Entry<K> = Entry(offset: nat, key: K)

  function KeysOf<K>(es: seq<Entry<K>>): (ks: seq<K>)
    ensures |ks| == |es| && forall i :: 0 <= i < |es| ==> ks[i] == es[i].key
  {
    seq(|es|, i requires 0 <= i < |es| => es[i].key)
  }

  /** The entries of a page, numbered from one. */
  function Numbered<K>(keys: seq<K>): (es: seq<Entry<K>>)
    ensures |es| == |keys| && forall i :: 0 <= i < |keys| ==> es[i] == Entry(i + 1, keys[i])
  {
    seq(|keys|, i requires 0 <= i < |keys| => Entry(i + 1, keys[i]))
  }

  // ----- the outcome of a split -----

  /** The offsets of the entries that go to each page, and the two pages' keys. */
  datatype Split<B> = Split(left: seq<nat>, right: seq<nat>, ldatum: B, rdatum: B)

  predicate InRange(os: seq<nat>, n: nat) {
    forall i :: 0 <= i < |os| ==> 1 <= os[i] <= n
  }

  function Offsets(n: nat): (os: seq<nat>)
    ensures |os| == n && forall i :: 0 <= i < n ==> os[i] == i + 1
  {
    seq(n, i => i + 1)
  }

  /** Every entry of a page goes to exactly one side. */
  ghost predicate Divides<B>(sp: Split<B>, n: nat) {
    && InRange(sp.left, n) && InRange(sp.right, n)
    && multiset(sp.left) + multiset(sp.right) == multiset(Offsets(n))
  }

  /** The entries at the given offsets. */
  function Pick<T>(es: seq<T>, os: seq<nat>): (r: seq<T>)
    requires InRange(os, |es|)
    ensures |r| == |os| && forall i :: 0 <= i < |os| ==> r[i] == es[os[i] - 1]
  {
    seq(|os|, i requires 0 <= i < |os| => es[os[i] - 1])
  }

  function OffsetsOf<K>(es: seq<Entry<K>>): (os: seq<nat>)
    ensures |os| == |es| && forall i :: 0 <= i < |es| ==> os[i] == es[i].offset
  {
    seq(|es|, i requires 0 <= i < |es| => es[i].offset)
  }

  lemma {:induction false} OffsetsPermute<K>(a: seq<Entry<K>>, b: seq<Entry<K>>)
    requires multiset(a) == multiset(b)
    ensures multiset(OffsetsOf(a)) == multiset(OffsetsOf(b))
    decreases |a|
  {
    if a == [] {
      assert |multiset(b)| == 0;
    } else {
      assert a[0] in multiset(b);
      var k :| 0 <= k < |b| && b[k] == a[0];
      var b' := b[..k] + b[k + 1..];
      RemoveFirst(a, b, k);
      OffsetsPermute(a[1..], b');
      var os, os' := OffsetsOf(a), OffsetsOf(b);
      assert os == [os[0]] + OffsetsOf(a[1..]);
      assert os' == os'[..k] + [os'[k]] + os'[k + 1..];
      assert OffsetsOf(b') == os'[..k] + os'[k + 1..];
    }
  }

  /** Halves of the numbered entries, told by their offsets. */
  lemma HalvesByOffset<K>(keys: seq<K>, left: seq<Entry<K>>, right: seq<Entry<K>>)
    requires multiset(left) + multiset(right) == multiset(Numbered(keys))
    ensures InRange(OffsetsOf(left), |keys|) && InRange(OffsetsOf(right), |keys|)
    ensures multiset(OffsetsOf(left)) + multiset(OffsetsOf(right)) == multiset(Offsets(|keys|))
    ensures KeysOf(left) == Pick(keys, OffsetsOf(left)) && KeysOf(right) == Pick(keys, OffsetsOf(right))
  {
    forall e | e in left || e in right ensures 1 <= e.offset <= |keys| && e.key == keys[e.offset - 1] {
      assert e in multiset(Numbered(keys));
    }
    OffsetsPermute(left + right, Numbered(keys));
    assert OffsetsOf(left + right) == OffsetsOf(left) + OffsetsOf(right);
    assert OffsetsOf(Numbered(keys)) == Offsets(|keys|);
  }

  // ----- two halves -----

  /** The keys joined from the left, if there are any. */
  ghost function Joined<K>(ks: seq<K>, join: (K, K) -> K): Option<K> {
    if ks == [] then None
    else
      var last := |ks| - 1;
      Some(JoinInto(Joined(ks[..last], join), ks[last], join))
  }

  ghost function Fold<K>(first: K, rest: seq<K>, join: (K, K) -> K): K
    decreases |rest|
  {
    if rest == [] then first else Fold(join(first, rest[0]), rest[1..], join)
  }

  lemma {:induction false} FoldSnoc<K>(first: K, rest: seq<K>, k: K, join: (K, K) -> K)
    ensures Fold(first, rest + [k], join) == join(Fold(first, rest, join), k)
    decreases |rest|
  {
    if rest == [] {
      assert rest + [k] == [k] && [k][1..] == [];
    } else {
      TailOfAppend(rest, [k]);
      FoldSnoc(join(first, rest[0]), rest[1..], k, join);
    }
  }

  lemma {:induction false} JoinedIsFold<K>(ks: seq<K>, join: (K, K) -> K)
    requires ks != []
    ensures Joined(ks, join) == Some(Fold(ks[0], ks[1..], join))
  {
    var last := |ks| - 1;
    if last > 0 {
      JoinedIsFold(ks[..last], join);
      assert ks[..last][1..] == ks[1..last];
      FoldSnoc(ks[0], ks[1..last], ks[last], join);
      SliceSnoc(ks, 1, last);
      assert ks[1..last + 1] == ks[1..];
    }
  }

  /** Join a key to a side, also where the side has none yet. */
  function JoinInto<K>(u: Option<K>, k: K, join: (K, K) -> K): K {
    if u.None? then k else join(u.value, k)
  }

  /** Put an entry on a side and widen the side's key. */
  method AddEntry<K>(es: seq<Entry<K>>, u: Option<K>, e: Entry<K>, join: (K, K) -> K)
    returns (es': seq<Entry<K>>, u': Option<K>)
    requires u == Joined(KeysOf(es), join)
    ensures es' == es + [e] && u' == Joined(KeysOf(es'), join)
  {
    es' := es + [e];
    u' := Some(JoinInto(u, e.key, join));
    assert KeysOf(es')[..|es|] == KeysOf(es);
  }

  /** The loop over the sorted entries: the first half goes left, the rest right, each with
      the join of its keys. */
  method Halve<K>(arr: seq<Entry<K>>, join: (K, K) -> K)
    returns (left: seq<Entry<K>>, right: seq<Entry<K>>, lu: Option<K>, ru: Option<K>)
    ensures left + right == arr && |left| == |arr| / 2
    ensures lu == Joined(KeysOf(left), join) && ru == Joined(KeysOf(right), join)
  {
    var maxoff := |arr|;
    var half := maxoff / 2;
    lu, ru := None, None;
    left, right := [], [];
    for i := 0 to maxoff
      invariant i <= half ==> left == arr[0..i] && right == []
      invariant i >= half ==> left == arr[0..half] && right == arr[half..i]
      invariant lu == Joined(KeysOf(left), join) && ru == Joined(KeysOf(right), join)
    {
      if i + 1 <= half {
        SliceSnoc(arr, 0, i);
        left, lu := AddEntry(left, lu, arr[i], join);
      } else {
        SliceSnoc(arr, half, i);
        right, ru := AddEntry(right, ru, arr[i], join);
      }
    }
    SliceJoin(arr, half);
  }
}
