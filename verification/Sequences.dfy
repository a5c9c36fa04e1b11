/** Small facts about sequences, each stated apart from the proofs that use it. */
module Sequences {

  lemma TailOfAppend<T>(a: seq<T>, b: seq<T>)
    requires a != []
    ensures (a + b)[0] == a[0] && (a + b)[1..] == a[1..] + b
  {
  }

  lemma Associates<T>(a: seq<T>, b: seq<T>, c: seq<T>)
    ensures (a + b) + c == a + (b + c)
  {
  }

  lemma CutBefore<T>(w: seq<T>, rest: seq<T>, p: nat)
    requires p <= |w|
    ensures (w + rest)[..p] == w[..p] && (w + rest)[p..] == w[p..] + rest
  {
  }

  lemma SplitAt<T>(q: seq<T>, i: nat)
    requires i < |q|
    ensures q == q[..i] + [q[i]] + q[i + 1..]
  {
  }

  lemma RemoveFirst<T>(a: seq<T>, b: seq<T>, k: nat)
    requires a != [] && k < |b| && multiset(a) == multiset(b) && b[k] == a[0]
    ensures multiset(a[1..]) == multiset(b[..k] + b[k + 1..])
  {
    assert a == [a[0]] + a[1..];
    assert b == b[..k] + ([b[k]] + b[k + 1..]);
    assert multiset(a[1..]) == multiset(a) - multiset{a[0]};
    assert multiset(b[..k] + b[k + 1..]) == multiset(b) - multiset{b[k]};
  }

  /** Equal prefixes are empty, or have equal last elements behind equal prefixes. */
  lemma EqualPrefixes<T>(s: seq<T>, t: seq<T>, i: nat, j: nat)
    requires i <= |s| && j <= |t|
    ensures s[..i] == t[..j] <==>
            if i == 0 || j == 0 then i == j
            else s[i - 1] == t[j - 1] && s[..i - 1] == t[..j - 1]
  {
    if i > 0 { assert s[..i] == s[..i - 1] + [s[i - 1]]; }
    if j > 0 { assert t[..j] == t[..j - 1] + [t[j - 1]]; }
    if i > 0 && j > 0 { SnocEqual(s[..i - 1], s[i - 1], t[..j - 1], t[j - 1]); }
  }

  lemma SnocEqual<T>(a: seq<T>, x: T, b: seq<T>, y: T)
    ensures a + [x] == b + [y] <==> a == b && x == y
  {
    if a + [x] == b + [y] {
      assert a == (a + [x])[..|a|];
      assert b == (b + [y])[..|b|];
      assert (a + [x])[|a|] == x;
    }
  }
}
