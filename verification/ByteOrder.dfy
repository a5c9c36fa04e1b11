/** Byte strings in the order of byteacmp: memcmp over the common length, then the
    shorter first.
 */
module ByteOrder {
  import opened MultiByte

  type Bytes = seq<byte>

  /** The length of the longest common prefix. */
  function Cp(a: Bytes, b: Bytes): (k: nat)
    ensures k <= |a| && k <= |b| && a[..k] == b[..k]
    ensures k < |a| && k < |b| ==> a[k] != b[k]
  {
    if a == [] || b == [] || a[0] != b[0] then 0
    else
      var k := Cp(a[1..], b[1..]);
      assert a[..k + 1] == [a[0]] + a[1..][..k] && b[..k + 1] == [b[0]] + b[1..][..k];
      k + 1
  }

  function Cmp(a: Bytes, b: Bytes): int {
    var k := Cp(a, b);
    if k < |a| && k < |b| then a[k] - b[k] else |a| - |b|
  }

  predicate Le(a: Bytes, b: Bytes) {
    Cmp(a, b) <= 0
  }

  lemma SameBytes(a: Bytes, b: Bytes, k: nat)
    requires k <= |a| && k <= |b| && a[..k] == b[..k]
    ensures forall i :: 0 <= i < k ==> a[i] == b[i]
  {
    forall i | 0 <= i < k ensures a[i] == b[i] {
      assert a[i] == a[..k][i] == b[..k][i] == b[i];
    }
  }

  lemma CpIs(a: Bytes, b: Bytes, k: nat)
    requires k <= |a| && k <= |b| && a[..k] == b[..k]
    requires k < |a| && k < |b| ==> a[k] != b[k]
    ensures Cp(a, b) == k
  {
    var c := Cp(a, b);
    SameBytes(a, b, k);
    SameBytes(a, b, c);
  }

  lemma CpAtLeast(a: Bytes, b: Bytes, k: nat)
    requires k <= |a| && k <= |b| && a[..k] == b[..k]
    ensures k <= Cp(a, b)
  {
    SameBytes(a, b, k);
  }

  lemma CpCommutes(a: Bytes, b: Bytes)
    ensures Cp(a, b) == Cp(b, a)
  {
    CpIs(b, a, Cp(a, b));
  }

  // ----- a total order -----

  lemma Total(a: Bytes, b: Bytes)
    ensures Le(a, b) || Le(b, a)
    ensures Le(a, a)
    ensures Le(a, b) && Le(b, a) ==> a == b
  {
    CpCommutes(a, b);
    CpIs(a, a, |a|);
    var k := Cp(a, b);
    if k == |a| == |b| { assert a == a[..k] == b[..k] == b; }
  }

  lemma Transitive(a: Bytes, b: Bytes, c: Bytes)
    requires Le(a, b) && Le(b, c)
    ensures Le(a, c)
  {
    var k, l := Cp(a, b), Cp(b, c);
    var m := if k < l then k else l;
    assert a[..m] == a[..k][..m] == b[..k][..m] == b[..l][..m] == c[..l][..m] == c[..m];
    SameBytes(a, b, k);
    SameBytes(b, c, l);
    CpIs(a, c, m);
  }

  // ----- prefixes -----

  lemma PrefixLe(p: Bytes, x: Bytes)
    requires p <= x
    ensures Le(p, x)
  {
    CpIs(p, x, |p|);
  }

  /** Everything between two strings starts with their common prefix. */
  lemma Sandwich(a: Bytes, b: Bytes, c: Bytes, p: Bytes)
    requires Le(a, b) && Le(b, c) && p <= a && p <= c
    ensures p <= b
  {
    var k, l := Cp(a, b), Cp(b, c);
    SameBytes(a, b, k);
    SameBytes(b, c, l);
  }

  /** What lies between p and an extension of p extends p, and what extends a string that is
      neither above nor a prefix of c is not above c. */
  lemma Extension(p: Bytes, x: Bytes, c: Bytes)
    requires p <= x
    ensures Le(p, c) && Le(c, x) ==> p <= c
    ensures Le(p, c) && !(p <= c) ==> Le(x, c)
  {
    PrefixLe(p, x);
    if Le(p, c) && Le(c, x) { Sandwich(p, c, x, p); }
    if Le(p, c) && !(p <= c) { Total(x, c); if Le(c, x) { Sandwich(p, c, x, p); } }
  }
}
