/** The stored form of a variable-length key, contrib/btree_gist/btree_utils_var.cpp: a bytea
    that holds the lower bound as a bytea and, on inner pages, behind padding to a multiple
    of four, the upper bound.
 */
module KeyLayout {
  import opened Wrappers
  import opened MultiByte
  import opened ByteOrder
  import opened VarGist

  const VARHDRSZ := 4
  const SIZE_LIMIT := 0x4000_0000

  /** How a size is kept in the four bytes of a header (SET_VARSIZE and VARSIZE). */
  datatype Header = Header(put: nat -> Bytes, get: Bytes -> nat) {
    ghost predicate Lawful() {
      && (forall n: nat :: n < SIZE_LIMIT ==> |put(n)| == VARHDRSZ)
      && (forall n: nat, rest: Bytes :: n < SIZE_LIMIT ==> get(put(n) + rest) == n)
    }
  }

  function IntAlign(n: nat): (r: nat)
    ensures n <= r < n + 4 && r % 4 == 0
  {
    (n + 3) / 4 * 4
  }

  /** A bytea: its size, the header included, and its bytes. */
  function Varlena(h: Header, data: Bytes): Bytes {
    h.put(VARHDRSZ + |data|) + data
  }

  /** The bytea at an offset, if there is one. */
  function ReadAt(h: Header, k: Bytes, at: nat): Option<Bytes> {
    if at > |k| then None
    else
      var size := h.get(k[at..]);
      if size < VARHDRSZ || at + size > |k| then None else Some(k[at + VARHDRSZ..at + size])
  }

  /** gbt_var_key_readable */
  function KeyReadable(h: Header, k: Bytes): Option<(Bytes, Bytes)> {
    var lower :- ReadAt(h, k, VARHDRSZ);
    var size := VARHDRSZ + |lower|;
    if h.get(k) > VARHDRSZ + size then
      var upper :- ReadAt(h, k, VARHDRSZ + IntAlign(size));
      Some((lower, upper))
    else Some((lower, lower))
  }

  function NodeSize(lower: Bytes, upper: Bytes): nat {
    IntAlign(VARHDRSZ + |lower|) + (VARHDRSZ + |upper|) + VARHDRSZ
  }

  /** A bytea is read back from wherever it is put. */
  lemma ReadsBack(h: Header, before: Bytes, data: Bytes, after: Bytes)
    requires h.Lawful() && VARHDRSZ + |data| < SIZE_LIMIT
    ensures ReadAt(h, before + Varlena(h, data) + after, |before|) == Some(data)
  {
    var k := before + Varlena(h, data) + after;
    assert k[|before|..] == h.put(VARHDRSZ + |data|) + (data + after);
    assert k[|before| + VARHDRSZ..|before| + VARHDRSZ + |data|] == data;
  }

  lemma LeafReadsBack(h: Header, lower: Bytes)
    requires h.Lawful() && 2 * VARHDRSZ + |lower| < SIZE_LIMIT
    ensures KeyReadable(h, h.put(2 * VARHDRSZ + |lower|) + Varlena(h, lower)) == Some((lower, lower))
  {
    var head := h.put(2 * VARHDRSZ + |lower|);
    ReadsBack(h, head, lower, []);
    assert head + Varlena(h, lower) + [] == head + Varlena(h, lower);
  }

  /** Whatever the padding holds. */
  lemma NodeReadsBack(h: Header, lower: Bytes, pad: Bytes, upper: Bytes)
    requires h.Lawful() && NodeSize(lower, upper) < SIZE_LIMIT
    requires VARHDRSZ + |lower| + |pad| == IntAlign(VARHDRSZ + |lower|)
    ensures KeyReadable(h, h.put(NodeSize(lower, upper)) + Varlena(h, lower) + pad + Varlena(h, upper))
         == Some((lower, upper))
  {
    var head, low, up := h.put(NodeSize(lower, upper)), Varlena(h, lower), Varlena(h, upper);
    var k := head + low + pad + up;
    ReadsBack(h, head, lower, pad + up);
    assert head + low + (pad + up) == k;
    ReadsBack(h, head + low + pad, upper, []);
    assert (head + low + pad) + up + [] == k;
    assert head + (low + pad + up) == k;
  }

  function Overwrite<T>(s: seq<T>, at: nat, x: seq<T>): (r: seq<T>)
    requires at + |x| <= |s|
    ensures |r| == |s|
  {
    s[..at] + x + s[at + |x|..]
  }

  /** A header at the front, a value behind it, a gap, and a value up to the end. */
  lemma WrittenInOrder<T>(s: seq<T>, head: seq<T>, low: seq<T>, at: nat, up: seq<T>)
    requires |head| + |low| <= at && at + |up| == |s|
    ensures Overwrite(Overwrite(Overwrite(s, |head|, low), at, up), 0, head)
         == head + low + s[|head| + |low|..at] + up
  {
    var s1 := Overwrite(s, |head|, low);
    var s2 := Overwrite(s1, at, up);
    assert s1[|head|..at] == low + s[|head| + |low|..at];
    assert s2[|head|..] == s1[|head|..at] + up;
  }

  method MemCpy(dst: array<byte>, at: nat, src: Bytes)
    requires at + |src| <= dst.Length
    modifies dst
    ensures dst[..] == Overwrite(old(dst[..]), at, src)
  {
    for i := 0 to |src|
      invariant dst[..at] == old(dst[..at]) && dst[at + |src|..] == old(dst[at + |src|..])
      invariant forall k :: 0 <= k < i ==> dst[at + k] == src[k]
    {
      dst[at + i] := src[i];
    }
    assert dst[at..at + |src|] == src;
    assert old(dst[..])[..at] == old(dst[..at]) && old(dst[..])[at + |src|..] == old(dst[at + |src|..]);
    assert dst[..] == dst[..at] + dst[at..at + |src|] + dst[at + |src|..];
  }

  /** Write a lower and an upper bound, each with a header that holds its size, into a new
      buffer, of which the bytes are arbitrary until written. */
  method WriteNode(h: Header, lower: Bytes, upper: Bytes) returns (r: array<byte>)
    requires h.Lawful() && NodeSize(lower, upper) < SIZE_LIMIT
    ensures fresh(r) && r.Length == NodeSize(lower, upper) && KeyReadable(h, r[..]) == Some((lower, upper))
  {
    var low, up := Varlena(h, lower), Varlena(h, upper);
    var at := VARHDRSZ + IntAlign(|low|);
    var size := at + |up|;
    r := new byte[size];
    ghost var blank := r[..];
    MemCpy(r, VARHDRSZ, low);
    MemCpy(r, at, up);
    MemCpy(r, 0, h.put(size));
    WrittenInOrder(blank, h.put(size), low, at, up);
    NodeReadsBack(h, lower, blank[VARHDRSZ + |low|..at], upper);
  }

  /** gbt_var_key_copy. The bounds share their storage when same is set. */
  method KeyCopy(h: Header, lower: Bytes, upper: Bytes, same: bool, forceNode: bool) returns (r: array<byte>)
    requires h.Lawful() && NodeSize(lower, upper) < SIZE_LIMIT && (same ==> lower == upper)
    ensures fresh(r) && KeyReadable(h, r[..]) == Some((lower, upper))
    ensures r.Length == if same && !forceNode then 2 * VARHDRSZ + |lower| else NodeSize(lower, upper)
  {
    if !same || forceNode {
      r := WriteNode(h, lower, upper);
      return;
    }
    var low := Varlena(h, lower);
    r := new byte[|low| + VARHDRSZ];
    MemCpy(r, VARHDRSZ, low);
    MemCpy(r, 0, h.put(|low| + VARHDRSZ));
    assert r[..] == h.put(|low| + VARHDRSZ) + low;
    LeafReadsBack(h, lower);
  }

  /** gbt_var_node_truncate on the stored form: it holds the two bounds, each cut. */
  method NodeTruncate(h: Header, node: Bytes, cpf: nat) returns (r: array<byte>)
    requires h.Lawful() && KeyReadable(h, node).Some?
    requires var b := KeyReadable(h, node).value; NodeSize(b.0, b.1) < SIZE_LIMIT
    ensures fresh(r)
    ensures var b := KeyReadable(h, node).value;
            KeyReadable(h, r[..]) == Some((Cut(b.0, cpf + 1), Cut(b.1, cpf + 1)))
  {
    var b := KeyReadable(h, node).value;
    r := WriteNode(h, Cut(b.0, cpf + 1), Cut(b.1, cpf + 1));
  }
}
