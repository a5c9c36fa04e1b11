/** Text as the server stores it: a byte string cut into characters by pg_mblen.

    The length function of the database encoding is a parameter. It is applied to
    the bytes from the start of a character on, as pg_mblen is.
 */
module MultiByte {
  type byte = b: int | 0 <= b < 256

  type Mblen = seq<byte> -> nat

  /** A byte string of whole, non-empty characters, none of them starting with NUL. */
  predicate WellFormed(mblen: Mblen, b: seq<byte>)
    decreases |b|
  {
    b == [] || (b[0] != 0 && 1 <= mblen(b) <= |b| && WellFormed(mblen, b[mblen(b)..]))
  }

  function Chars(mblen: Mblen, b: seq<byte>): (cs: seq<seq<byte>>)
    requires WellFormed(mblen, b)
    ensures |cs| <= |b|
    ensures forall k :: 0 <= k < |cs| ==> cs[k] != []
    decreases |b|
  {
    if b == [] then [] else [b[..mblen(b)]] + Chars(mblen, b[mblen(b)..])
  }

  /** Where character k starts. */
  function Offset(cs: seq<seq<byte>>, k: nat): nat
    requires k <= |cs|
  {
    if k == 0 then 0 else Offset(cs, k - 1) + |cs[k - 1]|
  }

  lemma {:induction false} OffsetFromFront(cs: seq<seq<byte>>, k: nat)
    requires 0 < k <= |cs|
    ensures Offset(cs, k) == |cs[0]| + Offset(cs[1..], k - 1)
    decreases k
  {
    if k > 1 { OffsetFromFront(cs, k - 1); }
  }

  /** The bytes of character k lie at its offset. */
  ghost predicate LiesAt(b: seq<byte>, cs: seq<seq<byte>>, k: nat)
    requires k < |cs|
  {
    var at := Offset(cs, k);
    cs[k] != [] && at + |cs[k]| <= |b| && b[at..at + |cs[k]|] == cs[k]
  }

  ghost predicate LaidOut(b: seq<byte>, cs: seq<seq<byte>>) {
    forall k :: 0 <= k < |cs| ==> LiesAt(b, cs, k)
  }

  /** The rest of the text starts afresh at character k. */
  lemma {:induction false} SuffixAt(mblen: Mblen, b: seq<byte>, k: nat)
    requires WellFormed(mblen, b) && k <= |Chars(mblen, b)|
    ensures var cs := Chars(mblen, b); var at := Offset(cs, k);
            at <= |b| && WellFormed(mblen, b[at..]) && Chars(mblen, b[at..]) == cs[k..]
    decreases k
  {
    var cs := Chars(mblen, b);
    if k == 0 {
      assert b[0..] == b && cs[0..] == cs;
    } else {
      OffsetFromFront(cs, k);
      var n := mblen(b);
      var at := Offset(cs[1..], k - 1);
      SuffixAt(mblen, b[n..], k - 1);
      assert b[n..][at..] == b[n + at..];
    }
  }

  /** pg_mblen measures the character at its offset, and the last one ends the text. */
  lemma CharAt(mblen: Mblen, b: seq<byte>, k: nat)
    requires WellFormed(mblen, b) && k <= |Chars(mblen, b)|
    ensures var cs := Chars(mblen, b); var at := Offset(cs, k);
            && at <= |b| && (k == |cs| <==> at == |b|)
            && (k < |cs| ==> b[at] != 0 && LiesAt(b, cs, k) && mblen(b[at..]) == |cs[k]|)
  {
    SuffixAt(mblen, b, k);
    var cs := Chars(mblen, b);
    var rest := b[Offset(cs, k)..];
    if k < |cs| {
      assert cs[k] == Chars(mblen, rest)[0] == rest[..mblen(rest)];
    }
  }

  lemma CharsAreLaidOut(mblen: Mblen, b: seq<byte>)
    requires WellFormed(mblen, b)
    ensures LaidOut(b, Chars(mblen, b))
  {
    var cs := Chars(mblen, b);
    forall k | 0 <= k < |cs| ensures LiesAt(b, cs, k) {
      CharAt(mblen, b, k);
    }
  }

  /** As many characters as bytes means every character is one byte. */
  lemma {:induction false} AllSingle(b: seq<byte>, cs: seq<seq<byte>>, k: nat)
    requires LaidOut(b, cs) && |cs| == |b| && k <= |cs|
    ensures Offset(cs, k) == k && (k < |cs| ==> cs[k] == [b[k]])
  {
    OffsetAtLeast(b, cs, 0, k);
    OffsetAtLeast(b, cs, k, |cs|);
    if |cs| > 0 { assert LiesAt(b, cs, |cs| - 1); }
    if k < |cs| {
      OffsetAtLeast(b, cs, k + 1, |cs|);
      assert LiesAt(b, cs, k);
      assert b[k..k + 1] == [b[k]];
    }
  }

  lemma {:induction false} OffsetAtLeast(b: seq<byte>, cs: seq<seq<byte>>, a: nat, k: nat)
    requires a <= k <= |cs| && LaidOut(b, cs)
    ensures Offset(cs, a) + (k - a) <= Offset(cs, k)
    decreases k - a
  {
    if a < k {
      OffsetAtLeast(b, cs, a, k - 1);
      assert LiesAt(b, cs, k - 1);
    }
  }

  /** pg_mbstrlen_with_len */
  method CountChars(mblen: Mblen, b: seq<byte>) returns (len: nat)
    requires WellFormed(mblen, b)
    ensures len == |Chars(mblen, b)|
  {
    var p := 0;
    len := 0;
    CharAt(mblen, b, 0);
    while p < |b| && b[p] != 0
      invariant len <= |Chars(mblen, b)| && p == Offset(Chars(mblen, b), len) <= |b|
      invariant p < |b| ==> b[p] != 0
      invariant len == |Chars(mblen, b)| <==> p == |b|
      decreases |b| - p
    {
      CharAt(mblen, b, len);
      CharAt(mblen, b, len + 1);
      p := p + mblen(b[p..]);
      len := len + 1;
    }
  }

  /** The s_char_len array: every character's length, then a closing zero. */
  method CacheLengths(mblen: Mblen, b: seq<byte>, m: nat) returns (lens: array<nat>)
    requires WellFormed(mblen, b) && m == |Chars(mblen, b)|
    ensures fresh(lens) && lens.Length == m + 1 && lens[m] == 0
    ensures forall k :: 0 <= k < m ==> lens[k] == |Chars(mblen, b)[k]|
  {
    lens := new nat[m + 1];
    ghost var cs := Chars(mblen, b);
    var cp := 0;
    for i := 0 to m
      invariant cp == Offset(cs, i) <= |b|
      invariant forall k :: 0 <= k < i ==> lens[k] == |cs[k]|
    {
      CharAt(mblen, b, i);
      lens[i] := mblen(b[cp..]);
      cp := cp + lens[i];
    }
    lens[m] := 0;
  }

  /** rest_of_char_same */
  method RestOfCharSame(s: seq<byte>, x: nat, t: seq<byte>, y: nat, len: nat) returns (same: bool)
    requires x + len <= |s| && y + len <= |t|
    ensures same <==> s[x..x + len] == t[y..y + len]
  {
    var k := len;
    while k > 0
      invariant 0 <= k <= len
      invariant s[x + k..x + len] == t[y + k..y + len]
    {
      k := k - 1;
      if s[x + k] != t[y + k] {
        assert s[x..x + len][k] != t[y..y + len][k];
        return false;
      }
    }
    return true;
  }

  /** The multibyte comparison of the inner loop: last byte first, then the lengths,
      then everything. */
  method SameChar(s: seq<byte>, x: nat, xl: nat, t: seq<byte>, y: nat, yl: nat) returns (same: bool)
    requires 0 < xl && 0 < yl && x + xl <= |s| && y + yl <= |t|
    ensures same <==> s[x..x + xl] == t[y..y + yl]
  {
    if s[x + xl - 1] == t[y + yl - 1] && xl == yl {
      if xl == 1 {
        same := true;
        assert s[x..x + 1] == [s[x]] && t[y..y + 1] == [t[y]];
      } else {
        same := RestOfCharSame(s, x, t, y, xl);
      }
    } else {
      same := false;
      if xl == yl { assert s[x..x + xl][xl - 1] != t[y..y + yl][yl - 1]; }
    }
  }
}
