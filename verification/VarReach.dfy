/** When a search is turned away after gbt_var_picksplit. A key that fails to cover a value may
    still let every search for it through: a lower bound that is a prefix of the upper one is
    a prefix of everything in between and a little beyond, and queries of which a bound is a
    prefix are accepted.
 */
module VarReach {
  import opened ByteOrder
  import opened BTreeStrategy
  import opened PageEntries
  import opened VarGist
  import opened VarSplit

  /** Every search that value x satisfies is let through by key k. */
  ghost predicate Finds(k: VarKey, x: Bytes) {
    forall s, q :: Matches(s, x, q) ==> PageConsistent(k, s, q)
  }

  /** No search for a value that one of the entries covers is turned away. */
  ghost predicate TurnsNoneAway(ks: seq<VarKey>, k: VarKey) {
    forall e, x :: e in ks && Covers(e, x) ==> Finds(k, x)
  }

  /** A lower bound that is a prefix of the value lets through whatever the value satisfies. */
  lemma PrefixFinds(k: VarKey, x: Bytes)
    requires k.lower <= x && (k.lower == k.upper ==> x == k.lower)
    ensures Finds(k, x)
  {
    forall s, q | Matches(s, x, q) ensures PageConsistent(k, s, q) {
      PrefixLe(k.lower, x);
      CmpFlips(q, x);
      CmpFlips(q, k.lower);
      CmpFlips(q, k.upper);
      if Le(x, q) { Transitive(k.lower, x, q); }
      if Le(q, x) { PrefixNeverPrunes(k, q, x); }
    }
  }

  lemma PrefixNeverPrunes(k: VarKey, query: Bytes, x: Bytes)
    requires k.lower <= x && Le(query, x)
    ensures Cmp(query, k.upper) <= 0 || NodePrefixMatch(k, query)
  {
    Total(query, k.lower);
    if Le(query, k.lower) {
      Transitive(query, k.lower, k.upper);
    } else {
      Extension(k.lower, x, query);
    }
  }

  /** A value that parts from both bounds, from the upper one upwards, is turned away. */
  lemma Rejected(k: VarKey, x: Bytes, i: nat, p: nat)
    requires i < |k.lower| && i < |x| && k.lower[i] != x[i]
    requires p < |k.upper| && p < |x| && x[..p] == k.upper[..p] && x[p] > k.upper[p]
    ensures !PageConsistent(k, Equal, x)
  {
    PartsFrom(k.lower, x, i);
    PartsFrom(k.upper, x, p);
    CpIs(x, k.upper, p);
  }

  lemma PartsFrom(pf: Bytes, x: Bytes, i: nat)
    requires i < |pf| && i < |x| && pf[i] != x[i]
    ensures !PrefixMatch(pf, x)
  {
    assert i < |pf| <= |x| ==> x[..|pf|][i] == x[i];
  }

  /** Where the lower bound is no prefix of the upper one, a value that leaves the upper bound
      upwards, behind the place where the two part, is turned away. */
  lemma RaisedByteIsRejected(h: VarKey, cpf: nat, p: nat) returns (x: Bytes)
    requires !(h.lower <= h.upper) && Cp(h.lower, h.upper) < p < |h.upper| && p <= cpf && h.upper[p] != 255
    ensures x == h.upper[..p] + [255] && Le(h.upper, x) && !PageConsistent(Truncate(h, cpf), Equal, x)
  {
    x := h.upper[..p] + [255];
    CpIs(h.upper, x, p);
    CutHalf(h, cpf, p);
    Rejected(Truncate(h, cpf), x, Cp(h.lower, h.upper), p);
  }

  /** The bytes of the bounds up to the cut. */
  lemma CutHalf(h: VarKey, cpf: nat, p: nat)
    requires !(h.lower <= h.upper) && Cp(h.lower, h.upper) < p < |h.upper| && p <= cpf
    ensures var k, cp := Truncate(h, cpf), Cp(h.lower, h.upper);
            && cp < |k.lower| && cp < |h.upper| && k.lower[cp] != h.upper[cp]
            && p < |k.upper| && k.upper[..p] == h.upper[..p] && k.upper[p] == h.upper[p]
  {
  }

  // ----- searches for what the entries cover -----

  /** Values beyond an entry's upper bound start as the half's range does up to the place where
      its bounds part. */
  lemma StartsLikeHalf(h: VarKey, e: VarKey, x: Bytes)
    requires h.lower <= h.upper && Le(h.lower, e.lower) && Le(e.upper, h.upper)
    requires Covers(e, x)
    ensures h.lower <= x && (h.lower == h.upper ==> x == h.lower)
  {
    Transitive(h.lower, e.lower, x);
    Transitive(h.lower, e.lower, e.upper);
    if Le(x, e.upper) {
      Transitive(x, e.upper, h.upper);
      Sandwich(h.lower, x, h.upper, h.lower);
      Total(x, h.lower);
    } else {
      Sandwich(h.lower, e.upper, h.upper, h.lower);
      DifferentBounds(h, e);
    }
  }

  /** The lower bound of such a range is not cut. */
  lemma PrefixStays(h: VarKey, cpf: nat)
    requires h.lower <= h.upper && cpf >= Cp(h.lower, h.upper) + 1
    ensures var k := Truncate(h, cpf); k.lower == h.lower && (k.lower == k.upper ==> h.lower == h.upper)
  {
    CpIs(h.lower, h.upper, |h.lower|);
    CutKeepsCp(h.lower, h.upper, cpf + 1);
  }

  lemma CoveredIsFound(k: VarKey, x: Bytes)
    requires Covers(k, x)
    ensures Finds(k, x)
  {
    forall s, q | Matches(s, x, q) ensures PageConsistent(k, s, q) { ConsistentNeverPrunes(k, s, q, x); }
  }

  lemma HalfBounds(ks: seq<VarKey>, e: VarKey)
    requires ks != [] && e in ks
    ensures Le(HullOf(ks).lower, e.lower) && Le(e.upper, HullOf(ks).upper)
  {
    assert [ks[0]] + ks[1..] == ks;
    HullBounds(ks[0], ks[1..], e);
  }

  lemma CoveredByHalfIsFound(ks: seq<VarKey>, cpf: nat, e: VarKey, x: Bytes)
    requires ks != [] && e in ks && Covers(e, x) && cpf >= Cp(HullOf(ks).lower, HullOf(ks).upper) + 1
    requires AllSafe(ks, cpf) || HullOf(ks).lower <= HullOf(ks).upper
    ensures Finds(SideKey(ks, cpf), x)
  {
    if AllSafe(ks, cpf) {
      SafeEntryCovered(ks, cpf, e, x);
      CoveredIsFound(SideKey(ks, cpf), x);
    } else {
      HalfBounds(ks, e);
      StartsLikeHalf(HullOf(ks), e, x);
      PrefixStays(HullOf(ks), cpf);
      PrefixFinds(SideKey(ks, cpf), x);
    }
  }

  lemma UnsafeEntryIsMissed(ks: seq<VarKey>, cpf: nat, e: VarKey) returns (x: Bytes)
    requires ks != [] && e in ks && !(HullOf(ks).lower <= HullOf(ks).upper)
    requires !Safe(e, HullOf(ks).upper, cpf)
    ensures Covers(e, x) && !PageConsistent(SideKey(ks, cpf), Equal, x)
  {
    var h := HullOf(ks);
    HalfBounds(ks, e);
    WiderIsShorter(h.lower, e.lower, e.upper, h.upper);
    var p :| |e.upper| <= p < |h.upper| && p <= cpf && h.upper[p] != 255;
    x := RaisedByteIsRejected(h, cpf, p);
    assert e.upper <= x;
    PrefixLe(e.upper, x);
    Transitive(e.lower, e.upper, x);
  }

  /** A half's key turns away no search for a value its entries cover if and only if every entry
      is safe or the half's least lower bound is a prefix of its greatest upper bound. */
  lemma SideFindsIff(ks: seq<VarKey>, cpf: nat)
    requires ks != [] && cpf >= Cp(HullOf(ks).lower, HullOf(ks).upper) + 1
    ensures TurnsNoneAway(ks, SideKey(ks, cpf)) <==> AllSafe(ks, cpf) || HullOf(ks).lower <= HullOf(ks).upper
  {
    var k := SideKey(ks, cpf);
    if AllSafe(ks, cpf) || HullOf(ks).lower <= HullOf(ks).upper {
      forall e, x | e in ks && Covers(e, x) ensures Finds(k, x) { CoveredByHalfIsFound(ks, cpf, e, x); }
    } else {
      var e :| e in ks && !Safe(e, HullOf(ks).upper, cpf);
      var x := UnsafeEntryIsMissed(ks, cpf, e);
      assert Matches(Equal, x, x);
    }
  }

  ghost predicate FindingSide(ks: seq<VarKey>, cpf: nat)
    requires ks != []
  {
    AllSafe(ks, cpf) || HullOf(ks).lower <= HullOf(ks).upper
  }

  ghost predicate FindingSplit(keys: seq<VarKey>, sp: Split<VarKey>)
    requires IsSplit(keys, sp)
  {
    var left, right := Pick(keys, sp.left), Pick(keys, sp.right);
    FindingSide(left, CutLength(left, right)) && FindingSide(right, CutLength(left, right))
  }

  /** The two pages of a split turn away no search for a value the entries covered if and only
      if that holds of both halves. */
  lemma SplitFindsIff(keys: seq<VarKey>, sp: Split<VarKey>)
    requires IsSplit(keys, sp)
    ensures TurnsNoneAway(Pick(keys, sp.left), sp.ldatum) && TurnsNoneAway(Pick(keys, sp.right), sp.rdatum)
       <==> FindingSplit(keys, sp)
  {
    var left, right := Pick(keys, sp.left), Pick(keys, sp.right);
    SideFindsIff(left, CutLength(left, right));
    SideFindsIff(right, CutLength(left, right));
  }

  /** A half that loses a value and turns away no search. */
  lemma UnsafeYetFound()
    ensures var ks := [PairKey([97], ROW), PairKey(NEXT1, NEXT2)];
            TurnsNoneAway(ks, SideKey(ks, 3)) && !LosesNothing(ks, SideKey(ks, 3))
  {
    CpIs([97], ROW, 1);
    UnionOfTwo([97], ROW, 1);
    CpIs(NEXT1, NEXT2, 3);
    UnionOfTwo(NEXT1, NEXT2, 3);
    PrefixHalf([PairKey([97], ROW), PairKey(NEXT1, NEXT2)]);
  }

  lemma PrefixHalf(ks: seq<VarKey>)
    requires |ks| == 2 && ks[0].lower == [97] && ks[0].upper == [97, 99, 122]
    requires ks[1].lower == [97, 99, 122, 98] && ks[1].upper == [97, 99, 122, 99]
    ensures TurnsNoneAway(ks, SideKey(ks, 3)) && !LosesNothing(ks, SideKey(ks, 3))
  {
    CpIs(ks[0].lower, ks[1].lower, 1);
    CpIs(ks[0].upper, ks[1].upper, 3);
    CpIs(ks[0].lower, ks[0].upper, 1);
    assert ks == [ks[0], ks[1]];
    TwoKeys(ks[0], ks[1]);
    var h := HullOf(ks);
    assert h.lower == ks[0].lower && h.upper == ks[1].upper;
    CpIs(h.lower, h.upper, 1);
    assert h.upper[3] == 99 && !Safe(ks[0], h.upper, 3);
    SideFindsIff(ks, 3);
    SideCoversIff(ks, 3);
  }

  // ----- what keys reach when splits were unsafe -----

  /** How every value beyond the upper bound of a cuttable key starts, even where the key was made
      by a split that let it stop covering some of them. */
  function Stem(k: VarKey): (r: Bytes)
    requires Cuttable(k)
    ensures r <= k.upper && |r| >= Cp(k.lower, k.upper) + 2
  {
    if k.lower <= k.upper then
      CpIs(k.lower, k.upper, |k.lower|);
      k.upper[..|k.lower| + 2]
    else k.upper
  }

  /** Value x may lie below a page with key k, if splits may be unsafe. */
  predicate Reaches(k: VarKey, x: Bytes) {
    Le(k.lower, x) && (Le(x, k.upper) || (Cuttable(k) && Stem(k) <= x))
  }

  lemma CoveredIsReached(k: VarKey, x: Bytes)
    requires Covers(k, x)
    ensures Reaches(k, x)
  {
  }

  /** Whatever a key reaches, it finds. */
  lemma ReachedIsFound(k: VarKey, x: Bytes)
    requires Reaches(k, x)
    ensures Finds(k, x)
  {
    if Covers(k, x) {
      CoveredIsFound(k, x);
    } else {
      assert k.lower <= Stem(k);
      PrefixFinds(k, x);
    }
  }

  /** What an entry reaches beyond the greatest upper bound starts like that bound, beyond the
      place where the bounds part. */
  lemma BeyondStartsAlike(h: VarKey, e: VarKey, x: Bytes)
    requires Le(h.lower, e.lower) && Le(e.upper, h.upper) && Reaches(e, x) && !Le(x, h.upper)
    ensures Cuttable(e) && Stem(e) <= h.upper && Stem(e) <= x && |Stem(e)| >= Cp(h.lower, h.upper) + 2
    ensures h.lower != h.upper && Le(h.lower, x)
  {
    if Le(x, e.upper) { Transitive(x, e.upper, h.upper); }
    Total(x, h.upper);
    Sandwich(e.upper, h.upper, x, Stem(e));
    WiderIsShorter(h.lower, e.lower, e.upper, h.upper);
    DifferentBounds(h, e);
    Transitive(h.lower, e.lower, x);
  }

  /** A union covers again whatever one of its members reaches. */
  lemma UnionHeals(first: VarKey, rest: seq<VarKey>, e: VarKey, x: Bytes)
    requires e in [first] + rest && Reaches(e, x)
    ensures Covers(Union(first, rest), x)
  {
    var h := Hull(first, rest);
    HullBounds(first, rest, e);
    if Le(x, h.upper) {
      Transitive(h.lower, e.lower, x);
      WithinCoveredByCut(h, x, Cp(h.lower, h.upper) + 1);
    } else {
      BeyondStartsAlike(h, e, x);
      BeyondOwnCut(h, x, Stem(e));
    }
  }

  /** As Safe, for values the entry reaches. */
  predicate StemSafe(e: VarKey, upper: Bytes, cpf: nat) {
    Cuttable(e) && Stem(e) <= upper ==> forall i :: |Stem(e)| <= i < |upper| && i <= cpf ==> upper[i] == 255
  }

  lemma PrefixHalfReaches(h: VarKey, cpf: nat, st: Bytes, x: Bytes)
    requires h.lower <= h.upper && h.lower != h.upper && cpf >= Cp(h.lower, h.upper) + 1 && Le(h.lower, x)
    requires st <= h.upper && st <= x && |st| >= Cp(h.lower, h.upper) + 2
    ensures Reaches(Truncate(h, cpf), x)
  {
    var k, n := Truncate(h, cpf), |h.lower| + 2;
    PrefixStays(h, cpf);
    CutKeepsCp(h.lower, h.upper, cpf + 1);
    CpIs(h.lower, h.upper, |h.lower|);
    assert Stem(k) == h.upper[..n] == st[..n];
  }

  lemma OnesHalfCovers(h: VarKey, cpf: nat, st: Bytes, x: Bytes)
    requires h.lower != h.upper && cpf >= Cp(h.lower, h.upper) + 1 && Le(h.lower, x)
    requires st <= h.upper && st <= x && |st| >= Cp(h.lower, h.upper) + 2
    requires forall i :: |st| <= i < |h.upper| && i <= cpf ==> h.upper[i] == 255
    ensures Covers(Truncate(h, cpf), x)
  {
    var k := Truncate(h, cpf);
    PrefixLe(k.lower, h.lower);
    Transitive(k.lower, h.lower, x);
    CutLongEnough(h, cpf);
    if st <= k.upper { OnesCover(st, k.upper, x); }
  }

  lemma StemSafeEntryCovered(ks: seq<VarKey>, cpf: nat, e: VarKey, x: Bytes)
    requires ks != [] && e in ks && Reaches(e, x) && cpf >= Cp(HullOf(ks).lower, HullOf(ks).upper) + 1
    requires StemSafe(e, HullOf(ks).upper, cpf)
    ensures Covers(SideKey(ks, cpf), x)
  {
    var h := HullOf(ks);
    HalfBounds(ks, e);
    if Le(x, h.upper) {
      Transitive(h.lower, e.lower, x);
      WithinCoveredByCut(h, x, cpf);
    } else {
      BeyondStartsAlike(h, e, x);
      OnesHalfCovers(h, cpf, Stem(e), x);
    }
  }

  lemma PrefixSideReaches(ks: seq<VarKey>, cpf: nat, e: VarKey, x: Bytes)
    requires ks != [] && e in ks && Reaches(e, x) && cpf >= Cp(HullOf(ks).lower, HullOf(ks).upper) + 1
    requires HullOf(ks).lower <= HullOf(ks).upper
    ensures Reaches(SideKey(ks, cpf), x)
  {
    var h := HullOf(ks);
    HalfBounds(ks, e);
    if Le(x, h.upper) {
      Transitive(h.lower, e.lower, x);
      WithinCoveredByCut(h, x, cpf);
    } else {
      BeyondStartsAlike(h, e, x);
      PrefixHalfReaches(h, cpf, Stem(e), x);
    }
  }

  lemma ReachedAndMissed(ks: seq<VarKey>, cpf: nat, e: VarKey) returns (x: Bytes)
    requires ks != [] && e in ks && !(HullOf(ks).lower <= HullOf(ks).upper)
    requires !StemSafe(e, HullOf(ks).upper, cpf)
    ensures Reaches(e, x) && !Finds(SideKey(ks, cpf), x)
  {
    var h, st := HullOf(ks), Stem(e);
    HalfBounds(ks, e);
    WiderIsShorter(h.lower, e.lower, e.upper, h.upper);
    var p :| |st| <= p < |h.upper| && p <= cpf && h.upper[p] != 255;
    x := RaisedByteIsRejected(h, cpf, p);
    assert st <= x;
    Transitive(e.upper, h.upper, x);
    Transitive(e.lower, e.upper, x);
    assert Matches(Equal, x, x);
  }
}
