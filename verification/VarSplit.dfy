/** gbt_var_picksplit for bytea keys: sort, cut the sorted entries in half, and truncate the
    two halves' ranges to the longer of their two common prefixes.
 */
module VarSplit {
  import opened Wrappers
  import opened ByteOrder
  import opened VarGist
  import opened BTreeStrategy
  import opened Sorting
  import opened PageEntries

  /** gbt_vsrt_cmp, as "not after" */
  predicate NotAfter(a: Entry<VarKey>, b: Entry<VarKey>) {
    var res := Cmp(a.key.lower, b.key.lower);
    if res == 0 then Cmp(a.key.upper, b.key.upper) <= 0 else res < 0
  }

  lemma NotAfterIsTotal()
    ensures TotalPreorder(NotAfter)
  {
    forall a: Entry<VarKey>, b: Entry<VarKey> ensures NotAfter(a, b) || NotAfter(b, a) {
      CmpFlips(a.key.lower, b.key.lower);
      CmpFlips(a.key.upper, b.key.upper);
    }
    forall a: Entry<VarKey>, b: Entry<VarKey>, c: Entry<VarKey> | NotAfter(a, b) && NotAfter(b, c)
      ensures NotAfter(a, c)
    {
      NotAfterTransitive(a, b, c);
    }
  }

  /** Keys in the order of their lower and, where these agree, of their upper bounds. */
  lemma NotAfterIff(a: Entry<VarKey>, b: Entry<VarKey>)
    ensures NotAfter(a, b)
       <==> Le(a.key.lower, b.key.lower) && (a.key.lower == b.key.lower ==> Le(a.key.upper, b.key.upper))
  {
    CmpFlips(a.key.lower, b.key.lower);
  }

  lemma NotAfterTransitive(a: Entry<VarKey>, b: Entry<VarKey>, c: Entry<VarKey>)
    requires NotAfter(a, b) && NotAfter(b, c)
    ensures NotAfter(a, c)
  {
    var x, y, z := a.key.lower, b.key.lower, c.key.lower;
    CmpFlips(x, y);
    CmpFlips(y, z);
    CmpFlips(x, z);
    Transitive(x, y, z);
    if x == z {
      Total(x, y);
      Transitive(a.key.upper, b.key.upper, c.key.upper);
    }
  }

  function HullOf(ks: seq<VarKey>): VarKey
    requires ks != []
  {
    Hull(ks[0], ks[1..])
  }

  /** The range of one half, cut. */
  function SideKey(ks: seq<VarKey>, cpf: nat): VarKey
    requires ks != []
  {
    Truncate(HullOf(ks), cpf)
  }

  // ----- what a half's key covers -----

  /** Every byte after the first n is as large as a byte can be. */
  predicate AllOnes(x: Bytes, n: nat) {
    forall i :: n <= i < |x| ==> x[i] == 255
  }

  /** Entry e of a half whose greatest upper bound is given loses nothing when the half is cut
      to cpf + 1 bytes: e's own upper bound cannot have been cut, or the greatest one does
      not continue it, before the cut, with a byte that some value could exceed. */
  predicate Safe(e: VarKey, upper: Bytes, cpf: nat) {
    Cuttable(e) && e.upper <= upper ==> forall i :: |e.upper| <= i < |upper| && i <= cpf ==> upper[i] == 255
  }

  ghost predicate LosesNothing(ks: seq<VarKey>, k: VarKey) {
    forall e, x :: e in ks && Covers(e, x) ==> Covers(k, x)
  }

  ghost predicate AllSafe(ks: seq<VarKey>, cpf: nat)
    requires ks != []
  {
    forall e :: e in ks ==> Safe(e, HullOf(ks).upper, cpf)
  }

  /** Values that extend p do not get past p followed by bytes of all ones. */
  lemma OnesCover(p: Bytes, u: Bytes, x: Bytes)
    requires p <= u && AllOnes(u, |p|) && p <= x
    ensures Le(x, u) || u <= x
  {
    var k := Cp(x, u);
    SameBytes(x, u, k);
    if k < |x| && k < |u| {
      assert k >= |p| by { CpAtLeast(x, u, |p|); }
    }
  }

  lemma SafeEntryCovered(ks: seq<VarKey>, cpf: nat, e: VarKey, x: Bytes)
    requires ks != [] && e in ks && Covers(e, x)
    requires cpf >= Cp(HullOf(ks).lower, HullOf(ks).upper) + 1 && Safe(e, HullOf(ks).upper, cpf)
    ensures Covers(SideKey(ks, cpf), x)
  {
    var h := HullOf(ks);
    assert [ks[0]] + ks[1..] == ks;
    HullBounds(ks[0], ks[1..], e);
    Transitive(h.lower, e.lower, x);
    if Le(x, e.upper) {
      Transitive(x, e.upper, h.upper);
      WithinCoveredByCut(h, x, cpf);
    } else if !(e.upper <= h.upper) {
      Extension(e.upper, x, h.upper);
      WithinCoveredByCut(h, x, cpf);
    } else {
      CutBeyond(h, cpf, e, x);
    }
  }

  lemma CutBeyond(h: VarKey, cpf: nat, e: VarKey, x: Bytes)
    requires cpf >= Cp(h.lower, h.upper) + 1 && Safe(e, h.upper, cpf)
    requires Le(h.lower, e.lower) && Le(e.upper, h.upper) && Le(h.lower, x)
    requires e.upper <= h.upper && e.upper <= x && Cuttable(e)
    ensures Covers(Truncate(h, cpf), x)
  {
    var k := Truncate(h, cpf);
    PrefixLe(k.lower, h.lower);
    Transitive(k.lower, h.lower, x);
    CutStaysCuttable(h, cpf, e);
    if e.upper <= k.upper {
      OnesCover(e.upper, k.upper, x);
    }
  }

  lemma CutStaysCuttable(h: VarKey, cpf: nat, e: VarKey)
    requires cpf >= Cp(h.lower, h.upper) + 1 && Cuttable(e)
    requires Le(h.lower, e.lower) && Le(e.upper, h.upper) && e.upper <= h.upper
    ensures Cuttable(Truncate(h, cpf))
  {
    WiderIsShorter(h.lower, e.lower, e.upper, h.upper);
    DifferentBounds(h, e);
    CutLongEnough(h, cpf);
  }

  lemma CutLongEnough(h: VarKey, cpf: nat)
    requires cpf >= Cp(h.lower, h.upper) + 1 && Cuttable(h)
    ensures Cuttable(Truncate(h, cpf))
  {
    CutKeepsCp(h.lower, h.upper, cpf + 1);
  }

  /** The witness of a loss: the half's upper bound with one byte raised. */
  lemma UnsafeEntryLoses(h: VarKey, cpf: nat, e: VarKey) returns (x: Bytes)
    requires !Safe(e, h.upper, cpf)
    ensures Covers(e, x) && !Covers(Truncate(h, cpf), x)
  {
    var u := Truncate(h, cpf).upper;
    var p :| |e.upper| <= p < |h.upper| && p <= cpf && h.upper[p] != 255;
    assert p < |u| && u[p] == h.upper[p];
    x := u[..p] + [255];
    assert e.upper <= x;
    PrefixLe(e.upper, x);
    Transitive(e.lower, e.upper, x);
    CpIs(x, u, p);
  }

  /** A half's key, cut to a common prefix that need not be its own, covers everything its
      entries cover if and only if every entry is safe. */
  lemma SideCoversIff(ks: seq<VarKey>, cpf: nat)
    requires ks != [] && cpf >= Cp(HullOf(ks).lower, HullOf(ks).upper) + 1
    ensures LosesNothing(ks, SideKey(ks, cpf)) <==> AllSafe(ks, cpf)
  {
    var k := SideKey(ks, cpf);
    if AllSafe(ks, cpf) {
      forall e, x | e in ks && Covers(e, x) ensures Covers(k, x) {
        SafeEntryCovered(ks, cpf, e, x);
      }
    } else {
      var e :| e in ks && !Safe(e, HullOf(ks).upper, cpf);
      var x := UnsafeEntryLoses(HullOf(ks), cpf, e);
    }
  }

  /** Rows' own keys are always safe. */
  lemma LeafEntriesSafe(ks: seq<VarKey>, cpf: nat)
    requires ks != [] && cpf >= Cp(HullOf(ks).lower, HullOf(ks).upper) + 1
    requires forall e :: e in ks ==> e.lower == e.upper
    ensures LosesNothing(ks, SideKey(ks, cpf))
  {
    SideCoversIff(ks, cpf);
  }

  // ----- the split -----

  lemma {:induction false} HullIsFold(first: VarKey, rest: seq<VarKey>)
    ensures Hull(first, rest) == Fold(first, rest, BinUnion)
    decreases |rest|
  {
    if rest != [] { HullIsFold(BinUnion(first, rest[0]), rest[1..]); }
  }

  /** The running union of a side is the range of the side. */
  lemma JoinedIsHull(ks: seq<VarKey>)
    requires ks != []
    ensures Joined(ks, BinUnion) == Some(HullOf(ks))
  {
    HullIsFold(ks[0], ks[1..]);
    JoinedIsFold(ks, BinUnion);
  }

  method SortEntries(keys: seq<VarKey>) returns (arr: seq<Entry<VarKey>>)
    ensures multiset(arr) == multiset(Numbered(keys)) && |arr| == |keys| && SortedBy(arr, NotAfter)
  {
    NotAfterIsTotal();
    arr := QSort(Numbered(keys), NotAfter);
  }

  ghost function LongerPrefix(a: VarKey, b: VarKey): nat {
    var cpa, cpb := Cp(a.lower, a.upper), Cp(b.lower, b.upper);
    if cpa < cpb then cpb else cpa
  }

  /** Cut both halves' ranges behind the longer common prefix. */
  method CutSides(lu: VarKey, ru: VarKey) returns (ldatum: VarKey, rdatum: VarKey)
    ensures ldatum == Truncate(lu, LongerPrefix(lu, ru) + 1) && rdatum == Truncate(ru, LongerPrefix(lu, ru) + 1)
  {
    var ll := NodeCpLen(lu);
    var lr := NodeCpLen(ru);
    ll := if ll < lr then lr else ll;
    ll := ll + 1;
    ldatum := Truncate(lu, ll);
    rdatum := Truncate(ru, ll);
  }

  lemma CutsOfSides(lu: VarKey, ru: VarKey, left: seq<VarKey>, right: seq<VarKey>)
    requires left != [] && right != [] && Some(lu) == Joined(left, BinUnion) && Some(ru) == Joined(right, BinUnion)
    ensures Truncate(lu, LongerPrefix(lu, ru) + 1) == SideKey(left, CutLength(left, right))
    ensures Truncate(ru, LongerPrefix(lu, ru) + 1) == SideKey(right, CutLength(left, right))
  {
    JoinedIsHull(left);
    JoinedIsHull(right);
    assert lu == HullOf(left) && ru == HullOf(right);
  }

  method FinishSides(lu: VarKey, ru: VarKey, ghost left: seq<VarKey>, ghost right: seq<VarKey>)
    returns (ldatum: VarKey, rdatum: VarKey)
    requires left != [] && right != [] && Some(lu) == Joined(left, BinUnion) && Some(ru) == Joined(right, BinUnion)
    ensures ldatum == SideKey(left, CutLength(left, right)) && rdatum == SideKey(right, CutLength(left, right))
  {
    CutsOfSides(lu, ru, left, right);
    ldatum, rdatum := CutSides(lu, ru);
  }

  /** Where both halves are cut: one byte is kept beyond this. */
  ghost function CutLength(left: seq<VarKey>, right: seq<VarKey>): nat
    requires left != [] && right != []
  {
    LongerPrefix(HullOf(left), HullOf(right)) + 1
  }

  /** The order of a split: the offsets, left and then right, name the keys in sorted order. */
  predicate InOrder(keys: seq<VarKey>, os: seq<nat>)
    requires InRange(os, |keys|)
  {
    forall i, j :: 0 <= i < j < |os| ==> NotAfter(Entry(os[i], keys[os[i] - 1]), Entry(os[j], keys[os[j] - 1]))
  }

  /** What a split of these keys amounts to: all entries in sorted order, the smaller half to
      the left, and each half with its range, cut behind the longer common prefix. */
  ghost predicate IsSplit(keys: seq<VarKey>, sp: Split<VarKey>) {
    && |keys| >= 2 && Divides(sp, |keys|) && |sp.left| == |keys| / 2 && |sp.right| == |keys| - |keys| / 2
    && InRange(sp.left + sp.right, |keys|) && InOrder(keys, sp.left + sp.right)
    && var left, right := Pick(keys, sp.left), Pick(keys, sp.right);
       sp.ldatum == SideKey(left, CutLength(left, right)) && sp.rdatum == SideKey(right, CutLength(left, right))
  }

  /** No entry of either half is in danger. */
  ghost predicate SafeSplit(keys: seq<VarKey>, sp: Split<VarKey>)
    requires IsSplit(keys, sp)
  {
    var left, right := Pick(keys, sp.left), Pick(keys, sp.right);
    AllSafe(left, CutLength(left, right)) && AllSafe(right, CutLength(left, right))
  }

  /** The two pages cover what the entries covered if and only if every entry is safe. */
  lemma SplitCoversIff(keys: seq<VarKey>, sp: Split<VarKey>)
    requires IsSplit(keys, sp)
    ensures LosesNothing(Pick(keys, sp.left), sp.ldatum) && LosesNothing(Pick(keys, sp.right), sp.rdatum)
       <==> SafeSplit(keys, sp)
  {
    var left, right := Pick(keys, sp.left), Pick(keys, sp.right);
    SideCoversIff(left, CutLength(left, right));
    SideCoversIff(right, CutLength(left, right));
  }

  lemma HalvesInOrder(keys: seq<VarKey>, left: seq<Entry<VarKey>>, right: seq<Entry<VarKey>>)
    requires multiset(left) + multiset(right) == multiset(Numbered(keys)) && SortedBy(left + right, NotAfter)
    ensures InRange(OffsetsOf(left) + OffsetsOf(right), |keys|) && InOrder(keys, OffsetsOf(left) + OffsetsOf(right))
  {
    HalvesByOffset(keys, left, right);
    var all, os := left + right, OffsetsOf(left) + OffsetsOf(right);
    forall i | 0 <= i < |os| ensures 1 <= os[i] <= |keys| && all[i] == Entry(os[i], keys[os[i] - 1]) {
      if i < |left| {
        assert KeysOf(left)[i] == keys[os[i] - 1];
      } else {
        assert KeysOf(right)[i - |left|] == keys[os[i] - 1];
      }
    }
  }

  /** Split the entries of an overfull page. */
  method Picksplit(keys: seq<VarKey>) returns (sp: Split<VarKey>)
    requires |keys| >= 2
    ensures IsSplit(keys, sp)
  {
    var arr := SortEntries(keys);
    var left, right, lu, ru := Halve(arr, BinUnion);
    HalvesInOrder(keys, left, right);
    HalvesByOffset(keys, left, right);
    var ldatum, rdatum := FinishSides(lu.value, ru.value, KeysOf(left), KeysOf(right));
    sp := Split(OffsetsOf(left), OffsetsOf(right), ldatum, rdatum);
  }

  // ----- a split that loses a row -----

  const ROW: Bytes := [97, 99, 122, 122]
  const LOW: Bytes := [97, 97]
  const NEXT1: Bytes := [97, 99, 122, 98]
  const NEXT2: Bytes := [97, 99, 122, 99]
  const FAR1: Bytes := [100, 100, 100]
  const FAR2: Bytes := [100, 100, 101]

  /** The key of a page with two rows. */
  function PairKey(a: Bytes, b: Bytes): VarKey {
    Union(LeafKey(a), [LeafKey(b)])
  }

  /** The keys of four pages. The first was cut below a row it covers; the last two make the
      longer common prefix. */
  const PAGE: seq<VarKey> := [PairKey(LOW, ROW), PairKey(NEXT1, NEXT2), PairKey(FAR1, FAR1), PairKey(FAR2, FAR2)]

  /** The bounds of those keys. */
  predicate LosingPage(ks: seq<VarKey>) {
    && |ks| == 4
    && ks[0].lower == [97, 97] && ks[0].upper == [97, 99, 122]
    && ks[1].lower == [97, 99, 122, 98] && ks[1].upper == [97, 99, 122, 99]
    && ks[2].lower == ks[2].upper == [100, 100, 100]
    && ks[3].lower == ks[3].upper == [100, 100, 101]
  }

  lemma PageLoses()
    ensures LosingPage(PAGE) && Covers(PairKey(LOW, ROW), ROW)
  {
    FirstKey();
    CpIs(NEXT1, NEXT2, 3);
    UnionOfTwo(NEXT1, NEXT2, 3);
    UnionOfSame(FAR1);
    UnionOfSame(FAR2);
  }

  lemma FirstKey()
    ensures PairKey(LOW, ROW) == Range([97, 97], [97, 99, 122]) && Covers(PairKey(LOW, ROW), ROW)
  {
    CpIs(LOW, ROW, 1);
    UnionOfTwo(LOW, ROW, 1);
    UnionCovers(LeafKey(LOW), [LeafKey(ROW)], LeafKey(ROW), ROW) by { Total(ROW, ROW); }
  }

  lemma UnionOfSame(x: Bytes)
    ensures PairKey(x, x) == LeafKey(x)
  {
    CpIs(x, x, |x|);
    Total(x, x);
    UnionOfTwo(x, x, |x|);
  }

  /** Splitting that page loses the row: the left half's key turns a search for it away. */
  lemma SplitCanLoseRow(sp: Split<VarKey>)
    requires IsSplit(PAGE, sp)
    ensures sp.left == [1, 2] && sp.right == [3, 4] && Covers(PairKey(LOW, ROW), ROW)
    ensures !PageConsistent(sp.ldatum, Equal, ROW)
  {
    PageLoses();
    LeftKeyRejects(PAGE, sp);
  }

  lemma LeftKeyRejects(ks: seq<VarKey>, sp: Split<VarKey>)
    requires LosingPage(ks) && IsSplit(ks, sp)
    ensures sp.left == [1, 2] && sp.right == [3, 4] && !PageConsistent(sp.ldatum, Equal, ROW)
  {
    LosingPageIsStrict(ks);
    OnlyOrder(ks, sp);
    var left, right := Pick(ks, sp.left), Pick(ks, sp.right);
    assert left == [ks[0], ks[1]] && right == [ks[2], ks[3]];
    LosingCut(ks);
    RejectedKey(sp.ldatum);
  }

  lemma LosingCut(ks: seq<VarKey>)
    requires LosingPage(ks)
    ensures var left, right := [ks[0], ks[1]], [ks[2], ks[3]];
            SideKey(left, CutLength(left, right)) == Range([97, 97], [97, 99, 122, 99])
  {
    LeftRange(ks);
    RightRange(ks);
    CpIs([97, 97], [97, 99, 122, 99], 1);
  }

  /** Keys that differ in byte p of their lower bounds have one order only. */
  lemma StrictByLower(a: Entry<VarKey>, b: Entry<VarKey>, p: nat)
    requires p < |a.key.lower| && p < |b.key.lower| && a.key.lower[..p] == b.key.lower[..p]
    requires a.key.lower[p] < b.key.lower[p]
    ensures !NotAfter(b, a)
  {
    SameSlices(a.key.lower, b.key.lower, p);
    CpIs(b.key.lower, a.key.lower, p);
  }

  lemma SameSlices(a: Bytes, b: Bytes, p: nat)
    requires p <= |a| && p <= |b| && a[..p] == b[..p]
    ensures forall i :: 0 <= i < p ==> a[i] == b[i]
  {
    forall i | 0 <= i < p ensures a[i] == b[i] { assert a[..p][i] == b[..p][i]; }
  }

  lemma PageIsStrict(ks: seq<VarKey>, a: nat, b: nat)
    requires LosingPage(ks) && 1 <= a < b <= 4
    ensures !NotAfter(Entry(b, ks[b - 1]), Entry(a, ks[a - 1]))
  {
    StrictByLower(Entry(a, ks[a - 1]), Entry(b, ks[b - 1]), if a == 3 then 2 else if b == 2 then 1 else 0);
  }

  lemma TwiceInBag(q: seq<nat>, i: nat, j: nat)
    requires i < j < |q| && q[i] == q[j]
    ensures multiset(q)[q[i]] >= 2
  {
    assert q == q[..i] + [q[i]] + q[i + 1..j] + [q[j]] + q[j + 1..];
  }

  lemma NoOffsetTwice(q: seq<nat>, i: nat, j: nat)
    requires multiset(q) == multiset(Offsets(4)) && i < j < |q|
    ensures q[i] != q[j]
  {
    assert Offsets(4) == [1, 2, 3, 4];
    if q[i] == q[j] { TwiceInBag(q, i, j); }
  }

  lemma FourAscending(q: seq<nat>)
    requires |q| == 4 && InRange(q, 4) && q[0] < q[1] < q[2] < q[3]
    ensures q == [1, 2, 3, 4]
  {
  }

  /** Entry b cannot stand before entry a. */
  predicate After(ks: seq<VarKey>, b: nat, a: nat)
    requires 1 <= a <= |ks| && 1 <= b <= |ks|
  {
    !NotAfter(Entry(b, ks[b - 1]), Entry(a, ks[a - 1]))
  }

  /** The keys have one order only. */
  ghost predicate Strict(ks: seq<VarKey>) {
    forall a, b :: 1 <= a < b <= |ks| ==> After(ks, b, a)
  }

  lemma LosingPageIsStrict(ks: seq<VarKey>)
    requires LosingPage(ks)
    ensures Strict(ks)
  {
    forall a, b | 1 <= a < b <= |ks| ensures After(ks, b, a) { PageIsStrict(ks, a, b); }
  }

  lemma AscendingPair(ks: seq<VarKey>, q: seq<nat>, i: nat, j: nat)
    requires |ks| == 4 && Strict(ks) && InRange(q, 4) && InOrder(ks, q) && multiset(q) == multiset(Offsets(4))
    requires i < j < |q|
    ensures q[i] < q[j]
  {
    NoOffsetTwice(q, i, j);
    assert !After(ks, q[i], q[j]);
  }

  lemma SplitInOrder(ks: seq<VarKey>, sp: Split<VarKey>)
    requires |ks| == 4 && IsSplit(ks, sp)
    ensures |sp.left| == 2 && |sp.right| == 2 && InRange(sp.left + sp.right, 4)
    ensures InOrder(ks, sp.left + sp.right) && multiset(sp.left + sp.right) == multiset(Offsets(4))
  {
  }

  lemma OrderOfFour(ks: seq<VarKey>, q: seq<nat>)
    requires |ks| == 4 && |q| == 4 && Strict(ks) && InRange(q, 4) && InOrder(ks, q)
    requires multiset(q) == multiset(Offsets(4))
    ensures q == [1, 2, 3, 4]
  {
    AscendingPair(ks, q, 0, 1);
    AscendingPair(ks, q, 1, 2);
    AscendingPair(ks, q, 2, 3);
    FourAscending(q);
  }

  lemma OnlyOrder(ks: seq<VarKey>, sp: Split<VarKey>)
    requires |ks| == 4 && Strict(ks) && IsSplit(ks, sp)
    ensures sp.left == [1, 2] && sp.right == [3, 4]
  {
    SplitInOrder(ks, sp);
    OrderOfFour(ks, sp.left + sp.right);
    TwoAndTwo(sp.left, sp.right);
  }

  lemma TwoAndTwo(left: seq<nat>, right: seq<nat>)
    requires |left| == 2 && left + right == [1, 2, 3, 4]
    ensures left == [1, 2] && right == [3, 4]
  {
    assert left == (left + right)[..2] && right == (left + right)[2..];
  }

  lemma LeftRange(ks: seq<VarKey>)
    requires LosingPage(ks)
    ensures HullOf([ks[0], ks[1]]).lower == [97, 97] && HullOf([ks[0], ks[1]]).upper == [97, 99, 122, 99]
  {
    CpIs(ks[0].lower, ks[1].lower, 1);
    CpIs(ks[0].upper, ks[1].upper, 3);
    TwoKeys(ks[0], ks[1]);
  }

  lemma RightRange(ks: seq<VarKey>)
    requires LosingPage(ks)
    ensures var h := HullOf([ks[2], ks[3]]); Cp(h.lower, h.upper) == 2
  {
    CpIs(ks[2].lower, ks[3].lower, 2);
    TwoKeys(ks[2], ks[3]);
  }

  lemma RejectedKey(k: VarKey)
    requires k == Range([97, 97], [97, 99, 122, 99])
    ensures !PageConsistent(k, Equal, ROW)
  {
    CpIs(ROW, k.upper, 3);
    assert ROW[..2][1] != k.lower[1] && ROW[..4][3] != k.upper[3];
  }

  lemma TwoKeys(k1: VarKey, k2: VarKey)
    ensures HullOf([k1, k2]) == BinUnion(k1, k2)
  {
    var ks := [k1, k2];
    assert ks[1..] == [k2];
    assert HullOf(ks) == Hull(BinUnion(k1, k2), ks[1..][1..]);
  }

  /** The union of two rows whose keys are too short to be cut, or are cut. */
  lemma UnionOfTwo(a: Bytes, b: Bytes, cp: nat)
    requires Cp(a, b) == cp && Le(a, b)
    ensures Union(LeafKey(a), [LeafKey(b)]) == Range(Cut(a, cp + 2), Cut(b, cp + 2))
  {
    var bs := [LeafKey(b)];
    CmpFlips(a, b);
    assert Hull(LeafKey(a), bs) == Hull(BinUnion(LeafKey(a), bs[0]), bs[1..]) == Range(a, b);
  }
}
