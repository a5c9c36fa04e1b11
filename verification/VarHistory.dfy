/** Indexes on bytea whose splits need not be safe. A split can leave a key that covers less than
    there is below it and lets every search through all the same. Whether a later split of its
    page does so, too, depends on that; so each key is given a mark that says it was made by
    such a split. The mark is bookkeeping: nothing the index does looks at it.
 */
module VarHistory {
  import opened ByteOrder
  import opened Gist
  import opened GistRuns
  import opened GistMaps
  import opened PageEntries
  import opened BTreeStrategy
  import opened VarGist
  import opened VarSplit
  import opened VarReach

  datatype Marked = Marked(key: VarKey, wide: bool)

  /** Value x may lie below a page with this key. */
  predicate Holds(m: Marked, x: Bytes) {
    if m.wide then Reaches(m.key, x) else Covers(m.key, x)
  }

  function Unmarked(): Marked -> VarKey {
    (m: Marked) => m.key
  }

  function MarkedUnion(m: Marked, ms: seq<Marked>): Marked {
    Marked(Union(m.key, MapSeq(ms, Unmarked())), false)
  }

  const MARKED_OPS: OpClass<Marked, Bytes> := OpClass(x => Marked(LeafKey(x), false), MarkedUnion, Holds)

  lemma HeldIsReached(m: Marked, x: Bytes)
    requires Holds(m, x)
    ensures Reaches(m.key, x)
  {
    if !m.wide { CoveredIsReached(m.key, x); }
  }

  /** A union needs no mark, whatever its members were. */
  lemma OpsSound()
    ensures MARKED_OPS.Sound()
  {
    forall x: Bytes ensures Holds(Marked(LeafKey(x), false), x) { Total(x, x); }
    forall m: Marked, ms: seq<Marked>, x: Bytes | exists e :: e in [m] + ms && Holds(e, x)
      ensures Holds(MarkedUnion(m, ms), x)
    {
      var e :| e in [m] + ms && Holds(e, x);
      HeldIsReached(e, x);
      var ks := MapSeq(ms, Unmarked());
      if e != m {
        var i :| 0 <= i < |ms| && ms[i] == e;
        assert ks[i] == e.key;
      }
      UnionHeals(m.key, ks, e.key, x);
    }
  }

  // ----- one half of a split -----

  predicate SafeFor(m: Marked, upper: Bytes, cpf: nat) {
    if m.wide then StemSafe(m.key, upper, cpf) else Safe(m.key, upper, cpf)
  }

  ghost predicate AllSafeFor(ms: seq<Marked>, cpf: nat)
    requires ms != []
  {
    forall m :: m in ms ==> SafeFor(m, HullOf(MapSeq(ms, Unmarked())).upper, cpf)
  }

  /** The least lower bound is a prefix of the greatest upper bound. */
  ghost predicate PrefixSide(ms: seq<Marked>)
    requires ms != []
  {
    var h := HullOf(MapSeq(ms, Unmarked()));
    h.lower <= h.upper
  }

  ghost predicate FindsAll(ms: seq<Marked>, k: VarKey) {
    forall m, x :: m in ms && Holds(m, x) ==> Finds(k, x)
  }

  lemma KeyIsMember(ms: seq<Marked>, m: Marked)
    requires m in ms
    ensures m.key in MapSeq(ms, Unmarked())
  {
    var i :| 0 <= i < |ms| && ms[i] == m;
    assert MapSeq(ms, Unmarked())[i] == m.key;
  }

  lemma HeldBySafeHalf(ms: seq<Marked>, cpf: nat, m: Marked, x: Bytes)
    requires ms != [] && m in ms && Holds(m, x) && SafeFor(m, HullOf(MapSeq(ms, Unmarked())).upper, cpf)
    requires var h := HullOf(MapSeq(ms, Unmarked())); cpf >= Cp(h.lower, h.upper) + 1
    ensures Covers(SideKey(MapSeq(ms, Unmarked()), cpf), x)
  {
    var ks := MapSeq(ms, Unmarked());
    KeyIsMember(ms, m);
    if m.wide {
      StemSafeEntryCovered(ks, cpf, m.key, x);
    } else {
      SafeEntryCovered(ks, cpf, m.key, x);
    }
  }

  lemma HeldByPrefixHalf(ms: seq<Marked>, cpf: nat, m: Marked, x: Bytes)
    requires ms != [] && m in ms && Holds(m, x) && PrefixSide(ms)
    requires var h := HullOf(MapSeq(ms, Unmarked())); cpf >= Cp(h.lower, h.upper) + 1
    ensures Reaches(SideKey(MapSeq(ms, Unmarked()), cpf), x)
  {
    KeyIsMember(ms, m);
    HeldIsReached(m, x);
    PrefixSideReaches(MapSeq(ms, Unmarked()), cpf, m.key, x);
  }

  lemma HeldAndMissed(ms: seq<Marked>, cpf: nat, m: Marked) returns (x: Bytes)
    requires ms != [] && m in ms && !PrefixSide(ms) && !SafeFor(m, HullOf(MapSeq(ms, Unmarked())).upper, cpf)
    ensures Holds(m, x) && !Finds(SideKey(MapSeq(ms, Unmarked()), cpf), x)
  {
    var ks := MapSeq(ms, Unmarked());
    KeyIsMember(ms, m);
    if m.wide {
      x := ReachedAndMissed(ks, cpf, m.key);
    } else {
      x := UnsafeEntryIsMissed(ks, cpf, m.key);
      assert Matches(Equal, x, x);
    }
  }

  /** Whatever splits the entries have been through: a half's key turns away no search for a value
      they hold if and only if all are safe for what they hold or the half's least lower bound is
      a prefix of its greatest upper bound. */
  lemma SideFindsIff(ms: seq<Marked>, cpf: nat)
    requires ms != []
    requires var h := HullOf(MapSeq(ms, Unmarked())); cpf >= Cp(h.lower, h.upper) + 1
    ensures FindsAll(ms, SideKey(MapSeq(ms, Unmarked()), cpf)) <==> AllSafeFor(ms, cpf) || PrefixSide(ms)
  {
    var k := SideKey(MapSeq(ms, Unmarked()), cpf);
    if AllSafeFor(ms, cpf) || PrefixSide(ms) {
      forall m, x | m in ms && Holds(m, x) ensures Finds(k, x) {
        if PrefixSide(ms) {
          HeldByPrefixHalf(ms, cpf, m, x);
        } else {
          HeldBySafeHalf(ms, cpf, m, x);
          CoveredIsReached(k, x);
        }
        ReachedIsFound(k, x);
      }
    } else {
      var m :| m in ms && !SafeFor(m, HullOf(MapSeq(ms, Unmarked())).upper, cpf);
      var x := HeldAndMissed(ms, cpf, m);
    }
  }

  // ----- whole histories -----

  /** The half is marked just if some entry is not safe, which only a prefix makes up for. */
  ghost predicate SideFits(ms: seq<Marked>, cpf: nat, m: Marked)
    requires ms != []
  {
    (AllSafeFor(ms, cpf) || PrefixSide(ms)) && m.wide == !AllSafeFor(ms, cpf)
  }

  /** A split as gbt_var_picksplit makes it that turns no search away. */
  ghost predicate FindingSplitOf(ms: seq<Marked>, sp: Split<Marked>) {
    && IsSplit(MapSeq(ms, Unmarked()), MapSplit(sp, Unmarked()))
    && var ls, rs := Pick(ms, sp.left), Pick(ms, sp.right);
       var cpf := CutLength(MapSeq(ls, Unmarked()), MapSeq(rs, Unmarked()));
       SideFits(ls, cpf, sp.ldatum) && SideFits(rs, cpf, sp.rdatum)
  }

  ghost function FindingSplits(): Splitter<Marked> {
    (ms: seq<Marked>, sp: Split<Marked>) => FindingSplitOf(ms, sp)
  }

  lemma SideHolds(ms: seq<Marked>, cpf: nat, m: Marked, e: Marked, x: Bytes)
    requires ms != [] && SideFits(ms, cpf, m) && m.key == SideKey(MapSeq(ms, Unmarked()), cpf)
    requires var h := HullOf(MapSeq(ms, Unmarked())); cpf >= Cp(h.lower, h.upper) + 1
    requires e in ms && Holds(e, x)
    ensures Holds(m, x)
  {
    if m.wide {
      HeldByPrefixHalf(ms, cpf, e, x);
    } else {
      HeldBySafeHalf(ms, cpf, e, x);
    }
  }

  lemma SideIsHolding(ms: seq<Marked>, os: seq<nat>, cpf: nat, m: Marked)
    requires InRange(os, |ms|) && os != [] && SideFits(Pick(ms, os), cpf, m)
    requires m.key == SideKey(MapSeq(Pick(ms, os), Unmarked()), cpf)
    requires var h := HullOf(MapSeq(Pick(ms, os), Unmarked())); cpf >= Cp(h.lower, h.upper) + 1
    ensures SideCovers(ms, os, m, MARKED_OPS)
  {
    forall i, x | 0 <= i < |os| && Holds(ms[os[i] - 1], x) ensures Holds(m, x) {
      assert Pick(ms, os)[i] in Pick(ms, os);
      SideHolds(Pick(ms, os), cpf, m, Pick(ms, os)[i], x);
    }
  }

  lemma PickedKeys(ms: seq<Marked>, os: seq<nat>)
    requires InRange(os, |ms|)
    ensures MapSeq(Pick(ms, os), Unmarked()) == Pick(MapSeq(ms, Unmarked()), os)
  {
  }

  lemma SplitIsSound(ms: seq<Marked>, sp: Split<Marked>)
    requires FindingSplitOf(ms, sp)
    ensures SplitSound(ms, sp, MARKED_OPS)
  {
    PickedKeys(ms, sp.left);
    PickedKeys(ms, sp.right);
    var cpf := CutLength(MapSeq(Pick(ms, sp.left), Unmarked()), MapSeq(Pick(ms, sp.right), Unmarked()));
    SideIsHolding(ms, sp.left, cpf, sp.ldatum);
    SideIsHolding(ms, sp.right, cpf, sp.rdatum);
  }

  lemma SplitsAreSound()
    ensures SplitsSound(FindingSplits(), MARKED_OPS)
  {
    forall ms: seq<Marked>, sp: Split<Marked> | FindingSplitOf(ms, sp) ensures SplitSound(ms, sp, MARKED_OPS) {
      SplitIsSound(ms, sp);
    }
  }

  /** The tree as the index has it. */
  function Plain(ts: seq<Tree<Marked, Bytes>>): seq<Tree<VarKey, Bytes>> {
    Mapped(ts, Unmarked())
  }

  ghost function Splits(): Splitter<VarKey> {
    (ks: seq<VarKey>, sp: Split<VarKey>) => IsSplit(ks, sp)
  }

  /** Leaving the marks out, a history is one of the index. */
  lemma PlainRuns(start: seq<Tree<Marked, Bytes>>, steps: seq<Step<Marked, Bytes>>, ts: seq<Tree<Marked, Bytes>>)
    requires Built(start, MARKED_OPS) && Runs(start, steps, ts, MARKED_OPS, FindingSplits())
    ensures Built(Plain(start), BYTEA_OPS)
    ensures Runs(Plain(start), MapSteps(steps, Unmarked()), Plain(ts), BYTEA_OPS, Splits())
  {
    MappedBuilt(start, MARKED_OPS, BYTEA_OPS, Unmarked());
    MappedRuns(start, steps, ts, MARKED_OPS, BYTEA_OPS, FindingSplits(), Splits(), Unmarked());
  }

  lemma SearchHeld(ts: seq<Tree<Marked, Bytes>>, s: Strategy, query: Bytes)
    requires Covered(ts, Holds)
    ensures Scan(Plain(ts), k => PageConsistent(k, s, query), x => LeafConsistent(LeafKey(x), s, query))
         == Filter(Leaves(Plain(ts)), x => Matches(s, x, query))
  {
    forall m: Marked, x: Bytes | Holds(m, x) ensures Reaches(Unmarked()(m), x) { HeldIsReached(m, x); }
    MappedCovered(ts, Unmarked(), Holds, Reaches);
    forall k: VarKey, x: Bytes | Reaches(k, x) && Matches(s, x, query) ensures PageConsistent(k, s, query) {
      ReachedIsFound(k, x);
    }
    SearchThrough(Plain(ts), Reaches, s, query);
  }

  /** An index that has seen any number of insertions, and of splits that turn no search away though
      they may leave keys that do not cover all their rows, starting empty or from a tree built by
      union, holds the rows put into it, and every search of it returns exactly those that satisfy
      the operator. */
  lemma SearchStaysExact(start: seq<Tree<Marked, Bytes>>, steps: seq<Step<Marked, Bytes>>,
                         ts: seq<Tree<Marked, Bytes>>, s: Strategy, query: Bytes)
    requires Built(start, MARKED_OPS) && Runs(start, steps, ts, MARKED_OPS, FindingSplits())
    ensures multiset(Leaves(Plain(ts))) == multiset(Leaves(Plain(start))) + Added(steps)
    ensures Scan(Plain(ts), k => PageConsistent(k, s, query), x => LeafConsistent(LeafKey(x), s, query))
         == Filter(Leaves(Plain(ts)), x => Matches(s, x, query))
  {
    OpsSound();
    SplitsAreSound();
    BuiltIsCovered(start, MARKED_OPS);
    RunKeepsCovered(start, steps, ts, MARKED_OPS, FindingSplits());
    MappedLeaves(start, Unmarked());
    MappedLeaves(ts, Unmarked());
    SearchHeld(ts, s, query);
  }
}
