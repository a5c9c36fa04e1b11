/** What acceptance by is_foreign_expr guarantees: every collation that matters comes from a
    column of the foreign table, and the order of a node's inputs does not matter.
 */
module ForeignCollation {
  import opened Wrappers
  import opened Sequences
  import opened RemoteExpr
  import opened ForeignWalker

  /** The direct subexpressions of a node. */
  function Children(e: Expr): (cs: seq<Expr>)
    ensures forall c :: c in cs ==> c < e
  {
    match e
    case ArrayRef(r, u, l, _, _, _) => u + l + [r]
    case FuncExpr(_, args, _, _, _, _, _, _) => args
    case OpExpr(_, args, _, _, _) => args
    case DistinctExpr(_, args, _, _) => args
    case ScalarArrayOpExpr(_, _, args, _) => args
    case RelabelType(arg, _, _, _, _) => [arg]
    case BoolExpr(_, args) => args
    case NullTest(arg, _, _) => [arg]
    case ArrayExpr(elements, _, _) => elements
    case Aggref(_, args, _, _, _, _) => args
    case _ => []
  }

  /** The collation a node uses on its inputs, if it uses one. */
  function InputCollation(e: Expr): Oid {
    match e
    case FuncExpr(_, _, _, _, _, _, incoll, _) => incoll
    case OpExpr(_, _, _, incoll, _) => incoll
    case DistinctExpr(_, _, incoll, _) => incoll
    case ScalarArrayOpExpr(_, _, _, incoll) => incoll
    case Aggref(_, _, _, _, incoll, _) => incoll
    case _ => INVALID_OID
  }

  /** A column of the foreign table with this collation is in e. */
  ghost predicate HasForeignVar(g: Glob, e: Expr, coll: Oid)
    decreases e
  {
    (IsForeignVar(g, e) && e.coll == coll) || exists c :: c in Children(e) && HasForeignVar(g, c, coll)
  }

  ghost predicate SomeHasForeignVar(g: Glob, es: seq<Expr>, coll: Oid) {
    exists c :: c in es && HasForeignVar(g, c, coll)
  }

  /** Every node of e that uses a collation uses that of a foreign column beneath it. */
  ghost predicate CollationsForeign(g: Glob, e: Expr)
    decreases e
  {
    && (InputCollation(e) != INVALID_OID ==> SomeHasForeignVar(g, Children(e), InputCollation(e)))
    && forall c :: c in Children(e) ==> CollationsForeign(g, c)
  }

  // ----- safe collations are foreign -----

  /** A safe context names a valid collation that one of the expressions got from a column. */
  ghost predicate Backed(g: Glob, es: seq<Expr>, c: Cxt) {
    c.state == Safe ==> c.coll != INVALID_OID && SomeHasForeignVar(g, es, c.coll)
  }

  lemma BackedByMore(g: Glob, es: seq<Expr>, fs: seq<Expr>, c: Cxt)
    requires Backed(g, es, c) && forall e :: e in es ==> e in fs
    ensures Backed(g, fs, c)
  {
    if c.state == Safe {
      var e :| e in es && HasForeignVar(g, e, c.coll);
      assert e in fs;
    }
  }

  lemma BackedMerge(g: Glob, es: seq<Expr>, a: Cxt, b: Cxt)
    requires Backed(g, es, a) && Backed(g, es, b)
    ensures Backed(g, es, Merge(a, b))
  {
  }

  lemma {:induction false} ListBacked(g: Glob, es: seq<Expr>, all: seq<Expr>, acc: Cxt)
    requires Backed(g, all, acc) && WalkList(g, es, acc).Some? && forall e :: e in es ==> e in all
    ensures Backed(g, all, WalkList(g, es, acc).value)
    decreases es, 2
  {
    if es != [] {
      WalkBacked(g, es[0]);
      var c := Walk(g, es[0]).value;
      BackedByMore(g, [es[0]], all, c);
      BackedMerge(g, all, acc, c);
      ListBacked(g, es[1..], all, Merge(acc, c));
    }
  }

  /** From the inputs to the node that derives its collation from them. */
  lemma DerivedBacked(g: Glob, e: Expr, inner: Cxt, coll: Oid)
    requires Backed(g, Children(e), inner)
    ensures Backed(g, [e], Derived(coll, inner))
  {
    if Derived(coll, inner).state == Safe {
      var c :| c in Children(e) && HasForeignVar(g, c, coll);
      assert HasForeignVar(g, e, coll);
      assert e in [e];
    }
  }

  lemma {:induction false} WalkBacked(g: Glob, e: Expr)
    requires Walk(g, e).Some?
    ensures Backed(g, [e], Walk(g, e).value)
    decreases e, 1
  {
    var cs := Children(e);
    match e {
      case Var(_, _, _, _, _, coll) =>
        if IsForeignVar(g, e) { assert HasForeignVar(g, e, coll) && e in [e]; }
      case ArrayRef(r, u, l, _, _, coll) =>
        ListBacked(g, u, cs, NOTHING);
        ListBacked(g, l, cs, NOTHING);
        WalkBacked(g, r);
        BackedByMore(g, [r], cs, Walk(g, r).value);
        var uc, lc, rc := WalkList(g, u, NOTHING).value, WalkList(g, l, NOTHING).value, Walk(g, r).value;
        BackedMerge(g, cs, NOTHING, uc);
        BackedMerge(g, cs, Merge(NOTHING, uc), lc);
        BackedMerge(g, cs, Merge(Merge(NOTHING, uc), lc), rc);
        DerivedBacked(g, e, Merge(Merge(Merge(NOTHING, uc), lc), rc), coll);
      case RelabelType(arg, _, _, _, coll) =>
        WalkBacked(g, arg);
        BackedMerge(g, cs, NOTHING, Walk(g, arg).value);
        DerivedBacked(g, e, Merge(NOTHING, Walk(g, arg).value), coll);
      case FuncExpr(_, args, _, _, _, _, _, coll) =>
        ListBacked(g, args, args, NOTHING);
        DerivedBacked(g, e, WalkList(g, args, NOTHING).value, coll);
      case OpExpr(_, args, _, _, coll) =>
        ListBacked(g, args, args, NOTHING);
        DerivedBacked(g, e, WalkList(g, args, NOTHING).value, coll);
      case DistinctExpr(_, args, _, coll) =>
        ListBacked(g, args, args, NOTHING);
        DerivedBacked(g, e, WalkList(g, args, NOTHING).value, coll);
      case ArrayExpr(elements, _, coll) =>
        ListBacked(g, elements, elements, NOTHING);
        DerivedBacked(g, e, WalkList(g, elements, NOTHING).value, coll);
      case Aggref(_, args, _, _, _, coll) =>
        ListBacked(g, args, args, NOTHING);
        DerivedBacked(g, e, WalkList(g, args, NOTHING).value, coll);
      case _ =>
    }
  }

  // ----- accepted expressions -----

  lemma {:induction false} ListAccepted(g: Glob, es: seq<Expr>, acc: Cxt, e: Expr)
    requires WalkList(g, es, acc).Some? && e in es
    ensures Walk(g, e).Some?
    decreases |es|
  {
    if e != es[0] { ListAccepted(g, es[1..], Merge(acc, Walk(g, es[0]).value), e); }
  }

  lemma ChildrenAccepted(g: Glob, e: Expr, c: Expr)
    requires Walk(g, e).Some? && c in Children(e)
    ensures Walk(g, c).Some?
  {
    match e {
      case ArrayRef(r, u, l, _, _, _) =>
        if c in u { ListAccepted(g, u, NOTHING, c); } else if c in l { ListAccepted(g, l, NOTHING, c); }
      case RelabelType(_, _, _, _, _) =>
      case NullTest(_, _, _) =>
      case _ => ListAccepted(g, Children(e), NOTHING, c);
    }
  }

  lemma {:induction false} WalkCollations(g: Glob, e: Expr)
    requires Walk(g, e).Some?
    ensures CollationsForeign(g, e)
    decreases e
  {
    forall c | c in Children(e) ensures CollationsForeign(g, c) {
      ChildrenAccepted(g, e, c);
      WalkCollations(g, c);
    }
    if InputCollation(e) != INVALID_OID { ListBacked(g, Children(e), Children(e), NOTHING); }
  }

  /** Every collation an accepted expression uses, and the one it yields, is that of a foreign
      column in it. */
  lemma AcceptedCollations(g: Glob, e: Expr)
    requires IsForeignExpr(g, e)
    ensures CollationsForeign(g, e)
    ensures var c := Walk(g, e).value;
            c.state != Unsafe && (c.state == Safe ==> HasForeignVar(g, e, c.coll))
  {
    WalkCollations(g, e);
    WalkBacked(g, e);
  }

  // ----- the order of the inputs -----

  /** The inputs' verdicts joined. */
  function JoinAll(g: Glob, es: seq<Expr>): Verdict
    requires forall e :: e in es ==> Walk(g, e).Some?
  {
    if es == [] then Nothing else Join(Meaning(Walk(g, es[0]).value), JoinAll(g, es[1..]))
  }

  lemma {:induction false} WalkListIsJoin(g: Glob, es: seq<Expr>, acc: Cxt)
    ensures WalkList(g, es, acc).Some? <==> forall e :: e in es ==> Walk(g, e).Some?
    ensures WalkList(g, es, acc).Some? ==>
              Meaning(WalkList(g, es, acc).value) == Join(Meaning(acc), JoinAll(g, es))
    decreases |es|
  {
    if es == [] {
      JoinLaws(Meaning(acc), Nothing, Nothing);
    } else {
      var w := Walk(g, es[0]);
      assert es[0] in es;
      if w.Some? {
        WalkListIsJoin(g, es[1..], Merge(acc, w.value));
        MergeIsJoin(acc, w.value);
        if WalkList(g, es, acc).Some? { JoinLaws(Meaning(acc), Meaning(w.value), JoinAll(g, es[1..])); }
      }
    }
  }

  lemma {:induction false} JoinAllAt(g: Glob, es: seq<Expr>, k: nat)
    requires k < |es| && forall e :: e in es ==> Walk(g, e).Some?
    ensures JoinAll(g, es) == Join(Meaning(Walk(g, es[k]).value), JoinAll(g, es[..k] + es[k + 1..]))
    decreases |es|
  {
    var rest := es[..k] + es[k + 1..];
    if k == 0 {
      assert rest == es[1..];
    } else {
      JoinAllAt(g, es[1..], k - 1);
      assert es[1..][..k - 1] + es[1..][k..] == rest[1..];
      assert es[1..][k - 1] == es[k];
      var a, b := Meaning(Walk(g, es[0]).value), Meaning(Walk(g, es[k]).value);
      var c := JoinAll(g, rest[1..]);
      JoinLaws(a, b, c);
      JoinLaws(b, a, c);
    }
  }

  lemma {:induction false} JoinAllPermutation(g: Glob, es: seq<Expr>, fs: seq<Expr>)
    requires multiset(es) == multiset(fs)
    requires forall e :: e in es ==> Walk(g, e).Some?
    requires forall e :: e in fs ==> Walk(g, e).Some?
    ensures JoinAll(g, es) == JoinAll(g, fs)
    decreases |es|
  {
    if es == [] {
      assert |multiset(fs)| == 0;
    } else {
      assert es[0] in multiset(fs);
      var k :| 0 <= k < |fs| && fs[k] == es[0];
      var rest := fs[..k] + fs[k + 1..];
      RemoveFirst(es, fs, k);
      JoinAllPermutation(g, es[1..], rest);
      JoinAllAt(g, fs, k);
    }
  }

  /** Whether a list of inputs is accepted, and what collation it then has, does not depend on
      the order of the inputs. */
  lemma OrderDoesNotMatter(g: Glob, es: seq<Expr>, fs: seq<Expr>)
    requires multiset(es) == multiset(fs)
    ensures WalkList(g, es, NOTHING).Some? <==> WalkList(g, fs, NOTHING).Some?
    ensures WalkList(g, es, NOTHING).Some? ==>
              Meaning(WalkList(g, es, NOTHING).value) == Meaning(WalkList(g, fs, NOTHING).value)
  {
    WalkListIsJoin(g, es, NOTHING);
    WalkListIsJoin(g, fs, NOTHING);
    assert forall e :: e in es <==> e in multiset(es);
    assert forall e :: e in fs <==> e in multiset(fs);
    if WalkList(g, es, NOTHING).Some? { JoinAllPermutation(g, es, fs); }
  }
}
