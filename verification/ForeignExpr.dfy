/** is_foreign_expr by what it accepts: an expression is sent if and only if each of its nodes can
    be, every collation that is used is the one its inputs agree on, and the result is not in
    conflict. Nothing here refers to how the tree is walked.
 */
module ForeignExpr {
  import opened Wrappers
  import opened RemoteExpr
  import opened ForeignWalker
  import opened ForeignCollation

  // ----- one node -----

  /** The columns the remote server has: those of the table, ctid and oid. */
  predicate SentColumn(attno: int) {
    attno >= 0 || attno == -1 || attno == -2
  }

  /** The remote server can evaluate a node of this kind: it knows the function, the operator and
      the type of the result. */
  predicate Sendable(g: Glob, e: Expr) {
    && g.shipType(ExprType(e))
    && match e
       case Var(_, attno, _, _, _, _) => IsForeignVar(g, e) ==> SentColumn(attno)
       case Const(_, _, _, _, _) => true
       case Param(isExtern, _, _, _, _) => isExtern
       case ArrayRef(_, _, _, assigns, _, _) => !assigns
       case FuncExpr(funcid, _, _, _, _, _, _, _) => g.shipFunc(funcid)
       case OpExpr(opno, _, _, _, _) => g.shipOp(opno)
       case DistinctExpr(opno, _, _, _) => g.shipOp(opno)
       case ScalarArrayOpExpr(opno, _, _, _) => g.shipOp(opno)
       case RelabelType(_, _, _, _, _) => true
       case BoolExpr(_, _) => true
       case NullTest(_, _, _) => true
       case ArrayExpr(_, _, _) => true
       case Aggref(funcid, _, order, _, _, _) =>
         g.shipFunc(funcid) && forall s :: s in order ==> s.isDefault || g.shipOp(s.op)
       case Unsupported(_) => false
  }

  /** The collation of a node's result; nodes that yield a truth value have none. */
  function ResultCollation(e: Expr): Oid {
    match e
    case Var(_, _, _, _, _, coll) => coll
    case Const(_, _, _, _, coll) => coll
    case Param(_, _, _, _, coll) => coll
    case ArrayRef(_, _, _, _, _, coll) => coll
    case FuncExpr(_, _, _, _, _, _, _, coll) => coll
    case OpExpr(_, _, _, _, coll) => coll
    case DistinctExpr(_, _, _, coll) => coll
    case RelabelType(_, _, _, _, coll) => coll
    case ArrayExpr(_, _, coll) => coll
    case Aggref(_, _, _, _, _, coll) => coll
    case _ => INVALID_OID
  }

  // ----- collations -----

  /** What a node contributes to its parent's collation. A collation is the node's own if it is a
      foreign column's or the one its inputs agree on; the default collation is as good as none;
      any other is in conflict. */
  function VerdictOf(g: Glob, e: Expr): Verdict
    decreases e, |Children(e)| + 1
  {
    var coll := ResultCollation(e);
    if coll == INVALID_OID then Nothing
    else if IsForeignVar(g, e) || AgreedFrom(g, e, 0) == Only(coll) then Only(coll)
    else if coll == DEFAULT_COLLATION_OID then Nothing
    else Conflict
  }

  /** The verdicts of the children of e from number i on, joined. */
  function AgreedFrom(g: Glob, e: Expr, i: nat): Verdict
    requires i <= |Children(e)|
    decreases e, |Children(e)| - i
  {
    if i == |Children(e)| then Nothing
    else
      assert Children(e)[i] in Children(e);
      Join(VerdictOf(g, Children(e)[i]), AgreedFrom(g, e, i + 1))
  }

  function Agreed(g: Glob, e: Expr): Verdict {
    AgreedFrom(g, e, 0)
  }

  /** The inputs agree on the collation a node uses, if it uses one. */
  predicate InputsAgree(g: Glob, e: Expr) {
    InputCollation(e) == INVALID_OID || Agreed(g, e) == Only(InputCollation(e))
  }

  // ----- whole expressions -----

  /** Node n is e or below it. */
  ghost predicate Below(n: Expr, e: Expr)
    decreases e
  {
    n == e || exists c :: c in Children(e) && Below(n, c)
  }

  ghost predicate AllSendable(g: Glob, e: Expr)
    decreases e
  {
    Sendable(g, e) && InputsAgree(g, e) && forall c :: c in Children(e) ==> AllSendable(g, c)
  }

  lemma {:induction false} AllSendableIff(g: Glob, e: Expr)
    ensures AllSendable(g, e) <==> forall n :: Below(n, e) ==> Sendable(g, n) && InputsAgree(g, n)
    decreases e
  {
    forall c | c in Children(e)
      ensures AllSendable(g, c) <==> forall n :: Below(n, c) ==> Sendable(g, n) && InputsAgree(g, n)
    {
      AllSendableIff(g, c);
    }
    if forall n :: Below(n, e) ==> Sendable(g, n) && InputsAgree(g, n) {
      assert Below(e, e);
      forall c | c in Children(e) ensures AllSendable(g, c) {
        forall n | Below(n, c) ensures Sendable(g, n) && InputsAgree(g, n) { assert Below(n, e); }
      }
    }
  }

  // ----- what the walker finds out -----

  /** The walker is right about e. */
  ghost predicate WalkedRight(g: Glob, e: Expr) {
    && (Walk(g, e).Some? <==> AllSendable(g, e))
    && (Walk(g, e).Some? ==> Meaning(Walk(g, e).value) == VerdictOf(g, e))
  }

  lemma {:induction false} JoinIsAgreed(g: Glob, e: Expr, i: nat)
    requires i <= |Children(e)| && forall c :: c in Children(e) ==> WalkedRight(g, c) && Walk(g, c).Some?
    ensures JoinAll(g, Children(e)[i..]) == AgreedFrom(g, e, i)
    decreases |Children(e)| - i
  {
    var cs := Children(e);
    if i < |cs| {
      JoinIsAgreed(g, e, i + 1);
      assert cs[i..][0] == cs[i] && cs[i..][1..] == cs[i + 1..] && cs[i] in cs;
    }
  }

  /** The context of a node's inputs. */
  ghost predicate Inner(g: Glob, e: Expr, inner: Option<Cxt>) {
    && (inner.Some? <==> forall c :: c in Children(e) ==> AllSendable(g, c))
    && (inner.Some? ==> Meaning(inner.value) == Agreed(g, e))
  }

  lemma ListInner(g: Glob, e: Expr)
    requires forall c :: c in Children(e) ==> WalkedRight(g, c)
    ensures Inner(g, e, WalkList(g, Children(e), NOTHING))
  {
    var cs := Children(e);
    WalkListIsJoin(g, cs, NOTHING);
    if WalkList(g, cs, NOTHING).Some? {
      JoinIsAgreed(g, e, 0);
      assert cs[0..] == cs;
      JoinLaws(Nothing, JoinAll(g, cs), Nothing);
    }
  }

  /** From the inputs to the node. */
  lemma NodeFromInner(g: Glob, e: Expr, inner: Cxt)
    requires Meaning(inner) == Agreed(g, e) && !e.Var?
    ensures InputOk(InputCollation(e), inner) <==> InputsAgree(g, e)
    ensures Meaning(Derived(ResultCollation(e), inner)) == VerdictOf(g, e)
  {
  }

  lemma {:induction false} JoinAllAppend(g: Glob, a: seq<Expr>, b: seq<Expr>)
    requires forall e :: e in a + b ==> Walk(g, e).Some?
    ensures (forall e :: e in a ==> Walk(g, e).Some?) && (forall e :: e in b ==> Walk(g, e).Some?)
    ensures JoinAll(g, a + b) == Join(JoinAll(g, a), JoinAll(g, b))
    decreases |a|
  {
    assert forall e :: e in a ==> e in a + b;
    assert forall e :: e in b ==> e in a + b;
    if a == [] {
      assert a + b == b;
    } else {
      assert (a + b)[1..] == a[1..] + b && (a + b)[0] == a[0];
      JoinAllAppend(g, a[1..], b);
      JoinLaws(Meaning(Walk(g, a[0]).value), JoinAll(g, a[1..]), JoinAll(g, b));
    }
  }

  /** The three parts of a subscripted array, merged one after the other. */
  lemma PartsMerged(g: Glob, u: seq<Expr>, l: seq<Expr>, r: Expr)
    requires forall e :: e in u + l + [r] ==> Walk(g, e).Some?
    ensures WalkList(g, u, NOTHING).Some? && WalkList(g, l, NOTHING).Some? && Walk(g, r).Some?
    ensures var uc, lc, rc := WalkList(g, u, NOTHING).value, WalkList(g, l, NOTHING).value, Walk(g, r).value;
            Meaning(Merge(Merge(Merge(NOTHING, uc), lc), rc)) == JoinAll(g, u + l + [r])
  {
    assert r in u + l + [r];
    JoinAllAppend(g, u + l, [r]);
    JoinAllAppend(g, u, l);
    WalkListIsJoin(g, u, NOTHING);
    WalkListIsJoin(g, l, NOTHING);
    var uc, lc, rc := WalkList(g, u, NOTHING).value, WalkList(g, l, NOTHING).value, Walk(g, r).value;
    MergeIsJoin(NOTHING, uc);
    MergeIsJoin(Merge(NOTHING, uc), lc);
    MergeIsJoin(Merge(Merge(NOTHING, uc), lc), rc);
    assert [r][1..] == [] && JoinAll(g, [r]) == Join(Meaning(rc), Nothing);
  }

  function ArrayInner(g: Glob, e: Expr): Option<Cxt>
    requires e.ArrayRef?
  {
    var u :- WalkList(g, e.upper, NOTHING);
    var l :- WalkList(g, e.lower, NOTHING);
    var r :- Walk(g, e.refexpr);
    Some(Merge(Merge(Merge(NOTHING, u), l), r))
  }

  lemma ArrayRefInner(g: Glob, e: Expr)
    requires e.ArrayRef? && forall c :: c in Children(e) ==> WalkedRight(g, c)
    ensures Inner(g, e, ArrayInner(g, e))
  {
    var cs := Children(e);
    if forall c :: c in cs ==> Walk(g, c).Some? {
      PartsMerged(g, e.upper, e.lower, e.refexpr);
      JoinIsAgreed(g, e, 0);
      assert cs[0..] == cs;
    } else {
      var c :| c in cs && Walk(g, c).None?;
      if c in e.upper {
        WalkListIsJoin(g, e.upper, NOTHING);
      } else if c in e.lower {
        WalkListIsJoin(g, e.lower, NOTHING);
      } else {
        assert c == e.refexpr;
      }
      assert ArrayInner(g, e).None?;
      assert !AllSendable(g, c);
    }
  }

  /** A node with a single input. */
  lemma OneInner(g: Glob, e: Expr, arg: Expr)
    requires Children(e) == [arg] && WalkedRight(g, arg)
    ensures Walk(g, arg).Some? <==> forall c :: c in Children(e) ==> AllSendable(g, c)
    ensures Walk(g, arg).Some? ==> Meaning(Merge(NOTHING, Walk(g, arg).value)) == Agreed(g, e)
  {
    assert arg in Children(e);
    if Walk(g, arg).Some? {
      JoinIsAgreed(g, e, 0);
      assert Children(e)[0..] == [arg] && [arg][1..] == [];
      MergeIsJoin(NOTHING, Walk(g, arg).value);
      JoinLaws(Meaning(Walk(g, arg).value), Nothing, Nothing);
    }
  }

  /** A node that is walked right, given what its inputs came to. */
  ghost predicate NodeRight(g: Glob, e: Expr) {
    && (WalkNode(g, e).Some? && g.shipType(ExprType(e)) <==> AllSendable(g, e))
    && (WalkNode(g, e).Some? ==> Meaning(WalkNode(g, e).value) == VerdictOf(g, e))
  }

  lemma LeafNode(g: Glob, e: Expr)
    requires e.Var? || e.Const? || e.Param? || e.Unsupported?
    ensures NodeRight(g, e)
  {
    assert Children(e) == [] && Agreed(g, e) == Nothing;
  }

  lemma ArrayRefNode(g: Glob, e: Expr)
    requires e.ArrayRef? && Inner(g, e, ArrayInner(g, e))
    ensures NodeRight(g, e)
  {
    if ArrayInner(g, e).Some? { NodeFromInner(g, e, ArrayInner(g, e).value); }
  }

  lemma OneInputNode(g: Glob, e: Expr)
    requires (e.RelabelType? || e.NullTest?) && WalkedRight(g, e.arg)
    ensures NodeRight(g, e)
  {
    OneInner(g, e, e.arg);
    if Walk(g, e.arg).Some? { NodeFromInner(g, e, Merge(NOTHING, Walk(g, e.arg).value)); }
  }

  lemma ListNode(g: Glob, e: Expr)
    requires || e.FuncExpr? || e.OpExpr? || e.DistinctExpr? || e.ScalarArrayOpExpr?
             || e.BoolExpr? || e.ArrayExpr? || e.Aggref?
    requires Inner(g, e, WalkList(g, Children(e), NOTHING))
    ensures NodeRight(g, e)
  {
    var inner := WalkList(g, Children(e), NOTHING);
    if inner.Some? { NodeFromInner(g, e, inner.value); }
  }

  lemma {:induction false} WalkIff(g: Glob, e: Expr)
    ensures WalkedRight(g, e)
    decreases e
  {
    forall c | c in Children(e) ensures WalkedRight(g, c) { WalkIff(g, c); }
    match e
    case Var(_, _, _, _, _, _) => LeafNode(g, e);
    case Const(_, _, _, _, _) => LeafNode(g, e);
    case Param(_, _, _, _, _) => LeafNode(g, e);
    case Unsupported(_) => LeafNode(g, e);
    case ArrayRef(_, _, _, _, _, _) =>
      ArrayRefInner(g, e);
      ArrayRefNode(g, e);
    case RelabelType(arg, _, _, _, _) =>
      assert arg in Children(e);
      OneInputNode(g, e);
    case NullTest(arg, _, _) =>
      assert arg in Children(e);
      OneInputNode(g, e);
    case _ =>
      ListInner(g, e);
      ListNode(g, e);
  }

  // ----- the theorem -----

  /** What may be sent, without reference to the walker. */
  ghost predicate MayBeSent(g: Glob, e: Expr) {
    && (forall n :: Below(n, e) ==> Sendable(g, n) && InputsAgree(g, n))
    && !VerdictOf(g, e).Conflict? && !g.mutable(e)
  }

  lemma IsForeignIff(g: Glob, e: Expr)
    ensures IsForeignExpr(g, e) <==> MayBeSent(g, e)
  {
    WalkIff(g, e);
    AllSendableIff(g, e);
  }

  /** is_foreign_expr */
  method CheckForeignExpr(g: Glob, e: Expr) returns (ok: bool)
    ensures ok <==> MayBeSent(g, e)
  {
    IsForeignIff(g, e);
    var cxt := new LocCxt();
    ok := Walker(g, e, cxt);
    if !ok {
      return;
    }
    if cxt.state == Unsafe {
      return false;
    }
    if g.mutable(e) {
      return false;
    }
    return true;
  }
}
