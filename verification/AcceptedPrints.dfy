/** What the deparser makes of expressions the walker accepts: it refuses none of them, and it
    leaves out aggregates.
 */
module AcceptedPrints {
  import opened Wrappers
  import opened RemoteExpr
  import opened ForeignWalker
  import opened ForeignCollation
  import opened Deparse

  /** Whatever may be sent has a name: types, operators and functions. */
  ghost predicate Named(g: Glob, cx: Context) {
    && (forall t: Oid, m: int :: g.shipType(t) ==> cx.typeName(t, m).Some?)
    && (forall o :: g.shipOp(o) ==> o in cx.opers)
    && (forall f :: g.shipFunc(f) ==> f in cx.funcs)
  }

  /** Every node has as many operands as its kind calls for. */
  predicate Arities(cx: Context, e: Expr)
    decreases e
  {
    && (match e
        case FuncExpr(_, args, form, _, _, _, _, _) => form == ExplicitCall || args != []
        case OpExpr(opno, args, _, _, _) => opno in cx.opers ==> |args| == if cx.opers[opno].kind == Infix then 2 else 1
        case DistinctExpr(_, args, _, _) => |args| == 2
        case ScalarArrayOpExpr(_, _, args, _) => |args| == 2
        case BoolExpr(op, args) => op == Not ==> args != []
        case _ => true)
    && forall c :: c in Children(e) ==> Arities(cx, c)
  }

  /** Every child is accepted and well-formed. */
  ghost predicate ChildrenOk(g: Glob, cx: Context, es: seq<Expr>) {
    forall c :: c in es ==> Walk(g, c).Some? && Arities(cx, c)
  }

  lemma AcceptedChildren(g: Glob, cx: Context, e: Expr)
    requires Walk(g, e).Some? && Arities(cx, e)
    ensures ChildrenOk(g, cx, Children(e))
  {
    forall c | c in Children(e) ensures Walk(g, c).Some? && Arities(cx, c) {
      ChildrenAccepted(g, e, c);
    }
  }

  lemma {:induction false} RestPrints(g: Glob, cx: Context, es: seq<Expr>, first: bool, sep: Token, variadic: bool,
                                      ps: seq<Expr>)
    requires Named(g, cx) && ChildrenOk(g, cx, es)
    ensures PrintRest(cx, es, first, sep, variadic, ps).Some?
    decreases es
  {
    if es != [] {
      assert es[0] in es;
      Prints(g, cx, es[0], ps);
      RestPrints(g, cx, es[1..], false, sep, variadic, Print(cx, es[0], ps).value.params);
    }
  }

  lemma {:induction false} SubscriptsPrint(g: Glob, cx: Context, e: Expr, i: nat, ps: seq<Expr>)
    requires Named(g, cx) && e.ArrayRef? && i <= |e.upper| && ChildrenOk(g, cx, Children(e))
    ensures PrintSubscripts(cx, e, i, ps).Some?
    decreases e, |e.upper| - i
  {
    if i < |e.upper| {
      assert e.upper[i] in Children(e);
      if i < |e.lower| {
        assert e.lower[i] in Children(e);
        Prints(g, cx, e.lower[i], ps);
        Prints(g, cx, e.upper[i], Print(cx, e.lower[i], ps).value.params);
      } else {
        Prints(g, cx, e.upper[i], ps);
      }
      SubscriptsPrint(g, cx, e, i + 1, PrintSubscript(cx, e, i, ps).value.params);
    }
  }

  lemma {:induction false} OperandsPrint(g: Glob, cx: Context, args: seq<Expr>, ps: seq<Expr>)
    requires Named(g, cx) && ChildrenOk(g, cx, args) && 1 <= |args| <= 2
    ensures Print(cx, args[0], ps).Some?
    ensures |args| == 2 ==> Print(cx, args[1], Print(cx, args[0], ps).value.params).Some?
    decreases args
  {
    assert args[0] in args;
    Prints(g, cx, args[0], ps);
    if |args| == 2 {
      assert args[1] in args;
      Prints(g, cx, args[1], Print(cx, args[0], ps).value.params);
    }
  }

  /** An accepted expression is never refused by the deparser. */
  lemma {:induction false} Prints(g: Glob, cx: Context, e: Expr, ps: seq<Expr>)
    requires Named(g, cx) && Walk(g, e).Some? && Arities(cx, e)
    ensures Print(cx, e, ps).Some?
    decreases e
  {
    AcceptedChildren(g, cx, e);
    assert g.shipType(ExprType(e));
    match e {
      case ArrayRef(refexpr, _, _, _, _, _) =>
        assert refexpr in Children(e);
        Prints(g, cx, refexpr, ps);
        SubscriptsPrint(g, cx, e, 0, Print(cx, refexpr, ps).value.params);
      case FuncExpr(_, args, form, variadic, _, _, _, _) =>
        if form == ExplicitCall {
          RestPrints(g, cx, args, true, Comma, variadic, ps);
        } else {
          assert args[0] in Children(e);
          Prints(g, cx, args[0], ps);
        }
      case OpExpr(_, args, _, _, _) => OperandsPrint(g, cx, args, ps);
      case DistinctExpr(_, args, _, _) => OperandsPrint(g, cx, args, ps);
      case ScalarArrayOpExpr(_, _, args, _) => OperandsPrint(g, cx, args, ps);
      case RelabelType(arg, _, _, _, _) =>
        assert arg in Children(e);
        Prints(g, cx, arg, ps);
      case BoolExpr(op, args) =>
        if op == Not {
          assert args[0] in Children(e);
          Prints(g, cx, args[0], ps);
        } else {
          RestPrints(g, cx, args, true, if op == And then AndKw else OrKw, false, ps);
        }
      case NullTest(arg, _, _) =>
        assert arg in Children(e);
        Prints(g, cx, arg, ps);
      case ArrayExpr(elements, _, _) => RestPrints(g, cx, elements, true, Comma, false, ps);
      case _ =>
    }
  }

  // ----- aggregates leave no text -----

  /** The nodes below e whose text becomes part of the text of e. */
  function PrintedChildren(e: Expr): (cs: seq<Expr>)
    ensures forall c :: c in cs ==> c < e
  {
    match e
    case Aggref(_, _, _, _, _, _) => []
    case FuncExpr(_, args, form, _, _, _, _, _) =>
      if form == ExplicitCall then args else if args == [] then [] else [args[0]]
    case BoolExpr(op, args) => if op != Not then args else if args == [] then [] else [args[0]]
    case _ => Children(e)
  }

  /** An aggregate is printed with e. */
  predicate HasAggregate(e: Expr)
    decreases e
  {
    e.Aggref? || exists c :: c in PrintedChildren(e) && HasAggregate(c)
  }

  /** An aggregate, or an implicit cast of one: nothing else has no text. */
  predicate Silent(e: Expr)
    decreases e
  {
    match e
    case Aggref(_, _, _, _, _, _) => true
    case FuncExpr(_, args, form, _, _, _, _, _) => form == ImplicitCast && args != [] && Silent(args[0])
    case RelabelType(arg, _, _, form, _) => form == ImplicitCast && Silent(arg)
    case _ => false
  }

  /** Every node that is printed with e has a text of its own. */
  predicate AllSpeak(e: Expr)
    decreases e
  {
    !Silent(e) && forall c :: c in PrintedChildren(e) ==> AllSpeak(c)
  }

  lemma {:induction false} SilentIff(cx: Context, e: Expr, ps: seq<Expr>)
    requires Print(cx, e, ps).Some?
    ensures Print(cx, e, ps).value.toks == [] <==> Silent(e)
    decreases e
  {
    match e
    case FuncExpr(_, args, form, _, _, _, _, _) => if form == ImplicitCast { SilentIff(cx, args[0], ps); }
    case RelabelType(arg, _, _, form, _) => if form == ImplicitCast { SilentIff(cx, arg, ps); }
    case _ =>
  }

  lemma {:induction false} SilentHasAggregate(e: Expr)
    requires Silent(e)
    ensures HasAggregate(e)
    decreases e
  {
    match e
    case FuncExpr(_, args, _, _, _, _, _, _) =>
      SilentHasAggregate(args[0]);
      assert args[0] in PrintedChildren(e);
    case RelabelType(arg, _, _, _, _) =>
      SilentHasAggregate(arg);
      assert arg in PrintedChildren(e);
    case _ =>
  }

  /** Every operand contributes text if and only if no aggregate is printed with the
      expression. */
  lemma {:induction false} AllSpeakIff(e: Expr)
    ensures AllSpeak(e) <==> !HasAggregate(e)
    decreases e
  {
    forall c | c in PrintedChildren(e) ensures AllSpeak(c) <==> !HasAggregate(c) { AllSpeakIff(c); }
    if Silent(e) { SilentHasAggregate(e); }
  }

  /** Nodes the text does not tell apart: an AND and an OR of one operand, an expression and an
      implicit cast of it, by a function with whatever further arguments or without one; and an
      aggregate leaves no text at all, although the walker accepts it. */
  lemma Indistinct(cx: Context, x: Expr, more: seq<Expr>, funcid: Oid, t: Oid, typmod: int, ps: seq<Expr>)
    ensures Print(cx, BoolExpr(And, [x]), ps) == Print(cx, BoolExpr(Or, [x]), ps)
    ensures Print(cx, FuncExpr(funcid, [x] + more, ImplicitCast, false, t, typmod, 0, 0), ps) == Print(cx, x, ps)
    ensures Print(cx, RelabelType(x, t, typmod, ImplicitCast, 0), ps) == Print(cx, x, ps)
    ensures Print(cx, Aggref(funcid, [x] + more, [], t, 0, 0), ps) == Some(Printed([], ps))
  {
    assert [x][1..] == [];
    assert PrintRest(cx, [x], true, AndKw, false, ps) == PrintRest(cx, [x], true, OrKw, false, ps);
  }
}
