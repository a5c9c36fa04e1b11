/** The numbering of remote parameters: the list only grows, never holds a value twice, and each
    number in the text stands for the expression it was printed for.
 */
module ParamNumbering {
  import opened Sequences
  import opened Wrappers
  import opened RemoteExpr
  import opened Deparse

  /** The parameters an expression is printed with, in the order of the text. */
  function Occurrences(cx: Context, e: Expr): seq<Expr>
    decreases e
  {
    match e
    case Var(_, _, _, _, _, _) => if cx.alias(e).Some? || IsRemoteColumn(cx, e) then [] else [e]
    case Param(_, _, _, _, _) => [e]
    case ArrayRef(refexpr, _, _, _, _, _) => Occurrences(cx, refexpr) + SubscriptOccurrences(cx, e, 0)
    case FuncExpr(_, args, form, _, _, _, _, _) =>
      if form == ExplicitCall then ListOccurrences(cx, args)
      else if args == [] then [] else Occurrences(cx, args[0])
    case OpExpr(_, args, _, _, _) => ListOccurrences(cx, args)
    case DistinctExpr(_, args, _, _) => ListOccurrences(cx, args)
    case ScalarArrayOpExpr(_, _, args, _) => ListOccurrences(cx, args)
    case RelabelType(arg, _, _, _, _) => Occurrences(cx, arg)
    case BoolExpr(op, args) =>
      if op != Not then ListOccurrences(cx, args) else if args == [] then [] else Occurrences(cx, args[0])
    case NullTest(arg, _, _) => Occurrences(cx, arg)
    case ArrayExpr(elements, _, _) => ListOccurrences(cx, elements)
    case _ => []
  }

  function ListOccurrences(cx: Context, es: seq<Expr>): seq<Expr>
    decreases es
  {
    if es == [] then [] else Occurrences(cx, es[0]) + ListOccurrences(cx, es[1..])
  }

  function SubscriptOccurrences(cx: Context, e: Expr, i: nat): seq<Expr>
    requires e.ArrayRef? && i <= |e.upper|
    decreases e, |e.upper| - i
  {
    if i == |e.upper| then []
    else (if i < |e.lower| then Occurrences(cx, e.lower[i]) else []) + Occurrences(cx, e.upper[i])
         + SubscriptOccurrences(cx, e, i + 1)
  }

  /** The parameter numbers in a text, from left to right. */
  function Refs(toks: seq<Token>): seq<nat> {
    if toks == [] then [] else (if toks[0].Dollar? then [toks[0].k] else []) + Refs(toks[1..])
  }

  ghost predicate NoRepeats(ps: seq<Expr>) {
    forall i, j :: 0 <= i < j < |ps| ==> ps[i] != ps[j]
  }

  /** Number refs[i] is the place of occs[i] in the list. */
  ghost predicate Denotes(refs: seq<nat>, occs: seq<Expr>, ps: seq<Expr>) {
    |refs| == |occs| && forall i :: 0 <= i < |refs| ==> 1 <= refs[i] <= |ps| && ps[refs[i] - 1] == occs[i]
  }

  /** Printing something with these parameters turned the list ps into r.params. */
  ghost predicate Numbers(ps: seq<Expr>, r: Printed, occs: seq<Expr>) {
    && ps <= r.params
    && (NoRepeats(ps) ==> NoRepeats(r.params))
    && Denotes(Refs(r.toks), occs, r.params)
    && forall p :: p in r.params ==> p in ps || p in occs
  }

  // ----- building up -----

  lemma {:induction false} RefsAppend(a: seq<Token>, b: seq<Token>)
    ensures Refs(a + b) == Refs(a) + Refs(b)
  {
    if a == [] {
      assert a + b == b;
    } else {
      TailOfAppend(a, b);
      RefsAppend(a[1..], b);
      Associates(if a[0].Dollar? then [a[0].k] else [], Refs(a[1..]), Refs(b));
    }
  }

  lemma {:induction false} NoRefs(a: seq<Token>)
    requires forall t :: t in a ==> !t.Dollar?
    ensures Refs(a) == []
  {
    if a != [] { NoRefs(a[1..]); }
  }

  /** Fixed text around two printed pieces adds no numbers. */
  lemma RefsAround(pre: seq<Token>, a: seq<Token>, mid: seq<Token>, b: seq<Token>, post: seq<Token>)
    requires forall t :: t in pre || t in mid || t in post ==> !t.Dollar?
    ensures Refs(pre + a + mid + b + post) == Refs(a) + Refs(b)
  {
    NoRefs(pre);
    NoRefs(mid);
    NoRefs(post);
    RefsAppend(pre + a + mid + b, post);
    RefsAppend(pre + a + mid, b);
    RefsAppend(pre + a, mid);
    RefsAppend(pre, a);
  }

  lemma DenotesMore(refs: seq<nat>, occs: seq<Expr>, ps: seq<Expr>, qs: seq<Expr>)
    requires Denotes(refs, occs, ps) && ps <= qs
    ensures Denotes(refs, occs, qs)
  {
  }

  lemma DenotesAppend(r1: seq<nat>, o1: seq<Expr>, r2: seq<nat>, o2: seq<Expr>, ps: seq<Expr>)
    requires Denotes(r1, o1, ps) && Denotes(r2, o2, ps)
    ensures Denotes(r1 + r2, o1 + o2, ps)
  {
  }

  /** One piece after another. */
  lemma InTurn(ps: seq<Expr>, a: Printed, oa: seq<Expr>, b: Printed, ob: seq<Expr>, toks: seq<Token>)
    requires Numbers(ps, a, oa) && Numbers(a.params, b, ob) && Refs(toks) == Refs(a.toks) + Refs(b.toks)
    ensures Numbers(ps, Printed(toks, b.params), oa + ob)
  {
    DenotesMore(Refs(a.toks), oa, a.params, b.params);
    DenotesAppend(Refs(a.toks), oa, Refs(b.toks), ob, b.params);
  }

  lemma NothingPrinted(ps: seq<Expr>, toks: seq<Token>)
    requires forall t :: t in toks ==> !t.Dollar?
    ensures Numbers(ps, Printed(toks, ps), [])
  {
    NoRefs(toks);
  }

  /** The same text with other fixed tokens around it. */
  lemma Reworded(ps: seq<Expr>, a: Printed, oa: seq<Expr>, toks: seq<Token>)
    requires Numbers(ps, a, oa) && Refs(toks) == Refs(a.toks)
    ensures Numbers(ps, Printed(toks, a.params), oa)
  {
  }

  lemma ParamNumbers(cx: Context, e: Expr, t: Oid, typmod: int, ps: seq<Expr>)
    requires cx.collect && PrintParam(cx, e, t, typmod, ps).Some?
    ensures Numbers(ps, PrintParam(cx, e, t, typmod, ps).value, [e])
  {
    var r := PrintParam(cx, e, t, typmod, ps).value;
    var k := IndexOf(ps, e);
    assert r.toks[1..][1..] == [];
    assert Refs(r.toks) == [k + 1] + Refs(r.toks[1..]);
    assert Refs(r.toks[1..]) == [];
  }

  lemma One(ps: seq<Expr>, a: Printed, oa: seq<Expr>, pre: seq<Token>, post: seq<Token>)
    requires Numbers(ps, a, oa) && forall t :: t in pre || t in post ==> !t.Dollar?
    ensures Numbers(ps, Printed(pre + a.toks + post, a.params), oa)
  {
    NoRefs(pre);
    NoRefs(post);
    RefsAppend(pre + a.toks, post);
    RefsAppend(pre, a.toks);
    Reworded(ps, a, oa, pre + a.toks + post);
  }

  lemma Two(ps: seq<Expr>, a: Printed, oa: seq<Expr>, b: Printed, ob: seq<Expr>,
            pre: seq<Token>, mid: seq<Token>, post: seq<Token>)
    requires Numbers(ps, a, oa) && Numbers(a.params, b, ob)
    requires forall t :: t in pre || t in mid || t in post ==> !t.Dollar?
    ensures Numbers(ps, Printed(pre + a.toks + mid + b.toks + post, b.params), oa + ob)
  {
    RefsAround(pre, a.toks, mid, b.toks, post);
    InTurn(ps, a, oa, b, ob, pre + a.toks + mid + b.toks + post);
  }

  /** An item behind its separator, and the rest of the list. */
  lemma Led(ps: seq<Expr>, lead: seq<Token>, a: Printed, oa: seq<Expr>, b: Printed, ob: seq<Expr>)
    requires forall t :: t in lead ==> !t.Dollar?
    requires Numbers(ps, a, oa) && Numbers(a.params, b, ob)
    ensures Numbers(ps, Printed(lead + a.toks + b.toks, b.params), oa + ob)
  {
    NoRefs(lead);
    RefsAppend(lead, a.toks);
    RefsAppend(lead + a.toks, b.toks);
    InTurn(ps, a, oa, b, ob, lead + a.toks + b.toks);
  }

  lemma {:induction false} RestNumbers(cx: Context, es: seq<Expr>, first: bool, sep: Token, variadic: bool,
                                       ps: seq<Expr>)
    requires cx.collect && !sep.Dollar? && PrintRest(cx, es, first, sep, variadic, ps).Some?
    ensures Numbers(ps, PrintRest(cx, es, first, sep, variadic, ps).value, ListOccurrences(cx, es))
    decreases es
  {
    if es == [] {
      NothingPrinted(ps, []);
    } else {
      var a := Print(cx, es[0], ps).value;
      var b := PrintRest(cx, es[1..], false, sep, variadic, a.params).value;
      PrintNumbers(cx, es[0], ps);
      RestNumbers(cx, es[1..], false, sep, variadic, a.params);
      Led(ps, Lead(first, |es| == 1, sep, variadic), a, Occurrences(cx, es[0]), b, ListOccurrences(cx, es[1..]));
    }
  }

  lemma {:induction false} SubscriptsNumber(cx: Context, e: Expr, i: nat, ps: seq<Expr>)
    requires cx.collect && e.ArrayRef? && i <= |e.upper| && PrintSubscripts(cx, e, i, ps).Some?
    ensures Numbers(ps, PrintSubscripts(cx, e, i, ps).value, SubscriptOccurrences(cx, e, i))
    decreases e, |e.upper| - i
  {
    if i == |e.upper| {
      NothingPrinted(ps, []);
    } else {
      var s := PrintSubscript(cx, e, i, ps).value;
      var rest := PrintSubscripts(cx, e, i + 1, s.params).value;
      var os := SubscriptNumbers(cx, e, i, ps);
      SubscriptsNumber(cx, e, i + 1, s.params);
      RefsAppend(s.toks, rest.toks);
      InTurn(ps, s, os, rest, SubscriptOccurrences(cx, e, i + 1), s.toks + rest.toks);
    }
  }

  lemma {:induction false} SubscriptNumbers(cx: Context, e: Expr, i: nat, ps: seq<Expr>) returns (os: seq<Expr>)
    requires cx.collect && e.ArrayRef? && i < |e.upper| && PrintSubscript(cx, e, i, ps).Some?
    ensures os == (if i < |e.lower| then Occurrences(cx, e.lower[i]) else []) + Occurrences(cx, e.upper[i])
    ensures Numbers(ps, PrintSubscript(cx, e, i, ps).value, os)
    decreases e, 0
  {
    var ol := if i < |e.lower| then Occurrences(cx, e.lower[i]) else [];
    var l := if i < |e.lower| then Print(cx, e.lower[i], ps).value else Printed([], ps);
    if i < |e.lower| { PrintNumbers(cx, e.lower[i], ps); } else { NothingPrinted(ps, []); }
    var u := Print(cx, e.upper[i], l.params).value;
    PrintNumbers(cx, e.upper[i], l.params);
    Two(ps, l, ol, u, Occurrences(cx, e.upper[i]), [LBrk], if i < |e.lower| then [Colon] else [], [RBrk]);
    os := ol + Occurrences(cx, e.upper[i]);
  }

  lemma ConstNumbers(cx: Context, e: Expr, ps: seq<Expr>)
    requires e.Const? && PrintConst(cx, e).Some?
    ensures Numbers(ps, Printed(PrintConst(cx, e).value, ps), [])
  {
    NothingPrinted(ps, PrintConst(cx, e).value);
  }

  /** The operand lists of operators with one or two operands. */
  lemma OneOrTwo(cx: Context, args: seq<Expr>)
    ensures |args| == 1 ==> ListOccurrences(cx, args) == Occurrences(cx, args[0])
    ensures |args| == 2 ==> ListOccurrences(cx, args) == Occurrences(cx, args[0]) + Occurrences(cx, args[1])
  {
    if |args| == 1 { assert args[1..] == []; }
    if |args| == 2 { assert args[1..][1..] == []; }
  }

  lemma {:induction false} OpNumbers(cx: Context, e: Expr, ps: seq<Expr>)
    requires cx.collect && e.OpExpr? && Print(cx, e, ps).Some?
    ensures Numbers(ps, Print(cx, e, ps).value, Occurrences(cx, e))
    decreases e, 0
  {
    var form := cx.opers[e.opno];
    var last := e.args[|e.args| - 1];
    OneOrTwo(cx, e.args);
    NothingPrinted(ps, []);
    var a := if form.kind == Prefix then Printed([], ps) else Print(cx, e.args[0], ps).value;
    var oa := if form.kind == Prefix then [] else Occurrences(cx, e.args[0]);
    if form.kind != Prefix { PrintNumbers(cx, e.args[0], ps); }
    NothingPrinted(a.params, []);
    var b := if form.kind == Postfix then Printed([], a.params) else Print(cx, last, a.params).value;
    var ob := if form.kind == Postfix then [] else Occurrences(cx, last);
    if form.kind != Postfix { PrintNumbers(cx, last, a.params); }
    Two(ps, a, oa, b, ob, [LPar], [OpName(form.name)], [RPar]);
  }

  lemma {:induction false} PairNumbers(cx: Context, e: Expr, ps: seq<Expr>)
    requires cx.collect && (e.DistinctExpr? || e.ScalarArrayOpExpr?) && Print(cx, e, ps).Some?
    ensures Numbers(ps, Print(cx, e, ps).value, Occurrences(cx, e))
    decreases e, 0
  {
    OneOrTwo(cx, e.args);
    var a := Print(cx, e.args[0], ps).value;
    var b := Print(cx, e.args[1], a.params).value;
    PrintNumbers(cx, e.args[0], ps);
    PrintNumbers(cx, e.args[1], a.params);
    var oa, ob := Occurrences(cx, e.args[0]), Occurrences(cx, e.args[1]);
    if e.DistinctExpr? {
      Two(ps, a, oa, b, ob, [LPar], [IsDistinctFrom], [RPar]);
    } else {
      Two(ps, a, oa, b, ob, [LPar],
          [OpName(cx.opers[e.opno].name), if e.useOr then AnyKw else AllKw, LPar], [RPar, RPar]);
    }
  }

  lemma {:induction false} FuncNumbers(cx: Context, e: Expr, ps: seq<Expr>)
    requires cx.collect && e.FuncExpr? && Print(cx, e, ps).Some?
    ensures Numbers(ps, Print(cx, e, ps).value, Occurrences(cx, e))
    decreases e, 0
  {
    if e.form == ExplicitCall {
      var a := PrintRest(cx, e.args, true, Comma, e.variadic, ps).value;
      RestNumbers(cx, e.args, true, Comma, e.variadic, ps);
      One(ps, a, ListOccurrences(cx, e.args), [FuncName(cx.funcs[e.funcid]), LPar], [RPar]);
    } else {
      var a := Print(cx, e.args[0], ps).value;
      PrintNumbers(cx, e.args[0], ps);
      if e.form == ExplicitCast {
        var cast := [Cast(cx.typeName(e.rtype, e.rtypmod).value)];
        One(ps, a, Occurrences(cx, e.args[0]), [], cast);
        assert [] + a.toks + cast == a.toks + cast;
      }
    }
  }

  lemma {:induction false} RefNumbers(cx: Context, e: Expr, ps: seq<Expr>)
    requires cx.collect && e.ArrayRef? && Print(cx, e, ps).Some?
    ensures Numbers(ps, Print(cx, e, ps).value, Occurrences(cx, e))
    decreases e, |e.upper| + 1
  {
    var r := Print(cx, e.refexpr, ps).value;
    var s := PrintSubscripts(cx, e, 0, r.params).value;
    PrintNumbers(cx, e.refexpr, ps);
    SubscriptsNumber(cx, e, 0, r.params);
    var oa, ob := Occurrences(cx, e.refexpr), SubscriptOccurrences(cx, e, 0);
    var base := Printed(if e.refexpr.Var? then r.toks else [LPar] + r.toks + [RPar], r.params);
    if !e.refexpr.Var? { One(ps, r, oa, [LPar], [RPar]); }
    Adjacent(ps, base, oa, s, ob, [LPar], [RPar]);
  }

  lemma Adjacent(ps: seq<Expr>, a: Printed, oa: seq<Expr>, b: Printed, ob: seq<Expr>, pre: seq<Token>, post: seq<Token>)
    requires Numbers(ps, a, oa) && Numbers(a.params, b, ob) && forall t :: t in pre || t in post ==> !t.Dollar?
    ensures Numbers(ps, Printed(pre + a.toks + b.toks + post, b.params), oa + ob)
  {
    NoRefs(pre);
    NoRefs(post);
    RefsAppend(pre + a.toks + b.toks, post);
    RefsAppend(pre + a.toks, b.toks);
    RefsAppend(pre, a.toks);
    InTurn(ps, a, oa, b, ob, pre + a.toks + b.toks + post);
  }

  /** Printing any expression numbers its parameters. */
  lemma {:induction false} PrintNumbers(cx: Context, e: Expr, ps: seq<Expr>)
    requires cx.collect && Print(cx, e, ps).Some?
    ensures Numbers(ps, Print(cx, e, ps).value, Occurrences(cx, e))
    decreases e
  {
    match e {
      case Var(_, _, _, t, typmod, _) =>
        if cx.alias(e).Some? || IsRemoteColumn(cx, e) {
          NothingPrinted(ps, Print(cx, e, ps).value.toks);
        } else {
          ParamNumbers(cx, e, t, typmod, ps);
        }
      case Const(_, _, _, _, _) => ConstNumbers(cx, e, ps);
      case Param(_, _, t, typmod, _) => ParamNumbers(cx, e, t, typmod, ps);
      case ArrayRef(_, _, _, _, _, _) => RefNumbers(cx, e, ps);
      case FuncExpr(_, _, _, _, _, _, _, _) => FuncNumbers(cx, e, ps);
      case OpExpr(_, _, _, _, _) => OpNumbers(cx, e, ps);
      case DistinctExpr(_, _, _, _) => PairNumbers(cx, e, ps);
      case ScalarArrayOpExpr(_, _, _, _) => PairNumbers(cx, e, ps);
      case RelabelType(arg, _, _, _, _) => RelabelNumbers(cx, e, ps);
      case BoolExpr(_, _) => BoolNumbers(cx, e, ps);
      case NullTest(arg, _, _) =>
        PrintNumbers(cx, arg, ps);
        NullTestNumbers(cx, e, ps);
      case ArrayExpr(_, _, _) => ArrayNumbers(cx, e, ps);
      case Aggref(_, _, _, _, _, _) => NothingPrinted(ps, []);
    }
  }

  lemma NullTestNumbers(cx: Context, e: Expr, ps: seq<Expr>)
    requires e.NullTest? && Print(cx, e, ps).Some?
    requires Numbers(ps, Print(cx, e.arg, ps).value, Occurrences(cx, e.arg))
    ensures Numbers(ps, Print(cx, e, ps).value, Occurrences(cx, e))
  {
    var a := Print(cx, e.arg, ps).value;
    var post := NullTestToken(cx, e) + [RPar];
    One(ps, a, Occurrences(cx, e.arg), [LPar], post);
    assert [LPar] + a.toks + post == [LPar] + a.toks + NullTestToken(cx, e) + [RPar];
  }

  lemma {:induction false} RelabelNumbers(cx: Context, e: Expr, ps: seq<Expr>)
    requires cx.collect && e.RelabelType? && Print(cx, e, ps).Some?
    ensures Numbers(ps, Print(cx, e, ps).value, Occurrences(cx, e))
    decreases e, 0
  {
    var a := Print(cx, e.arg, ps).value;
    PrintNumbers(cx, e.arg, ps);
    if e.form != ImplicitCast {
      var cast := [Cast(cx.typeName(e.rtype, e.rtypmod).value)];
      One(ps, a, Occurrences(cx, e.arg), [], cast);
      assert [] + a.toks + cast == a.toks + cast;
    }
  }

  lemma {:induction false} BoolNumbers(cx: Context, e: Expr, ps: seq<Expr>)
    requires cx.collect && e.BoolExpr? && Print(cx, e, ps).Some?
    ensures Numbers(ps, Print(cx, e, ps).value, Occurrences(cx, e))
    decreases e, 0
  {
    if e.op == Not {
      PrintNumbers(cx, e.args[0], ps);
      One(ps, Print(cx, e.args[0], ps).value, Occurrences(cx, e.args[0]), [LPar, NotKw], [RPar]);
    } else {
      var sep := if e.op == And then AndKw else OrKw;
      RestNumbers(cx, e.args, true, sep, false, ps);
      One(ps, PrintRest(cx, e.args, true, sep, false, ps).value, ListOccurrences(cx, e.args), [LPar], [RPar]);
    }
  }

  lemma {:induction false} ArrayNumbers(cx: Context, e: Expr, ps: seq<Expr>)
    requires cx.collect && e.ArrayExpr? && Print(cx, e, ps).Some?
    ensures Numbers(ps, Print(cx, e, ps).value, Occurrences(cx, e))
    decreases e, 0
  {
    var a := PrintRest(cx, e.elements, true, Comma, false, ps).value;
    RestNumbers(cx, e.elements, true, Comma, false, ps);
    var post := if e.elements != [] then [RBrk] else [RBrk, Cast(cx.typeName(e.atype, -1).value)];
    One(ps, a, ListOccurrences(cx, e.elements), [ArrayKw, LBrk], post);
  }

  // ----- a whole query -----

  /** Printing one expression after another, as the clauses of a query are. */
  function PrintAll(cx: Context, es: seq<Expr>, ps: seq<Expr>): Option<Printed> {
    if es == [] then Some(Printed([], ps))
    else
      var a :- Print(cx, es[0], ps);
      var b :- PrintAll(cx, es[1..], a.params);
      Some(Printed(a.toks + b.toks, b.params))
  }

  /** Over a whole sequence of expressions, starting with an empty list: the final list has no
      value twice and nothing that was not printed, and every number in the text denotes,
      in the final list, the expression it was printed for. */
  lemma {:induction false} QueryNumbers(cx: Context, es: seq<Expr>, ps: seq<Expr>)
    requires cx.collect && PrintAll(cx, es, ps).Some?
    ensures Numbers(ps, PrintAll(cx, es, ps).value, ListOccurrences(cx, es))
    decreases |es|
  {
    if es == [] {
      NothingPrinted(ps, []);
    } else {
      var a := Print(cx, es[0], ps).value;
      var b := PrintAll(cx, es[1..], a.params).value;
      PrintNumbers(cx, es[0], ps);
      QueryNumbers(cx, es[1..], a.params);
      RefsAppend(a.toks, b.toks);
      InTurn(ps, a, Occurrences(cx, es[0]), b, ListOccurrences(cx, es[1..]), a.toks + b.toks);
    }
  }
}
