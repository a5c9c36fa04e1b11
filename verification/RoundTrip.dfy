/** Reading what the deparser has written gives back the expression. */
module RoundTrip {
  import opened Wrappers
  import opened RemoteExpr
  import opened Deparse
  import opened SqlReader
  import ParamNumbering

  // ----- which expressions, and what is assumed of the remote catalog -----

  /** Constants as the types' output functions produce them. */
  predicate ReadableConst(e: Expr)
    requires e.Const?
  {
    && e.ctypmod >= -1
    && (e.isnull ==> e.text == "")
    && (!e.isnull && e.ctype == BOOLOID ==> e.text in {"t", "f"})
    && (!e.isnull && e.ctype == INT4OID ==> LooksNumeric(e.text) && !LooksFloat(e.text))
    && (!e.isnull && e.ctype in {BOOLOID, INT4OID, UNKNOWNOID} ==> e.ctypmod == -1)
  }

  /** The text of constant c, without a label, followed by a cast to type t, is the text of a
      constant of type t. */
  predicate TakenForLabel(c: Expr, t: Oid, typmod: int) {
    c.Const? && !c.isnull && !NeedsLabel(c.text, c.ctype, c.ctypmod)
    && ValueToken(c.text, c.ctype) == ValueToken(c.text, t) && NeedsLabel(c.text, t, typmod)
  }

  /** The deparser prints a column for e, and no parameter. */
  predicate PrintsColumn(cx: Context, e: Expr)
    requires e.Var?
  {
    cx.alias(e).Some? || IsRemoteColumn(cx, e)
  }

  /** Expressions without aggregates, with the numbers of operands their kinds have, and without
      the two kinds of nodes whose text means something else: casts of constants that read as
      labels, and subscripts behind the type of a parameter. */
  predicate Readable(cx: Context, e: Expr)
    decreases e
  {
    match e
    case Var(_, _, _, _, _, _) => true
    case Const(_, _, _, _, _) => ReadableConst(e)
    case Param(_, _, _, _, _) => true
    case ArrayRef(refexpr, upper, lower, assigns, _, _) =>
      && !assigns && upper != [] && |lower| <= |upper|
      && (refexpr.Var? ==> PrintsColumn(cx, refexpr))
      && Readable(cx, refexpr) && AllReadable(cx, upper) && AllReadable(cx, lower)
    case FuncExpr(_, args, form, variadic, t, typmod, _, _) =>
      if form == ExplicitCall then (variadic ==> args != []) && AllReadable(cx, args)
      else
        && args != [] && Readable(cx, args[0])
        && (form == ExplicitCast ==> !TakenForLabel(Strip(args[0]), t, typmod))
    case OpExpr(_, args, _, _, _) => AllReadable(cx, args)
    case DistinctExpr(_, args, _, _) => AllReadable(cx, args)
    case ScalarArrayOpExpr(opno, _, args, _) =>
      (opno in cx.opers ==> cx.opers[opno].kind == Infix) && AllReadable(cx, args)
    case RelabelType(arg, t, typmod, form, _) =>
      Readable(cx, arg) && (form != ImplicitCast ==> !TakenForLabel(Strip(arg), t, typmod))
    case BoolExpr(op, args) => (if op == Not then |args| == 1 else |args| >= 2) && AllReadable(cx, args)
    case NullTest(arg, _, argisrow) => (argisrow ==> cx.isRow(ExprType(arg))) && Readable(cx, arg)
    case ArrayExpr(elements, _, _) => AllReadable(cx, elements)
    case _ => false
  }

  predicate AllReadable(cx: Context, es: seq<Expr>)
    decreases es
  {
    es == [] || (Readable(cx, es[0]) && AllReadable(cx, es[1..]))
  }

  /** The remote server makes a value of type t of expression a in this way. */
  ghost predicate Casts(cx: Context, env: Env, a: Expr, t: Oid, typmod: int, way: CastWay) {
    cx.typeName(t, typmod).Some? ==>
      && env.typeOf(cx.typeName(t, typmod).value) == (t, typmod)
      && env.cast(ExprType(Strip(a)), t, typmod) == way
  }

  /** The remote server knows everything that e mentions by the name it is printed with: the
      columns, the types of labels and casts, and the operators and functions among those of the
      same name, for operands as it sees them. Nothing is asked about what does not occur in e. */
  ghost predicate Resolves(cx: Context, env: Env, e: Expr)
    decreases e
  {
    match e
    case Var(varno, attno, _, _, _, _) =>
      && (cx.alias(e).Some? ==> env.column(cx.alias(e).value) == Strip(e))
      && (cx.alias(e).None? && IsRemoteColumn(cx, e) ==> env.column(Remote(varno, attno)) == Strip(e))
    case Const(isnull, text, t, typmod, _) =>
      (isnull || NeedsLabel(text, t, typmod)) && cx.typeName(t, typmod).Some? ==>
        env.typeOf(cx.typeName(t, typmod).value) == (t, typmod)
    case ArrayRef(refexpr, upper, lower, _, t, _) =>
      && t == (if lower == [] then env.element(ExprType(Strip(refexpr))) else ExprType(Strip(refexpr)))
      && Resolves(cx, env, refexpr) && AllResolve(cx, env, upper) && AllResolve(cx, env, lower)
    case FuncExpr(funcid, args, form, variadic, t, typmod, _, _) =>
      if form == ExplicitCall then
        && (funcid in cx.funcs ==> env.func(cx.funcs[funcid], Types(StripAll(args)), variadic) == (funcid, t))
        && AllResolve(cx, env, args)
      else args != [] ==>
        && (form == ExplicitCast ==> Casts(cx, env, args[0], t, typmod, Via(funcid, StripAll(args[1..]))))
        && Resolves(cx, env, args[0])
    case OpExpr(opno, args, t, _, _) =>
      && (opno in cx.opers ==>
            env.oper(cx.opers[opno].name, cx.opers[opno].kind, Types(StripAll(args))) == (opno, t))
      && AllResolve(cx, env, args)
    case DistinctExpr(_, args, _, _) => AllResolve(cx, env, args)
    case ScalarArrayOpExpr(opno, _, args, _) =>
      && (opno in cx.opers && |args| == 2 ==>
            env.oper(cx.opers[opno].name, Infix,
                     [ExprType(Strip(args[0])), env.element(ExprType(Strip(args[1])))]).0 == opno)
      && AllResolve(cx, env, args)
    case RelabelType(arg, t, typmod, form, _) =>
      (form != ImplicitCast ==> Casts(cx, env, arg, t, typmod, Relabel)) && Resolves(cx, env, arg)
    case BoolExpr(_, args) => AllResolve(cx, env, args)
    case NullTest(arg, _, _) =>
      env.isRow(ExprType(Strip(arg))) == cx.isRow(ExprType(arg)) && Resolves(cx, env, arg)
    case ArrayExpr(elements, t, _) =>
      && (elements != [] ==> env.arrayOf(Types(StripAll(elements))) == t)
      && (elements == [] && cx.typeName(t, -1).Some? ==> env.typeOf(cx.typeName(t, -1).value).0 == t)
      && AllResolve(cx, env, elements)
    case _ => true
  }

  ghost predicate AllResolve(cx: Context, env: Env, es: seq<Expr>)
    decreases es
  {
    es == [] || (Resolves(cx, env, es[0]) && AllResolve(cx, env, es[1..]))
  }

  // ----- how printed expressions begin -----

  /** Tokens an expression can begin with inside other text. */
  predicate Starts(t: Token) {
    t.Column? || t.Dollar? || (t.Number? && !Signed(t.text)) || t.Str? || t.Bits? || t.TrueKw? || t.FalseKw?
    || t.NullKw? || t.FuncName? || t.ArrayKw? || t.LPar?
  }

  /** An expression begins with such a token, and NULL is never without its label. */
  lemma {:induction false} BeginsWell(cx: Context, e: Expr, ps: seq<Expr>)
    requires cx.collect && Readable(cx, e) && Print(cx, e, ps).Some?
    ensures var toks := Print(cx, e, ps).value.toks;
            toks != [] && Starts(toks[0]) && (toks[0].NullKw? ==> |toks| > 1 && toks[1].Cast?)
    decreases e
  {
    match e
    case FuncExpr(_, args, form, _, _, _, _, _) => if form != ExplicitCall { BeginsWell(cx, args[0], ps); }
    case RelabelType(arg, _, _, _, _) => BeginsWell(cx, arg, ps);
    case _ =>
  }

  // ----- one token at a time -----

  lemma Peel<T>(t: T, xs: seq<T>)
    ensures ([t] + xs)[0] == t && ([t] + xs)[1..] == xs
  {
  }

  lemma PeelTwo<T>(t: T, u: T, xs: seq<T>)
    ensures var ts := [t] + ([u] + xs); ts[0] == t && ts[1..][0] == u && ts[2..] == xs
  {
    Peel(t, [u] + xs);
    Peel(u, xs);
  }

  lemma Front<T>(a: seq<T>, xs: seq<T>)
    requires a != []
    ensures (a + xs)[0] == a[0]
  {
  }

  lemma ReadOpen(env: Env, ps: seq<Expr>, xs: seq<Token>)
    ensures ReadPrimary(env, ps, [LPar] + xs) == ReadParen(env, ps, xs)
  {
    Peel(LPar, xs);
  }

  /** A parenthesis that opens with an operand. */
  lemma ReadFirst(env: Env, ps: seq<Expr>, toks: seq<Token>, a: Expr, xs: seq<Token>)
    requires toks != [] && Starts(toks[0]) && Read(env, ps, toks) == Some(Got(a, xs))
    ensures ReadParen(env, ps, toks) == ReadTail(env, ps, a, xs)
  {
  }

  lemma ReadOper(env: Env, ps: seq<Expr>, a: Expr, name: Name, xs: seq<Token>)
    ensures ReadTail(env, ps, a, [OpName(name)] + xs) == ReadOperator(env, ps, a, name, xs)
  {
    Peel(OpName(name), xs);
  }

  lemma ReadSecond(env: Env, ps: seq<Expr>, a: Expr, name: Name, toks: seq<Token>, b: Expr, rest: seq<Token>)
    requires toks != [] && Starts(toks[0]) && Read(env, ps, toks) == Some(Got(b, [RPar] + rest))
    ensures ReadOperator(env, ps, a, name, toks) == Some(Got(MakeOp(env, name, Infix, [a, b]), rest))
  {
    Peel(RPar, rest);
  }

  lemma ReadPrefixed(env: Env, ps: seq<Expr>, name: Name, toks: seq<Token>, a: Expr, rest: seq<Token>)
    requires Read(env, ps, toks) == Some(Got(a, [RPar] + rest))
    ensures ReadParen(env, ps, [OpName(name)] + toks) == Some(Got(MakeOp(env, name, Prefix, [a]), rest))
  {
    Peel(OpName(name), toks);
    Peel(RPar, rest);
  }

  lemma ReadPostfixed(env: Env, ps: seq<Expr>, a: Expr, name: Name, rest: seq<Token>)
    ensures ReadOperator(env, ps, a, name, [RPar] + rest) == Some(Got(MakeOp(env, name, Postfix, [a]), rest))
  {
    Peel(RPar, rest);
  }

  lemma ReadNegated(env: Env, ps: seq<Expr>, toks: seq<Token>, a: Expr, rest: seq<Token>)
    requires Read(env, ps, toks) == Some(Got(a, [RPar] + rest))
    ensures ReadParen(env, ps, [NotKw] + toks) == Some(Got(BoolExpr(Not, [a]), rest))
  {
    Peel(NotKw, toks);
    Peel(RPar, rest);
  }

  lemma ReadDistinct(env: Env, ps: seq<Expr>, a: Expr, toks: seq<Token>, b: Expr, rest: seq<Token>)
    requires Read(env, ps, toks) == Some(Got(b, [RPar] + rest)) && !BareNull(toks)
    ensures ReadTail(env, ps, a, [IsDistinctFrom] + toks) == Some(Got(DistinctExpr(0, [a, b], 0, 0), rest))
  {
    Peel(IsDistinctFrom, toks);
    Peel(RPar, rest);
  }

  lemma ReadNullTest(env: Env, ps: seq<Expr>, a: Expr, isNull: bool, rest: seq<Token>)
    ensures ReadTail(env, ps, a, [if isNull then IsNull else IsNotNull] + ([RPar] + rest))
         == Some(Got(NullTest(a, isNull, env.isRow(ExprType(a))), rest))
  {
    var t := if isNull then IsNull else IsNotNull;
    Peel(t, [RPar] + rest);
    Peel(RPar, rest);
    assert ([t] + ([RPar] + rest))[2..] == ([t] + ([RPar] + rest))[1..][1..];
  }

  lemma ReadRowTest(env: Env, ps: seq<Expr>, a: Expr, isNull: bool, rest: seq<Token>)
    ensures ReadTail(env, ps, a, [if isNull then IsNotDistinctFrom else IsDistinctFrom] + ([NullKw] + ([RPar] + rest)))
         == Some(Got(NullTest(a, isNull, false), rest))
  {
    var t := if isNull then IsNotDistinctFrom else IsDistinctFrom;
    var toks := [t] + ([NullKw] + ([RPar] + rest));
    Peel(t, [NullKw] + ([RPar] + rest));
    Peel(NullKw, [RPar] + rest);
    Peel(RPar, rest);
    assert toks[3..] == toks[1..][1..][1..];
  }

  lemma ReadAnyAll(env: Env, ps: seq<Expr>, a: Expr, name: Name, useOr: bool, toks: seq<Token>, b: Expr,
                   rest: seq<Token>)
    requires Read(env, ps, toks) == Some(Got(b, [RPar] + ([RPar] + rest)))
    ensures ReadOperator(env, ps, a, name, [if useOr then AnyKw else AllKw] + ([LPar] + toks))
         == Some(Got(MakeAny(env, name, useOr, a, b), rest))
  {
    var t := if useOr then AnyKw else AllKw;
    var xs := [t] + ([LPar] + toks);
    Peel(t, [LPar] + toks);
    Peel(LPar, toks);
    assert xs[2..] == xs[1..][1..];
    Peel(RPar, [RPar] + rest);
    Peel(RPar, rest);
    var ys := [RPar] + ([RPar] + rest);
    assert ys[2..] == ys[1..][1..];
  }

  // ----- constants and parameters -----

  lemma UnlabelledType(text: string, t: Oid, typmod: int)
    requires !NeedsLabel(text, t, typmod)
    ensures || t in {BOOLOID, INT4OID, UNKNOWNOID}
            || (t == NUMERICOID && LooksNumeric(text) && LooksFloat(text) && typmod < 0)
  {
  }

  /** The token of a constant, with or without a label behind it. */
  lemma ReadBody(env: Env, ps: seq<Expr>, t: Token, xs: seq<Token>)
    requires t.Number? || t.Str? || t.Bits? || t.TrueKw? || t.FalseKw? || t.NullKw?
    ensures ReadPrimary(env, ps, [t] + xs) == ReadConst(env, t, xs)
    ensures t.Number? && Signed(t.text) ==>
              ReadPrimary(env, ps, [LPar] + ([t] + ([RPar] + xs))) == ReadConst(env, t, xs)
  {
    Peel(t, xs);
    if t.Number? && Signed(t.text) {
      ReadOpen(env, ps, [t] + ([RPar] + xs));
      Peel(t, [RPar] + xs);
      Peel(RPar, xs);
      var ys := [t] + ([RPar] + xs);
      assert ys[2..] == ys[1..][1..];
    }
  }

  /** The token that carries the value of a constant, null or not. */
  function TokenOf(e: Expr): Token
    requires e.Const?
  {
    if e.isnull then NullKw else ValueToken(e.text, e.ctype)
  }

  /** A cast that follows the text of e is not taken for a label. */
  predicate NotTaken(env: Env, e: Expr, rest: seq<Token>) {
    NextIsCast(rest) ==> var (t, typmod) := env.typeOf(rest[0].typename); !TakenForLabel(Strip(e), t, typmod)
  }

  lemma ReadValue(cx: Context, env: Env, e: Expr, rest: seq<Token>)
    requires Resolves(cx, env, e) && e.Const? && ReadableConst(e) && NotTaken(env, e, rest)
    ensures (e.isnull || NeedsLabel(e.text, e.ctype, e.ctypmod)) && cx.typeName(e.ctype, e.ctypmod).Some? ==>
              ReadConst(env, TokenOf(e), [Cast(cx.typeName(e.ctype, e.ctypmod).value)] + rest)
              == Some(Got(Strip(e), rest))
    ensures !e.isnull && !NeedsLabel(e.text, e.ctype, e.ctypmod) ==>
              ReadConst(env, TokenOf(e), rest) == Some(Got(Strip(e), rest))
  {
    if cx.typeName(e.ctype, e.ctypmod).Some? { Peel(Cast(cx.typeName(e.ctype, e.ctypmod).value), rest); }
    if !e.isnull && !NeedsLabel(e.text, e.ctype, e.ctypmod) { UnlabelledType(e.text, e.ctype, e.ctypmod); }
  }

  lemma ConstRoundTrip(cx: Context, env: Env, e: Expr, ps: seq<Expr>, rest: seq<Token>)
    requires Resolves(cx, env, e) && e.Const? && ReadableConst(e) && PrintConst(cx, e).Some? && NotTaken(env, e, rest)
    ensures ReadPrimary(env, ps, PrintConst(cx, e).value + rest) == Some(Got(Strip(e), rest))
  {
    var labelled := e.isnull || NeedsLabel(e.text, e.ctype, e.ctypmod);
    var tag := if labelled then [Cast(cx.typeName(e.ctype, e.ctypmod).value)] else [];
    var t := TokenOf(e);
    ReadValue(cx, env, e, rest);
    ReadBody(env, ps, t, tag + rest);
    ConstTokens(cx, e, tag);
    if t.Number? && Signed(t.text) {
      SignedText(t, tag, rest);
    } else {
      Unlabelled([t], tag, rest);
    }
    if !labelled { Unlabelled([], tag, rest); }
  }

  lemma ConstTokens(cx: Context, e: Expr, tag: seq<Token>)
    requires e.Const? && PrintConst(cx, e).Some?
    requires tag == if e.isnull || NeedsLabel(e.text, e.ctype, e.ctypmod)
                    then [Cast(cx.typeName(e.ctype, e.ctypmod).value)] else []
    ensures var t := TokenOf(e);
            PrintConst(cx, e).value == (if t.Number? && Signed(t.text) then [LPar, t, RPar] else [t]) + tag
  {
  }

  lemma SignedText(t: Token, tag: seq<Token>, rest: seq<Token>)
    ensures [LPar, t, RPar] + tag + rest == [LPar] + ([t] + ([RPar] + (tag + rest)))
  {
  }

  lemma Unlabelled<T>(t: seq<T>, tag: seq<T>, rest: seq<T>)
    ensures t + tag + rest == t + (tag + rest)
    ensures tag == [] ==> tag + rest == rest
  {
  }

  lemma ParamRoundTrip(cx: Context, env: Env, e: Expr, t: Oid, typmod: int, ps: seq<Expr>, final: seq<Expr>,
                       rest: seq<Token>)
    requires cx.collect && PrintParam(cx, e, t, typmod, ps).Some?
    requires PrintParam(cx, e, t, typmod, ps).value.params <= final
    ensures ReadPrimary(env, final, PrintParam(cx, e, t, typmod, ps).value.toks + rest) == Some(Got(Strip(e), rest))
  {
    var r := PrintParam(cx, e, t, typmod, ps).value;
    var k := IndexOf(ps, e);
    assert final[k] == r.params[k] == e;
    var xs := r.toks + rest;
    assert xs[0] == Dollar(k + 1) && xs[1..][0].Cast? && xs[2..] == rest;
  }

  // ----- expressions -----

  /** What the reader is to make of the text of e followed by rest. */
  ghost predicate ReadsBack(cx: Context, env: Env, e: Expr, ps: seq<Expr>, final: seq<Expr>, rest: seq<Token>)
    requires Print(cx, e, ps).Some?
  {
    Read(env, final, Print(cx, e, ps).value.toks + rest) == Some(Got(Strip(e), rest))
  }

  /** The same before casts are looked for. */
  ghost predicate Primary(cx: Context, env: Env, e: Expr, ps: seq<Expr>, final: seq<Expr>, rest: seq<Token>)
    requires Print(cx, e, ps).Some?
  {
    ReadPrimary(env, final, Print(cx, e, ps).value.toks + rest) == Some(Got(Strip(e), rest))
  }

  /** The same whatever casts follow. */
  ghost predicate ReadsOn(cx: Context, env: Env, e: Expr, ps: seq<Expr>, final: seq<Expr>, rest: seq<Token>)
    requires Print(cx, e, ps).Some?
  {
    ReadCasted(env, final, Print(cx, e, ps).value.toks + rest) == Some(ReadCasts(env, Strip(e), rest))
  }

  /** Neither a cast nor a bracket follows. */
  predicate Ends(rest: seq<Token>) {
    !NextIsCast(rest) && !Next(rest, LBrk)
  }

  lemma OperatorRoundTrip(cx: Context, env: Env, e: Expr, ps: seq<Expr>, final: seq<Expr>, rest: seq<Token>)
    requires Resolves(cx, env, e) && cx.collect && e.OpExpr? && Readable(cx, e) && Print(cx, e, ps).Some?
    requires cx.opers[e.opno].kind == Infix
    requires var a := Print(cx, e.args[0], ps).value; var b := Print(cx, e.args[1], a.params).value;
             var name := cx.opers[e.opno].name;
             && ReadsBack(cx, env, e.args[0], ps, final, [OpName(name)] + (b.toks + ([RPar] + rest)))
             && ReadsBack(cx, env, e.args[1], a.params, final, [RPar] + rest)
    ensures Primary(cx, env, e, ps, final, rest)
  {
    var name := cx.opers[e.opno].name;
    var a := Print(cx, e.args[0], ps).value;
    var b := Print(cx, e.args[1], a.params).value;
    TwoReadable(cx, env, e.args);
    var after := b.toks + ([RPar] + rest);
    var inner := a.toks + ([OpName(name)] + after);
    Unwrap2([LPar], a.toks, [OpName(name)], b.toks, [RPar], rest);
    ReadOpen(env, final, inner);
    BeginsWell(cx, e.args[0], ps);
    Front(a.toks, [OpName(name)] + after);
    ReadFirst(env, final, inner, Strip(e.args[0]), [OpName(name)] + after);
    ReadOper(env, final, Strip(e.args[0]), name, after);
    BeginsWell(cx, e.args[1], a.params);
    Front(b.toks, [RPar] + rest);
    ReadSecond(env, final, Strip(e.args[0]), name, after, Strip(e.args[1]), rest);
  }

  lemma TwoReadable(cx: Context, env: Env, args: seq<Expr>)
    requires |args| == 2
    ensures AllReadable(cx, args) ==> Readable(cx, args[0]) && Readable(cx, args[1])
    ensures AllResolve(cx, env, args) ==> Resolves(cx, env, args[0]) && Resolves(cx, env, args[1])
    ensures StripAll(args) == [Strip(args[0]), Strip(args[1])]
  {
    assert args[1..][0] == args[1] && args[1..][1..] == [];
    if AllReadable(cx, args) { assert AllReadable(cx, args[1..]) && Readable(cx, args[1..][0]); }
    if AllResolve(cx, env, args) { assert AllResolve(cx, env, args[1..]) && Resolves(cx, env, args[1..][0]); }
  }

  lemma OneReadable(cx: Context, env: Env, args: seq<Expr>)
    requires |args| == 1
    ensures AllReadable(cx, args) ==> Readable(cx, args[0])
    ensures AllResolve(cx, env, args) ==> Resolves(cx, env, args[0])
    ensures StripAll(args) == [Strip(args[0])]
  {
    assert args[1..] == [];
  }

  /** Taking the fixed text off one token after another. */
  lemma Unwrap2<T>(p: seq<T>, a: seq<T>, m: seq<T>, b: seq<T>, q: seq<T>, rest: seq<T>)
    ensures p + a + m + b + q + rest == p + (a + (m + (b + (q + rest))))
  {
  }

  lemma Unwrap1<T>(p: seq<T>, a: seq<T>, q: seq<T>, rest: seq<T>)
    ensures p + a + q + rest == p + (a + (q + rest))
  {
  }

  lemma OneOperandRoundTrip(cx: Context, env: Env, e: Expr, ps: seq<Expr>, final: seq<Expr>, rest: seq<Token>)
    requires Resolves(cx, env, e) && cx.collect && e.OpExpr? && Readable(cx, e) && Print(cx, e, ps).Some?
    requires cx.opers[e.opno].kind != Infix
    requires cx.opers[e.opno].kind == Prefix ==> ReadsBack(cx, env, e.args[0], ps, final, [RPar] + rest)
    requires cx.opers[e.opno].kind == Postfix ==>
               ReadsBack(cx, env, e.args[0], ps, final, [OpName(cx.opers[e.opno].name)] + ([RPar] + rest))
    ensures Primary(cx, env, e, ps, final, rest)
  {
    var name := cx.opers[e.opno].name;
    var a := Print(cx, e.args[0], ps).value;
    OneReadable(cx, env, e.args);
    var arg := Strip(e.args[0]);
    if cx.opers[e.opno].kind == Prefix {
      Unwrap2([LPar], [], [OpName(name)], a.toks, [RPar], rest);
      ReadOpen(env, final, [OpName(name)] + (a.toks + ([RPar] + rest)));
      ReadPrefixed(env, final, name, a.toks + ([RPar] + rest), arg, rest);
      assert [] + ([OpName(name)] + (a.toks + ([RPar] + rest))) == [OpName(name)] + (a.toks + ([RPar] + rest));
    } else {
      var after := [OpName(name)] + ([RPar] + rest);
      Unwrap2([LPar], a.toks, [OpName(name)], [], [RPar], rest);
      ReadOpen(env, final, a.toks + after);
      BeginsWell(cx, e.args[0], ps);
      Front(a.toks, after);
      ReadFirst(env, final, a.toks + after, arg, after);
      ReadOper(env, final, arg, name, [RPar] + rest);
      ReadPostfixed(env, final, arg, name, rest);
      assert [] + ([RPar] + rest) == [RPar] + rest;
    }
  }

  lemma DistinctRoundTrip(cx: Context, env: Env, e: Expr, ps: seq<Expr>, final: seq<Expr>, rest: seq<Token>)
    requires cx.collect && e.DistinctExpr? && Readable(cx, e) && Print(cx, e, ps).Some?
    requires var a := Print(cx, e.args[0], ps).value; var b := Print(cx, e.args[1], a.params).value;
             && ReadsBack(cx, env, e.args[0], ps, final, [IsDistinctFrom] + (b.toks + ([RPar] + rest)))
             && ReadsBack(cx, env, e.args[1], a.params, final, [RPar] + rest)
    ensures Primary(cx, env, e, ps, final, rest)
  {
    var a := Print(cx, e.args[0], ps).value;
    var b := Print(cx, e.args[1], a.params).value;
    TwoReadable(cx, env, e.args);
    var after := [IsDistinctFrom] + (b.toks + ([RPar] + rest));
    Unwrap2([LPar], a.toks, [IsDistinctFrom], b.toks, [RPar], rest);
    ReadOpen(env, final, a.toks + after);
    BeginsWell(cx, e.args[0], ps);
    Front(a.toks, after);
    ReadFirst(env, final, a.toks + after, Strip(e.args[0]), after);
    BeginsWell(cx, e.args[1], a.params);
    assert !BareNull(b.toks + ([RPar] + rest));
    ReadDistinct(env, final, Strip(e.args[0]), b.toks + ([RPar] + rest), Strip(e.args[1]), rest);
  }

  lemma Tokens2<T>(t: T, u: T, xs: seq<T>)
    ensures [t, u] + xs == [t] + ([u] + xs)
  {
  }

  lemma Tokens3<T>(t: T, u: T, v: T, xs: seq<T>)
    ensures [t, u, v] + xs == [t] + ([u] + ([v] + xs))
  {
  }

  lemma MakesAny(cx: Context, env: Env, e: Expr)
    requires e.ScalarArrayOpExpr? && |e.args| == 2 && e.opno in cx.opers && Resolves(cx, env, e)
    ensures MakeAny(env, cx.opers[e.opno].name, e.useOr, Strip(e.args[0]), Strip(e.args[1])) == Strip(e)
  {
    TwoReadable(cx, env, e.args);
  }

  lemma AnyAllRoundTrip(cx: Context, env: Env, e: Expr, ps: seq<Expr>, final: seq<Expr>, rest: seq<Token>)
    requires Resolves(cx, env, e) && cx.collect && e.ScalarArrayOpExpr? && Readable(cx, e) && Print(cx, e, ps).Some?
    requires var a := Print(cx, e.args[0], ps).value; var b := Print(cx, e.args[1], a.params).value;
             var name, q := cx.opers[e.opno].name, if e.useOr then AnyKw else AllKw;
             && ReadsBack(cx, env, e.args[0], ps, final,
                          [OpName(name)] + ([q] + ([LPar] + (b.toks + ([RPar] + ([RPar] + rest))))))
             && ReadsBack(cx, env, e.args[1], a.params, final, [RPar] + ([RPar] + rest))
    ensures Primary(cx, env, e, ps, final, rest)
  {
    var name, q := cx.opers[e.opno].name, if e.useOr then AnyKw else AllKw;
    var a := Print(cx, e.args[0], ps).value;
    var b := Print(cx, e.args[1], a.params).value;
    TwoReadable(cx, env, e.args);
    var last := b.toks + ([RPar] + ([RPar] + rest));
    var after := [OpName(name)] + ([q] + ([LPar] + last));
    Unwrap2([LPar], a.toks, [OpName(name), q, LPar], b.toks, [RPar, RPar], rest);
    Tokens3(OpName(name), q, LPar, b.toks + ([RPar, RPar] + rest));
    Tokens2(RPar, RPar, rest);
    ReadOpen(env, final, a.toks + after);
    BeginsWell(cx, e.args[0], ps);
    Front(a.toks, after);
    ReadFirst(env, final, a.toks + after, Strip(e.args[0]), after);
    ReadOper(env, final, Strip(e.args[0]), name, [q] + ([LPar] + last));
    MakesAny(cx, env, e);
    ReadAnyAll(env, final, Strip(e.args[0]), name, e.useOr, last, Strip(e.args[1]), rest);
  }

  lemma NotRoundTrip(cx: Context, env: Env, e: Expr, ps: seq<Expr>, final: seq<Expr>, rest: seq<Token>)
    requires e.BoolExpr? && e.op == Not && Readable(cx, e) && Print(cx, e, ps).Some?
    requires ReadsBack(cx, env, e.args[0], ps, final, [RPar] + rest)
    ensures Primary(cx, env, e, ps, final, rest)
  {
    var a := Print(cx, e.args[0], ps).value;
    OneReadable(cx, env, e.args);
    Unwrap2([LPar], [], [NotKw], a.toks, [RPar], rest);
    assert [LPar, NotKw] + a.toks + [RPar] == [LPar] + [] + [NotKw] + a.toks + [RPar];
    var inner := [NotKw] + (a.toks + ([RPar] + rest));
    assert [] + inner == inner;
    ReadOpen(env, final, inner);
    ReadNegated(env, final, a.toks + ([RPar] + rest), Strip(e.args[0]), rest);
  }

  /** The last tokens of a null test. */
  function TestTail(cx: Context, e: Expr, rest: seq<Token>): seq<Token>
    requires e.NullTest?
  {
    if cx.isRow(ExprType(e.arg)) && !e.argisrow
    then [if e.isNull then IsNotDistinctFrom else IsDistinctFrom] + ([NullKw] + ([RPar] + rest))
    else [if e.isNull then IsNull else IsNotNull] + ([RPar] + rest)
  }

  lemma TestText(cx: Context, e: Expr, a: seq<Token>, rest: seq<Token>)
    requires e.NullTest?
    ensures [LPar] + a + NullTestToken(cx, e) + [RPar] + rest == [LPar] + (a + TestTail(cx, e, rest))
  {
    var ts := NullTestToken(cx, e);
    assert ts + ([RPar] + rest) == TestTail(cx, e, rest);
    Unwrap2([LPar], a, ts, [], [RPar], rest);
    assert [LPar] + a + ts + [] + [RPar] == [LPar] + a + ts + [RPar];
    assert [] + ([RPar] + rest) == [RPar] + rest;
  }

  lemma NullTestRoundTrip(cx: Context, env: Env, e: Expr, ps: seq<Expr>, final: seq<Expr>, rest: seq<Token>)
    requires Resolves(cx, env, e) && cx.collect && e.NullTest? && Readable(cx, e) && Print(cx, e, ps).Some?
    requires ReadsBack(cx, env, e.arg, ps, final, TestTail(cx, e, rest))
    ensures Primary(cx, env, e, ps, final, rest)
  {
    var a := Print(cx, e.arg, ps).value;
    var after := TestTail(cx, e, rest);
    TestText(cx, e, a.toks, rest);
    ReadOpen(env, final, a.toks + after);
    BeginsWell(cx, e.arg, ps);
    Front(a.toks, after);
    ReadFirst(env, final, a.toks + after, Strip(e.arg), after);
    ReadNullTest(env, final, Strip(e.arg), e.isNull, rest);
    ReadRowTest(env, final, Strip(e.arg), e.isNull, rest);
  }

  // ----- lists -----

  /** The text of an element with what may precede it: a comma, and VARIADIC. */
  predicate Leads(toks: seq<Token>, first: bool, mark: bool, item: seq<Token>) {
    var marked := if first || toks == [] then toks else toks[1..];
    && (first || Next(toks, Comma))
    && if mark then Next(marked, VariadicKw) && marked[1..] == item else marked == item
  }

  lemma LeadsItem(first: bool, mark: bool, item: seq<Token>)
    ensures Leads((if first then [] else [Comma]) + ((if mark then [VariadicKw] else []) + item), first, mark, item)
  {
    var marked := (if mark then [VariadicKw] else []) + item;
    if mark { Peel(VariadicKw, item); } else { assert marked == item; }
    if first { assert [] + marked == marked; } else { Peel(Comma, marked); }
  }

  lemma ReadItemsStep(env: Env, ps: seq<Expr>, toks: seq<Token>, first: bool, mark: bool, item: seq<Token>,
                      close: Token, e: Expr, xs: seq<Token>, more: GotList)
    requires close in {RPar, RBrk} && item != [] && Starts(item[0]) && Leads(toks, first, mark, item)
    requires Read(env, ps, item) == Some(Got(e, xs)) && ReadItems(env, ps, xs, close, false) == Some(more)
    ensures ReadItems(env, ps, toks, close, first) == Some(GotList([e] + more.es, mark || more.variadic, more.rest))
  {
  }

  /** What follows an element of a list is neither a cast nor a bracket. */
  lemma EndsNext(cx: Context, es: seq<Expr>, sep: Token, variadic: bool, ps: seq<Expr>, close: Token,
                   rest: seq<Token>)
    requires PrintRest(cx, es, false, sep, variadic, ps).Some? && Ends([sep]) && Ends([close])
    ensures Ends(PrintRest(cx, es, false, sep, variadic, ps).value.toks + ([close] + rest))
  {
    Peel(close, rest);
    var toks := PrintRest(cx, es, false, sep, variadic, ps).value.toks;
    if es == [] { assert toks + ([close] + rest) == [close] + rest; } else { assert toks[0] == sep; }
  }

  lemma ListTokens(cx: Context, es: seq<Expr>, first: bool, sep: Token, variadic: bool, ps: seq<Expr>, tail: seq<Token>)
    requires es != [] && PrintRest(cx, es, first, sep, variadic, ps).Some?
    ensures var a := Print(cx, es[0], ps).value;
            var b := PrintRest(cx, es[1..], false, sep, variadic, a.params).value;
            PrintRest(cx, es, first, sep, variadic, ps).value.toks + tail ==
            (if first then [] else [sep])
            + ((if variadic && |es| == 1 then [VariadicKw] else []) + (a.toks + (b.toks + tail)))
  {
    var a := Print(cx, es[0], ps).value;
    var b := PrintRest(cx, es[1..], false, sep, variadic, a.params).value;
    Unwrap(if first then [] else [sep], if variadic && |es| == 1 then [VariadicKw] else [], a.toks, b.toks, tail);
  }

  lemma Unwrap<T>(p: seq<T>, m: seq<T>, a: seq<T>, b: seq<T>, rest: seq<T>)
    ensures p + m + a + b + rest == p + (m + (a + (b + rest)))
  {
  }

  /** The same for a list without separators before it or marks in it. */
  lemma PlainTokens<T>(a: seq<T>)
    ensures [] + a == a == [] + ([] + a)
  {
  }

  lemma {:induction false} ItemsRoundTrip(cx: Context, env: Env, es: seq<Expr>, first: bool, variadic: bool,
                                          ps: seq<Expr>, final: seq<Expr>, close: Token, rest: seq<Token>)
    requires cx.collect && AllReadable(cx, es) && AllResolve(cx, env, es) && close in {RPar, RBrk}
    requires PrintRest(cx, es, first, Comma, variadic, ps).Some?
    requires PrintRest(cx, es, first, Comma, variadic, ps).value.params <= final
    ensures ReadItems(env, final, PrintRest(cx, es, first, Comma, variadic, ps).value.toks + ([close] + rest),
                      close, first)
         == Some(GotList(StripAll(es), variadic && es != [], rest))
    decreases es
  {
    Peel(close, rest);
    if es == [] {
      assert [] + ([close] + rest) == [close] + rest;
    } else {
      var a := Print(cx, es[0], ps).value;
      var b := PrintRest(cx, es[1..], false, Comma, variadic, a.params).value;
      var tail := b.toks + ([close] + rest);
      ParamNumbering.RestNumbers(cx, es[1..], false, Comma, variadic, a.params);
      EndsNext(cx, es[1..], Comma, variadic, a.params, close, rest);
      RoundTrip(cx, env, es[0], ps, final, tail);
      ItemsRoundTrip(cx, env, es[1..], false, variadic, a.params, final, close, rest);
      BeginsWell(cx, es[0], ps);
      Front(a.toks, tail);
      ListTokens(cx, es, first, Comma, variadic, ps, [close] + rest);
      LeadsItem(first, variadic && |es| == 1, a.toks + tail);
      ReadItemsStep(env, final, PrintRest(cx, es, first, Comma, variadic, ps).value.toks + ([close] + rest), first,
                    variadic && |es| == 1, a.toks + tail, close, Strip(es[0]), tail,
                    GotList(StripAll(es[1..]), variadic && es[1..] != [], rest));
    }
  }

  lemma ReadChainStep(env: Env, ps: seq<Expr>, sep: Token, item: seq<Token>, e: Expr, xs: seq<Token>, more: GotList)
    requires sep in {AndKw, OrKw} && Read(env, ps, item) == Some(Got(e, xs))
    requires ReadChain(env, ps, xs, sep) == Some(more)
    ensures ReadChain(env, ps, [sep] + item, sep) == Some(GotList([e] + more.es, false, more.rest))
  {
    var toks := [sep] + item;
    assert toks[0] == sep && toks[1..] == item;
  }

  lemma {:induction false} ChainRoundTrip(cx: Context, env: Env, es: seq<Expr>, sep: Token,
                                          ps: seq<Expr>, final: seq<Expr>, rest: seq<Token>)
    requires cx.collect && AllReadable(cx, es) && AllResolve(cx, env, es) && sep in {AndKw, OrKw}
    requires PrintRest(cx, es, false, sep, false, ps).Some?
    requires PrintRest(cx, es, false, sep, false, ps).value.params <= final
    ensures ReadChain(env, final, PrintRest(cx, es, false, sep, false, ps).value.toks + ([RPar] + rest), sep)
         == Some(GotList(StripAll(es), false, rest))
    decreases es
  {
    Peel(RPar, rest);
    if es == [] {
      assert [] + ([RPar] + rest) == [RPar] + rest;
    } else {
      var a := Print(cx, es[0], ps).value;
      var b := PrintRest(cx, es[1..], false, sep, false, a.params).value;
      var tail := b.toks + ([RPar] + rest);
      ParamNumbering.RestNumbers(cx, es[1..], false, sep, false, a.params);
      EndsNext(cx, es[1..], sep, false, a.params, RPar, rest);
      RoundTrip(cx, env, es[0], ps, final, tail);
      ChainRoundTrip(cx, env, es[1..], sep, a.params, final, rest);
      ListTokens(cx, es, false, sep, false, ps, [RPar] + rest);
      PlainTokens(a.toks + tail);
      ReadChainStep(env, final, sep, a.toks + tail, Strip(es[0]), tail, GotList(StripAll(es[1..]), false, rest));
    }
  }

  /** A parenthesis with a chain of operands. */
  lemma ReadAndOr(env: Env, ps: seq<Expr>, op: BoolOp, toks: seq<Token>, a: Expr, tail: seq<Token>, l: GotList)
    requires op != Not && toks != [] && Starts(toks[0]) && Read(env, ps, toks) == Some(Got(a, tail))
    requires var sep := if op == And then AndKw else OrKw; Next(tail, sep) && ReadChain(env, ps, tail, sep) == Some(l)
    ensures ReadPrimary(env, ps, [LPar] + toks) == Some(Got(BoolExpr(op, [a] + l.es), l.rest))
  {
    ReadOpen(env, ps, toks);
    ReadFirst(env, ps, toks, a, tail);
  }

  lemma NextIsSep(cx: Context, es: seq<Expr>, sep: Token, ps: seq<Expr>, tail: seq<Token>)
    requires es != [] && PrintRest(cx, es, false, sep, false, ps).Some?
    ensures Next(PrintRest(cx, es, false, sep, false, ps).value.toks + tail, sep)
  {
    ListTokens(cx, es, false, sep, false, ps, tail);
  }

  lemma {:induction false} AndOrRoundTrip(cx: Context, env: Env, e: Expr, ps: seq<Expr>, final: seq<Expr>,
                                          rest: seq<Token>)
    requires Resolves(cx, env, e) && cx.collect && e.BoolExpr? && e.op != Not && Readable(cx, e)
    requires Print(cx, e, ps).Some? && Print(cx, e, ps).value.params <= final
    ensures Primary(cx, env, e, ps, final, rest)
    decreases e, 0
  {
    var sep := if e.op == And then AndKw else OrKw;
    var first, others := e.args[0], e.args[1..];
    var a := Print(cx, first, ps).value;
    var b := PrintRest(cx, others, false, sep, false, a.params).value;
    var tail := b.toks + ([RPar] + rest);
    ParamNumbering.RestNumbers(cx, others, false, sep, false, a.params);
    EndsNext(cx, others, sep, false, a.params, RPar, rest);
    RoundTrip(cx, env, first, ps, final, tail);
    ChainRoundTrip(cx, env, others, sep, a.params, final, rest);
    NextIsSep(cx, others, sep, a.params, [RPar] + rest);
    BeginsWell(cx, first, ps);
    Front(a.toks, tail);
    ReadAndOr(env, final, e.op, a.toks + tail, Strip(first), tail, GotList(StripAll(others), false, rest));
    var inner := PrintRest(cx, e.args, true, sep, false, ps).value.toks;
    ListTokens(cx, e.args, true, sep, false, ps, [RPar] + rest);
    PlainTokens(a.toks + tail);
    Unwrap1([LPar], inner, [RPar], rest);
  }

  lemma Opening<T>(t: T, u: T, a: seq<T>, q: seq<T>, rest: seq<T>)
    ensures [t, u] + a + q + rest == [t] + ([u] + (a + (q + rest)))
  {
  }

  lemma ReadCall(env: Env, ps: seq<Expr>, name: Name, xs: seq<Token>, l: GotList)
    requires ReadItems(env, ps, xs, RPar, true) == Some(l)
    ensures ReadPrimary(env, ps, [FuncName(name)] + ([LPar] + xs))
         == Some(Got(MakeCall(env, name, l.es, l.variadic), l.rest))
  {
    PeelTwo(FuncName(name), LPar, xs);
  }

  lemma ReadArray(env: Env, ps: seq<Expr>, xs: seq<Token>, l: GotList)
    requires ReadItems(env, ps, xs, RBrk, true) == Some(l)
    ensures l.es != [] ==> ReadPrimary(env, ps, [ArrayKw] + ([LBrk] + xs)) == Some(Got(MakeArray(env, l.es), l.rest))
    ensures l.es == [] && NextIsCast(l.rest) ==>
              ReadPrimary(env, ps, [ArrayKw] + ([LBrk] + xs))
              == Some(Got(ArrayExpr([], env.typeOf(l.rest[0].typename).0, 0), l.rest[1..]))
  {
    PeelTwo(ArrayKw, LBrk, xs);
  }

  lemma {:induction false} CallRoundTrip(cx: Context, env: Env, e: Expr, ps: seq<Expr>, final: seq<Expr>,
                                         rest: seq<Token>)
    requires Resolves(cx, env, e) && cx.collect && e.FuncExpr? && e.form == ExplicitCall && Readable(cx, e)
    requires Print(cx, e, ps).Some? && Print(cx, e, ps).value.params <= final
    ensures Primary(cx, env, e, ps, final, rest)
    decreases e, 0
  {
    var name := cx.funcs[e.funcid];
    var a := PrintRest(cx, e.args, true, Comma, e.variadic, ps).value;
    ItemsRoundTrip(cx, env, e.args, true, e.variadic, ps, final, RPar, rest);
    ReadCall(env, final, name, a.toks + ([RPar] + rest), GotList(StripAll(e.args), e.variadic, rest));
    Opening(FuncName(name), LPar, a.toks, [RPar], rest);
  }

  lemma {:induction false} ArrayRoundTrip(cx: Context, env: Env, e: Expr, ps: seq<Expr>, final: seq<Expr>,
                                          rest: seq<Token>)
    requires Resolves(cx, env, e) && cx.collect && e.ArrayExpr? && Readable(cx, e)
    requires Print(cx, e, ps).Some? && Print(cx, e, ps).value.params <= final
    ensures Primary(cx, env, e, ps, final, rest)
    decreases e, 0
  {
    var a := PrintRest(cx, e.elements, true, Comma, false, ps).value;
    if e.elements == [] {
      EmptyArrayRoundTrip(cx, env, e, ps, final, rest);
    } else {
      ItemsRoundTrip(cx, env, e.elements, true, false, ps, final, RBrk, rest);
        ReadArray(env, final, a.toks + ([RBrk] + rest), GotList(StripAll(e.elements), false, rest));
      Opening(ArrayKw, LBrk, a.toks, [RBrk], rest);
    }
  }

  lemma EmptyArrayRoundTrip(cx: Context, env: Env, e: Expr, ps: seq<Expr>, final: seq<Expr>, rest: seq<Token>)
    requires Resolves(cx, env, e) && e.ArrayExpr? && e.elements == [] && Print(cx, e, ps).Some?
    ensures Primary(cx, env, e, ps, final, rest)
  {
    var tag := Cast(cx.typeName(e.atype, -1).value);
    var xs := [RBrk] + ([tag] + rest);
    Peel(RBrk, [tag] + rest);
    Peel(tag, rest);
    ReadArray(env, final, xs, GotList([], false, [tag] + rest));
    Opening(ArrayKw, LBrk, [], [RBrk, tag], rest);
    assert [] + ([RBrk, tag] + rest) == xs;
  }

  // ----- subscripts -----

  lemma ReadUnbounded(env: Env, ps: seq<Expr>, after: seq<Token>, y: Expr, xs: seq<Token>, more: GotSubscripts)
    requires Read(env, ps, after) == Some(Got(y, [RBrk] + xs)) && ReadSubscripts(env, ps, xs) == Some(more)
    ensures ReadSubscripts(env, ps, [LBrk] + after) == Some(GotSubscripts([y] + more.upper, more.lower, more.rest))
  {
    Peel(LBrk, after);
    Peel(RBrk, xs);
  }

  lemma ReadBounded(env: Env, ps: seq<Expr>, l: seq<Token>, x: Expr, after: seq<Token>, y: Expr, xs: seq<Token>,
                    more: GotSubscripts)
    requires Read(env, ps, l + ([Colon] + after)) == Some(Got(x, [Colon] + after))
    requires Read(env, ps, after) == Some(Got(y, [RBrk] + xs)) && ReadSubscripts(env, ps, xs) == Some(more)
    ensures ReadSubscripts(env, ps, [LBrk] + (l + ([Colon] + after)))
         == Some(GotSubscripts([y] + more.upper, [x] + more.lower, more.rest))
  {
    Peel(LBrk, l + ([Colon] + after));
    Peel(Colon, after);
    Peel(RBrk, xs);
  }

  function LowerFrom(e: Expr, i: nat): seq<Expr>
    requires e.ArrayRef?
  {
    if i < |e.lower| then e.lower[i..] else []
  }

  /** One element and the rest of a list. */
  lemma {:induction false} ReadableAt(cx: Context, env: Env, es: seq<Expr>, i: nat)
    requires i < |es|
    ensures AllReadable(cx, es) ==> Readable(cx, es[i])
    ensures AllResolve(cx, env, es) ==> Resolves(cx, env, es[i])
    ensures StripAll(es[i..]) == [Strip(es[i])] + StripAll(es[i + 1..])
  {
    assert es[i..][0] == es[i] && es[i..][1..] == es[i + 1..];
    if i > 0 { ReadableAt(cx, env, es[1..], i - 1); }
  }

  lemma SubscriptText(cx: Context, e: Expr, i: nat, ps: seq<Expr>, tail: seq<Token>)
    requires e.ArrayRef? && i < |e.upper| && PrintSubscript(cx, e, i, ps).Some?
    ensures var l := if i < |e.lower| then Print(cx, e.lower[i], ps).value else Printed([], ps);
            var after := Print(cx, e.upper[i], l.params).value.toks + ([RBrk] + tail);
            PrintSubscript(cx, e, i, ps).value.toks + tail
            == [LBrk] + if i < |e.lower| then l.toks + ([Colon] + after) else after
  {
    var l := if i < |e.lower| then Print(cx, e.lower[i], ps).value else Printed([], ps);
    var u := Print(cx, e.upper[i], l.params).value;
    Unwrap2([LBrk], l.toks, if i < |e.lower| then [Colon] else [], u.toks, [RBrk], tail);
    PlainTokens(u.toks + ([RBrk] + tail));
  }

  // ----- the theorem -----

  /** Reading the text of an expression, whatever follows it, with the final parameter list,
      returns the expression. */
  lemma {:induction false} RoundTrip(cx: Context, env: Env, e: Expr, ps: seq<Expr>, final: seq<Expr>, rest: seq<Token>)
    requires Resolves(cx, env, e) && cx.collect && Readable(cx, e) && Ends(rest)
    requires Print(cx, e, ps).Some? && Print(cx, e, ps).value.params <= final
    ensures ReadsBack(cx, env, e, ps, final, rest)
    decreases e, 3
  {
    CastedRoundTrip(cx, env, e, ps, final, rest);
  }

  /** The same with casts following. */
  lemma {:induction false} CastedRoundTrip(cx: Context, env: Env, e: Expr, ps: seq<Expr>, final: seq<Expr>,
                                           rest: seq<Token>)
    requires Resolves(cx, env, e) && cx.collect && Readable(cx, e) && NotTaken(env, e, rest)
    requires Print(cx, e, ps).Some? && Print(cx, e, ps).value.params <= final
    ensures ReadsOn(cx, env, e, ps, final, rest)
    decreases e, 2
  {
    if (e.FuncExpr? && e.form != ExplicitCall) || e.RelabelType? {
      var arg, form := if e.FuncExpr? then e.args[0] else e.arg, e.form;
      if form == ImplicitCast {
        CastedRoundTrip(cx, env, arg, ps, final, rest);
      } else {
        var tn := cx.typeName(e.rtype, e.rtypmod).value;
        Peel(Cast(tn), rest);
        CastedRoundTrip(cx, env, arg, ps, final, [Cast(tn)] + rest);
        assert Print(cx, e, ps).value.toks + rest == Print(cx, arg, ps).value.toks + ([Cast(tn)] + rest);
        MakesCast(cx, env, e, arg, tn);
      }
    } else {
      PrimaryRoundTrip(cx, env, e, ps, final, rest);
    }
  }

  lemma MakesCast(cx: Context, env: Env, e: Expr, arg: Expr, tn: string)
    requires Resolves(cx, env, e)
    requires (e.FuncExpr? && e.form == ExplicitCast && e.args != [] && arg == e.args[0])
          || (e.RelabelType? && e.form != ImplicitCast && arg == e.arg)
    requires cx.typeName(e.rtype, e.rtypmod) == Some(tn)
    ensures MakeCast(env, Strip(arg), tn) == Strip(e)
  {
    if e.FuncExpr? { assert StripAll(e.args) == [Strip(arg)] + StripAll(e.args[1..]); }
  }

  lemma {:induction false} PrimaryRoundTrip(cx: Context, env: Env, e: Expr, ps: seq<Expr>, final: seq<Expr>,
                                            rest: seq<Token>)
    requires Resolves(cx, env, e) && cx.collect && Readable(cx, e) && NotTaken(env, e, rest)
    requires !(e.FuncExpr? && e.form != ExplicitCall) && !e.RelabelType?
    requires Print(cx, e, ps).Some? && Print(cx, e, ps).value.params <= final
    ensures Primary(cx, env, e, ps, final, rest)
    decreases e, 1
  {
    match e {
      case Var(_, _, _, t, typmod, _) =>
        if cx.alias(e).Some? || IsRemoteColumn(cx, e) {
          var toks := Print(cx, e, ps).value.toks;
          Peel(toks[0], rest);
          assert toks + rest == [toks[0]] + rest;
        } else {
          ParamRoundTrip(cx, env, e, t, typmod, ps, final, rest);
        }
      case Const(_, _, _, _, _) => ConstRoundTrip(cx, env, e, final, rest);
      case Param(_, _, t, typmod, _) => ParamRoundTrip(cx, env, e, t, typmod, ps, final, rest);
      case ArrayRef(_, _, _, _, _, _) => SubscriptRoundTrip(cx, env, e, ps, final, rest);
      case FuncExpr(_, _, _, _, _, _, _, _) => CallRoundTrip(cx, env, e, ps, final, rest);
      case OpExpr(_, _, _, _, _) => OperandsRoundTrip(cx, env, e, ps, final, rest);
      case DistinctExpr(_, _, _, _) => PairRoundTrip(cx, env, e, ps, final, rest);
      case ScalarArrayOpExpr(_, _, _, _) => PairRoundTrip(cx, env, e, ps, final, rest);
      case BoolExpr(op, args) =>
        if op == Not {
          OneReadable(cx, env, args);
          RoundTrip(cx, env, args[0], ps, final, [RPar] + rest);
          NotRoundTrip(cx, env, e, ps, final, rest);
        } else {
          AndOrRoundTrip(cx, env, e, ps, final, rest);
        }
      case NullTest(arg, _, _) =>
        RoundTrip(cx, env, arg, ps, final, TestTail(cx, e, rest));
        NullTestRoundTrip(cx, env, e, ps, final, rest);
      case ArrayExpr(_, _, _) => ArrayRoundTrip(cx, env, e, ps, final, rest);
    }
  }

  lemma {:induction false} BoundsRoundTrip(cx: Context, env: Env, e: Expr, i: nat, ps: seq<Expr>, final: seq<Expr>,
                                           tail: seq<Token>, more: GotSubscripts)
    requires Resolves(cx, env, e) && cx.collect && e.ArrayRef? && Readable(cx, e) && i < |e.upper|
    requires PrintSubscript(cx, e, i, ps).Some? && PrintSubscript(cx, e, i, ps).value.params <= final
    requires ReadSubscripts(env, final, tail) == Some(more)
    ensures ReadSubscripts(env, final, PrintSubscript(cx, e, i, ps).value.toks + tail)
         == Some(GotSubscripts([Strip(e.upper[i])] + more.upper,
                               (if i < |e.lower| then [Strip(e.lower[i])] else []) + more.lower, more.rest))
    decreases e, 0, 0
  {
    SubscriptText(cx, e, i, ps, tail);
    ReadableAt(cx, env, e.upper, i);
    if i < |e.lower| {
      var l := Print(cx, e.lower[i], ps).value;
      var after := Print(cx, e.upper[i], l.params).value.toks + ([RBrk] + tail);
      ParamNumbering.PrintNumbers(cx, e.upper[i], l.params);
      ReadableAt(cx, env, e.lower, i);
      RoundTrip(cx, env, e.lower[i], ps, final, [Colon] + after);
      RoundTrip(cx, env, e.upper[i], l.params, final, [RBrk] + tail);
      ReadBounded(env, final, l.toks, Strip(e.lower[i]), after, Strip(e.upper[i]), tail, more);
    } else {
      RoundTrip(cx, env, e.upper[i], ps, final, [RBrk] + tail);
      ReadUnbounded(env, final, Print(cx, e.upper[i], ps).value.toks + ([RBrk] + tail), Strip(e.upper[i]), tail, more);
      assert [] + more.lower == more.lower;
    }
  }

  lemma {:induction false} BoundsListRoundTrip(cx: Context, env: Env, e: Expr, i: nat, ps: seq<Expr>, final: seq<Expr>,
                                               rest: seq<Token>)
    requires Resolves(cx, env, e) && cx.collect && e.ArrayRef? && Readable(cx, e) && i <= |e.upper|
    requires PrintSubscripts(cx, e, i, ps).Some? && PrintSubscripts(cx, e, i, ps).value.params <= final
    ensures ReadSubscripts(env, final, PrintSubscripts(cx, e, i, ps).value.toks + ([RPar] + rest))
         == Some(GotSubscripts(StripAll(e.upper[i..]), StripAll(LowerFrom(e, i)), rest))
    decreases e, 0, |e.upper| - i + 1
  {
    if i == |e.upper| {
      Peel(RPar, rest);
      PlainTokens([RPar] + rest);
    } else {
      var s := PrintSubscript(cx, e, i, ps).value;
      var more := PrintSubscripts(cx, e, i + 1, s.params).value;
      ParamNumbering.SubscriptsNumber(cx, e, i + 1, s.params);
      BoundsListRoundTrip(cx, env, e, i + 1, s.params, final, rest);
      BoundsRoundTrip(cx, env, e, i, ps, final, more.toks + ([RPar] + rest),
                      GotSubscripts(StripAll(e.upper[i + 1..]), StripAll(LowerFrom(e, i + 1)), rest));
      Unlabelled(s.toks, more.toks, [RPar] + rest);
      ReadableAt(cx, env, e.upper, i);
      LowerStep(cx, env, e, i);
    }
  }

  lemma LowerStep(cx: Context, env: Env, e: Expr, i: nat)
    requires e.ArrayRef?
    ensures StripAll(LowerFrom(e, i))
         == (if i < |e.lower| then [Strip(e.lower[i])] else []) + StripAll(LowerFrom(e, i + 1))
  {
    if i < |e.lower| { ReadableAt(cx, env, e.lower, i); }
    if i + 1 == |e.lower| { assert e.lower[i + 1..] == []; }
  }

  /** What a subscript is applied to: a column, or an expression in parentheses. */
  lemma ColumnReads(cx: Context, env: Env, e: Expr, ps: seq<Expr>, final: seq<Expr>, xs: seq<Token>)
    requires Resolves(cx, env, e) && e.Var? && PrintsColumn(cx, e) && !NextIsCast(xs)
    ensures ReadsBack(cx, env, e, ps, final, xs)
  {
    var t := Print(cx, e, ps).value.toks[0];
    var all := [t] + xs;
    Peel(t, xs);
    assert Print(cx, e, ps).value.toks + xs == all;
    assert ReadPrimary(env, final, all) == Some(Got(Strip(e), xs)) && all[|all| - |xs| - 1] == t;
  }

  lemma GroupReads(env: Env, ps: seq<Expr>, toks: seq<Token>, a: Expr, xs: seq<Token>)
    requires toks != [] && Starts(toks[0]) && !NextIsCast(xs)
    requires Read(env, ps, toks + ([RPar] + xs)) == Some(Got(a, [RPar] + xs))
    ensures Read(env, ps, [LPar] + toks + [RPar] + xs) == Some(Got(a, xs))
  {
    var inner := toks + ([RPar] + xs);
    Unwrap1([LPar], toks, [RPar], xs);
    Front(toks, [RPar] + xs);
    ReadOpen(env, ps, inner);
    ReadFirst(env, ps, inner, a, [RPar] + xs);
    Peel(RPar, xs);
    var all := [LPar] + toks + [RPar] + xs;
    assert all[|all| - |xs| - 1] == RPar;
  }

  lemma ReadRef(env: Env, ps: seq<Expr>, base: seq<Token>, a: Expr, xs: seq<Token>, l: GotSubscripts)
    requires base != [] && Starts(base[0]) && Read(env, ps, base + xs) == Some(Got(a, xs))
    requires Next(xs, LBrk) && ReadSubscripts(env, ps, xs) == Some(l)
    ensures ReadPrimary(env, ps, [LPar] + (base + xs)) == Some(Got(MakeRef(env, a, l.upper, l.lower), l.rest))
  {
    ReadOpen(env, ps, base + xs);
    Front(base, xs);
    ReadFirst(env, ps, base + xs, a, xs);
  }

  lemma FirstBracket(cx: Context, e: Expr, ps: seq<Expr>, tail: seq<Token>)
    requires e.ArrayRef? && e.upper != [] && PrintSubscripts(cx, e, 0, ps).Some?
    ensures Next(PrintSubscripts(cx, e, 0, ps).value.toks + tail, LBrk)
  {
  }

  lemma {:induction false} SubscriptRoundTrip(cx: Context, env: Env, e: Expr, ps: seq<Expr>, final: seq<Expr>,
                                              rest: seq<Token>)
    requires Resolves(cx, env, e) && cx.collect && e.ArrayRef? && Readable(cx, e)
    requires Print(cx, e, ps).Some? && Print(cx, e, ps).value.params <= final
    ensures Primary(cx, env, e, ps, final, rest)
    decreases e, 0, |e.upper| + 2
  {
    var r := Print(cx, e.refexpr, ps).value;
    var s := PrintSubscripts(cx, e, 0, r.params).value;
    var xs := s.toks + ([RPar] + rest);
    ParamNumbering.SubscriptsNumber(cx, e, 0, r.params);
    BoundsListRoundTrip(cx, env, e, 0, r.params, final, rest);
    FirstBracket(cx, e, r.params, [RPar] + rest);
    BeginsWell(cx, e.refexpr, ps);
    var base := if e.refexpr.Var? then r.toks else [LPar] + r.toks + [RPar];
    if e.refexpr.Var? {
      ColumnReads(cx, env, e.refexpr, ps, final, xs);
    } else {
      RoundTrip(cx, env, e.refexpr, ps, final, [RPar] + xs);
      GroupReads(env, final, r.toks, Strip(e.refexpr), xs);
    }
    WholeLists(e);
    ReadRef(env, final, base, Strip(e.refexpr), xs, GotSubscripts(StripAll(e.upper), StripAll(e.lower), rest));
    Unwrap([LPar], base, s.toks, [RPar], rest);
  }

  lemma WholeLists(e: Expr)
    requires e.ArrayRef?
    ensures e.upper[0..] == e.upper && LowerFrom(e, 0) == e.lower
  {
  }

  lemma {:induction false} OperandsRoundTrip(cx: Context, env: Env, e: Expr, ps: seq<Expr>, final: seq<Expr>,
                                             rest: seq<Token>)
    requires Resolves(cx, env, e) && cx.collect && e.OpExpr? && Readable(cx, e)
    requires Print(cx, e, ps).Some? && Print(cx, e, ps).value.params <= final
    ensures Primary(cx, env, e, ps, final, rest)
    decreases e, 0
  {
    var form := cx.opers[e.opno];
    if form.kind == Infix {
      TwoReadable(cx, env, e.args);
      var a := Print(cx, e.args[0], ps).value;
      var b := Print(cx, e.args[1], a.params).value;
      ParamNumbering.PrintNumbers(cx, e.args[1], a.params);
      RoundTrip(cx, env, e.args[0], ps, final, [OpName(form.name)] + (b.toks + ([RPar] + rest)));
      RoundTrip(cx, env, e.args[1], a.params, final, [RPar] + rest);
      OperatorRoundTrip(cx, env, e, ps, final, rest);
    } else {
      OneReadable(cx, env, e.args);
      if form.kind == Prefix {
        RoundTrip(cx, env, e.args[0], ps, final, [RPar] + rest);
      } else {
        RoundTrip(cx, env, e.args[0], ps, final, [OpName(form.name)] + ([RPar] + rest));
      }
      OneOperandRoundTrip(cx, env, e, ps, final, rest);
    }
  }

  lemma {:induction false} PairRoundTrip(cx: Context, env: Env, e: Expr, ps: seq<Expr>, final: seq<Expr>,
                                         rest: seq<Token>)
    requires Resolves(cx, env, e) && cx.collect && (e.DistinctExpr? || e.ScalarArrayOpExpr?) && Readable(cx, e)
    requires Print(cx, e, ps).Some? && Print(cx, e, ps).value.params <= final
    ensures Primary(cx, env, e, ps, final, rest)
    decreases e, 0
  {
    TwoReadable(cx, env, e.args);
    var a := Print(cx, e.args[0], ps).value;
    var b := Print(cx, e.args[1], a.params).value;
    ParamNumbering.PrintNumbers(cx, e.args[1], a.params);
    if e.DistinctExpr? {
      RoundTrip(cx, env, e.args[0], ps, final, [IsDistinctFrom] + (b.toks + ([RPar] + rest)));
      RoundTrip(cx, env, e.args[1], a.params, final, [RPar] + rest);
      DistinctRoundTrip(cx, env, e, ps, final, rest);
    } else {
      var name, q := cx.opers[e.opno].name, if e.useOr then AnyKw else AllKw;
      RoundTrip(cx, env, e.args[0], ps, final,
                [OpName(name)] + ([q] + ([LPar] + (b.toks + ([RPar] + ([RPar] + rest))))));
      RoundTrip(cx, env, e.args[1], a.params, final, [RPar] + ([RPar] + rest));
      AnyAllRoundTrip(cx, env, e, ps, final, rest);
    }
  }

  // ----- a table with two columns and the two equality operators of their types -----

  const TEXTOID: Oid := 25
  const INT4EQ: Oid := 96
  const TEXTEQ: Oid := 98
  const EQUALS: Name := Name(None, "=")

  function TableContext(): Context {
    Context({1}, (e: Expr) => None, true,
            map[INT4EQ := OperForm(Infix, EQUALS), TEXTEQ := OperForm(Infix, EQUALS)], map[],
            (t, m) => Some(if t == TEXTOID then "text" else "integer"), t => false)
  }

  function TableColumn(attno: int): Expr {
    Var(1, attno, 0, if attno == 1 then INT4OID else TEXTOID, -1, 0)
  }

  function TableEnv(): Env {
    Env((r: ColumnRef) => if r.Remote? then TableColumn(r.attno) else TableColumn(0),
        name => (if name == "text" then TEXTOID else INT4OID, -1),
        (name, kind, ts) => (if ts == [INT4OID, INT4OID] then INT4EQ else TEXTEQ, BOOLOID),
        (name, ts, variadic) => (0, 0), t => t, ts => 0, (s, t, m) => Relabel, t => false)
  }

  /** a = 1 AND b = 'x'::text */
  function TwoEqualities(): Expr {
    BoolExpr(And, [OpExpr(INT4EQ, [TableColumn(1), Const(false, "1", INT4OID, -1, 0)], BOOLOID, 0, 0),
                   OpExpr(TEXTEQ, [TableColumn(2), Const(false, "x", TEXTOID, -1, 0)], BOOLOID, 0, 0)])
  }

  lemma EqualityResolves(opno: Oid, attno: int, text: string, t: Oid)
    requires (opno, attno, text, t) == (INT4EQ, 1, "1", INT4OID) || (opno, attno, text, t) == (TEXTEQ, 2, "x", TEXTOID)
    ensures var e := OpExpr(opno, [TableColumn(attno), Const(false, text, t, -1, 0)], BOOLOID, 0, 0);
            && Readable(TableContext(), e) && Resolves(TableContext(), TableEnv(), e)
            && Print(TableContext(), e, []).Some? && Print(TableContext(), e, []).value.params == []
  {
    var cx, env := TableContext(), TableEnv();
    var a, b := TableColumn(attno), Const(false, text, t, -1, 0);
    TypesOfTwo(Strip(a), Strip(b));
    TwoReadable(cx, env, [a, b]);
    TwoAll(cx, env, a, b);
    assert NeedsLabel(text, t, -1) <==> t == TEXTOID;
    assert Resolves(cx, env, a) && Resolves(cx, env, b);
    assert Readable(cx, a) && ReadableConst(b);
    assert Print(cx, a, []).Some? && PrintConst(cx, b).Some?;
  }

  lemma TypesOfTwo(a: Expr, b: Expr)
    ensures Types([a, b]) == [ExprType(a), ExprType(b)]
  {
    assert [a, b][1..] == [b] && [b][1..] == [];
    assert Types([b]) == [ExprType(b)];
  }

  lemma TwoAll(cx: Context, env: Env, a: Expr, b: Expr)
    ensures AllReadable(cx, [a, b]) <==> Readable(cx, a) && Readable(cx, b)
    ensures AllResolve(cx, env, [a, b]) <==> Resolves(cx, env, a) && Resolves(cx, env, b)
  {
    assert [a, b][1..] == [b] && [b][1..] == [];
    assert AllReadable(cx, [b]) <==> Readable(cx, b);
    assert AllResolve(cx, env, [b]) <==> Resolves(cx, env, b);
  }

  /** Columns of a scanned table, and operators that share their printed name, meet what the
      round trip asks for, and are told apart by the reader. */
  lemma SharedNames()
    ensures var cx, env, e := TableContext(), TableEnv(), TwoEqualities();
            && cx.opers[e.args[0].opno].name == cx.opers[e.args[1].opno].name && e.args[0].opno != e.args[1].opno
            && IsRemoteColumn(cx, e.args[0].args[0]) && Readable(cx, e) && Resolves(cx, env, e)
            && Print(cx, e, []).Some? && ReadsBack(cx, env, e, [], [], [])
  {
    var cx, env, e := TableContext(), TableEnv(), TwoEqualities();
    EqualityResolves(INT4EQ, 1, "1", INT4OID);
    EqualityResolves(TEXTEQ, 2, "x", TEXTOID);
    TwoAll(cx, env, e.args[0], e.args[1]);
    assert e.args == [e.args[0], e.args[1]];
    assert e.args[1..] == [e.args[1]] && e.args[1..][1..] == [];
    assert PrintRest(cx, e.args[1..], false, AndKw, false, []).Some?;
    RoundTrip(cx, env, e, [], [], []);
  }
}
