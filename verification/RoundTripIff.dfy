/** Where the deparser's text means something else: a subscript behind a parameter, and a cast of a
    constant. In both cases the condition of the round trip is exact.
 */
module RoundTripIff {
  import opened Wrappers
  import opened RemoteExpr
  import opened Deparse
  import opened SqlReader
  import opened RoundTrip

  // ----- subscripts of another table's column -----

  /** A column of another table is sent as a parameter with its type, and the subscript behind it
      belongs to the type name. */
  lemma SubscriptLost(cx: Context, env: Env, e: Expr, ps: seq<Expr>, final: seq<Expr>, rest: seq<Token>)
    requires cx.collect && e.ArrayRef? && e.refexpr.Var? && !PrintsColumn(cx, e.refexpr) && e.upper != []
    requires Print(cx, e, ps).Some?
    ensures Read(env, final, Print(cx, e, ps).value.toks + rest) == None
  {
    var r := Print(cx, e.refexpr, ps).value;
    var s := PrintSubscripts(cx, e, 0, r.params).value;
    var xs := s.toks + ([RPar] + rest);
    FirstBracket(cx, e, r.params, [RPar] + rest);
    Unwrap([LPar], r.toks, s.toks, [RPar], rest);
    ReadOpen(env, final, r.toks + xs);
    BracketOfType(env, final, r.toks[0], r.toks[1], xs);
    assert r.toks == [r.toks[0], r.toks[1]];
    assert ReadParen(env, final, r.toks + xs) == None;
  }

  lemma BracketOfType(env: Env, ps: seq<Expr>, d: Token, c: Token, xs: seq<Token>)
    requires d.Dollar? && c.Cast? && Next(xs, LBrk)
    ensures Read(env, ps, [d, c] + xs) == None
  {
    var all := [d, c] + xs;
    assert all[0] == d && all[1..][0] == c && all[2..] == xs;
    if 1 <= d.k <= |ps| {
      assert ReadPrimary(env, ps, all) == Some(Got(Strip(ps[d.k - 1]), xs));
      ReadOne(env, ps, all, Strip(ps[d.k - 1]), xs);
      assert all[|all| - |xs| - 1] == c;
    } else {
      assert ReadPrimary(env, ps, all) == None;
    }
  }

  /** From the expression to what is read with nothing behind it but a bracket or less. */
  lemma ReadOne(env: Env, ps: seq<Expr>, toks: seq<Token>, e: Expr, xs: seq<Token>)
    requires ReadPrimary(env, ps, toks) == Some(Got(e, xs)) && !NextIsCast(xs)
    ensures Read(env, ps, toks) == if Next(xs, LBrk) && toks[|toks| - |xs| - 1].Cast? then None else Some(Got(e, xs))
  {
    assert ReadCasts(env, e, xs) == Got(e, xs);
  }

  /** A subscripted variable reads back if and only if it is printed as a column. */
  lemma SubscriptReadsIff(cx: Context, env: Env, e: Expr, ps: seq<Expr>, final: seq<Expr>, rest: seq<Token>)
    requires Resolves(cx, env, e) && cx.collect && Ends(rest)
    requires e.ArrayRef? && e.refexpr.Var? && !e.assigns && e.upper != [] && |e.lower| <= |e.upper|
    requires AllReadable(cx, e.upper) && AllReadable(cx, e.lower)
    requires Print(cx, e, ps).Some? && Print(cx, e, ps).value.params <= final
    ensures ReadsBack(cx, env, e, ps, final, rest) <==> PrintsColumn(cx, e.refexpr)
  {
    if PrintsColumn(cx, e.refexpr) {
      RoundTrip.RoundTrip(cx, env, e, ps, final, rest);
    } else {
      SubscriptLost(cx, env, e, ps, final, rest);
    }
  }

  // ----- casts of constants -----

  /** An expression that is a constant but for implicit casts has that constant's text. */
  lemma {:induction false} ConstantInside(cx: Context, env: Env, e: Expr, ps: seq<Expr>) returns (c: Expr)
    requires Readable(cx, e) && Resolves(cx, env, e) && Strip(e).Const? && Print(cx, e, ps).Some?
    ensures c.Const? && Strip(c) == Strip(e) && ReadableConst(c) && Resolves(cx, env, c)
    ensures Print(cx, c, ps) == Print(cx, e, ps)
    decreases e
  {
    match e
    case Const(_, _, _, _, _) => c := e;
    case FuncExpr(_, args, _, _, _, _, _, _) => c := ConstantInside(cx, env, args[0], ps);
    case RelabelType(arg, _, _, _, _) => c := ConstantInside(cx, env, arg, ps);
  }

  /** The cast is read as the constant's label. */
  lemma LabelRead(cx: Context, env: Env, c: Expr, t: Oid, typmod: int, tn: string, ps: seq<Expr>, rest: seq<Token>)
    requires c.Const? && ReadableConst(c) && TakenForLabel(Strip(c), t, typmod) && env.typeOf(tn) == (t, typmod)
    requires PrintConst(cx, c).Some?
    ensures ReadPrimary(env, ps, PrintConst(cx, c).value + ([Cast(tn)] + rest))
         == Some(Got(Const(false, c.text, t, typmod, 0), rest))
  {
    var token := TokenOf(c);
    Peel(Cast(tn), rest);
    ReadBody(env, ps, token, [Cast(tn)] + rest);
    ConstTokens(cx, c, []);
    UnlabelledType(c.text, c.ctype, c.ctypmod);
    if token.Number? && Signed(token.text) {
      SignedText(token, [], [Cast(tn)] + rest);
      PlainTokens([Cast(tn)] + rest);
    }
  }

  /** The operand of an explicit cast. */
  function CastArg(e: Expr): Option<Expr> {
    match e
    case FuncExpr(_, args, form, _, _, _, _, _) => if form == ExplicitCast && args != [] then Some(args[0]) else None
    case RelabelType(arg, _, _, form, _) => if form != ImplicitCast then Some(arg) else None
    case _ => None
  }

  lemma CastTaken(cx: Context, env: Env, e: Expr, arg: Expr, ps: seq<Expr>, final: seq<Expr>, rest: seq<Token>)
    requires Resolves(cx, env, e) && CastArg(e) == Some(arg) && Readable(cx, arg) && Ends(rest)
    requires Print(cx, e, ps).Some? && TakenForLabel(Strip(arg), e.rtype, e.rtypmod)
    ensures Read(env, final, Print(cx, e, ps).value.toks + rest)
         == Some(Got(Const(false, Strip(arg).text, e.rtype, e.rtypmod, 0), rest))
  {
    var tn := cx.typeName(e.rtype, e.rtypmod).value;
    var c := ConstantInside(cx, env, arg, ps);
    LabelRead(cx, env, c, e.rtype, e.rtypmod, tn, final, rest);
    CastText(cx, e, arg, tn, ps, rest);
  }

  lemma CastText(cx: Context, e: Expr, arg: Expr, tn: string, ps: seq<Expr>, rest: seq<Token>)
    requires CastArg(e) == Some(arg) && Print(cx, e, ps).Some? && cx.typeName(e.rtype, e.rtypmod) == Some(tn)
    ensures Print(cx, arg, ps).Some?
    ensures Print(cx, e, ps).value.toks + rest == Print(cx, arg, ps).value.toks + ([Cast(tn)] + rest)
  {
    Unlabelled(Print(cx, arg, ps).value.toks, [Cast(tn)], rest);
  }

  /** An explicit cast reads back if and only if it is not taken for the label of a constant; if it
      is, the constant with that label is read. */
  lemma CastReadsIff(cx: Context, env: Env, e: Expr, ps: seq<Expr>, final: seq<Expr>, rest: seq<Token>)
    requires Resolves(cx, env, e) && cx.collect && Ends(rest) && CastArg(e).Some? && Readable(cx, CastArg(e).value)
    requires Print(cx, e, ps).Some? && Print(cx, e, ps).value.params <= final
    ensures ReadsBack(cx, env, e, ps, final, rest) <==> !TakenForLabel(Strip(CastArg(e).value), e.rtype, e.rtypmod)
  {
    if TakenForLabel(Strip(CastArg(e).value), e.rtype, e.rtypmod) {
      CastTaken(cx, env, e, CastArg(e).value, ps, final, rest);
    } else {
      RoundTrip.RoundTrip(cx, env, e, ps, final, rest);
    }
  }

  /** The two texts are the same. */
  lemma CastIsLabel(cx: Context, c: Expr, t: Oid, typmod: int, form: CoercionForm, ps: seq<Expr>)
    requires c.Const? && TakenForLabel(Strip(c), t, typmod) && form != ImplicitCast
    ensures Print(cx, RelabelType(c, t, typmod, form, 0), ps) == Print(cx, Const(false, c.text, t, typmod, 0), ps)
  {
    assert ConstBody(c.text, t) == ConstBody(c.text, c.ctype);
  }

  // ----- placeholders -----

  lemma NullQueryReads(env: Env, ps: seq<Expr>, tn: string, after: seq<Token>)
    ensures var (t, typmod) := env.typeOf(tn);
            ReadPrimary(env, ps, [LPar] + ([SelectKw, NullKw, Cast(tn), RPar] + after))
            == Some(Got(Const(true, "", t, typmod, 0), after))
  {
    var inner := [SelectKw, NullKw, Cast(tn), RPar] + after;
    ReadOpen(env, ps, inner);
    assert inner[0] == SelectKw && inner[1..][0] == NullKw && inner[2..][0] == Cast(tn) && inner[3..][0] == RPar;
    assert inner[4..] == after;
  }

  lemma CastedNullReads(env: Env, ps: seq<Expr>, tn: string, t: Oid, typmod: int, rest: seq<Token>)
    requires env.typeOf(tn) == (t, typmod)
    ensures Read(env, ps, [LPar] + ([SelectKw, NullKw, Cast(tn), RPar] + ([Cast(tn)] + ([RPar] + rest))))
         == Some(Got(MakeCast(env, Const(true, "", t, typmod, 0), tn), [RPar] + rest))
  {
    NullQueryReads(env, ps, tn, [Cast(tn)] + ([RPar] + rest));
    OneCast(env, Const(true, "", t, typmod, 0), tn, [RPar] + rest);
    Peel(RPar, rest);
  }

  lemma OneCast(env: Env, e: Expr, tn: string, xs: seq<Token>)
    requires !NextIsCast(xs)
    ensures ReadCasts(env, e, [Cast(tn)] + xs) == Got(MakeCast(env, e, tn), xs)
  {
    Peel(Cast(tn), xs);
    assert ReadCasts(env, MakeCast(env, e, tn), xs) == Got(MakeCast(env, e, tn), xs);
  }

  /** In a query that is only explained, a parameter reads as a null of its type. */
  lemma PlaceholderReads(cx: Context, env: Env, e: Expr, t: Oid, typmod: int, ps: seq<Expr>, final: seq<Expr>,
                         rest: seq<Token>)
    requires !cx.collect && cx.typeName(t, typmod).Some? && env.typeOf(cx.typeName(t, typmod).value) == (t, typmod)
    ensures PrintParam(cx, e, t, typmod, ps).value.params == ps
    ensures ReadPrimary(env, final, PrintParam(cx, e, t, typmod, ps).value.toks + rest)
         == Some(Got(MakeCast(env, Const(true, "", t, typmod, 0), cx.typeName(t, typmod).value), rest))
  {
    var tn := cx.typeName(t, typmod).value;
    var inner := [LPar] + ([SelectKw, NullKw, Cast(tn), RPar] + ([Cast(tn)] + ([RPar] + rest)));
    assert PrintParam(cx, e, t, typmod, ps).value.toks + rest == [LPar] + inner;
    CastedNullReads(env, final, tn, t, typmod, rest);
    GroupOpens(env, final, inner, MakeCast(env, Const(true, "", t, typmod, 0), tn), rest);
  }

  lemma GroupOpens(env: Env, ps: seq<Expr>, toks: seq<Token>, a: Expr, rest: seq<Token>)
    requires Next(toks, LPar) && Read(env, ps, toks) == Some(Got(a, [RPar] + rest))
    ensures ReadPrimary(env, ps, [LPar] + toks) == Some(Got(a, rest))
  {
    ReadOpen(env, ps, toks);
    ReadFirst(env, ps, toks, a, [RPar] + rest);
    Peel(RPar, rest);
  }
}
