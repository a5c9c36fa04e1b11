/** A recursive-descent reader of the deparsed text, which gets back the tree that was printed.

    The reader stands for the remote server's parser. It knows the remote catalog, and resolves
    columns, parameter numbers and, by the types of the operands, the names of operators and
    functions; it cannot know what the text does not show, such as collations.
 */
module SqlReader {
  import opened Wrappers
  import opened RemoteExpr
  import opened Deparse

  /** The remote catalog: what names stand for. An operator or function is found by its name and
      the types of its operands, and comes with the type of its result. */
  datatype Env = Env(column: ColumnRef -> Expr, typeOf: string -> (Oid, int),
                     oper: (Name, OperKind, seq<Oid>) -> (Oid, Oid), func: (Name, seq<Oid>, bool) -> (Oid, Oid),
                     element: Oid -> Oid, arrayOf: seq<Oid> -> Oid, cast: (Oid, Oid, int) -> CastWay,
                     isRow: Oid -> bool)

  /** How a value of one type is made into one of another: it stays as it is, or a function is called
      with it and with further arguments that the target type determines. */
  datatype CastWay = Relabel | Via(funcid: Oid, extra: seq<Expr>)

  /** The tree without what the text does not show. */
  function Strip(e: Expr): Expr
    decreases e
  {
    match e
    case Var(varno, attno, levelsup, t, typmod, _) => Var(varno, attno, levelsup, t, typmod, 0)
    case Const(isnull, text, t, typmod, _) => Const(isnull, text, t, typmod, 0)
    case Param(isExtern, id, t, typmod, _) => Param(isExtern, id, t, typmod, 0)
    case ArrayRef(refexpr, upper, lower, assigns, t, _) =>
      ArrayRef(Strip(refexpr), StripAll(upper), StripAll(lower), assigns, t, 0)
    case FuncExpr(funcid, args, form, variadic, t, typmod, _, _) =>
      if form == ImplicitCast && args != [] then Strip(args[0])
      else if form == ExplicitCast then FuncExpr(funcid, StripAll(args), form, false, t, typmod, 0, 0)
      else FuncExpr(funcid, StripAll(args), form, variadic, t, 0, 0, 0)
    case RelabelType(arg, t, typmod, form, _) =>
      if form == ImplicitCast then Strip(arg) else RelabelType(Strip(arg), t, typmod, ExplicitCast, 0)
    case OpExpr(opno, args, t, _, _) => OpExpr(opno, StripAll(args), t, 0, 0)
    case DistinctExpr(_, args, _, _) => DistinctExpr(0, StripAll(args), 0, 0)
    case ScalarArrayOpExpr(opno, useOr, args, _) => ScalarArrayOpExpr(opno, useOr, StripAll(args), 0)
    case BoolExpr(op, args) => BoolExpr(op, StripAll(args))
    case NullTest(arg, isNull, argisrow) => NullTest(Strip(arg), isNull, argisrow)
    case ArrayExpr(elements, t, _) => ArrayExpr(StripAll(elements), t, 0)
    case _ => e
  }

  function StripAll(es: seq<Expr>): (r: seq<Expr>)
    ensures |r| == |es|
    decreases es
  {
    if es == [] then [] else [Strip(es[0])] + StripAll(es[1..])
  }

  // ----- resolving names -----

  function Types(es: seq<Expr>): seq<Oid> {
    if es == [] then [] else [ExprType(es[0])] + Types(es[1..])
  }

  function MakeOp(env: Env, name: Name, kind: OperKind, args: seq<Expr>): Expr {
    var (opno, t) := env.oper(name, kind, Types(args));
    OpExpr(opno, args, t, 0, 0)
  }

  /** The operator of ANY and ALL is looked up for the elements of the array. */
  function MakeAny(env: Env, name: Name, useOr: bool, a: Expr, b: Expr): Expr {
    ScalarArrayOpExpr(env.oper(name, Infix, [ExprType(a), env.element(ExprType(b))]).0, useOr, [a, b], 0)
  }

  function MakeCall(env: Env, name: Name, args: seq<Expr>, variadic: bool): Expr {
    var (funcid, t) := env.func(name, Types(args), variadic);
    FuncExpr(funcid, args, ExplicitCall, variadic, t, 0, 0, 0)
  }

  function MakeArray(env: Env, elements: seq<Expr>): Expr {
    ArrayExpr(elements, env.arrayOf(Types(elements)), 0)
  }

  function MakeCast(env: Env, a: Expr, typename: string): Expr {
    var (t, typmod) := env.typeOf(typename);
    match env.cast(ExprType(a), t, typmod)
    case Relabel => RelabelType(a, t, typmod, ExplicitCast, 0)
    case Via(funcid, extra) => FuncExpr(funcid, [a] + extra, ExplicitCast, false, t, typmod, 0, 0)
  }

  /** A subscript yields an element, a slice an array like the one it is taken from. */
  function MakeRef(env: Env, a: Expr, upper: seq<Expr>, lower: seq<Expr>): Expr {
    ArrayRef(a, upper, lower, false, if lower == [] then env.element(ExprType(a)) else ExprType(a), 0)
  }

  // ----- the reader -----

  datatype Got = Got(e: Expr, rest: seq<Token>)
  datatype GotList = GotList(es: seq<Expr>, variadic: bool, rest: seq<Token>)
  datatype GotSubscripts = GotSubscripts(upper: seq<Expr>, lower: seq<Expr>, rest: seq<Token>)

  predicate Next(toks: seq<Token>, t: Token) {
    toks != [] && toks[0] == t
  }

  /** NULL without a label, as it ends the test of a row. */
  predicate BareNull(toks: seq<Token>) {
    Next(toks, NullKw) && Next(toks[1..], RPar)
  }

  predicate NextIsCast(toks: seq<Token>) {
    toks != [] && toks[0].Cast?
  }

  /** The token that carries the value of a constant of type t. */
  function ValueToken(text: string, t: Oid): Token {
    if NumberType(t) then (if LooksNumeric(text) then Number(text) else Str(text))
    else if t == BITOID || t == VARBITOID then Bits(text)
    else if t == BOOLOID then (if text == "t" then TrueKw else FalseKw)
    else Str(text)
  }

  /** A constant with this text is written as this token and needs a label with this type: then a
      cast behind the token is the label. */
  predicate IsLabel(token: Token, text: string, t: Oid, typmod: int) {
    token.NullKw? || (token == ValueToken(text, t) && NeedsLabel(text, t, typmod))
  }

  /** The type of a constant without a label. */
  function DefaultType(token: Token): Oid {
    match token
    case Number(text) => if LooksFloat(text) then NUMERICOID else INT4OID
    case TrueKw => BOOLOID
    case FalseKw => BOOLOID
    case _ => UNKNOWNOID
  }

  /** A constant token and the type label that may follow it. */
  function ReadConst(env: Env, token: Token, toks: seq<Token>): Option<Got> {
    var text :- match token
                case Number(text) => Some(text)
                case Str(text) => Some(text)
                case Bits(text) => Some(text)
                case TrueKw => Some("t")
                case FalseKw => Some("f")
                case NullKw => Some("")
                case _ => None;
    if NextIsCast(toks) && var (t, typmod) := env.typeOf(toks[0].typename); IsLabel(token, text, t, typmod) then
      var (t, typmod) := env.typeOf(toks[0].typename);
      Some(Got(Const(token.NullKw?, text, t, typmod, 0), toks[1..]))
    else Some(Got(Const(token.NullKw?, text, DefaultType(token), -1, 0), toks))
  }

  /** Casts behind an expression. */
  function ReadCasts(env: Env, e: Expr, toks: seq<Token>): (r: Got)
    ensures |r.rest| <= |toks|
    decreases |toks|
  {
    if NextIsCast(toks) then ReadCasts(env, MakeCast(env, e, toks[0].typename), toks[1..]) else Got(e, toks)
  }

  /** An expression and the casts behind it. */
  function ReadCasted(env: Env, ps: seq<Expr>, toks: seq<Token>): (r: Option<Got>)
    ensures r.Some? ==> |r.value.rest| < |toks|
    decreases |toks|, 1
  {
    var p :- ReadPrimary(env, ps, toks);
    Some(ReadCasts(env, p.e, p.rest))
  }

  /** An opening bracket behind a type name would be taken for part of that. */
  function Read(env: Env, ps: seq<Expr>, toks: seq<Token>): (r: Option<Got>)
    ensures r.Some? ==> |r.value.rest| < |toks|
    decreases |toks|, 2
  {
    var c :- ReadCasted(env, ps, toks);
    if Next(c.rest, LBrk) && toks[|toks| - |c.rest| - 1].Cast? then None else Some(c)
  }

  function ReadPrimary(env: Env, ps: seq<Expr>, toks: seq<Token>): (r: Option<Got>)
    ensures r.Some? ==> |r.value.rest| < |toks|
    decreases |toks|, 0
  {
    if toks == [] then None
    else
      match toks[0]
      case Column(ref) => Some(Got(env.column(ref), toks[1..]))
      case Dollar(k) =>
        if 1 <= k <= |ps| && NextIsCast(toks[1..]) then Some(Got(Strip(ps[k - 1]), toks[2..])) else None
      case FuncName(name) =>
        if !Next(toks[1..], LPar) then None else
        var l :- ReadItems(env, ps, toks[2..], RPar, true);
        Some(Got(MakeCall(env, name, l.es, l.variadic), l.rest))
      case ArrayKw =>
        if !Next(toks[1..], LBrk) then None else
        var l :- ReadItems(env, ps, toks[2..], RBrk, true);
        if l.es != [] then Some(Got(MakeArray(env, l.es), l.rest))
        else if NextIsCast(l.rest) then Some(Got(ArrayExpr([], env.typeOf(l.rest[0].typename).0, 0), l.rest[1..]))
        else None
      case LPar => ReadParen(env, ps, toks[1..])
      case _ => ReadConst(env, toks[0], toks[1..])
  }

  /** A list up to the closing token. */
  function ReadItems(env: Env, ps: seq<Expr>, toks: seq<Token>, close: Token, first: bool): (r: Option<GotList>)
    ensures r.Some? ==> |r.value.rest| < |toks|
    decreases |toks|, 6
  {
    if toks == [] then None
    else if toks[0] == close then Some(GotList([], false, toks[1..]))
    else if !first && toks[0] != Comma then None
    else
      var after := if first then toks else toks[1..];
      var variadic := Next(after, VariadicKw);
      var item := if variadic then after[1..] else after;
      var e :- Read(env, ps, item);
      var more :- ReadItems(env, ps, e.rest, close, false);
      Some(GotList([e.e] + more.es, variadic || more.variadic, more.rest))
  }

  /** After an opening parenthesis. */
  function ReadParen(env: Env, ps: seq<Expr>, toks: seq<Token>): (r: Option<Got>)
    ensures r.Some? ==> |r.value.rest| < |toks|
    decreases |toks|, 5
  {
    if toks == [] then None
    else if toks[0] == NotKw then
      var a :- Read(env, ps, toks[1..]);
      if Next(a.rest, RPar) then Some(Got(BoolExpr(Not, [a.e]), a.rest[1..])) else None
    else if toks[0].OpName? then
      var a :- Read(env, ps, toks[1..]);
      if Next(a.rest, RPar) then Some(Got(MakeOp(env, toks[0].name, Prefix, [a.e]), a.rest[1..])) else None
    else if toks[0] == SelectKw then
      if Next(toks[1..], NullKw) && NextIsCast(toks[2..]) && Next(toks[3..], RPar) then
        var (t, typmod) := env.typeOf(toks[2].typename);
        Some(Got(Const(true, "", t, typmod, 0), toks[4..]))
      else None
    else if toks[0].Number? && Signed(toks[0].text) then
      if Next(toks[1..], RPar) then ReadConst(env, toks[0], toks[2..]) else None
    else
      var a :- Read(env, ps, toks);
      ReadTail(env, ps, a.e, a.rest)
  }

  /** After an opening parenthesis and a first operand. */
  function ReadTail(env: Env, ps: seq<Expr>, a: Expr, toks: seq<Token>): (r: Option<Got>)
    ensures r.Some? ==> |r.value.rest| < |toks|
    decreases |toks|, 4
  {
    if toks == [] then None
    else
      match toks[0]
      case AndKw =>
        var l :- ReadChain(env, ps, toks, AndKw);
        Some(Got(BoolExpr(And, [a] + l.es), l.rest))
      case OrKw =>
        var l :- ReadChain(env, ps, toks, OrKw);
        Some(Got(BoolExpr(Or, [a] + l.es), l.rest))
      case RPar => Some(Got(a, toks[1..]))
      case LBrk =>
        var l :- ReadSubscripts(env, ps, toks);
        Some(Got(MakeRef(env, a, l.upper, l.lower), l.rest))
      case IsNull =>
        if Next(toks[1..], RPar) then Some(Got(NullTest(a, true, env.isRow(ExprType(a))), toks[2..])) else None
      case IsNotNull =>
        if Next(toks[1..], RPar) then Some(Got(NullTest(a, false, env.isRow(ExprType(a))), toks[2..])) else None
      case IsNotDistinctFrom =>
        if BareNull(toks[1..]) then Some(Got(NullTest(a, true, false), toks[3..])) else None
      case IsDistinctFrom =>
        if BareNull(toks[1..]) then Some(Got(NullTest(a, false, false), toks[3..])) else
        var b :- Read(env, ps, toks[1..]);
        if Next(b.rest, RPar) then Some(Got(DistinctExpr(0, [a, b.e], 0, 0), b.rest[1..])) else None
      case OpName(name) => ReadOperator(env, ps, a, name, toks[1..])
      case _ => None
  }

  /** After a first operand and an operator. */
  function ReadOperator(env: Env, ps: seq<Expr>, a: Expr, name: Name, toks: seq<Token>): (r: Option<Got>)
    ensures r.Some? ==> |r.value.rest| < |toks|
    decreases |toks|, 4
  {
    if toks == [] then None
    else if toks[0] == RPar then Some(Got(MakeOp(env, name, Postfix, [a]), toks[1..]))
    else if toks[0] == AnyKw || toks[0] == AllKw then
      if !Next(toks[1..], LPar) then None else
      var b :- Read(env, ps, toks[2..]);
      if Next(b.rest, RPar) && Next(b.rest[1..], RPar)
      then Some(Got(MakeAny(env, name, toks[0] == AnyKw, a, b.e), b.rest[2..])) else None
    else
      var b :- Read(env, ps, toks);
      if Next(b.rest, RPar) then Some(Got(MakeOp(env, name, Infix, [a, b.e]), b.rest[1..])) else None
  }

  /** The subscripts of an array, each with or without a lower bound, up to the parenthesis. */
  function ReadSubscripts(env: Env, ps: seq<Expr>, toks: seq<Token>): (r: Option<GotSubscripts>)
    ensures r.Some? ==> |r.value.rest| < |toks|
    decreases |toks|, 3
  {
    if toks == [] then None
    else if toks[0] == RPar then Some(GotSubscripts([], [], toks[1..]))
    else if toks[0] != LBrk then None
    else
      var x :- Read(env, ps, toks[1..]);
      if Next(x.rest, RBrk) then
        var more :- ReadSubscripts(env, ps, x.rest[1..]);
        Some(GotSubscripts([x.e] + more.upper, more.lower, more.rest))
      else if Next(x.rest, Colon) then
        var y :- Read(env, ps, x.rest[1..]);
        if !Next(y.rest, RBrk) then None else
        var more :- ReadSubscripts(env, ps, y.rest[1..]);
        Some(GotSubscripts([y.e] + more.upper, [x.e] + more.lower, more.rest))
      else None
  }

  /** The rest of a chain of operands with the same connective, up to the parenthesis. */
  function ReadChain(env: Env, ps: seq<Expr>, toks: seq<Token>, sep: Token): (r: Option<GotList>)
    ensures r.Some? ==> |r.value.rest| < |toks|
    decreases |toks|, 3
  {
    if toks == [] then None
    else if toks[0] == RPar then Some(GotList([], false, toks[1..]))
    else if toks[0] == sep then
      var e :- Read(env, ps, toks[1..]);
      var more :- ReadChain(env, ps, e.rest, sep);
      Some(GotList([e.e] + more.es, false, more.rest))
    else None
  }
}
