/** gcDeparseExpr and its per-node printers: the text of an expression for the remote server,
    as a sequence of tokens, and the list of values to be sent along as parameters.
 */
module Deparse {
  import opened Wrappers
  import opened RemoteExpr

  /** An operator or function name, with its schema unless that is pg_catalog. */
  datatype Name = Name(schema: Option<string>, name: string)

  /** A column as the remote query names it: a table's column, or a subquery's output column. */
  datatype ColumnRef = Remote(varno: int, attno: int) | Alias(relno: int, colno: int)

  datatype Token =
    | LPar | RPar | LBrk | RBrk | Comma | Colon
    | Column(ref: ColumnRef)
    | Number(text: string) | Str(text: string) | Bits(text: string) | TrueKw | FalseKw | NullKw
    | Cast(typename: string) | Dollar(k: nat)
    | OpName(name: Name) | FuncName(name: Name)
    | AndKw | OrKw | NotKw | IsNull | IsNotNull | IsDistinctFrom | IsNotDistinctFrom
    | AnyKw | AllKw | ArrayKw | VariadicKw | SelectKw

  datatype OperKind = Prefix | Postfix | Infix

  datatype OperForm = OperForm(kind: OperKind, name: Name)

  /** What the deparser looks up: the relations being scanned, the subquery columns, the system
      catalogs. collect says whether there is a parameter list to extend. */
  datatype Context = Context(relids: set<int>, alias: Expr -> Option<ColumnRef>, collect: bool,
                             opers: map<Oid, OperForm>, funcs: map<Oid, Name>,
                             typeName: (Oid, int) -> Option<string>, isRow: Oid -> bool)

  datatype Printed = Printed(toks: seq<Token>, params: seq<Expr>)

  // ----- constants -----

  const INT8OID: Oid := 20
  const INT2OID: Oid := 21
  const INT4OID: Oid := 23
  const OIDOID: Oid := 26
  const FLOAT4OID: Oid := 700
  const FLOAT8OID: Oid := 701
  const UNKNOWNOID: Oid := 705
  const BITOID: Oid := 1560
  const VARBITOID: Oid := 1562
  const NUMERICOID: Oid := 1700

  predicate NumberType(t: Oid) {
    t in {INT2OID, INT4OID, INT8OID, OIDOID, FLOAT4OID, FLOAT8OID, NUMERICOID}
  }

  predicate AllIn(text: string, chars: string) {
    forall c :: c in text ==> c in chars
  }

  predicate LooksNumeric(text: string) {
    AllIn(text, "0123456789+-eE.")
  }

  predicate LooksFloat(text: string) {
    exists c :: c in text && c in "eE."
  }

  predicate Signed(text: string) {
    text != "" && text[0] in "+-"
  }

  /** The value of a constant that is not null. */
  function ConstBody(text: string, t: Oid): seq<Token> {
    if NumberType(t) then
      if !LooksNumeric(text) then [Str(text)]
      else if Signed(text) then [LPar, Number(text), RPar]
      else [Number(text)]
    else if t == BITOID || t == VARBITOID then [Bits(text)]
    else if t == BOOLOID then [if text == "t" then TrueKw else FalseKw]
    else [Str(text)]
  }

  /** Must the type be spelt out because it would not be assumed by default? */
  predicate NeedsLabel(text: string, t: Oid, typmod: int) {
    if t in {BOOLOID, INT4OID, UNKNOWNOID} then false
    else if t == NUMERICOID then !(LooksNumeric(text) && LooksFloat(text)) || typmod >= 0
    else true
  }

  /** A constant with its type label always, never, or, as in expressions, where it is needed. */
  datatype ShowType = Always | Never | IfNeeded

  predicate Labelled(e: Expr, show: ShowType)
    requires e.Const?
  {
    match show
    case Always => true
    case Never => false
    case IfNeeded => e.isnull || NeedsLabel(e.text, e.ctype, e.ctypmod)
  }

  function PrintConstAs(cx: Context, e: Expr, show: ShowType): Option<seq<Token>>
    requires e.Const?
  {
    var body := if e.isnull then [NullKw] else ConstBody(e.text, e.ctype);
    if Labelled(e, show) then
      var tn :- cx.typeName(e.ctype, e.ctypmod);
      Some(body + [Cast(tn)])
    else Some(body)
  }

  function PrintConst(cx: Context, e: Expr): Option<seq<Token>>
    requires e.Const?
  {
    PrintConstAs(cx, e, IfNeeded)
  }

  /** strspn(text, chars) == strlen(text) */
  method OnlyOf(text: string, chars: string) returns (all: bool)
    ensures all <==> AllIn(text, chars)
  {
    var i := 0;
    while i < |text| && text[i] in chars
      invariant i <= |text| && forall k :: 0 <= k < i ==> text[k] in chars
    {
      i := i + 1;
    }
    all := i == |text|;
  }

  /** strcspn(text, chars) != strlen(text) */
  method SomeOf(text: string, chars: string) returns (some: bool)
    ensures some <==> exists c :: c in text && c in chars
  {
    var i := 0;
    while i < |text| && text[i] !in chars
      invariant i <= |text| && forall k :: 0 <= k < i ==> text[k] !in chars
    {
      i := i + 1;
    }
    some := i != |text|;
  }

  // ----- parameters -----

  /** The position of e in the list, or the position after the last. */
  function IndexOf(ps: seq<Expr>, e: Expr): (k: nat)
    ensures k <= |ps| && (k < |ps| ==> ps[k] == e) && (forall i :: 0 <= i < k ==> ps[i] != e)
  {
    if ps == [] || ps[0] == e then 0 else 1 + IndexOf(ps[1..], e)
  }

  /** A value the remote server does not have: a parameter number, or a placeholder when the
      query is only explained. */
  function PrintParam(cx: Context, e: Expr, t: Oid, typmod: int, ps: seq<Expr>): Option<Printed> {
    var tn :- cx.typeName(t, typmod);
    if !cx.collect then Some(Printed([LPar, LPar, SelectKw, NullKw, Cast(tn), RPar, Cast(tn), RPar], ps))
    else
      var k := IndexOf(ps, e);
      Some(Printed([Dollar(k + 1), Cast(tn)], if k < |ps| then ps else ps + [e]))
  }

  predicate IsRemoteColumn(cx: Context, e: Expr)
    requires e.Var?
  {
    e.varno in cx.relids && e.levelsup == 0
  }

  function PrintVar(cx: Context, e: Expr, ps: seq<Expr>): Option<Printed>
    requires e.Var?
  {
    var a := cx.alias(e);
    if a.Some? then Some(Printed([Column(a.value)], ps))
    else if IsRemoteColumn(cx, e) then Some(Printed([Column(Remote(e.varno, e.attno))], ps))
    else PrintParam(cx, e, e.vtype, e.vtypmod, ps)
  }

  // ----- expressions -----

  function NullTestToken(cx: Context, e: Expr): seq<Token>
    requires e.NullTest?
  {
    if e.argisrow || !cx.isRow(ExprType(e.arg)) then [if e.isNull then IsNull else IsNotNull]
    else [if e.isNull then IsNotDistinctFrom else IsDistinctFrom, NullKw]
  }

  function Print(cx: Context, e: Expr, ps: seq<Expr>): Option<Printed>
    decreases e
  {
    match e
    case Var(_, _, _, _, _, _) => PrintVar(cx, e, ps)
    case Const(_, _, _, _, _) =>
      var toks :- PrintConst(cx, e);
      Some(Printed(toks, ps))
    case Param(_, _, t, typmod, _) => PrintParam(cx, e, t, typmod, ps)
    case ArrayRef(refexpr, upper, lower, _, _, _) =>
      var r :- Print(cx, refexpr, ps);
      var s :- PrintSubscripts(cx, e, 0, r.params);
      var base := if refexpr.Var? then r.toks else [LPar] + r.toks + [RPar];
      Some(Printed([LPar] + base + s.toks + [RPar], s.params))
    case FuncExpr(funcid, args, form, variadic, t, typmod, _, _) =>
      if form == ImplicitCast then
        if args == [] then None else Print(cx, args[0], ps)
      else if form == ExplicitCast then
        if args == [] then None else
        var a :- Print(cx, args[0], ps);
        var tn :- cx.typeName(t, typmod);
        Some(Printed(a.toks + [Cast(tn)], a.params))
      else if funcid !in cx.funcs then None
      else
        var a :- PrintRest(cx, args, true, Comma, variadic, ps);
        Some(Printed([FuncName(cx.funcs[funcid]), LPar] + a.toks + [RPar], a.params))
    case OpExpr(opno, args, _, _, _) =>
      if opno !in cx.opers then None
      else
        var form := cx.opers[opno];
        if |args| != (if form.kind == Infix then 2 else 1) then None
        else
          var a :- if form.kind == Prefix then Some(Printed([], ps)) else Print(cx, args[0], ps);
          var b :- if form.kind == Postfix then Some(Printed([], a.params)) else Print(cx, args[|args| - 1], a.params);
          Some(Printed([LPar] + a.toks + [OpName(form.name)] + b.toks + [RPar], b.params))
    case DistinctExpr(_, args, _, _) =>
      if |args| != 2 then None
      else
        var a :- Print(cx, args[0], ps);
        var b :- Print(cx, args[1], a.params);
        Some(Printed([LPar] + a.toks + [IsDistinctFrom] + b.toks + [RPar], b.params))
    case ScalarArrayOpExpr(opno, useOr, args, _) =>
      if opno !in cx.opers || |args| != 2 then None
      else
        var a :- Print(cx, args[0], ps);
        var b :- Print(cx, args[1], a.params);
        Some(Printed([LPar] + a.toks + [OpName(cx.opers[opno].name), if useOr then AnyKw else AllKw, LPar]
                     + b.toks + [RPar, RPar], b.params))
    case RelabelType(arg, t, typmod, form, _) =>
      var a :- Print(cx, arg, ps);
      if form == ImplicitCast then Some(a)
      else
        var tn :- cx.typeName(t, typmod);
        Some(Printed(a.toks + [Cast(tn)], a.params))
    case BoolExpr(op, args) =>
      if op == Not then
        if args == [] then None else
        var a :- Print(cx, args[0], ps);
        Some(Printed([LPar, NotKw] + a.toks + [RPar], a.params))
      else
        var a :- PrintRest(cx, args, true, if op == And then AndKw else OrKw, false, ps);
        Some(Printed([LPar] + a.toks + [RPar], a.params))
    case NullTest(arg, _, _) =>
      var a :- Print(cx, arg, ps);
      Some(Printed([LPar] + a.toks + NullTestToken(cx, e) + [RPar], a.params))
    case ArrayExpr(elements, t, _) =>
      var a :- PrintRest(cx, elements, true, Comma, false, ps);
      if elements != [] then Some(Printed([ArrayKw, LBrk] + a.toks + [RBrk], a.params))
      else
        var tn :- cx.typeName(t, -1);
        Some(Printed([ArrayKw, LBrk] + a.toks + [RBrk, Cast(tn)], a.params))
    case Aggref(_, _, _, _, _, _) => Some(Printed([], ps))
    case Unsupported(_) => None
  }

  /** What precedes an element of a list: a separator unless it is the first, and VARIADIC if it
      is the last of a variadic call. */
  function Lead(first: bool, last: bool, sep: Token, variadic: bool): seq<Token> {
    (if first then [] else [sep]) + if variadic && last then [VariadicKw] else []
  }

  /** The rest of a list of expressions. */
  function PrintRest(cx: Context, es: seq<Expr>, first: bool, sep: Token, variadic: bool,
                     ps: seq<Expr>): Option<Printed>
    decreases es
  {
    if es == [] then Some(Printed([], ps))
    else
      var a :- Print(cx, es[0], ps);
      var b :- PrintRest(cx, es[1..], false, sep, variadic, a.params);
      Some(Printed(Lead(first, |es| == 1, sep, variadic) + a.toks + b.toks, b.params))
  }

  /** Subscript i of e: an upper bound, and a lower bound if there are that many. */
  function PrintSubscript(cx: Context, e: Expr, i: nat, ps: seq<Expr>): Option<Printed>
    requires e.ArrayRef? && i < |e.upper|
    decreases e, 0
  {
    var l :- if i < |e.lower| then Print(cx, e.lower[i], ps) else Some(Printed([], ps));
    var u :- Print(cx, e.upper[i], l.params);
    Some(Printed([LBrk] + l.toks + (if i < |e.lower| then [Colon] else []) + u.toks + [RBrk], u.params))
  }

  /** The subscripts of e from number i on: as many as there are upper bounds. */
  function PrintSubscripts(cx: Context, e: Expr, i: nat, ps: seq<Expr>): Option<Printed>
    requires e.ArrayRef? && i <= |e.upper|
    decreases e, |e.upper| - i
  {
    if i == |e.upper| then Some(Printed([], ps))
    else
      var s :- PrintSubscript(cx, e, i, ps);
      var rest :- PrintSubscripts(cx, e, i + 1, s.params);
      Some(Printed(s.toks + rest.toks, rest.params))
  }

  // ----- the deparser itself, which appends to a buffer and extends the parameter list -----

  /** The effect of printing r: whether it succeeded and, if so, what was appended and what the
      list is now. */
  ghost predicate Did(ok: bool, r: Option<Printed>, buf0: seq<Token>, buf: seq<Token>, params: seq<Expr>) {
    (ok <==> r.Some?) && (ok ==> buf == buf0 + r.value.toks && params == r.value.params)
  }

  // Appending piece by piece is appending the pieces put together.

  lemma Cat2<T>(o: seq<T>, a: seq<T>, b: seq<T>)
    ensures o + a + b == o + (a + b)
  {
  }

  lemma Cat3<T>(o: seq<T>, a: seq<T>, b: seq<T>, c: seq<T>)
    ensures o + a + b + c == o + (a + b + c)
  {
  }

  lemma Cat4<T>(o: seq<T>, a: seq<T>, b: seq<T>, c: seq<T>, d: seq<T>)
    ensures o + a + b + c + d == o + (a + b + c + d)
  {
  }

  lemma Cat5<T>(o: seq<T>, a: seq<T>, b: seq<T>, c: seq<T>, d: seq<T>, e: seq<T>)
    ensures o + a + b + c + d + e == o + (a + b + c + d + e)
  {
  }

  /** The rest of a list from element i on. */
  lemma RestStep(cx: Context, es: seq<Expr>, i: nat, first: bool, sep: Token, variadic: bool, ps: seq<Expr>)
    requires i < |es|
    ensures var rest, a := PrintRest(cx, es[i..], first, sep, variadic, ps), Print(cx, es[i], ps);
            && (a.None? ==> rest.None?)
            && (a.Some? ==>
                  var next := PrintRest(cx, es[i + 1..], false, sep, variadic, a.value.params);
                  && (rest.Some? <==> next.Some?)
                  && (rest.Some? ==> rest.value == Printed(Lead(first, i + 1 == |es|, sep, variadic) + a.value.toks
                                                           + next.value.toks, next.value.params)))
  {
    assert es[i..][0] == es[i] && es[i..][1..] == es[i + 1..];
  }

  /** What has been done and what is left make up the whole. */
  ghost predicate Split(whole: Option<Printed>, done: seq<Token>, rest: Option<Printed>) {
    && (whole.Some? <==> rest.Some?)
    && (whole.Some? ==> whole.value == Printed(done + rest.value.toks, rest.value.params))
  }

  lemma SplitMoves(whole: Option<Printed>, done: seq<Token>, rest: Option<Printed>, piece: seq<Token>,
                   next: Option<Printed>)
    requires Split(whole, done, rest) && (rest.Some? <==> next.Some?)
    requires rest.Some? ==> rest.value == Printed(piece + next.value.toks, next.value.params)
    ensures Split(whole, done + piece, next)
  {
    if rest.Some? { Cat2(done, piece, next.value.toks); }
  }

  class Deparser {
    const cx: Context
    var buf: seq<Token>
    var params: seq<Expr>

    constructor (cx: Context, params: seq<Expr>)
      ensures this.cx == cx && buf == [] && this.params == params
    {
      this.cx, this.buf, this.params := cx, [], params;
    }

    method Append(toks: seq<Token>)
      modifies this`buf
      ensures buf == old(buf) + toks
    {
      buf := buf + toks;
    }

    /** printRemoteParam, printRemotePlaceholder and the search in the list before it */
    method DeparseParam(e: Expr, t: Oid, typmod: int) returns (ok: bool)
      modifies this
      ensures Did(ok, PrintParam(cx, e, t, typmod, old(params)), old(buf), buf, params)
    {
      var tn := cx.typeName(t, typmod);
      if tn.None? {
        return false;
      }
      if cx.collect {
        var pindex := 0;
        while pindex < |params| && params[pindex] != e
          invariant pindex <= |params| && forall i :: 0 <= i < pindex ==> params[i] != e
        {
          pindex := pindex + 1;
        }
        if pindex == |params| {
          params := params + [e];
        }
        Append([Dollar(pindex + 1), Cast(tn.value)]);
      } else {
        Append([LPar, LPar, SelectKw, NullKw, Cast(tn.value), RPar, Cast(tn.value), RPar]);
      }
      return true;
    }

    method DeparseVar(e: Expr) returns (ok: bool)
      requires e.Var?
      modifies this
      ensures Did(ok, PrintVar(cx, e, old(params)), old(buf), buf, params)
    {
      var a := cx.alias(e);
      if a.Some? {
        Append([Column(a.value)]);
        return true;
      }
      if IsRemoteColumn(cx, e) {
        Append([Column(Remote(e.varno, e.attno))]);
        return true;
      }
      ok := DeparseParam(e, e.vtype, e.vtypmod);
    }

    /** The value of a number: quoted if it is something special, in parentheses if signed. */
    method AppendNumber(text: string) returns (isfloat: bool)
      modifies this`buf
      ensures buf == old(buf) + ConstBody(text, NUMERICOID) && (isfloat <==> LooksNumeric(text) && LooksFloat(text))
    {
      isfloat := false;
      var numeric := OnlyOf(text, "0123456789+-eE.");
      if numeric {
        if text != "" && (text[0] == '+' || text[0] == '-') {
          Append([LPar, Number(text), RPar]);
        } else {
          Append([Number(text)]);
        }
        isfloat := SomeOf(text, "eE.");
      } else {
        Append([Str(text)]);
      }
    }

    /** The first switch of gcDeparseConst: the value, by its type. */
    method AppendValue(e: Expr) returns (isfloat: bool)
      requires e.Const? && !e.isnull
      modifies this`buf
      ensures buf == old(buf) + ConstBody(e.text, e.ctype)
      ensures e.ctype == NUMERICOID ==> (isfloat <==> LooksNumeric(e.text) && LooksFloat(e.text))
    {
      isfloat := false;
      if NumberType(e.ctype) {
        isfloat := AppendNumber(e.text);
      } else if e.ctype == BITOID || e.ctype == VARBITOID {
        Append([Bits(e.text)]);
      } else if e.ctype == BOOLOID {
        if e.text == "t" {
          Append([TrueKw]);
        } else {
          Append([FalseKw]);
        }
      } else {
        Append([Str(e.text)]);
      }
    }

    /** gcDeparseConst: the value, then the second switch, whether a label is needed, and the
        label. */
    method DeparseConst(e: Expr, show: ShowType) returns (ok: bool)
      requires e.Const?
      modifies this`buf
      ensures ok <==> PrintConstAs(cx, e, show).Some?
      ensures ok ==> buf == old(buf) + PrintConstAs(cx, e, show).value
    {
      ok := true;
      if e.isnull {
        Append([NullKw]);
        if show != Never {
          ok := DeparseType(e.ctype, e.ctypmod);
        }
        return;
      }
      var isfloat := AppendValue(e);
      if show == Never {
        return;
      }
      var needlabel := true;
      if e.ctype == BOOLOID || e.ctype == INT4OID || e.ctype == UNKNOWNOID {
        needlabel := false;
      } else if e.ctype == NUMERICOID {
        needlabel := !isfloat || e.ctypmod >= 0;
      }
      if needlabel || show == Always {
        ok := DeparseType(e.ctype, e.ctypmod);
      }
    }

    method DeparseType(t: Oid, typmod: int) returns (ok: bool)
      modifies this`buf
      ensures ok <==> cx.typeName(t, typmod).Some?
      ensures ok ==> buf == old(buf) + [Cast(cx.typeName(t, typmod).value)]
    {
      var tn := cx.typeName(t, typmod);
      ok := tn.Some?;
      if ok {
        Append([Cast(tn.value)]);
      }
    }

    method AppendLead(first: bool, last: bool, sep: Token, variadic: bool)
      modifies this`buf
      ensures buf == old(buf) + Lead(first, last, sep, variadic)
    {
      if !first {
        Append([sep]);
      }
      if variadic && last {
        Append([VariadicKw]);
      }
    }

    /** One element of a list, with what precedes it */
    method DeparseItem(e: Expr, first: bool, last: bool, sep: Token, variadic: bool) returns (ok: bool)
      modifies this
      ensures ok <==> Print(cx, e, old(params)).Some?
      ensures ok ==> params == Print(cx, e, old(params)).value.params
      ensures ok ==> buf == old(buf) + (Lead(first, last, sep, variadic) + Print(cx, e, old(params)).value.toks)
      decreases e, 4
    {
      ghost var a := Print(cx, e, params);
      AppendLead(first, last, sep, variadic);
      ok := DeparseExpr(e);
      if ok { Cat2(old(buf), Lead(first, last, sep, variadic), a.value.toks); }
    }

    /** The loops over arguments, operands and elements */
    method DeparseList(es: seq<Expr>, sep: Token, variadic: bool) returns (ok: bool)
      modifies this
      ensures Did(ok, PrintRest(cx, es, true, sep, variadic, old(params)), old(buf), buf, params)
      decreases es
    {
      ghost var whole := PrintRest(cx, es, true, sep, variadic, params);
      ghost var done: seq<Token> := [];
      var first := true;
      assert es[0..] == es;
      for i := 0 to |es|
        invariant first <==> i == 0
        invariant buf == old(buf) + done
        invariant Split(whole, done, PrintRest(cx, es[i..], first, sep, variadic, params))
      {
        RestStep(cx, es, i, first, sep, variadic, params);
        ghost var before, rest := buf, PrintRest(cx, es[i..], first, sep, variadic, params);
        ghost var a := Print(cx, es[i], params);
        ok := DeparseItem(es[i], first, i + 1 == |es|, sep, variadic);
        if !ok {
          return;
        }
        ghost var piece := Lead(first, i + 1 == |es|, sep, variadic) + a.value.toks;
        SplitMoves(whole, done, rest, piece, PrintRest(cx, es[i + 1..], false, sep, variadic, params));
        Cat2(old(buf), done, piece);
        done := done + piece;
        first := false;
      }
      ok := true;
    }

    /** One subscript, with or without a lower bound */
    method DeparseSubscript(e: Expr, i: nat) returns (ok: bool)
      requires e.ArrayRef? && i < |e.upper|
      modifies this
      ensures Did(ok, PrintSubscript(cx, e, i, old(params)), old(buf), buf, params)
      decreases e, 0
    {
      ghost var l := if i < |e.lower| then Print(cx, e.lower[i], params) else Some(Printed([], params));
      Append([LBrk]);
      if i < |e.lower| {
        ok := DeparseExpr(e.lower[i]);
        if !ok {
          return;
        }
        Append([Colon]);
      }
      ghost var u := Print(cx, e.upper[i], params);
      ok := DeparseExpr(e.upper[i]);
      if !ok {
        return;
      }
      Append([RBrk]);
      Cat5(old(buf), [LBrk], l.value.toks, if i < |e.lower| then [Colon] else [], u.value.toks, [RBrk]);
    }

    /** gcDeparseArrayRef's loop over the subscripts */
    method DeparseSubscripts(e: Expr) returns (ok: bool)
      requires e.ArrayRef?
      modifies this
      ensures Did(ok, PrintSubscripts(cx, e, 0, old(params)), old(buf), buf, params)
      decreases e, 1
    {
      ghost var whole := PrintSubscripts(cx, e, 0, params);
      ghost var done: seq<Token> := [];
      for i := 0 to |e.upper|
        invariant buf == old(buf) + done
        invariant Split(whole, done, PrintSubscripts(cx, e, i, params))
      {
        ghost var rest, s := PrintSubscripts(cx, e, i, params), PrintSubscript(cx, e, i, params);
        ok := DeparseSubscript(e, i);
        if !ok {
          return;
        }
        SplitMoves(whole, done, rest, s.value.toks, PrintSubscripts(cx, e, i + 1, params));
        Cat2(old(buf), done, s.value.toks);
        done := done + s.value.toks;
      }
      ok := true;
    }

    method DeparseArrayRef(e: Expr) returns (ok: bool)
      requires e.ArrayRef?
      modifies this
      ensures Did(ok, Print(cx, e, old(params)), old(buf), buf, params)
      decreases e, 2
    {
      ghost var r := Print(cx, e.refexpr, params);
      Append([LPar]);
      if e.refexpr.Var? {
        ok := DeparseExpr(e.refexpr);
      } else {
        ghost var before := buf;
        Append([LPar]);
        ok := DeparseExpr(e.refexpr);
        Append([RPar]);
        if ok { Cat3(before, [LPar], r.value.toks, [RPar]); }
      }
      if ok {
        ghost var base := if e.refexpr.Var? then r.value.toks else [LPar] + r.value.toks + [RPar];
        ghost var subs := PrintSubscripts(cx, e, 0, params);
        ok := DeparseSubscripts(e);
        Append([RPar]);
        if ok { Cat4(old(buf), [LPar], base, subs.value.toks, [RPar]); }
      }
    }

    method DeparseFuncExpr(e: Expr) returns (ok: bool)
      requires e.FuncExpr?
      modifies this
      ensures Did(ok, Print(cx, e, old(params)), old(buf), buf, params)
      decreases e, 2
    {
      if e.form == ImplicitCast {
        if e.args == [] {
          return false;
        }
        ok := DeparseExpr(e.args[0]);
        return;
      }
      if e.form == ExplicitCast {
        if e.args == [] {
          return false;
        }
        ok := DeparseExpr(e.args[0]);
        if ok {
          ok := DeparseType(e.rtype, e.rtypmod);
        }
        return;
      }
      ok := DeparseCall(e);
    }

    /** A call by name. */
    method DeparseCall(e: Expr) returns (ok: bool)
      requires e.FuncExpr? && e.form == ExplicitCall
      modifies this
      ensures Did(ok, Print(cx, e, old(params)), old(buf), buf, params)
      decreases e, 1
    {
      if e.funcid !in cx.funcs {
        return false;
      }
      Append([FuncName(cx.funcs[e.funcid])]);
      Append([LPar]);
      ok := DeparseList(e.args, Comma, e.variadic);
      Append([RPar]);
    }

    ghost function OperandText(e: Expr, wanted: bool, ps: seq<Expr>): Option<Printed> {
      if wanted then Print(cx, e, ps) else Some(Printed([], ps))
    }

    /** An operand on this side of an operator, if there is one. */
    method DeparseOperand(e: Expr, wanted: bool) returns (ok: bool)
      modifies this
      ensures Did(ok, OperandText(e, wanted, old(params)), old(buf), buf, params)
      decreases e, 4
    {
      ok := true;
      if wanted {
        ok := DeparseExpr(e);
      }
    }

    method DeparseOpExpr(e: Expr) returns (ok: bool)
      requires e.OpExpr?
      modifies this
      ensures Did(ok, Print(cx, e, old(params)), old(buf), buf, params)
      decreases e, 2
    {
      if e.opno !in cx.opers {
        return false;
      }
      var form := cx.opers[e.opno];
      if |e.args| != (if form.kind == Infix then 2 else 1) {
        return false;
      }
      ghost var a := OperandText(e.args[0], form.kind != Prefix, params);
      Append([LPar]);
      ok := DeparseOperand(e.args[0], form.kind == Postfix || form.kind == Infix);
      if !ok {
        return;
      }
      Append([OpName(form.name)]);
      ghost var b := OperandText(e.args[|e.args| - 1], form.kind != Postfix, params);
      ok := DeparseOperand(e.args[|e.args| - 1], form.kind == Prefix || form.kind == Infix);
      if !ok {
        return;
      }
      Append([RPar]);
      Cat5(old(buf), [LPar], a.value.toks, [OpName(form.name)], b.value.toks, [RPar]);
      return true;
    }

    method DeparseDistinctExpr(e: Expr) returns (ok: bool)
      requires e.DistinctExpr?
      modifies this
      ensures Did(ok, Print(cx, e, old(params)), old(buf), buf, params)
      decreases e, 2
    {
      if |e.args| != 2 {
        return false;
      }
      ghost var a := Print(cx, e.args[0], params);
      Append([LPar]);
      ok := DeparseExpr(e.args[0]);
      if !ok {
        return;
      }
      Append([IsDistinctFrom]);
      ghost var b := Print(cx, e.args[1], params);
      ok := DeparseExpr(e.args[1]);
      Append([RPar]);
      if ok { Cat5(old(buf), [LPar], a.value.toks, [IsDistinctFrom], b.value.toks, [RPar]); }
    }

    method DeparseScalarArrayOpExpr(e: Expr) returns (ok: bool)
      requires e.ScalarArrayOpExpr?
      modifies this
      ensures Did(ok, Print(cx, e, old(params)), old(buf), buf, params)
      decreases e, 2
    {
      if e.opno !in cx.opers || |e.args| != 2 {
        return false;
      }
      ghost var a := Print(cx, e.args[0], params);
      Append([LPar]);
      ok := DeparseExpr(e.args[0]);
      if !ok {
        return;
      }
      Append([OpName(cx.opers[e.opno].name), if e.useOr then AnyKw else AllKw, LPar]);
      ghost var b := Print(cx, e.args[1], params);
      ok := DeparseExpr(e.args[1]);
      Append([RPar, RPar]);
      if ok {
        Cat5(old(buf), [LPar], a.value.toks,
             [OpName(cx.opers[e.opno].name), if e.useOr then AnyKw else AllKw, LPar], b.value.toks, [RPar, RPar]);
      }
    }

    method DeparseRelabelType(e: Expr) returns (ok: bool)
      requires e.RelabelType?
      modifies this
      ensures Did(ok, Print(cx, e, old(params)), old(buf), buf, params)
      decreases e, 2
    {
      ok := DeparseExpr(e.arg);
      if ok && e.form != ImplicitCast {
        ok := DeparseType(e.rtype, e.rtypmod);
      }
    }

    method DeparseBoolExpr(e: Expr) returns (ok: bool)
      requires e.BoolExpr?
      modifies this
      ensures Did(ok, Print(cx, e, old(params)), old(buf), buf, params)
      decreases e, 2
    {
      if e.op == Not {
        if e.args == [] {
          return false;
        }
        ghost var a := Print(cx, e.args[0], params);
        Append([LPar, NotKw]);
        ok := DeparseExpr(e.args[0]);
        Append([RPar]);
        if ok { Cat3(old(buf), [LPar, NotKw], a.value.toks, [RPar]); }
        return;
      }
      ghost var l := PrintRest(cx, e.args, true, if e.op == And then AndKw else OrKw, false, params);
      Append([LPar]);
      ok := DeparseList(e.args, if e.op == And then AndKw else OrKw, false);
      Append([RPar]);
      if ok { Cat3(old(buf), [LPar], l.value.toks, [RPar]); }
    }

    method DeparseNullTest(e: Expr) returns (ok: bool)
      requires e.NullTest?
      modifies this
      ensures Did(ok, Print(cx, e, old(params)), old(buf), buf, params)
      decreases e, 2
    {
      ghost var a := Print(cx, e.arg, params);
      Append([LPar]);
      ok := DeparseExpr(e.arg);
      if e.argisrow || !cx.isRow(ExprType(e.arg)) {
        Append([if e.isNull then IsNull else IsNotNull]);
      } else {
        Append([if e.isNull then IsNotDistinctFrom else IsDistinctFrom, NullKw]);
      }
      Append([RPar]);
      if ok { Cat4(old(buf), [LPar], a.value.toks, NullTestToken(cx, e), [RPar]); }
    }

    method DeparseArrayExpr(e: Expr) returns (ok: bool)
      requires e.ArrayExpr?
      modifies this
      ensures Did(ok, Print(cx, e, old(params)), old(buf), buf, params)
      decreases e, 2
    {
      Append([ArrayKw, LBrk]);
      ok := DeparseList(e.elements, Comma, false);
      Append([RBrk]);
      if ok && e.elements == [] {
        ok := DeparseType(e.atype, -1);
      }
    }

    /** gcDeparseExpr */
    method DeparseExpr(e: Expr) returns (ok: bool)
      modifies this
      ensures Did(ok, Print(cx, e, old(params)), old(buf), buf, params)
      decreases e, 3
    {
      match e {
        case Var(_, _, _, _, _, _) => ok := DeparseVar(e);
        case Const(_, _, _, _, _) => ok := DeparseConst(e, IfNeeded);
        case Param(_, _, t, typmod, _) => ok := DeparseParam(e, t, typmod);
        case ArrayRef(_, _, _, _, _, _) => ok := DeparseArrayRef(e);
        case FuncExpr(_, _, _, _, _, _, _, _) => ok := DeparseFuncExpr(e);
        case OpExpr(_, _, _, _, _) => ok := DeparseOpExpr(e);
        case DistinctExpr(_, _, _, _) => ok := DeparseDistinctExpr(e);
        case ScalarArrayOpExpr(_, _, _, _) => ok := DeparseScalarArrayOpExpr(e);
        case RelabelType(_, _, _, _, _) => ok := DeparseRelabelType(e);
        case BoolExpr(_, _) => ok := DeparseBoolExpr(e);
        case NullTest(_, _, _) => ok := DeparseNullTest(e);
        case ArrayExpr(_, _, _) => ok := DeparseArrayExpr(e);
        case Aggref(_, _, _, _, _, _) => ok := true;
        case Unsupported(_) => ok := false;
      }
    }
  }
}
