/** is_foreign_expr and gcforeign_expr_walker: which expressions can be evaluated by the remote
    server, and with which collation.
 */
module ForeignWalker {
  import opened Wrappers
  import opened RemoteExpr

  /** The planner's and the catalogs' answers the walker relies on. */
  datatype Glob = Glob(relids: set<int>, shipFunc: Oid -> bool, shipOp: Oid -> bool, shipType: Oid -> bool,
                       mutable: Expr -> bool)

  datatype State = NoCollation | Safe | Unsafe {
    function Rank(): nat {
      match this case NoCollation => 0 case Safe => 1 case Unsafe => 2
    }
  }

  /** foreign_loc_cxt */
  datatype Cxt = Cxt(coll: Oid, state: State)

  const NOTHING := Cxt(INVALID_OID, NoCollation)

  // ----- merging -----

  /** The end of the walker: fold a node's collation into that of its parent's inputs. */
  function Merge(outer: Cxt, c: Cxt): Cxt {
    if c.state.Rank() > outer.state.Rank() then c
    else if c.state == outer.state && c.state.Safe? && c.coll != outer.coll then
      if outer.coll == DEFAULT_COLLATION_OID then Cxt(c.coll, outer.state)
      else if c.coll != DEFAULT_COLLATION_OID then Cxt(outer.coll, Unsafe)
      else outer
    else outer
  }

  /** What a context says: nothing, one collation, or a conflict. */
  datatype Verdict = Nothing | Only(coll: Oid) | Conflict

  function Meaning(c: Cxt): Verdict {
    match c.state case NoCollation => Nothing case Safe => Only(c.coll) case Unsafe => Conflict
  }

  /** The least upper bound of the order in which nothing is below the default collation, which
      is below every other collation, which is below conflict. */
  function Join(a: Verdict, b: Verdict): Verdict {
    if a.Nothing? || a == b then b
    else if b.Nothing? then a
    else if a.Conflict? || b.Conflict? then Conflict
    else if a.coll == DEFAULT_COLLATION_OID then b
    else if b.coll == DEFAULT_COLLATION_OID then a
    else Conflict
  }

  lemma MergeIsJoin(a: Cxt, b: Cxt)
    ensures Meaning(Merge(a, b)) == Join(Meaning(a), Meaning(b))
  {
  }

  lemma JoinLaws(a: Verdict, b: Verdict, c: Verdict)
    ensures Join(a, b) == Join(b, a) && Join(a, a) == a
    ensures Join(Join(a, b), c) == Join(a, Join(b, c))
    ensures Join(Nothing, a) == a == Join(a, Nothing)
  {
  }

  // ----- the walk -----

  /** The state of a node that yields collation coll from inputs in state inner. */
  function Derived(coll: Oid, inner: Cxt): Cxt {
    Cxt(coll,
        if coll == INVALID_OID then NoCollation
        else if inner.state == Safe && coll == inner.coll then Safe
        else if coll == DEFAULT_COLLATION_OID then NoCollation
        else Unsafe)
  }

  /** The rule for constants, parameters and other tables' columns. */
  function NotForeign(coll: Oid): Cxt {
    Cxt(coll, if coll == INVALID_OID || coll == DEFAULT_COLLATION_OID then NoCollation else Unsafe)
  }

  predicate IsForeignVar(g: Glob, e: Expr) {
    e.Var? && e.varno in g.relids && e.levelsup == 0
  }

  /** Inputs in state inner may be fed to a function or operator that uses collation incoll. */
  predicate InputOk(incoll: Oid, inner: Cxt) {
    incoll == INVALID_OID || (inner.state == Safe && incoll == inner.coll)
  }

  /** The collation a node hands to its parent, or nothing if the node cannot be sent. */
  function Walk(g: Glob, e: Expr): Option<Cxt>
    decreases e, 1
  {
    var c :- WalkNode(g, e);
    if g.shipType(ExprType(e)) then Some(c) else None
  }

  function WalkNode(g: Glob, e: Expr): Option<Cxt>
    decreases e, 0
  {
    match e
    case Var(_, attno, _, _, _, coll) =>
      if IsForeignVar(g, e) then
        if attno < 0 && attno != -1 && attno != -2 then None
        else Some(Cxt(coll, if coll != INVALID_OID then Safe else NoCollation))
      else Some(NotForeign(coll))
    case Const(_, _, _, _, coll) => Some(NotForeign(coll))
    case Param(isExtern, _, _, _, coll) => if isExtern then Some(NotForeign(coll)) else None
    case ArrayRef(refexpr, upper, lower, assigns, _, coll) =>
      if assigns then None else
      var u :- WalkList(g, upper, NOTHING);
      var l :- WalkList(g, lower, NOTHING);
      var r :- Walk(g, refexpr);
      Some(Derived(coll, Merge(Merge(Merge(NOTHING, u), l), r)))
    case FuncExpr(funcid, args, _, _, _, _, incoll, coll) =>
      if !g.shipFunc(funcid) then None else
      var inner :- WalkList(g, args, NOTHING);
      if InputOk(incoll, inner) then Some(Derived(coll, inner)) else None
    case OpExpr(opno, args, _, incoll, coll) =>
      if !g.shipOp(opno) then None else
      var inner :- WalkList(g, args, NOTHING);
      if InputOk(incoll, inner) then Some(Derived(coll, inner)) else None
    case DistinctExpr(opno, args, incoll, coll) =>
      if !g.shipOp(opno) then None else
      var inner :- WalkList(g, args, NOTHING);
      if InputOk(incoll, inner) then Some(Derived(coll, inner)) else None
    case ScalarArrayOpExpr(opno, _, args, incoll) =>
      if !g.shipOp(opno) then None else
      var inner :- WalkList(g, args, NOTHING);
      if InputOk(incoll, inner) then Some(NOTHING) else None
    case RelabelType(arg, _, _, _, coll) =>
      var inner :- Walk(g, arg);
      Some(Derived(coll, Merge(NOTHING, inner)))
    case BoolExpr(_, args) =>
      var inner :- WalkList(g, args, NOTHING);
      Some(NOTHING)
    case NullTest(arg, _, _) =>
      var inner :- Walk(g, arg);
      Some(NOTHING)
    case ArrayExpr(elements, _, coll) =>
      var inner :- WalkList(g, elements, NOTHING);
      Some(Derived(coll, inner))
    case Aggref(funcid, args, order, _, incoll, coll) =>
      if !g.shipFunc(funcid) then None else
      var inner :- WalkList(g, args, NOTHING);
      if exists s :: s in order && !s.isDefault && !g.shipOp(s.op) then None
      else if InputOk(incoll, inner) then Some(Derived(coll, inner)) else None
    case Unsupported(_) => None
  }

  /** The elements of a list, merged from the left into acc. */
  function WalkList(g: Glob, es: seq<Expr>, acc: Cxt): Option<Cxt>
    decreases es, 2
  {
    if es == [] then Some(acc)
    else
      var c :- Walk(g, es[0]);
      WalkList(g, es[1..], Merge(acc, c))
  }

  /** is_foreign_expr */
  predicate IsForeignExpr(g: Glob, e: Expr) {
    var w := Walk(g, e);
    w.Some? && w.value.state != Unsafe && !g.mutable(e)
  }

  // ----- the walker itself, which updates its caller's context -----

  class LocCxt {
    var coll: Oid
    var state: State

    constructor ()
      ensures Value() == NOTHING
    {
      coll, state := INVALID_OID, NoCollation;
    }

    function Value(): Cxt
      reads this
    {
      Cxt(coll, state)
    }

    /** Now, merge my collation information into my parent's state. */
    method MergeIn(c: Cxt)
      modifies this
      ensures Value() == Merge(old(Value()), c)
    {
      if c.state.Rank() > state.Rank() {
        coll, state := c.coll, c.state;
      } else if c.state == state {
        match c.state {
          case NoCollation =>
          case Safe =>
            if c.coll != coll {
              if coll == DEFAULT_COLLATION_OID {
                coll := c.coll;
              } else if c.coll != DEFAULT_COLLATION_OID {
                state := Unsafe;
              }
            }
          case Unsafe =>
        }
      }
    }
  }

  /** The T_List case: a context of its own for the list, merged into the caller's at the end. */
  method WalkerList(g: Glob, es: seq<Expr>, outer: LocCxt) returns (ok: bool)
    modifies outer
    ensures ok <==> WalkList(g, es, NOTHING).Some?
    ensures ok ==> outer.Value() == Merge(old(outer.Value()), WalkList(g, es, NOTHING).value)
    decreases es, 2
  {
    if es == [] {
      return true;
    }
    var inner := new LocCxt();
    for i := 0 to |es|
      invariant fresh(inner) && unchanged(outer)
      invariant WalkList(g, es, NOTHING) == WalkList(g, es[i..], inner.Value())
    {
      assert es[i..][0] == es[i] && es[i..][1..] == es[i + 1..];
      ok := Walker(g, es[i], inner);
      if !ok {
        return;
      }
    }
    outer.MergeIn(inner.Value());
    ok := true;
  }

  /** The cases that walk a list of inputs and then derive a collation from them. */
  method WalkerInputs(g: Glob, args: seq<Expr>, incoll: Oid, coll: Oid) returns (ok: bool, c: Cxt)
    ensures ok <==> WalkList(g, args, NOTHING).Some? && InputOk(incoll, WalkList(g, args, NOTHING).value)
    ensures ok ==> c == Derived(coll, WalkList(g, args, NOTHING).value)
    decreases args, 3
  {
    c := NOTHING;
    var inner := new LocCxt();
    ok := WalkerList(g, args, inner);
    if !ok {
      return;
    }
    MergeFromNothing(g, args, NOTHING);
    ok := incoll == INVALID_OID || (inner.state == Safe && incoll == inner.coll);
    c := Derived(coll, inner.Value());
  }

  /** A context without a collation never names one. */
  lemma {:induction false} MergeFromNothing(g: Glob, es: seq<Expr>, acc: Cxt)
    requires acc.state.NoCollation? ==> acc == NOTHING
    ensures WalkList(g, es, acc).Some? ==> Merge(NOTHING, WalkList(g, es, acc).value) == WalkList(g, es, acc).value
    decreases |es|
  {
    if es != [] {
      var w := Walk(g, es[0]);
      if w.Some? { MergeFromNothing(g, es[1..], Merge(acc, w.value)); }
    }
  }

  /** gcforeign_expr_walker */
  method Walker(g: Glob, e: Expr, outer: LocCxt) returns (ok: bool)
    modifies outer
    ensures ok <==> Walk(g, e).Some?
    ensures ok ==> outer.Value() == Merge(old(outer.Value()), Walk(g, e).value)
    decreases e, 1
  {
    var c;
    ok, c := WalkerNode(g, e);
    if ok && !g.shipType(ExprType(e)) {
      ok := false;
    }
    if ok {
      outer.MergeIn(c);
    }
  }

  method WalkerNode(g: Glob, e: Expr) returns (ok: bool, c: Cxt)
    ensures ok <==> WalkNode(g, e).Some?
    ensures ok ==> c == WalkNode(g, e).value
    decreases e, 0
  {
    ok, c := true, NOTHING;
    match e {
      case Var(_, attno, _, _, _, coll) =>
        if IsForeignVar(g, e) {
          if attno < 0 && attno != -1 && attno != -2 {
            return false, c;
          }
          c := Cxt(coll, if coll != INVALID_OID then Safe else NoCollation);
        } else {
          c := NotForeign(coll);
        }
      case Const(_, _, _, _, coll) =>
        c := NotForeign(coll);
      case Param(isExtern, _, _, _, coll) =>
        ok, c := isExtern, NotForeign(coll);
      case ArrayRef(refexpr, upper, lower, assigns, _, coll) =>
        if assigns {
          return false, c;
        }
        var inner := new LocCxt();
        ok := WalkerList(g, upper, inner);
        if ok {
          ok := WalkerList(g, lower, inner);
        }
        if ok {
          ok := Walker(g, refexpr, inner);
        }
        c := Derived(coll, inner.Value());
      case FuncExpr(funcid, args, _, _, _, _, incoll, coll) =>
        if !g.shipFunc(funcid) {
          return false, c;
        }
        ok, c := WalkerInputs(g, args, incoll, coll);
      case OpExpr(opno, args, _, incoll, coll) =>
        if !g.shipOp(opno) {
          return false, c;
        }
        ok, c := WalkerInputs(g, args, incoll, coll);
      case DistinctExpr(opno, args, incoll, coll) =>
        if !g.shipOp(opno) {
          return false, c;
        }
        ok, c := WalkerInputs(g, args, incoll, coll);
      case ScalarArrayOpExpr(opno, _, args, incoll) =>
        if !g.shipOp(opno) {
          return false, c;
        }
        ok, c := WalkerInputs(g, args, incoll, INVALID_OID);
        c := NOTHING;
      case RelabelType(arg, _, _, _, coll) =>
        var inner := new LocCxt();
        ok := Walker(g, arg, inner);
        c := Derived(coll, inner.Value());
      case BoolExpr(_, args) =>
        ok, c := WalkerInputs(g, args, INVALID_OID, INVALID_OID);
      case NullTest(arg, _, _) =>
        var inner := new LocCxt();
        ok := Walker(g, arg, inner);
      case ArrayExpr(elements, _, coll) =>
        ok, c := WalkerInputs(g, elements, INVALID_OID, coll);
      case Aggref(funcid, args, order, _, incoll, coll) =>
        if !g.shipFunc(funcid) {
          return false, c;
        }
        ok, c := WalkerInputs(g, args, incoll, coll);
        if exists s :: s in order && !s.isDefault && !g.shipOp(s.op) {
          ok := false;
        }
      case Unsupported(_) =>
        ok := false;
    }
  }
}
