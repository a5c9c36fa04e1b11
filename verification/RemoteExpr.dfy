/** The expression trees that contrib/gauss_connector/deparse.cpp examines and prints. Of each
    node the fields these two read are kept.
 */
module RemoteExpr {
  type Oid = nat

  const INVALID_OID: Oid := 0
  const DEFAULT_COLLATION_OID: Oid := 100
  const BOOLOID: Oid := 16

  datatype BoolOp = And | Or | Not

  datatype CoercionForm = ExplicitCall | ExplicitCast | ImplicitCast

  /** A sort operator of an aggregate, and whether it is the default < or > of its type. */
  datatype SortOp = SortOp(op: Oid, isDefault: bool)

  datatype Expr =
    | Var(varno: int, attno: int, levelsup: nat, vtype: Oid, vtypmod: int, coll: Oid)
    | Const(isnull: bool, text: string, ctype: Oid, ctypmod: int, coll: Oid)
    | Param(isExtern: bool, id: int, ptype: Oid, ptypmod: int, coll: Oid)
    | ArrayRef(refexpr: Expr, upper: seq<Expr>, lower: seq<Expr>, assigns: bool, rtype: Oid, coll: Oid)
    | FuncExpr(funcid: Oid, args: seq<Expr>, form: CoercionForm, variadic: bool,
               rtype: Oid, rtypmod: int, incoll: Oid, coll: Oid)
    | OpExpr(opno: Oid, args: seq<Expr>, rtype: Oid, incoll: Oid, coll: Oid)
    | DistinctExpr(opno: Oid, args: seq<Expr>, incoll: Oid, coll: Oid)
    | ScalarArrayOpExpr(opno: Oid, useOr: bool, args: seq<Expr>, incoll: Oid)
    | RelabelType(arg: Expr, rtype: Oid, rtypmod: int, form: CoercionForm, coll: Oid)
    | BoolExpr(op: BoolOp, args: seq<Expr>)
    | NullTest(arg: Expr, isNull: bool, argisrow: bool)
    | ArrayExpr(elements: seq<Expr>, atype: Oid, coll: Oid)
    | Aggref(funcid: Oid, args: seq<Expr>, order: seq<SortOp>, rtype: Oid, incoll: Oid, coll: Oid)
    | Unsupported(tag: nat)

  /** exprType */
  function ExprType(e: Expr): Oid {
    match e
    case Var(_, _, _, t, _, _) => t
    case Const(_, _, t, _, _) => t
    case Param(_, _, t, _, _) => t
    case ArrayRef(_, _, _, _, t, _) => t
    case FuncExpr(_, _, _, _, t, _, _, _) => t
    case OpExpr(_, _, t, _, _) => t
    case RelabelType(_, t, _, _, _) => t
    case ArrayExpr(_, t, _) => t
    case Aggref(_, _, _, t, _, _) => t
    case Unsupported(_) => INVALID_OID
    case _ => BOOLOID
  }
}
