/** Filter expressions (src/expr.rs) and their meaning under three-valued logic. */
module Exprs {
  import opened Basics

  datatype BinaryOp =
    Eq | NotEq | Lt | LtEq | Gt | GtEq | And | Or | Plus | Minus | Multiply | Divide | Modulo

  /** Literals the C API can build. */
  datatype Scalar = Str(s: string) | I64(i: i64) | Bool(b: bool)

  /** Scalar functions the C API refers to by name. */
  datatype Fn =
    JsonGetStr | JsonGetInt | JsonGetFloat | JsonGetBool | JsonContains | JsonGetArray | ArrayHas | Concat

  datatype Expr =
    | Column(name: string)
    | Literal(value: Scalar)
    | Binary(left: Expr, op: BinaryOp, right: Expr)
    | Not(arg: Expr)
    | IsNull(arg: Expr)
    | IsNotNull(arg: Expr)
    | InList(arg: Expr, list: seq<Expr>, negated: bool)
    | Call(fn: Fn, args: seq<Expr>)
    | CastUtf8(arg: Expr)
}
