/** The expression tree the parser builds. Its declaration is not part of
    the parser's file; these are exactly the variants the parser constructs,
    and an integer is an `i64` value. */
module Ast {

  datatype Operator = Add | Subtract | Pow

  datatype Expr =
    | Main(body: Expr)
    | Assign(target: Expr, value: Expr)
    | Ident(name: string)
    | Int(n: int)
    | Float(text: string)
    | String(text: string)
    | UnaryOp(uop: Operator, operand: Expr)
    | BinaryOp(op: Operator, left: Expr, right: Expr)
}
