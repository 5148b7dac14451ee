/**
 * The expression tree the parser builds. Children are values, so every tree is
 * finite and acyclic and equality is structural.
 */
module Ast {
  import opened Integers

  /** The six binary operators, a closed set. */
  datatype ExprOp = Add | Sub | Mult | Div | Pow | Roll

  /** A literal leaf, or one operator applied to exactly two subtrees. */
  datatype Expr =
    | Integer(value: I64)
    | Operator(op: ExprOp, left: Expr, right: Expr)
}
