/**
 * The older expression tree that the tree-walking evaluator consumes: i32 leaves and
 * one variant per binary operator, each with exactly two children.
 */
module LegacyExpr {
  import opened Integers

  datatype Expr =
    | Integer(value: I32)
    | Add(left: Expr, right: Expr)
    | Sub(left: Expr, right: Expr)
    | Mult(left: Expr, right: Expr)
    | Div(left: Expr, right: Expr)
    | Pow(left: Expr, right: Expr)
    | Roll(left: Expr, right: Expr)
}
