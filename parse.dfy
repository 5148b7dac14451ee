/**
 * The precedence grammar. Every parser is a function of the input and a position that
 * yields the parsed value and the position after it, or `None` when it does not match.
 * Loosest first: `+ -`, `* /`, `^`, `d`, then brackets and integer literals. At each
 * level the left operand comes from the next tighter level and the right operand from
 * the same level, so every operator is right-associative.
 *
 * Termination: a parser only calls one of the same or a looser level after consuming
 * at least one character, so `|s| - p` paired with the level's rank decreases.
 */
module Parse {
  import opened Wrappers
  import opened Ast
  import Op
  import Space
  import Number

  /** `parse(expression)`: the whole-input parser run at position 0, without its end position. */
  function Parse(s: string): (r: Option<seq<Expr>>)
    ensures r.Some? <==> Exprs(s, 0).Some?
    ensures r.Some? ==> Exprs(s, 0) == Some((r.value, |s|))
  {
    match Exprs(s, 0)
    case None => None
    case Some((es, _)) => Some(es)
  }

  /** `space::optional() * list(call(expr_0), space::comma()) - end()`. */
  function Exprs(s: string, p: nat): (r: Option<(seq<Expr>, nat)>)
    requires p <= |s|
    ensures r.Some? ==> r.value.1 == |s|
  {
    var p1 := Space.Optional(s, p);
    var (es, p2) := List(s, p1);
    if p2 == |s| then Some((es, p2)) else None
  }

  /**
   * `list(call(expr_0), space::comma())`: never fails. An optional first expression, then
   * a separator and an expression as long as both match; a separator not followed by an
   * expression is left unconsumed.
   */
  function List(s: string, p: nat): (r: (seq<Expr>, nat))
    requires p <= |s|
    ensures p <= r.1 <= |s|
    ensures r.0 == [] <==> r.1 == p
  {
    match Expr0(s, p)
    case None => ([], p)
    case Some((e, q)) =>
      var (rest, q') := ListTail(s, q);
      ([e] + rest, q')
  }

  /** The separator-expression pairs after the first expression of a list. */
  function ListTail(s: string, p: nat): (r: (seq<Expr>, nat))
    requires p <= |s|
    ensures p <= r.1 <= |s|
    ensures r.0 == [] <==> r.1 == p
    decreases |s| - p
  {
    match Space.Comma(s, p)
    case None => ([], p)
    case Some(p1) =>
      match Expr0(s, p1)
      case None => ([], p)
      case Some((e, p2)) =>
        var (rest, p3) := ListTail(s, p2);
        ([e] + rest, p3)
  }

  /** `add_sub() | expr_1()`. */
  function Expr0(s: string, p: nat): (r: Option<(Expr, nat)>)
    requires p <= |s|
    ensures r.Some? ==> p < r.value.1 <= |s|
    decreases |s| - p, 10
  {
    var a := AddSub(s, p);
    if a.Some? then a else Expr1(s, p)
  }

  /** `expr_1 [ws] (+|-) [ws] expr_0`. */
  function AddSub(s: string, p: nat): (r: Option<(Expr, nat)>)
    requires p <= |s|
    ensures r.Some? ==> p < r.value.1 <= |s|
    ensures r.Some? ==> r.value.0.Operator? && r.value.0.op in {Add, Sub}
    decreases |s| - p, 9
  {
    match Expr1(s, p)
    case None => None
    case Some((left, p1)) =>
      match Op.AddSub(s, Space.Optional(s, p1))
      case None => None
      case Some((op, p2)) =>
        match Expr0(s, Space.Optional(s, p2))
        case None => None
        case Some((right, p3)) => Some((Operator(op, left, right), p3))
  }

  /** `mult_div() | expr_2()`. */
  function Expr1(s: string, p: nat): (r: Option<(Expr, nat)>)
    requires p <= |s|
    ensures r.Some? ==> p < r.value.1 <= |s|
    decreases |s| - p, 8
  {
    var m := MultDiv(s, p);
    if m.Some? then m else Expr2(s, p)
  }

  /** `expr_2 [ws] (*|/) [ws] expr_1`. */
  function MultDiv(s: string, p: nat): (r: Option<(Expr, nat)>)
    requires p <= |s|
    ensures r.Some? ==> p < r.value.1 <= |s|
    ensures r.Some? ==> r.value.0.Operator? && r.value.0.op in {Mult, Div}
    decreases |s| - p, 7
  {
    match Expr2(s, p)
    case None => None
    case Some((left, p1)) =>
      match Op.MultDiv(s, Space.Optional(s, p1))
      case None => None
      case Some((op, p2)) =>
        match Expr1(s, Space.Optional(s, p2))
        case None => None
        case Some((right, p3)) => Some((Operator(op, left, right), p3))
  }

  /** `pow() | expr_3()`. */
  function Expr2(s: string, p: nat): (r: Option<(Expr, nat)>)
    requires p <= |s|
    ensures r.Some? ==> p < r.value.1 <= |s|
    decreases |s| - p, 6
  {
    var w := Pow(s, p);
    if w.Some? then w else Expr3(s, p)
  }

  /** `expr_3 [ws] ^ [ws] expr_2`. */
  function Pow(s: string, p: nat): (r: Option<(Expr, nat)>)
    requires p <= |s|
    ensures r.Some? ==> p < r.value.1 <= |s|
    ensures r.Some? ==> r.value.0.Operator? && r.value.0.op == Ast.Pow
    decreases |s| - p, 5
  {
    match Expr3(s, p)
    case None => None
    case Some((left, p1)) =>
      match Op.Power(s, Space.Optional(s, p1))
      case None => None
      case Some((op, p2)) =>
        match Expr2(s, Space.Optional(s, p2))
        case None => None
        case Some((right, p3)) => Some((Operator(op, left, right), p3))
  }

  /** `roll() | expr_4()`. */
  function Expr3(s: string, p: nat): (r: Option<(Expr, nat)>)
    requires p <= |s|
    ensures r.Some? ==> p < r.value.1 <= |s|
    decreases |s| - p, 4
  {
    var d := Roll(s, p);
    if d.Some? then d else Expr4(s, p)
  }

  /**
   * `expr_4().opt() d [ws] expr_3`: the dice count is optional and defaults to
   * `Integer(1)`; no whitespace is allowed between it and `d`.
   */
  function Roll(s: string, p: nat): (r: Option<(Expr, nat)>)
    requires p <= |s|
    ensures r.Some? ==> p < r.value.1 <= |s|
    ensures r.Some? ==> r.value.0.Operator? && r.value.0.op == Ast.Roll
    decreases |s| - p, 3
  {
    var (left, p1) := match Expr4(s, p)
      case Some((count, q)) => (count, q)
      case None => (Integer(1), p);
    match Op.Roll(s, p1)
    case None => None
    case Some((op, p2)) =>
      match Expr3(s, Space.Optional(s, p2))
      case None => None
      case Some((right, p3)) => Some((Operator(op, left, right), p3))
  }

  /** `expr_with_brackets() | number::number()`. */
  function Expr4(s: string, p: nat): (r: Option<(Expr, nat)>)
    requires p <= |s|
    ensures r.Some? ==> p < r.value.1 <= |s|
    decreases |s| - p, 2
  {
    var b := ExprWithBrackets(s, p);
    if b.Some? then b else Number.Number(s, p)
  }

  /** `( [ws] expr_0 [ws] )`: the tree inside, with no node for the brackets. */
  function ExprWithBrackets(s: string, p: nat): (r: Option<(Expr, nat)>)
    requires p <= |s|
    ensures r.Some? ==> p + 2 < r.value.1 <= |s| && s[p] == '(' && s[r.value.1 - 1] == ')'
    decreases |s| - p, 1
  {
    if p < |s| && s[p] == '(' then
      match Expr0(s, Space.Optional(s, p + 1))
      case None => None
      case Some((e, p1)) =>
        var p2 := Space.Optional(s, p1);
        if p2 < |s| && s[p2] == ')' then Some((e, p2 + 1)) else None
    else
      None
  }
}
