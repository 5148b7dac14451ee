/**
 * One-step facts about the grammar, each read off the definitions: when a level falls
 * through to the next tighter one, and what node an operator step builds. Together
 * they let whole parses be derived position by position.
 */
module ParseSteps {
  import opened Wrappers
  import opened Ast
  import opened Parse
  import Op
  import Space
  import Number
  import EvalOutput

  /** After skipping whitespace from `q`, the next character (if any) is neither `a` nor `b`. */
  predicate NextIsNot(s: string, q: nat, a: char, b: char)
    requires q <= |s|
  {
    var k := Space.Optional(s, q);
    k == |s| || (s[k] != a && s[k] != b)
  }

  /** The roll level falls through to its operand when no `d` follows it directly. */
  lemma LiftToExpr3(s: string, p: nat, e: Expr, q: nat)
    requires p <= |s| && Expr4(s, p) == Some((e, q))
    requires q == |s| || s[q] != 'd'
    ensures Expr3(s, p) == Some((e, q))
  {
    assert Parse.Roll(s, p) == None;
  }

  /** The power level falls through when no `^` follows. */
  lemma LiftToExpr2(s: string, p: nat, e: Expr, q: nat)
    requires p <= |s| && Expr3(s, p) == Some((e, q))
    requires NextIsNot(s, q, '^', '^')
    ensures Expr2(s, p) == Some((e, q))
  {
    assert Parse.Pow(s, p) == None;
  }

  /** The `* /` level falls through when neither operator follows. */
  lemma LiftToExpr1(s: string, p: nat, e: Expr, q: nat)
    requires p <= |s| && Expr2(s, p) == Some((e, q))
    requires NextIsNot(s, q, '*', '/')
    ensures Expr1(s, p) == Some((e, q))
  {
    assert MultDiv(s, p) == None;
  }

  /** The `+ -` level falls through when neither operator follows. */
  lemma LiftToExpr0(s: string, p: nat, e: Expr, q: nat)
    requires p <= |s| && Expr1(s, p) == Some((e, q))
    requires NextIsNot(s, q, '+', '-')
    ensures Expr0(s, p) == Some((e, q))
  {
    assert AddSub(s, p) == None;
  }

  /** A term, `+` or `-`, and an expression make one right-nested node. */
  lemma AddSubStep(s: string, p: nat, op: ExprOp, left: Expr, q1: nat, right: Expr, q2: nat)
    requires p <= |s| && Expr1(s, p) == Some((left, q1))
    requires op == Add || op == Sub
    requires var k := Space.Optional(s, q1);
             k < |s| && s[k] == Op.Symbol(op) && Expr0(s, Space.Optional(s, k + 1)) == Some((right, q2))
    ensures Expr0(s, p) == Some((Operator(op, left, right), q2))
  {
  }

  /** A factor, `*` or `/`, and a term make one right-nested node. */
  lemma MultDivStep(s: string, p: nat, op: ExprOp, left: Expr, q1: nat, right: Expr, q2: nat)
    requires p <= |s| && Expr2(s, p) == Some((left, q1))
    requires op == Mult || op == Div
    requires var k := Space.Optional(s, q1);
             k < |s| && s[k] == Op.Symbol(op) && Expr1(s, Space.Optional(s, k + 1)) == Some((right, q2))
    ensures Expr1(s, p) == Some((Operator(op, left, right), q2))
  {
  }

  /** A roll, `^` and a power make one right-nested node. */
  lemma PowStep(s: string, p: nat, left: Expr, q1: nat, right: Expr, q2: nat)
    requires p <= |s| && Expr3(s, p) == Some((left, q1))
    requires var k := Space.Optional(s, q1);
             k < |s| && s[k] == '^' && Expr2(s, Space.Optional(s, k + 1)) == Some((right, q2))
    ensures Expr2(s, p) == Some((Operator(Ast.Pow, left, right), q2))
  {
  }

  /** An atom immediately followed by `d`, then a roll, make one right-nested node. */
  lemma RollStep(s: string, p: nat, left: Expr, q1: nat, right: Expr, q2: nat)
    requires p <= |s| && Expr4(s, p) == Some((left, q1))
    requires q1 < |s| && s[q1] == 'd' && Expr3(s, Space.Optional(s, q1 + 1)) == Some((right, q2))
    ensures Expr3(s, p) == Some((Operator(Ast.Roll, left, right), q2))
  {
  }

  /** With no atom before it, a `d` takes the dice count `Integer(1)`. */
  lemma RollDefaultStep(s: string, p: nat, right: Expr, q2: nat)
    requires p < |s| && s[p] == 'd'
    requires Expr3(s, Space.Optional(s, p + 1)) == Some((right, q2))
    ensures Expr3(s, p) == Some((Operator(Ast.Roll, Integer(1), right), q2))
  {
    Number.NumberNeedsDigit(s, p);
    assert Expr4(s, p) == None;
  }

  /** A bracketed expression is an atom; the brackets leave no node and inner spaces are skipped. */
  lemma BracketStep(s: string, p: nat, e: Expr, q: nat)
    requires p < |s| && s[p] == '('
    requires Expr0(s, Space.Optional(s, p + 1)) == Some((e, q))
    requires var k := Space.Optional(s, q); k < |s| && s[k] == ')'
    ensures Expr4(s, p) == Some((e, Space.Optional(s, q) + 1))
  {
  }

  /** `w` occurs in `s` at position `p`. */
  predicate At(s: string, p: nat, w: string)
  {
    p + |w| <= |s| && forall i {:trigger w[i]} | 0 <= i < |w| :: s[p + i] == w[i]
  }

  lemma AtChar(s: string, p: nat, w: string, i: nat)
    requires At(s, p, w) && i < |w|
    ensures s[p + i] == w[i]
  {
  }

  lemma AtSlice(s: string, p: nat, w: string)
    requires At(s, p, w)
    ensures s[p..p + |w|] == w
  {
    forall i | 0 <= i < |w|
      ensures s[p..p + |w|][i] == w[i]
    {
      AtChar(s, p, w, i);
    }
  }

  lemma AtSplit(s: string, p: nat, x: string, y: string)
    requires At(s, p, x + y)
    ensures At(s, p, x) && At(s, p + |x|, y)
  {
    forall i | 0 <= i < |x|
      ensures s[p + i] == x[i]
    {
      assert (x + y)[i] == x[i];
    }
    forall i | 0 <= i < |y|
      ensures s[p + |x| + i] == y[i]
    {
      assert (x + y)[|x| + i] == y[i];
    }
  }

  /** A decimal literal followed by a non-digit is an atom. */
  lemma NumberAtom(s: string, p: nat, n: Integers.I64)
    requires At(s, p, EvalOutput.Decimal(n))
    requires var q := p + |EvalOutput.Decimal(n)|; q == |s| || !Number.IsDigit(s[q])
    ensures Expr4(s, p) == Some((Integer(n), p + |EvalOutput.Decimal(n)|))
  {
    AtSlice(s, p, EvalOutput.Decimal(n));
    EvalOutput.DecimalParsesBack(s, p, n);
    AtChar(s, p, EvalOutput.Decimal(n), 0);
    EvalOutput.DecimalIsLiteral(n);
    Number.LiteralHead(EvalOutput.Decimal(n));
    assert ExprWithBrackets(s, p) == None;
  }

  /** An expression at `p` followed only by the end of the input is a one-element list. */
  lemma ListOfOne(s: string, p: nat, e: Expr)
    requires p <= |s| && Expr0(s, p) == Some((e, |s|))
    ensures List(s, p) == ([e], |s|)
  {
    assert Space.Comma(s, |s|) == None;
    assert ListTail(s, |s|) == ([], |s|);
    assert [e] + [] == [e];
  }

  /** A separator followed by an expression extends the list. */
  lemma ListTailStep(s: string, p: nat, p1: nat, e: Expr, q: nat)
    requires p <= |s| && Space.Comma(s, p) == Some(p1) && Expr0(s, p1) == Some((e, q))
    ensures ListTail(s, p) == ([e] + ListTail(s, q).0, ListTail(s, q).1)
  {
  }

  /** After leading whitespace, a list that reaches the end of the input is the parse. */
  lemma ParseOfList(s: string, es: seq<Expr>)
    requires List(s, Space.Optional(s, 0)) == (es, |s|)
    ensures Parse.Parse(s) == Some(es)
  {
  }
}
