/**
 * Single-character operator recognisers. Each one matches one fixed character at the
 * current position, consumes it and yields the corresponding `ExprOp`.
 */
module Op {
  import opened Wrappers
  import Ast

  /** The character each operator is written with; the reference the recognisers follow. */
  function Symbol(op: Ast.ExprOp): char
  {
    match op
    case Add => '+'
    case Sub => '-'
    case Mult => '*'
    case Div => '/'
    case Pow => '^'
    case Roll => 'd'
  }

  /** Different operators are written differently. */
  lemma SymbolInjective(a: Ast.ExprOp, b: Ast.ExprOp)
    ensures Symbol(a) == Symbol(b) ==> a == b
  {
  }

  /** `sym(c).discard().map(|_| op)` with `c` the symbol of `op`. */
  function Sym(s: string, p: nat, op: Ast.ExprOp): (r: Option<(Ast.ExprOp, nat)>)
    requires p <= |s|
    ensures r.Some? <==> p < |s| && s[p] == Symbol(op)
    ensures r.Some? ==> r.value == (op, p + 1)
  {
    if p < |s| && s[p] == Symbol(op) then Some((op, p + 1)) else None
  }

  function Add(s: string, p: nat): (r: Option<(Ast.ExprOp, nat)>)
    requires p <= |s|
    ensures r.Some? <==> p < |s| && s[p] == '+'
    ensures r.Some? ==> r.value == (Ast.Add, p + 1)
  {
    Sym(s, p, Ast.Add)
  }

  function Sub(s: string, p: nat): (r: Option<(Ast.ExprOp, nat)>)
    requires p <= |s|
    ensures r.Some? <==> p < |s| && s[p] == '-'
    ensures r.Some? ==> r.value == (Ast.Sub, p + 1)
  {
    Sym(s, p, Ast.Sub)
  }

  function Mult(s: string, p: nat): (r: Option<(Ast.ExprOp, nat)>)
    requires p <= |s|
    ensures r.Some? <==> p < |s| && s[p] == '*'
    ensures r.Some? ==> r.value == (Ast.Mult, p + 1)
  {
    Sym(s, p, Ast.Mult)
  }

  function Div(s: string, p: nat): (r: Option<(Ast.ExprOp, nat)>)
    requires p <= |s|
    ensures r.Some? <==> p < |s| && s[p] == '/'
    ensures r.Some? ==> r.value == (Ast.Div, p + 1)
  {
    Sym(s, p, Ast.Div)
  }

  function Power(s: string, p: nat): (r: Option<(Ast.ExprOp, nat)>)
    requires p <= |s|
    ensures r.Some? <==> p < |s| && s[p] == '^'
    ensures r.Some? ==> r.value == (Ast.Pow, p + 1)
  {
    Sym(s, p, Ast.Pow)
  }

  /** Only the lower-case letter is the roll operator. */
  function Roll(s: string, p: nat): (r: Option<(Ast.ExprOp, nat)>)
    requires p <= |s|
    ensures r.Some? <==> p < |s| && s[p] == 'd'
    ensures r.Some? ==> r.value == (Ast.Roll, p + 1)
  {
    Sym(s, p, Ast.Roll)
  }

  /** `add() | sub()`. */
  function AddSub(s: string, p: nat): (r: Option<(Ast.ExprOp, nat)>)
    requires p <= |s|
    ensures r.Some? <==> p < |s| && (s[p] == '+' || s[p] == '-')
    ensures r.Some? ==> r.value.1 == p + 1 && r.value.0 in {Ast.Add, Ast.Sub} && Symbol(r.value.0) == s[p]
  {
    var a := Add(s, p);
    if a.Some? then a else Sub(s, p)
  }

  /** `mult() | div()`. */
  function MultDiv(s: string, p: nat): (r: Option<(Ast.ExprOp, nat)>)
    requires p <= |s|
    ensures r.Some? <==> p < |s| && (s[p] == '*' || s[p] == '/')
    ensures r.Some? ==> r.value.1 == p + 1 && r.value.0 in {Ast.Mult, Ast.Div} && Symbol(r.value.0) == s[p]
  {
    var m := Mult(s, p);
    if m.Some? then m else Div(s, p)
  }

  /** The recogniser that the grammar uses for the precedence level of `op`. */
  function LevelRecogniser(s: string, p: nat, op: Ast.ExprOp): Option<(Ast.ExprOp, nat)>
    requires p <= |s|
  {
    match op
    case Add => AddSub(s, p)
    case Sub => AddSub(s, p)
    case Mult => MultDiv(s, p)
    case Div => MultDiv(s, p)
    case Pow => Power(s, p)
    case Roll => Roll(s, p)
  }

  /** The symbol of every operator is read back as that operator by its level's recogniser. */
  lemma SymbolReadBack(s: string, p: nat, op: Ast.ExprOp)
    requires p < |s| && s[p] == Symbol(op)
    ensures LevelRecogniser(s, p, op) == Some((op, p + 1))
  {
  }

  /** An upper-case `D` is not a roll operator. */
  lemma UpperCaseDIsRejected()
    ensures Roll("D", 0) == None
    ensures Roll("d", 0) == Some((Ast.Roll, 1))
  {
  }
}
