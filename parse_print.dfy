/**
 * The precedence theorem. `Print` writes a tree with brackets only where the grammar
 * needs them: an operand whose operator binds more loosely than the level the parser
 * expects there is bracketed, and nothing else is. Every such text, with whitespace chosen
 * by a `Spacing` at every slot around the operators and inside the brackets, parses back
 * as exactly the tree it was printed from: one
 * level's chains nest to the right, and `d` binds tighter than `^`, which binds tighter
 * than `* /`, which binds tighter than `+ -`. A terse rendering also leaves out every
 * dice count of one, which the parser puts back.
 */
module ParsePrint {
  import opened Wrappers
  import opened Ast
  import opened Parse
  import opened ParseSteps
  import opened ParseShow
  import Op
  import Space
  import Number

  /** The grammar level of an operator, loosest first: `+ -`, `* /`, `^`, `d`. */
  function Level(op: ExprOp): (k: nat)
    ensures k <= 3
    ensures k == 3 <==> op == Ast.Roll
  {
    match op
    case Add => 0
    case Sub => 0
    case Mult => 1
    case Div => 1
    case Pow => 2
    case Roll => 3
  }

  /** The parser for level `c`; `4` is the atom level. */
  function ExprAt(c: nat, s: string, p: nat): (r: Option<(Expr, nat)>)
    requires c <= 4 && p <= |s|
    ensures r.Some? ==> p < r.value.1 <= |s|
  {
    if c == 0 then Expr0(s, p)
    else if c == 1 then Expr1(s, p)
    else if c == 2 then Expr2(s, p)
    else if c == 3 then Expr3(s, p)
    else Expr4(s, p)
  }

  /** A tree printed where the parser expects level `c` is bracketed when its operator is looser. */
  predicate NeedsBrackets(e: Expr, c: nat)
  {
    e.Operator? && Level(e.op) < c
  }

  /** A bracketed rendering, with the node's whitespace inside the brackets. */
  function Bracketed(w: string, pads: Pads): string
  {
    "(" + pads.open + w + pads.close + ")"
  }

  /** Two operands around an operator symbol; no whitespace is printed before `d`. */
  function Infix(op: ExprOp, sl: string, sr: string, pads: Pads): string
  {
    sl + PadBefore(op, pads.before) + [Op.Symbol(op)] + pads.after + sr
  }

  /** A roll of one die, which a terse rendering writes without its count. */
  predicate OneDie(e: Expr)
  {
    e.Operator? && e.op == Ast.Roll && e.left == Integer(1)
  }

  /**
   * The rendering of `e` where the parser expects level `c`: the left operand one level
   * tighter than the operator, the right one at the operator's own level. When `terse`
   * holds, a roll of one die is written `d` followed by its side count. A node's spacing
   * gives the whitespace around its symbol and, when it is bracketed, inside its brackets.
   */
  function Print(e: Expr, c: nat, sp: Spacing, terse: bool): (w: string)
    requires c <= 4
    ensures |w| >= 1 && IsHead(w[0])
    decreases e, if NeedsBrackets(e, c) then 1 else 0
  {
    match e
    case Integer(_) => Show(e, sp)
    case Operator(op, l, r) =>
      if Level(op) < c then Bracketed(Print(e, 0, sp, terse), PadsOf(sp))
      else if terse && OneDie(e) then "d" + PadsOf(sp).after + Print(r, 3, RightOf(sp), terse)
      else Infix(op, Print(l, Level(op) + 1, LeftOf(sp), terse), Print(r, Level(op), RightOf(sp), terse), PadsOf(sp))
  }

  /**
   * What may follow a level-`c` rendering ending at `q` without extending it: no digit,
   * and nothing a level at or looser than `c` would read on: `d` right after it, or,
   * after whitespace, `^`, `*`, `/`, `+` or `-`.
   */
  predicate Follows(s: string, q: nat, c: nat)
  {
    q <= |s| &&
    (q == |s| || !Number.IsDigit(s[q])) &&
    (c <= 3 ==> q == |s| || s[q] != 'd') &&
    (c <= 2 ==> NextIsNot(s, q, '^', '^')) &&
    (c <= 1 ==> NextIsNot(s, q, '*', '/')) &&
    (c == 0 ==> NextIsNot(s, q, '+', '-'))
  }

  /** A parse at level `k`, followed by what level `c <= k` stops at, is also the parse at `c`. */
  lemma {:induction false} LiftFrom(k: nat, c: nat, s: string, p: nat, e: Expr, q: nat)
    requires c <= k <= 4 && p <= |s| && ExprAt(k, s, p) == Some((e, q))
    requires Follows(s, q, c)
    ensures ExprAt(c, s, p) == Some((e, q))
    decreases k - c
  {
    if c < k {
      if k == 4 {
        LiftToExpr3(s, p, e, q);
      } else if k == 3 {
        LiftToExpr2(s, p, e, q);
      } else if k == 2 {
        LiftToExpr1(s, p, e, q);
      } else {
        LiftToExpr0(s, p, e, q);
      }
      LiftFrom(k - 1, c, s, p, e, q);
    }
  }

  /** An operator step at the operator's own level. */
  lemma LevelStep(op: ExprOp, l: Expr, r: Expr, s: string, p: nat, b: nat, c: nat, d: nat, q: nat)
    requires p <= |s| && ExprAt(Level(op) + 1, s, p) == Some((l, b))
    requires Space.Optional(s, b) == c && c < |s| && s[c] == Op.Symbol(op) && (op == Ast.Roll ==> c == b)
    requires Space.Optional(s, c + 1) == d && ExprAt(Level(op), s, d) == Some((r, q))
    ensures ExprAt(Level(op), s, p) == Some((Operator(op, l, r), q))
  {
    match op
    case Add => AddSubStep(s, p, op, l, b, r, q);
    case Sub => AddSubStep(s, p, op, l, b, r, q);
    case Mult => MultDivStep(s, p, op, l, b, r, q);
    case Div => MultDivStep(s, p, op, l, b, r, q);
    case Pow => PowStep(s, p, l, b, r, q);
    case Roll => RollStep(s, p, l, b, r, q);
  }

  /** Where the pieces of an infix rendering lie in the input. */
  lemma InfixPieces(op: ExprOp, sl: string, sr: string, pads: Pads, s: string, p: nat, b: nat, c: nat, d: nat, q: nat)
    requires At(s, p, Infix(op, sl, sr, pads))
    requires b == p + |sl| && c == b + |PadBefore(op, pads.before)| && d == c + 1 + |pads.after| && q == d + |sr|
    ensures At(s, p, sl) && At(s, b, PadBefore(op, pads.before)) && c < |s| && s[c] == Op.Symbol(op)
    ensures At(s, c + 1, pads.after) && At(s, d, sr) && q == p + |Infix(op, sl, sr, pads)|
  {
    var padL, after := PadBefore(op, pads.before), pads.after;
    var sym := [Op.Symbol(op)];
    var w1 := sl + padL;
    var w2 := w1 + sym;
    var w3 := w2 + after;
    AtSplit(s, p, w3, sr);
    AtSplit(s, p, w2, after);
    AtSplit(s, p, w1, sym);
    AtSplit(s, p, sl, padL);
    AtChar(s, c, sym, 0);
  }

  /** The symbol's level rules out the symbols of every tighter level. */
  lemma SymbolOfLevel(op: ExprOp)
    ensures Level(op) <= 1 ==> Op.Symbol(op) != '^'
    ensures Level(op) == 0 ==> Op.Symbol(op) != '*' && Op.Symbol(op) != '/'
  {
  }

  /**
   * An infix rendering at `p`: the left operand ends at `b`, where only what a tighter
   * level stops at follows; the whitespace is skipped up to the symbol at `c` and from
   * it up to the right operand at `d`.
   */
  lemma InfixFacts(op: ExprOp, sl: string, sr: string, pads: Pads, s: string, p: nat, b: nat, c: nat, d: nat, q: nat)
    requires IsPads(pads) && At(s, p, Infix(op, sl, sr, pads)) && |sr| >= 1 && IsHead(sr[0])
    requires b == p + |sl| && c == b + |PadBefore(op, pads.before)| && d == c + 1 + |pads.after| && q == d + |sr|
    ensures At(s, p, sl) && Follows(s, b, Level(op) + 1)
    ensures Space.Optional(s, b) == c && c < |s| && s[c] == Op.Symbol(op) && (op == Ast.Roll ==> c == b)
    ensures Space.Optional(s, c + 1) == d && At(s, d, sr) && q == p + |Infix(op, sl, sr, pads)|
  {
    InfixPieces(op, sl, sr, pads, s, p, b, c, d, q);
    SymbolIsMark(op);
    SymbolOfLevel(op);
    PadThen(s, b, PadBefore(op, pads.before), c);
    PadThenShow(s, c + 1, pads.after, sr, d);
  }

  /**
   * A bracketed rendering at `p`: the inner text lies between `a` and `f`, and the
   * closing bracket is at `g`.
   */
  lemma BracketFacts(w: string, pads: Pads, s: string, p: nat, a: nat, f: nat, g: nat)
    requires IsPads(pads) && At(s, p, Bracketed(w, pads)) && |w| >= 1 && IsHead(w[0])
    requires a == p + 1 + |pads.open| && f == a + |w| && g == f + |pads.close|
    ensures p < |s| && s[p] == '(' && Space.Optional(s, p + 1) == a && At(s, a, w)
    ensures Follows(s, f, 0) && Space.Optional(s, f) == g && g < |s| && s[g] == ')'
    ensures g + 1 == p + |Bracketed(w, pads)|
  {
    var open, close := pads.open, pads.close;
    AtSplit(s, p, "(" + open + w + close, ")");
    AtSplit(s, p, "(" + open + w, close);
    AtSplit(s, p, "(" + open, w);
    AtSplit(s, p, "(", open);
    AtChar(s, p, "(", 0);
    AtChar(s, g, ")", 0);
    PadThenShow(s, p + 1, open, w, a);
    PadThen(s, f, close, g);
  }

  /** The terse rendering of a roll of one die at `p`: `d` at `p`, then whitespace, then the side count at `d`. */
  lemma TerseFacts(pad: string, sr: string, s: string, p: nat, d: nat)
    requires IsPad(pad) && At(s, p, "d" + pad + sr) && |sr| >= 1 && IsHead(sr[0]) && d == p + 1 + |pad|
    ensures p < |s| && s[p] == 'd' && Space.Optional(s, p + 1) == d && At(s, d, sr)
    ensures d + |sr| == p + |"d" + pad + sr|
  {
    AtSplit(s, p, "d" + pad, sr);
    AtSplit(s, p, "d", pad);
    AtChar(s, p, "d", 0);
    PadThenShow(s, p + 1, pad, sr, d);
  }

  /** Every rendering at level `c`, followed by what level `c` stops at, parses back at level `c`. */
  lemma {:induction false} PrintParses(e: Expr, c: nat, sp: Spacing, terse: bool, s: string, p: nat, q: nat)
    requires c <= 4 && IsSpacing(sp) && At(s, p, Print(e, c, sp, terse)) && q == p + |Print(e, c, sp, terse)|
    requires Follows(s, q, c)
    ensures ExprAt(c, s, p) == Some((e, q))
    decreases e, if NeedsBrackets(e, c) then 1 else 0, 1
  {
    if e.Integer? {
      NumberAtom(s, p, e.value);
      LiftFrom(4, c, s, p, e, q);
    } else if NeedsBrackets(e, c) {
      BracketParses(e, c, sp, terse, s, p, q);
    } else if terse && OneDie(e) {
      TerseParses(e, c, sp, s, p, q);
    } else {
      InfixParses(e, c, sp, terse, s, p, q);
    }
  }

  /** A tree bracketed because its operator is looser than level `c` is an atom. */
  lemma {:induction false} BracketParses(e: Expr, c: nat, sp: Spacing, terse: bool, s: string, p: nat, q: nat)
    requires c <= 4 && IsSpacing(sp) && NeedsBrackets(e, c)
    requires At(s, p, Print(e, c, sp, terse)) && q == p + |Print(e, c, sp, terse)| && Follows(s, q, c)
    ensures ExprAt(c, s, p) == Some((e, q))
    decreases e, 1, 0
  {
    var w, pads := Print(e, 0, sp, terse), PadsOf(sp);
    var a := p + 1 + |pads.open|;
    var f := a + |w|;
    var g := f + |pads.close|;
    assert Print(e, c, sp, terse) == Bracketed(w, pads);
    BracketFacts(w, pads, s, p, a, f, g);
    PrintParses(e, 0, sp, terse, s, a, f);
    BracketLift(e, c, s, p, a, f, q);
  }

  /**
   * A level-0 parse from `a` to `f` between brackets is an atom, and lifts to any level `c`
   * it is followed for.
   */
  lemma BracketLift(e: Expr, c: nat, s: string, p: nat, a: nat, f: nat, q: nat)
    requires c <= 4 && p < |s| && s[p] == '(' && Space.Optional(s, p + 1) == a
    requires a <= |s| && ExprAt(0, s, a) == Some((e, f))
    requires var g := Space.Optional(s, f); g < |s| && s[g] == ')' && q == g + 1 && Follows(s, q, c)
    ensures ExprAt(c, s, p) == Some((e, q))
  {
    BracketStep(s, p, e, f);
    LiftFrom(4, c, s, p, e, q);
  }

  /** A `d` with no count before it reads as a roll of one die. */
  lemma {:induction false} TerseParses(e: Expr, c: nat, sp: Spacing, s: string, p: nat, q: nat)
    requires c <= 4 && IsSpacing(sp) && OneDie(e) && !NeedsBrackets(e, c)
    requires At(s, p, Print(e, c, sp, true)) && q == p + |Print(e, c, sp, true)| && Follows(s, q, c)
    ensures ExprAt(c, s, p) == Some((e, q))
    decreases e, 0, 0
  {
    var sr := Print(e.right, 3, RightOf(sp), true);
    var after := PadsOf(sp).after;
    var d := p + 1 + |after|;
    TerseFacts(after, sr, s, p, d);
    PrintParses(e.right, 3, RightOf(sp), true, s, d, q);
    RollDefaultStep(s, p, e.right, q);
    LiftFrom(3, c, s, p, e, q);
  }

  /** An operator at or tighter than level `c` is parsed by its own level's step. */
  lemma {:induction false} InfixParses(e: Expr, c: nat, sp: Spacing, terse: bool, s: string, p: nat, q: nat)
    requires c <= 4 && IsSpacing(sp) && e.Operator? && !NeedsBrackets(e, c) && !(terse && OneDie(e))
    requires At(s, p, Print(e, c, sp, terse)) && q == p + |Print(e, c, sp, terse)| && Follows(s, q, c)
    ensures ExprAt(c, s, p) == Some((e, q))
    decreases e, 0, 0
  {
    var k, pads, spl, spr := Level(e.op), PadsOf(sp), LeftOf(sp), RightOf(sp);
    var sl, sr := Print(e.left, k + 1, spl, terse), Print(e.right, k, spr, terse);
    var b := p + |sl|;
    var cc := b + |PadBefore(e.op, pads.before)|;
    var d := cc + 1 + |pads.after|;
    PrintInfix(e, c, sp, terse);
    InfixFacts(e.op, sl, sr, pads, s, p, b, cc, d, q);
    PrintParses(e.left, k + 1, spl, terse, s, p, b);
    PrintParses(e.right, k, spr, terse, s, d, q);
    InfixLift(e, c, s, p, b, cc, d, q);
  }

  /** An operator at or tighter than level `c` is printed infix. */
  lemma PrintInfix(e: Expr, c: nat, sp: Spacing, terse: bool)
    requires c <= 4 && e.Operator? && !NeedsBrackets(e, c) && !(terse && OneDie(e))
    ensures Print(e, c, sp, terse) ==
      Infix(e.op, Print(e.left, Level(e.op) + 1, LeftOf(sp), terse), Print(e.right, Level(e.op), RightOf(sp), terse), PadsOf(sp))
  {
  }

  /** Both operands parsed around the symbol make the node at its level, which lifts to level `c`. */
  lemma InfixLift(e: Expr, c: nat, s: string, p: nat, b: nat, cc: nat, d: nat, q: nat)
    requires e.Operator? && c <= Level(e.op) && p <= |s| && ExprAt(Level(e.op) + 1, s, p) == Some((e.left, b))
    requires Space.Optional(s, b) == cc && cc < |s| && s[cc] == Op.Symbol(e.op) && (e.op == Ast.Roll ==> cc == b)
    requires Space.Optional(s, cc + 1) == d && ExprAt(Level(e.op), s, d) == Some((e.right, q))
    requires Follows(s, q, c)
    ensures ExprAt(c, s, p) == Some((e, q))
  {
    LevelStep(e.op, e.left, e.right, s, p, b, cc, d, q);
    LiftFrom(Level(e.op), c, s, p, e, q);
  }

  /**
   * Round trip through the whole-input parser: after optional leading whitespace, the
   * rendering of any tree with only the brackets it needs, and any whitespace at each
   * slot around its operators and inside its brackets, parses back to exactly that tree.
   */
  lemma ParsePrinted(e: Expr, lead: string, sp: Spacing, terse: bool)
    requires IsPad(lead) && IsSpacing(sp)
    ensures Parse.Parse(lead + Print(e, 0, sp, terse)) == Some([e])
  {
    var w := Print(e, 0, sp, terse);
    var s := lead + w;
    AtConcat(lead, w);
    PadThenShow(s, 0, lead, w, |lead|);
    PrintParses(e, 0, sp, terse, s, |lead|, |s|);
    ListOfOne(s, |lead|, e);
    ParseOfList(s, [e]);
  }
}
