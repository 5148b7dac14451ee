/**
 * Whole-input theorems about the grammar, stated with reference renderings:
 *  - `Show` prints any tree fully bracketed, with whitespace chosen by a `Spacing` at
 *    every slot around operators and inside brackets, independently per node; the parser
 *    reads every such text back as the same tree, so brackets are atoms, every operator
 *    symbol builds its own node and the whitespace does not matter.
 * Minimal brackets are handled by `ParsePrint`, several expressions by `ParseList`.
 */
module ParseShow {
  import opened Wrappers
  import opened Ast
  import opened Parse
  import opened ParseSteps
  import Op
  import Space
  import Number
  import EvalOutput

  /** Only whitespace characters. */
  predicate IsPad(pad: string)
  {
    forall i | 0 <= i < |pad| :: Space.IsSpace(pad[i])
  }

  /** The whitespace of one node: after `(`, before and after its symbol, and before `)`. */
  datatype Pads = Pads(open: string, before: string, after: string, close: string)

  /** Every slot holds whitespace only. */
  predicate IsPads(pads: Pads)
  {
    IsPad(pads.open) && IsPad(pads.before) && IsPad(pads.after) && IsPad(pads.close)
  }

  /**
   * The whitespace of a rendering, node by node: the node's own pads, then the spacing of
   * each operand. `Tight` puts no whitespace anywhere below it.
   */
  datatype Spacing = Tight | Spaced(pads: Pads, left: Spacing, right: Spacing)

  /** Every slot of the spacing holds whitespace only. */
  predicate IsSpacing(sp: Spacing)
  {
    match sp
    case Tight => true
    case Spaced(pads, left, right) => IsPads(pads) && IsSpacing(left) && IsSpacing(right)
  }

  /** The pads of the node at the top of the spacing. */
  function PadsOf(sp: Spacing): (pads: Pads)
    ensures IsSpacing(sp) ==> IsPads(pads)
    ensures sp.Tight? ==> pads == Pads("", "", "", "")
  {
    if sp.Spaced? then sp.pads else Pads("", "", "", "")
  }

  /** The spacing of the left operand. */
  function LeftOf(sp: Spacing): (t: Spacing)
    ensures IsSpacing(sp) ==> IsSpacing(t)
    ensures sp.Tight? ==> t == Tight
  {
    if sp.Spaced? then sp.left else Tight
  }

  /** The spacing of the right operand. */
  function RightOf(sp: Spacing): (t: Spacing)
    ensures IsSpacing(sp) ==> IsSpacing(t)
    ensures sp.Tight? ==> t == Tight
  {
    if sp.Spaced? then sp.right else Tight
  }

  /** A character that can start a rendering: `(`, `-`, a digit, or `d` for an omitted dice count. */
  predicate IsHead(c: char)
  {
    c == '(' || c == '-' || c == 'd' || Number.IsDigit(c)
  }

  /** The fully bracketed rendering of a tree; no whitespace is printed before `d`. */
  function Show(e: Expr, sp: Spacing): (w: string)
    ensures |w| >= 1 && IsHead(w[0])
  {
    match e
    case Integer(n) =>
      var w := EvalOutput.Decimal(n);
      EvalOutput.DecimalIsLiteral(n);
      Number.LiteralHead(w);
      w
    case Operator(op, l, r) =>
      Node(op, Show(l, LeftOf(sp)), Show(r, RightOf(sp)), PadsOf(sp))
  }

  /** A bracketed node around two rendered operands. */
  function Node(op: ExprOp, sl: string, sr: string, pads: Pads): string
  {
    "(" + pads.open + sl + PadBefore(op, pads.before) + [Op.Symbol(op)] + pads.after + sr + pads.close + ")"
  }

  /** The whitespace printed before the symbol: none before `d`, which must follow its operand. */
  function PadBefore(op: ExprOp, pad: string): (w: string)
    ensures IsPad(pad) ==> IsPad(w)
    ensures op == Ast.Roll ==> w == ""
  {
    if op == Ast.Roll then "" else pad
  }

  /** No operator symbol is whitespace or a digit. */
  lemma SymbolIsMark(op: ExprOp)
    ensures !Space.IsSpace(Op.Symbol(op)) && !Number.IsDigit(Op.Symbol(op))
    ensures Op.Symbol(op) == 'd' <==> op == Ast.Roll
  {
  }

  /** A whitespace run in the input, followed by a non-space, is skipped exactly. */
  lemma PadAt(s: string, x: nat, pad: string)
    requires At(s, x, pad) && IsPad(pad)
    requires x + |pad| == |s| || !Space.IsSpace(s[x + |pad|])
    ensures Space.Optional(s, x) == x + |pad|
  {
    forall i | x <= i < x + |pad|
      ensures Space.IsSpace(s[i])
    {
      AtChar(s, x, pad, i - x);
    }
    Space.OptionalSkips(s, x, x + |pad|);
  }

  /**
   * The positions inside a bracketed binary node: the left operand ends at `b`, the
   * operator symbol is at `c` (right after `b` for a roll), the right operand starts at
   * `d` and ends at `f`, and the closing bracket is at `g`.
   */
  predicate Layout(s: string, op: ExprOp, b: nat, c: nat, d: nat, f: nat, g: nat)
  {
    b <= c < d <= f <= g < |s| &&
    Space.Optional(s, b) == c && s[c] == Op.Symbol(op) && Space.Optional(s, c + 1) == d &&
    Space.Optional(s, f) == g && s[g] == ')' &&
    (op == Ast.Roll <==> s[b] == 'd') && (op == Ast.Roll ==> c == b) && s[f] != 'd'
  }

  /** Inside the brackets, the two operands and the symbol parse as one node of `op`. */
  lemma InnerNode(s: string, op: ExprOp, l: Expr, r: Expr, a: nat, b: nat, c: nat, d: nat, f: nat, g: nat)
    requires a <= b && Layout(s, op, b, c, d, f, g)
    requires Expr4(s, a) == Some((l, b)) && Expr4(s, d) == Some((r, f))
    ensures Expr0(s, a) == Some((Operator(op, l, r), f))
  {
    LiftToExpr3(s, d, r, f);
    LiftToExpr2(s, d, r, f);
    match op
    case Roll => InnerRoll(s, l, r, a, b, d, f, g);
    case Pow => InnerPow(s, l, r, a, b, c, d, f, g);
    case Mult => InnerMultDiv(s, op, l, r, a, b, c, d, f, g);
    case Div => InnerMultDiv(s, op, l, r, a, b, c, d, f, g);
    case Add => InnerAddSub(s, op, l, r, a, b, c, d, f, g);
    case Sub => InnerAddSub(s, op, l, r, a, b, c, d, f, g);
  }

  lemma InnerRoll(s: string, l: Expr, r: Expr, a: nat, b: nat, d: nat, f: nat, g: nat)
    requires a <= b && Layout(s, Ast.Roll, b, b, d, f, g)
    requires Expr4(s, a) == Some((l, b)) && Expr3(s, d) == Some((r, f))
    ensures Expr0(s, a) == Some((Operator(Ast.Roll, l, r), f))
  {
    var e := Operator(Ast.Roll, l, r);
    RollStep(s, a, l, b, r, f);
    LiftToExpr2(s, a, e, f);
    LiftToExpr1(s, a, e, f);
    LiftToExpr0(s, a, e, f);
  }

  lemma InnerPow(s: string, l: Expr, r: Expr, a: nat, b: nat, c: nat, d: nat, f: nat, g: nat)
    requires a <= b && Layout(s, Ast.Pow, b, c, d, f, g)
    requires Expr4(s, a) == Some((l, b)) && Expr2(s, d) == Some((r, f))
    ensures Expr0(s, a) == Some((Operator(Ast.Pow, l, r), f))
  {
    var e := Operator(Ast.Pow, l, r);
    LiftToExpr3(s, a, l, b);
    PowStep(s, a, l, b, r, f);
    LiftToExpr1(s, a, e, f);
    LiftToExpr0(s, a, e, f);
  }

  lemma InnerMultDiv(s: string, op: ExprOp, l: Expr, r: Expr, a: nat, b: nat, c: nat, d: nat, f: nat, g: nat)
    requires op == Ast.Mult || op == Ast.Div
    requires a <= b && Layout(s, op, b, c, d, f, g)
    requires Expr4(s, a) == Some((l, b)) && Expr2(s, d) == Some((r, f))
    ensures Expr0(s, a) == Some((Operator(op, l, r), f))
  {
    LiftToExpr3(s, a, l, b);
    LiftToExpr2(s, a, l, b);
    LiftToExpr1(s, d, r, f);
    MultDivStep(s, a, op, l, b, r, f);
    LiftToExpr0(s, a, Operator(op, l, r), f);
  }

  lemma InnerAddSub(s: string, op: ExprOp, l: Expr, r: Expr, a: nat, b: nat, c: nat, d: nat, f: nat, g: nat)
    requires op == Ast.Add || op == Ast.Sub
    requires a <= b && Layout(s, op, b, c, d, f, g)
    requires Expr4(s, a) == Some((l, b)) && Expr2(s, d) == Some((r, f))
    ensures Expr0(s, a) == Some((Operator(op, l, r), f))
  {
    LiftToExpr3(s, a, l, b);
    LiftToExpr2(s, a, l, b);
    LiftToExpr1(s, a, l, b);
    LiftToExpr1(s, d, r, f);
    LiftToExpr0(s, d, r, f);
    AddSubStep(s, a, op, l, b, r, f);
  }

  /**
   * The positions of the pieces of `Node(op, sl, sr, pads)` rendered at `p`: the left
   * operand starts at `a`, the rest as in `Layout`.
   */
  predicate Places(op: ExprOp, sl: string, sr: string, pads: Pads, p: nat, a: nat, b: nat, c: nat, d: nat, f: nat, g: nat)
  {
    a == p + 1 + |pads.open| && b == a + |sl| && c == b + |PadBefore(op, pads.before)| &&
    d == c + 1 + |pads.after| && f == d + |sr| && g == f + |pads.close|
  }

  /** Where the pieces of a bracketed node's rendering lie in the input. */
  lemma NodePieces(op: ExprOp, sl: string, sr: string, pads: Pads, s: string, p: nat, a: nat, b: nat, c: nat, d: nat, f: nat, g: nat)
    requires At(s, p, Node(op, sl, sr, pads)) && Places(op, sl, sr, pads, p, a, b, c, d, f, g)
    ensures g < |s| && s[p] == '(' && At(s, p + 1, pads.open) && At(s, a, sl)
    ensures At(s, b, PadBefore(op, pads.before)) && s[c] == Op.Symbol(op)
    ensures At(s, c + 1, pads.after) && At(s, d, sr) && At(s, f, pads.close) && s[g] == ')'
    ensures g + 1 == p + |Node(op, sl, sr, pads)|
  {
    var open, padL, after, close := pads.open, PadBefore(op, pads.before), pads.after, pads.close;
    var sym := [Op.Symbol(op)];
    var w1 := "(" + open;
    var w2 := w1 + sl;
    var w3 := w2 + padL;
    var w4 := w3 + sym;
    var w5 := w4 + after;
    var w6 := w5 + sr;
    var w7 := w6 + close;
    AtSplit(s, p, w7, ")");
    AtSplit(s, p, w6, close);
    AtSplit(s, p, w5, sr);
    AtSplit(s, p, w4, after);
    AtSplit(s, p, w3, sym);
    AtSplit(s, p, w2, padL);
    AtSplit(s, p, w1, sl);
    AtSplit(s, p, "(", open);
    AtChar(s, p, "(", 0);
    AtChar(s, c, sym, 0);
    AtChar(s, g, ")", 0);
  }

  /** The pieces up to the left operand. */
  lemma OpenPieces(op: ExprOp, sl: string, sr: string, pads: Pads, s: string, p: nat, a: nat, b: nat, c: nat, d: nat, f: nat, g: nat)
    requires At(s, p, Node(op, sl, sr, pads)) && Places(op, sl, sr, pads, p, a, b, c, d, f, g)
    ensures p < |s| && s[p] == '(' && At(s, p + 1, pads.open) && At(s, a, sl)
  {
    NodePieces(op, sl, sr, pads, s, p, a, b, c, d, f, g);
  }

  /** The pieces between the operands. */
  lemma SymbolPieces(op: ExprOp, sl: string, sr: string, pads: Pads, s: string, p: nat, a: nat, b: nat, c: nat, d: nat, f: nat, g: nat)
    requires At(s, p, Node(op, sl, sr, pads)) && Places(op, sl, sr, pads, p, a, b, c, d, f, g)
    ensures c < |s| && At(s, b, PadBefore(op, pads.before)) && s[c] == Op.Symbol(op)
  {
    NodePieces(op, sl, sr, pads, s, p, a, b, c, d, f, g);
  }

  /** The pieces from the symbol to the right operand. */
  lemma RightPieces(op: ExprOp, sl: string, sr: string, pads: Pads, s: string, p: nat, a: nat, b: nat, c: nat, d: nat, f: nat, g: nat)
    requires At(s, p, Node(op, sl, sr, pads)) && Places(op, sl, sr, pads, p, a, b, c, d, f, g)
    ensures At(s, c + 1, pads.after) && At(s, d, sr)
  {
    NodePieces(op, sl, sr, pads, s, p, a, b, c, d, f, g);
  }

  /** The pieces after the right operand. */
  lemma ClosePieces(op: ExprOp, sl: string, sr: string, pads: Pads, s: string, p: nat, a: nat, b: nat, c: nat, d: nat, f: nat, g: nat)
    requires At(s, p, Node(op, sl, sr, pads)) && Places(op, sl, sr, pads, p, a, b, c, d, f, g)
    ensures g < |s| && At(s, f, pads.close) && s[g] == ')' && g + 1 == p + |Node(op, sl, sr, pads)|
  {
    NodePieces(op, sl, sr, pads, s, p, a, b, c, d, f, g);
  }

  /** Whitespace at `x` up to the non-space at `y` is skipped exactly. */
  lemma PadThen(s: string, x: nat, pad: string, y: nat)
    requires IsPad(pad) && At(s, x, pad) && y == x + |pad| && y < |s| && !Space.IsSpace(s[y])
    ensures Space.Optional(s, x) == y
    ensures s[x] == s[y] || Space.IsSpace(s[x])
  {
    PadAt(s, x, pad);
    if |pad| > 0 {
      AtChar(s, x, pad, 0);
    }
  }

  /** Whitespace at `x`, then a rendering at `y`: the whitespace is skipped up to it. */
  lemma PadThenShow(s: string, x: nat, pad: string, w: string, y: nat)
    requires IsPad(pad) && At(s, x, pad) && y == x + |pad| && At(s, y, w) && |w| >= 1 && IsHead(w[0])
    ensures Space.Optional(s, x) == y
  {
    AtChar(s, y, w, 0);
    PadAt(s, x, pad);
  }

  /** The opening bracket, the whitespace after it and the left operand. */
  lemma NodeOpen(op: ExprOp, sl: string, sr: string, pads: Pads, s: string, p: nat, a: nat, b: nat, c: nat, d: nat, f: nat, g: nat)
    requires IsPads(pads) && At(s, p, Node(op, sl, sr, pads)) && Places(op, sl, sr, pads, p, a, b, c, d, f, g)
    requires |sl| >= 1 && IsHead(sl[0])
    ensures p < |s| && s[p] == '(' && Space.Optional(s, p + 1) == a && At(s, a, sl)
  {
    OpenPieces(op, sl, sr, pads, s, p, a, b, c, d, f, g);
    PadThenShow(s, p + 1, pads.open, sl, a);
  }

  /** What follows the left operand: whitespace unless rolling, then the symbol. */
  lemma NodeSymbol(op: ExprOp, sl: string, sr: string, pads: Pads, s: string, p: nat, a: nat, b: nat, c: nat, d: nat, f: nat, g: nat)
    requires IsPads(pads) && At(s, p, Node(op, sl, sr, pads)) && Places(op, sl, sr, pads, p, a, b, c, d, f, g)
    ensures c < |s| && Space.Optional(s, b) == c && s[c] == Op.Symbol(op)
    ensures (op == Ast.Roll <==> s[b] == 'd') && !Number.IsDigit(s[b])
  {
    SymbolPieces(op, sl, sr, pads, s, p, a, b, c, d, f, g);
    SymbolIsMark(op);
    PadThen(s, b, PadBefore(op, pads.before), c);
  }

  /** The whitespace after the symbol and the right operand. */
  lemma NodeRight(op: ExprOp, sl: string, sr: string, pads: Pads, s: string, p: nat, a: nat, b: nat, c: nat, d: nat, f: nat, g: nat)
    requires IsPads(pads) && At(s, p, Node(op, sl, sr, pads)) && Places(op, sl, sr, pads, p, a, b, c, d, f, g)
    requires |sr| >= 1 && IsHead(sr[0])
    ensures d <= |s| && Space.Optional(s, c + 1) == d && At(s, d, sr)
  {
    RightPieces(op, sl, sr, pads, s, p, a, b, c, d, f, g);
    PadThenShow(s, c + 1, pads.after, sr, d);
  }

  /** The whitespace after the right operand and the closing bracket. */
  lemma NodeClose(op: ExprOp, sl: string, sr: string, pads: Pads, s: string, p: nat, a: nat, b: nat, c: nat, d: nat, f: nat, g: nat)
    requires IsPads(pads) && At(s, p, Node(op, sl, sr, pads)) && Places(op, sl, sr, pads, p, a, b, c, d, f, g)
    ensures g < |s| && Space.Optional(s, f) == g && s[g] == ')' && s[f] != 'd' && !Number.IsDigit(s[f])
    ensures g + 1 == p + |Node(op, sl, sr, pads)|
  {
    ClosePieces(op, sl, sr, pads, s, p, a, b, c, d, f, g);
    PadThen(s, f, pads.close, g);
  }

  /**
   * A rendered node at `p`: its pieces lie as `Layout` says, after the opening bracket
   * the whitespace is skipped up to `a`, and both operands occur followed by non-digits.
   */
  lemma NodeFacts(op: ExprOp, sl: string, sr: string, pads: Pads, s: string, p: nat, a: nat, b: nat, c: nat, d: nat, f: nat, g: nat)
    requires IsPads(pads) && At(s, p, Node(op, sl, sr, pads)) && Places(op, sl, sr, pads, p, a, b, c, d, f, g)
    requires |sl| >= 1 && IsHead(sl[0]) && |sr| >= 1 && IsHead(sr[0])
    ensures p < |s| && s[p] == '(' && Space.Optional(s, p + 1) == a
    ensures Layout(s, op, b, c, d, f, g)
    ensures At(s, a, sl) && !Number.IsDigit(s[b]) && At(s, d, sr) && !Number.IsDigit(s[f])
    ensures g + 1 == p + |Node(op, sl, sr, pads)|
  {
    NodeOpen(op, sl, sr, pads, s, p, a, b, c, d, f, g);
    NodeSymbol(op, sl, sr, pads, s, p, a, b, c, d, f, g);
    NodeRight(op, sl, sr, pads, s, p, a, b, c, d, f, g);
    NodeClose(op, sl, sr, pads, s, p, a, b, c, d, f, g);
  }

  /** A bracketed node whose operands parse back parses back as the node. */
  lemma NodeParses(s: string, op: ExprOp, l: Expr, r: Expr, p: nat, a: nat, b: nat, c: nat, d: nat, f: nat, g: nat)
    requires p < |s| && s[p] == '(' && Space.Optional(s, p + 1) == a
    requires a <= b && Layout(s, op, b, c, d, f, g)
    requires Expr4(s, a) == Some((l, b)) && Expr4(s, d) == Some((r, f))
    ensures Expr4(s, p) == Some((Operator(op, l, r), g + 1))
  {
    InnerNode(s, op, l, r, a, b, c, d, f, g);
    BracketStep(s, p, Operator(op, l, r), f);
  }

  /** Every rendering at `p`, ending at `q` before a non-digit, is parsed back as an atom. */
  lemma {:induction false} ShowParses(e: Expr, sp: Spacing, s: string, p: nat, q: nat)
    requires IsSpacing(sp) && At(s, p, Show(e, sp)) && q == p + |Show(e, sp)|
    requires q == |s| || !Number.IsDigit(s[q])
    ensures Expr4(s, p) == Some((e, q))
    decreases e, 1
  {
    match e
    case Integer(n) =>
      NumberAtom(s, p, n);
    case Operator(op, l, r) =>
      ShowNodeParses(op, l, r, sp, s, p, q);
  }

  /** A rendered node whose operands are parsed back is parsed back as the node. */
  lemma {:induction false} ShowNodeParses(op: ExprOp, l: Expr, r: Expr, sp: Spacing, s: string, p: nat, q: nat)
    requires IsSpacing(sp)
    requires var w := Node(op, Show(l, LeftOf(sp)), Show(r, RightOf(sp)), PadsOf(sp)); At(s, p, w) && q == p + |w|
    ensures Expr4(s, p) == Some((Operator(op, l, r), q))
    decreases Operator(op, l, r), 0
  {
    var pads, spl, spr := PadsOf(sp), LeftOf(sp), RightOf(sp);
    var sl, sr := Show(l, spl), Show(r, spr);
    var a := p + 1 + |pads.open|;
    var b := a + |sl|;
    var c := b + |PadBefore(op, pads.before)|;
    var d := c + 1 + |pads.after|;
    var f := d + |sr|;
    var g := f + |pads.close|;
    NodeFacts(op, sl, sr, pads, s, p, a, b, c, d, f, g);
    ShowParses(l, spl, s, a, b);
    ShowParses(r, spr, s, d, f);
    NodeParses(s, op, l, r, p, a, b, c, d, f, g);
  }

  /** The two halves of a concatenation occur where they start. */
  lemma AtConcat(x: string, y: string)
    ensures At(x + y, 0, x) && At(x + y, |x|, y)
  {
    forall i | 0 <= i < |y|
      ensures (x + y)[|x| + i] == y[i]
    {
    }
  }

  /** An atom that ends the input is a whole expression. */
  lemma LiftAtEnd(s: string, p: nat, e: Expr)
    requires p <= |s| && Expr4(s, p) == Some((e, |s|))
    ensures Expr0(s, p) == Some((e, |s|))
  {
    LiftToExpr3(s, p, e, |s|);
    LiftToExpr2(s, p, e, |s|);
    LiftToExpr1(s, p, e, |s|);
    LiftToExpr0(s, p, e, |s|);
  }

  /**
   * Round trip through the whole-input parser: after optional leading whitespace, every
   * fully bracketed rendering, with any whitespace at each of its slots, parses back to
   * exactly the one tree it was printed from.
   */
  lemma ParseShow(e: Expr, lead: string, sp: Spacing)
    requires IsPad(lead) && IsSpacing(sp)
    ensures Parse.Parse(lead + Show(e, sp)) == Some([e])
  {
    AtConcat(lead, Show(e, sp));
    ParseShowAt(e, lead, sp, lead + Show(e, sp));
  }

  lemma ParseShowAt(e: Expr, lead: string, sp: Spacing, s: string)
    requires IsPad(lead) && IsSpacing(sp)
    requires At(s, 0, lead) && At(s, |lead|, Show(e, sp)) && |s| == |lead| + |Show(e, sp)|
    ensures Parse.Parse(s) == Some([e])
  {
    PadThenShow(s, 0, lead, Show(e, sp), |lead|);
    ShowParses(e, sp, s, |lead|, |s|);
    LiftAtEnd(s, |lead|, e);
    ListOfOne(s, |lead|, e);
    ParseOfList(s, [e]);
  }
}
