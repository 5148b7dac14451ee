/**
 * The whole-input parser: several expressions separated by whitespace or by a comma
 * come back in order, and the input is accepted only as a whole. Since nothing skips
 * whitespace before the end of the input, an accepted input is blank or ends with a
 * digit or a closing bracket.
 */
module ParseList {
  import opened Wrappers
  import opened Ast
  import opened Parse
  import opened ParseSteps
  import opened ParseShow
  import opened ParsePrint
  import Op
  import Space
  import Number

  /** What lies between two expressions of a list: a run of whitespace, or a padded comma. */
  datatype Separator = Blank(gap: string) | CommaSep(before: string, after: string)

  predicate IsSeparator(sep: Separator)
  {
    match sep
    case Blank(gap) => IsPad(gap) && |gap| > 0
    case CommaSep(before, after) => IsPad(before) && IsPad(after)
  }

  function SeparatorText(sep: Separator): string
  {
    match sep
    case Blank(gap) => gap
    case CommaSep(before, after) => before + "," + after
  }

  /** What follows the first rendering: each separator followed by the next rendering. */
  function TailText(ws: seq<string>, seps: seq<Separator>): string
    requires |seps| == |ws|
    decreases |ws|
  {
    if ws == [] then "" else SeparatorText(seps[0]) + ws[0] + TailText(ws[1..], seps[1..])
  }

  /** Every spacing of `sps` holds whitespace only. */
  predicate Spacings(sps: seq<Spacing>)
  {
    forall i | 0 <= i < |sps| :: IsSpacing(sps[i])
  }

  /** `ws` renders `es` one by one, each with only the brackets it needs and its own spacing in `sps`. */
  predicate Rendered(es: seq<Expr>, ws: seq<string>, sps: seq<Spacing>, terse: bool)
    decreases |es|
  {
    |ws| == |es| && |sps| == |es| &&
    (|es| > 0 ==> ws[0] == Print(es[0], 0, sps[0], terse) && Rendered(es[1..], ws[1..], sps[1..], terse))
  }

  /** The rendering of every expression of `es`, each with its own spacing. */
  function Renderings(es: seq<Expr>, sps: seq<Spacing>, terse: bool): (ws: seq<string>)
    requires |sps| == |es|
    ensures Rendered(es, ws, sps, terse)
    decreases |es|
  {
    if es == [] then []
    else
      var ws := [Print(es[0], 0, sps[0], terse)] + Renderings(es[1..], sps[1..], terse);
      assert ws[1..] == Renderings(es[1..], sps[1..], terse);
      ws
  }

  /** The renderings of `es` joined by `seps`. */
  function Joined(es: seq<Expr>, seps: seq<Separator>, sps: seq<Spacing>, terse: bool): string
    requires |es| >= 1 && |seps| == |es| - 1 && |sps| == |es|
  {
    var ws := Renderings(es, sps, terse);
    ws[0] + TailText(ws[1..], seps)
  }

  /**
   * Each rendering is preceded by a separator, and none by a blank one when it starts
   * with `-`, which would make it the right operand of a subtraction.
   */
  predicate SeparatedBy(ws: seq<string>, seps: seq<Separator>)
    requires |seps| == |ws|
  {
    forall i | 0 <= i < |ws| ::
      IsSeparator(seps[i]) && |ws[i]| >= 1 && IsHead(ws[i][0]) && (seps[i].Blank? ==> ws[i][0] != '-')
  }

  /** A separator at `q` ends the expression before it and is consumed up to the next one at `n`. */
  lemma SeparatorFacts(sep: Separator, s: string, q: nat, n: nat)
    requires IsSeparator(sep) && At(s, q, SeparatorText(sep)) && n == q + |SeparatorText(sep)|
    requires n < |s| && IsHead(s[n]) && (sep.Blank? ==> s[n] != '-')
    ensures Follows(s, q, 0) && Space.Comma(s, q) == Some(n)
  {
    match sep
    case Blank(gap) =>
      AtChar(s, q, gap, 0);
      PadThenShow(s, q, gap, [s[n]], n);
    case CommaSep(before, after) =>
      var m := q + |before|;
      AtSplit(s, q, before + ",", after);
      AtSplit(s, q, before, ",");
      AtChar(s, m, ",", 0);
      PadThen(s, q, before, m);
      PadThenShow(s, m + 1, after, [s[n]], n);
  }

  lemma SplitThree(s: string, p: nat, x: string, y: string, z: string)
    requires At(s, p, x + y + z) && |y| >= 1
    ensures At(s, p, x) && At(s, p + |x|, y) && At(s, p + |x| + |y|, z)
    ensures p + |x| < |s| && s[p + |x|] == y[0]
  {
    AtSplit(s, p, x + y, z);
    AtSplit(s, p, x, y);
    AtChar(s, p + |x|, y, 0);
  }

  /** The first pair of a tail: the separator at `q`, the rendering at `n`, the rest at `q'`. */
  lemma TailPieces(ws: seq<string>, seps: seq<Separator>, s: string, q: nat, n: nat, q': nat)
    requires |ws| >= 1 && |seps| == |ws| && |ws[0]| >= 1
    requires At(s, q, TailText(ws, seps)) && q + |TailText(ws, seps)| == |s|
    requires n == q + |SeparatorText(seps[0])| && q' == n + |ws[0]|
    ensures At(s, q, SeparatorText(seps[0])) && At(s, n, ws[0]) && n < |s| && s[n] == ws[0][0]
    ensures At(s, q', TailText(ws[1..], seps[1..])) && q' + |TailText(ws[1..], seps[1..])| == |s|
  {
    assert TailText(ws, seps) == SeparatorText(seps[0]) + ws[0] + TailText(ws[1..], seps[1..]);
    SplitThree(s, q, SeparatorText(seps[0]), ws[0], TailText(ws[1..], seps[1..]));
  }

  /** The rest of a tail is separated in the same way. */
  lemma SeparatedTail(ws: seq<string>, seps: seq<Separator>)
    requires |ws| >= 1 && |seps| == |ws| && SeparatedBy(ws, seps)
    ensures SeparatedBy(ws[1..], seps[1..])
  {
    forall i | 0 <= i < |ws| - 1
      ensures IsSeparator(seps[1..][i]) && |ws[1..][i]| >= 1 && IsHead(ws[1..][i][0])
      ensures seps[1..][i].Blank? ==> ws[1..][i][0] != '-'
    {
      assert seps[1..][i] == seps[i + 1] && ws[1..][i] == ws[i + 1];
    }
  }

  /**
   * The first pair of a tail that runs to the end: what precedes `q` is not extended, the
   * separator is consumed up to the rendering at `n`, and the rest from `q'` is a tail.
   */
  lemma TailFacts(ws: seq<string>, seps: seq<Separator>, s: string, q: nat, n: nat, q': nat)
    requires |ws| >= 1 && |seps| == |ws| && SeparatedBy(ws, seps)
    requires At(s, q, TailText(ws, seps)) && q + |TailText(ws, seps)| == |s|
    requires n == q + |SeparatorText(seps[0])| && q' == n + |ws[0]|
    ensures Follows(s, q, 0) && Space.Comma(s, q) == Some(n) && At(s, n, ws[0])
    ensures At(s, q', TailText(ws[1..], seps[1..])) && q' + |TailText(ws[1..], seps[1..])| == |s|
    ensures SeparatedBy(ws[1..], seps[1..])
  {
    TailPieces(ws, seps, s, q, n, q');
    SeparatorFacts(seps[0], s, q, n);
    SeparatedTail(ws, seps);
  }

  /** A rendering at level 0 is the `+ -` level's parse. */
  lemma PrintParsesWhole(e: Expr, sp: Spacing, terse: bool, s: string, p: nat, q: nat)
    requires IsSpacing(sp) && At(s, p, Print(e, 0, sp, terse)) && q == p + |Print(e, 0, sp, terse)|
    requires Follows(s, q, 0)
    ensures Expr0(s, p) == Some((e, q))
  {
    PrintParses(e, 0, sp, terse, s, p, q);
  }

  /** A separator and an expression in front of a parsed tail extend it. */
  lemma ListCons(s: string, q: nat, n: nat, q': nat, es: seq<Expr>)
    requires q <= |s| && |es| >= 1 && Space.Comma(s, q) == Some(n) && Expr0(s, n) == Some((es[0], q'))
    requires ListTail(s, q') == (es[1..], |s|)
    ensures ListTail(s, q) == (es, |s|)
  {
    ListTailStep(s, q, n, es[0], q');
    assert [es[0]] + es[1..] == es;
  }

  /**
   * A tail of separated renderings that runs to the end of the input: the expression
   * before it stops at `q`, and the list's tail parser reads every rendered expression
   * in order.
   */
  lemma {:induction false} TailParses(es: seq<Expr>, ws: seq<string>, seps: seq<Separator>, sps: seq<Spacing>, terse: bool, s: string, q: nat)
    requires |seps| == |es| && Spacings(sps) && Rendered(es, ws, sps, terse) && SeparatedBy(ws, seps)
    requires At(s, q, TailText(ws, seps)) && q + |TailText(ws, seps)| == |s|
    ensures Follows(s, q, 0) && ListTail(s, q) == (es, |s|)
    decreases |es|
  {
    if es == [] {
      assert Space.Comma(s, |s|) == None;
    } else {
      var n := q + |SeparatorText(seps[0])|;
      var q' := n + |ws[0]|;
      TailFacts(ws, seps, s, q, n, q');
      assert Spacings(sps[1..]) by {
        assert forall i | 0 <= i < |sps| - 1 :: sps[1..][i] == sps[i + 1];
      }
      TailParses(es[1..], ws[1..], seps[1..], sps[1..], terse, s, q');
      PrintParsesWhole(es[0], sps[0], terse, s, n, q');
      ListCons(s, q, n, q', es);
    }
  }

  /** A first expression and a tail that reach the end make the whole list. */
  lemma ListOfMany(s: string, p: nat, q: nat, es: seq<Expr>)
    requires p <= |s| && |es| >= 1 && Expr0(s, p) == Some((es[0], q)) && ListTail(s, q) == (es[1..], |s|)
    ensures List(s, p) == (es, |s|)
  {
    assert [es[0]] + es[1..] == es;
  }

  /** The renderings after the first are separated by `seps` when the separators allow. */
  lemma RenderingsSeparated(es: seq<Expr>, seps: seq<Separator>, sps: seq<Spacing>, terse: bool)
    requires |es| >= 1 && |seps| == |es| - 1 && |sps| == |es|
    requires forall i | 0 <= i < |seps| :: IsSeparator(seps[i])
    requires forall i | 0 <= i < |seps| :: seps[i].Blank? ==> Print(es[i + 1], 0, sps[i + 1], terse)[0] != '-'
    ensures SeparatedBy(Renderings(es, sps, terse)[1..], seps)
  {
    var ws := Renderings(es, sps, terse);
    RenderingsAt(es, sps, terse);
    forall i | 0 <= i < |seps|
      ensures IsSeparator(seps[i]) && |ws[1..][i]| >= 1 && IsHead(ws[1..][i][0])
      ensures seps[i].Blank? ==> ws[1..][i][0] != '-'
    {
      assert ws[1..][i] == ws[i + 1];
    }
  }

  lemma {:induction false} RenderingsAt(es: seq<Expr>, sps: seq<Spacing>, terse: bool)
    requires |sps| == |es|
    ensures forall i | 0 <= i < |es| :: Renderings(es, sps, terse)[i] == Print(es[i], 0, sps[i], terse)
    decreases |es|
  {
    if es != [] {
      RenderingsAt(es[1..], sps[1..], terse);
      var ws := Renderings(es, sps, terse);
      forall i | 0 <= i < |es|
        ensures ws[i] == Print(es[i], 0, sps[i], terse)
      {
        if i > 0 {
          assert ws[i] == Renderings(es[1..], sps[1..], terse)[i - 1];
          assert es[i] == es[1..][i - 1] && sps[i] == sps[1..][i - 1];
        }
      }
    }
  }

  /**
   * Several expressions after optional leading whitespace, each with its own spacing,
   * separated by whitespace or by padded commas, parse back to the same trees in the same
   * order; an expression after a blank separator must not start with `-`, or it would be
   * subtracted instead.
   */
  lemma ParseJoined(es: seq<Expr>, seps: seq<Separator>, lead: string, sps: seq<Spacing>, terse: bool)
    requires |es| >= 1 && |seps| == |es| - 1 && |sps| == |es| && IsPad(lead)
    requires forall i | 0 <= i < |sps| :: IsSpacing(sps[i])
    requires forall i | 0 <= i < |seps| :: IsSeparator(seps[i])
    requires forall i | 0 <= i < |seps| :: seps[i].Blank? ==> Print(es[i + 1], 0, sps[i + 1], terse)[0] != '-'
    ensures Parse.Parse(lead + Joined(es, seps, sps, terse)) == Some(es)
  {
    var ws := Renderings(es, sps, terse);
    RenderingsSeparated(es, seps, sps, terse);
    var tail := TailText(ws[1..], seps);
    var s := lead + ws[0] + tail;
    var p := |lead|;
    var q := p + |ws[0]|;
    assert Joined(es, seps, sps, terse) == ws[0] + tail;
    assert lead + (ws[0] + tail) == s;
    SplitThree(s, 0, lead, ws[0], tail);
    PadThenShow(s, 0, lead, ws[0], p);
    assert Spacings(sps[1..]) by {
      assert forall i | 0 <= i < |sps| - 1 :: sps[1..][i] == sps[i + 1];
    }
    TailParses(es[1..], ws[1..], seps, sps[1..], terse, s, q);
    PrintParsesWhole(es[0], sps[0], terse, s, p, q);
    ListOfMany(s, p, q, es);
    ParseOfList(s, es);
  }

  /** `q` is just after a digit or a closing bracket. */
  predicate Closed(s: string, q: nat)
  {
    0 < q <= |s| && (Number.IsDigit(s[q - 1]) || s[q - 1] == ')')
  }

  /** A literal ends with a digit. */
  lemma LiteralLast(w: string)
    requires Number.IsLiteral(w)
    ensures |w| >= 1 && Number.IsDigit(w[|w| - 1])
  {
    if |w| >= 2 {
      Number.LiteralTail(w, |w| - 1);
    }
  }

  lemma NumberEnds(s: string, p: nat)
    requires p <= |s|
    ensures Number.Number(s, p).Some? ==> Closed(s, Number.Number(s, p).value.1)
  {
    Number.NumberIsLongestLiteral(s, p);
    var r := Number.Number(s, p);
    if r.Some? {
      var q := r.value.1;
      LiteralLast(s[p..q]);
      assert s[p..q][q - p - 1] == s[q - 1];
    }
  }

  /** An atom ends with its closing bracket or its last digit. */
  lemma AtomEnds(s: string, p: nat)
    requires p <= |s|
    ensures Expr4(s, p).Some? ==> Closed(s, Expr4(s, p).value.1)
  {
    NumberEnds(s, p);
  }

  /** A roll ends where its atom or its right operand ends. */
  lemma {:induction false} RollEnds(s: string, p: nat)
    requires p <= |s|
    ensures Expr3(s, p).Some? ==> Closed(s, Expr3(s, p).value.1)
    decreases |s| - p, 4
  {
    AtomEnds(s, p);
    var (_, p1) := match Expr4(s, p)
      case Some((count, q)) => (count, q)
      case None => (Integer(1), p);
    match Op.Roll(s, p1)
    case None =>
      assert Parse.Roll(s, p) == None;
    case Some((_, p2)) =>
      RollEnds(s, Space.Optional(s, p2));
      assert Parse.Roll(s, p).Some? ==> Parse.Roll(s, p).value.1 == Expr3(s, Space.Optional(s, p2)).value.1;
  }

  /** A power ends where its left or right operand ends. */
  lemma {:induction false} PowEnds(s: string, p: nat)
    requires p <= |s|
    ensures Expr2(s, p).Some? ==> Closed(s, Expr2(s, p).value.1)
    decreases |s| - p, 6
  {
    RollEnds(s, p);
    match Expr3(s, p)
    case None =>
      assert Parse.Pow(s, p) == None;
    case Some((_, p1)) =>
      match Op.Power(s, Space.Optional(s, p1))
      case None =>
        assert Parse.Pow(s, p) == None;
      case Some((_, p2)) =>
        PowEnds(s, Space.Optional(s, p2));
        assert Parse.Pow(s, p).Some? ==> Parse.Pow(s, p).value.1 == Expr2(s, Space.Optional(s, p2)).value.1;
  }

  /** A product or quotient ends where its left or right operand ends. */
  lemma {:induction false} MultDivEnds(s: string, p: nat)
    requires p <= |s|
    ensures Expr1(s, p).Some? ==> Closed(s, Expr1(s, p).value.1)
    decreases |s| - p, 8
  {
    PowEnds(s, p);
    match Expr2(s, p)
    case None =>
      assert MultDiv(s, p) == None;
    case Some((_, p1)) =>
      match Op.MultDiv(s, Space.Optional(s, p1))
      case None =>
        assert MultDiv(s, p) == None;
      case Some((_, p2)) =>
        MultDivEnds(s, Space.Optional(s, p2));
        assert MultDiv(s, p).Some? ==> MultDiv(s, p).value.1 == Expr1(s, Space.Optional(s, p2)).value.1;
  }

  /** Every successful parse of an expression ends just after a digit or a closing bracket. */
  lemma {:induction false} ParsedEnds(s: string, p: nat)
    requires p <= |s|
    ensures Expr0(s, p).Some? ==> Closed(s, Expr0(s, p).value.1)
    decreases |s| - p, 10
  {
    MultDivEnds(s, p);
    match Expr1(s, p)
    case None =>
      assert AddSub(s, p) == None;
    case Some((_, p1)) =>
      match Op.AddSub(s, Space.Optional(s, p1))
      case None =>
        assert AddSub(s, p) == None;
      case Some((_, p2)) =>
        ParsedEnds(s, Space.Optional(s, p2));
        assert AddSub(s, p).Some? ==> AddSub(s, p).value.1 == Expr0(s, Space.Optional(s, p2)).value.1;
  }

  lemma {:induction false} ListTailEnds(s: string, p: nat)
    requires p <= |s|
    ensures ListTail(s, p).1 > p ==> Closed(s, ListTail(s, p).1)
    decreases |s| - p
  {
    match Space.Comma(s, p)
    case None =>
    case Some(p1) =>
      match Expr0(s, p1)
      case None =>
      case Some((_, p2)) =>
        ParsedEnds(s, p1);
        ListTailEnds(s, p2);
  }

  /**
   * All or nothing: an input is accepted with no expressions exactly when it is blank,
   * and an input accepted with some ends with a digit or a closing bracket, so trailing
   * whitespace or a dangling operator is an error.
   */
  lemma ParseAccepts(s: string)
    ensures Parse.Parse(s) == Some([]) <==> Space.AllSpace(s, 0, |s|)
    ensures Parse.Parse(s).Some? && Parse.Parse(s).value != [] ==> Closed(s, |s|)
  {
    var p1 := Space.Optional(s, 0);
    Space.OptionalIsSpace(s, 0);
    if Space.AllSpace(s, 0, |s|) {
      Space.OptionalSkips(s, 0, |s|);
      assert Expr0(s, |s|) == None;
    }
    ParsedEnds(s, p1);
    match Expr0(s, p1)
    case None =>
    case Some((_, q)) => ListTailEnds(s, q);
  }

  /** A literal `0`, possibly negated, followed by a digit is rejected: no expression reads past the `0`. */
  lemma LeadingZeroRejected(lead: string, sign: string, rest: string)
    requires IsPad(lead) && (sign == "" || sign == "-") && |rest| >= 1 && Number.IsDigit(rest[0])
    ensures Parse.Parse(lead + sign + "0" + rest) == None
  {
    var s := lead + sign + "0" + rest;
    var p := |lead|;
    var q := p + |sign| + 1;
    assert s[q] == rest[0] && s[q - 1] == '0' && (sign == "-" ==> s[p] == '-');
    assert forall i | 0 <= i < p :: s[i] == lead[i];
    assert p < |s| && !Space.IsSpace(s[p]);
    Space.OptionalSkips(s, 0, p);
    assert Number.DigitsAt(s, q - 1, q) == 0;
    assert Number.Number(s, p) == Some((Integer(0), q));
    assert Expr4(s, p) == Some((Integer(0), q));
    LiftToExpr3(s, p, Integer(0), q);
    LiftToExpr2(s, p, Integer(0), q);
    LiftToExpr1(s, p, Integer(0), q);
    LiftToExpr0(s, p, Integer(0), q);
    assert Space.Comma(s, q) == None;
  }
}
