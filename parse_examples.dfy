/**
 * The parser's unit cases, each an instance of the general theorems: the text is the
 * minimal-bracket rendering of the expected trees, so it parses to exactly those trees.
 * The small lemmas first evaluate a rendering one node at a time.
 */
module ParseExamples {
  import opened Wrappers
  import opened Ast
  import opened ParseShow
  import opened ParsePrint
  import opened ParseList
  import Parse
  import Op
  import Space

  /** One space on each side of a node's symbol, and none inside its brackets. */
  function Spaces(l: Spacing, r: Spacing): Spacing
  {
    Spaced(Pads("", " ", " ", ""), l, r)
  }

  /** The rendering of an operator node from the renderings of its operands. */
  lemma InfixText(op: ExprOp, l: Expr, r: Expr, c: nat, sp: Spacing, terse: bool, wl: string, wr: string, w: string)
    requires c <= Level(op) && !(terse && OneDie(Operator(op, l, r)))
    requires Print(l, Level(op) + 1, LeftOf(sp), terse) == wl && Print(r, Level(op), RightOf(sp), terse) == wr
    requires w == wl + PadBefore(op, PadsOf(sp).before) + [Op.Symbol(op)] + PadsOf(sp).after + wr
    ensures Print(Operator(op, l, r), c, sp, terse) == w
  {
  }

  /** A looser node printed at a tighter level is bracketed. */
  lemma BracketText(e: Expr, c: nat, sp: Spacing, terse: bool, w: string, text: string)
    requires c <= 4 && e.Operator? && Level(e.op) < c && Print(e, 0, sp, terse) == w
    requires text == "(" + PadsOf(sp).open + w + PadsOf(sp).close + ")"
    ensures Print(e, c, sp, terse) == text
  {
  }

  /** A single die printed tersely. */
  lemma TerseText(r: Expr, c: nat, sp: Spacing, wr: string, w: string)
    requires c <= 3 && Print(r, 3, RightOf(sp), true) == wr && w == "d" + PadsOf(sp).after + wr
    ensures Print(Operator(Ast.Roll, Integer(1), r), c, sp, true) == w
  {
  }

  /** Two renderings joined by one separator. */
  lemma JoinedText(es: seq<Expr>, seps: seq<Separator>, sps: seq<Spacing>, terse: bool, ws: seq<string>, text: string)
    requires |es| == 2 && |ws| == 2 && |seps| == 1 && |sps| == 2
    requires Print(es[0], 0, sps[0], terse) == ws[0] && Print(es[1], 0, sps[1], terse) == ws[1]
    requires text == ws[0] + SeparatorText(seps[0]) + ws[1]
    ensures Joined(es, seps, sps, terse) == text
  {
    var rs := Renderings(es, sps, terse);
    RenderingsAt(es, sps, terse);
    assert rs == ws;
    assert TailText(ws[1..], seps) == SeparatorText(seps[0]) + ws[1] + TailText(ws[2..], seps[1..]);
  }

  /** The literal `0`. */
  lemma Zero()
    ensures Parse.Parse("0") == Some([Integer(0)])
  {
    assert Print(Integer(0), 0, Tight, false) == "0";
    ParsePrinted(Integer(0), "", Tight, false);
    assert "" + "0" == "0";
  }

  /** A literal of several digits is one leaf. */
  lemma Literal()
    ensures Parse.Parse("6594") == Some([Integer(6594)])
  {
    assert Print(Integer(6594), 0, Tight, false) == "6594";
    ParsePrinted(Integer(6594), "", Tight, false);
    assert "" + "6594" == "6594";
  }

  /** `+` with no spaces around it. */
  lemma AddNoSpaces()
    ensures Parse.Parse("1+2") == Some([Operator(Add, Integer(1), Integer(2))])
  {
    assert Print(Integer(1), 1, Tight, false) == "1";
    assert Print(Integer(2), 0, Tight, false) == "2";
    InfixText(Add, Integer(1), Integer(2), 0, Tight, false, "1", "2", "1+2");
    ParsePrinted(Operator(Add, Integer(1), Integer(2)), "", Tight, false);
    assert "" + "1+2" == "1+2";
  }

  /** `+` with spaces around it. */
  lemma AddSpaced()
    ensures Parse.Parse("1 + 2") == Some([Operator(Add, Integer(1), Integer(2))])
  {
    var sp := Spaces(Tight, Tight);
    assert Print(Integer(1), 1, Tight, false) == "1";
    assert Print(Integer(2), 0, Tight, false) == "2";
    InfixText(Add, Integer(1), Integer(2), 0, sp, false, "1", "2", "1 + 2");
    ParsePrinted(Operator(Add, Integer(1), Integer(2)), "", sp, false);
    assert "" + "1 + 2" == "1 + 2";
  }

  /** A chain of additions nests to the right. */
  lemma AddThree()
    ensures Parse.Parse("1 + 2 + 3") == Some([Operator(Add, Integer(1), Operator(Add, Integer(2), Integer(3)))])
  {
    var sp := Spaces(Tight, Spaces(Tight, Tight));
    assert Print(Integer(1), 1, Tight, false) == "1";
    assert Print(Integer(2), 1, Tight, false) == "2";
    assert Print(Integer(3), 0, Tight, false) == "3";
    InfixText(Add, Integer(2), Integer(3), 0, Spaces(Tight, Tight), false, "2", "3", "2 + 3");
    InfixText(Add, Integer(1), Operator(Add, Integer(2), Integer(3)), 0, sp, false, "1", "2 + 3", "1 + 2 + 3");
    ParsePrinted(Operator(Add, Integer(1), Operator(Add, Integer(2), Integer(3))), "", sp, false);
    assert "" + "1 + 2 + 3" == "1 + 2 + 3";
  }

  /** `*` binds tighter than a `+` before it. */
  lemma MultAfterAdd()
    ensures Parse.Parse("1 + 2 * 3") == Some([Operator(Add, Integer(1), Operator(Mult, Integer(2), Integer(3)))])
  {
    var sp := Spaces(Tight, Spaces(Tight, Tight));
    TwoExpressionsText1();
    ParsePrinted(Operator(Add, Integer(1), Operator(Mult, Integer(2), Integer(3))), "", sp, false);
    assert "" + "1 + 2 * 3" == "1 + 2 * 3";
  }

  /** `*` binds tighter than a `+` after it. */
  lemma MultBeforeAdd()
    ensures Parse.Parse("1 * 2 + 3") == Some([Operator(Add, Operator(Mult, Integer(1), Integer(2)), Integer(3))])
  {
    var sp := Spaces(Spaces(Tight, Tight), Tight);
    TwoExpressionsText2();
    ParsePrinted(Operator(Add, Operator(Mult, Integer(1), Integer(2)), Integer(3)), "", sp, false);
    assert "" + "1 * 2 + 3" == "1 * 2 + 3";
  }

  /** A bracketed sum as the left operand of a product: brackets group, and leave no node of their own. */
  lemma Brackets()
    ensures Parse.Parse("(1 + 2) * 3") == Some([Operator(Mult, Operator(Add, Integer(1), Integer(2)), Integer(3))])
  {
    var sp := Spaces(Spaces(Tight, Tight), Tight);
    assert Print(Integer(1), 1, Tight, false) == "1";
    assert Print(Integer(2), 0, Tight, false) == "2";
    InfixText(Add, Integer(1), Integer(2), 0, Spaces(Tight, Tight), false, "1", "2", "1 + 2");
    BracketText(Operator(Add, Integer(1), Integer(2)), 2, Spaces(Tight, Tight), false, "1 + 2", "(1 + 2)");
    assert Print(Integer(3), 1, Tight, false) == "3";
    InfixText(Mult, Operator(Add, Integer(1), Integer(2)), Integer(3), 0, sp, false, "(1 + 2)", "3", "(1 + 2) * 3");
    ParsePrinted(Operator(Mult, Operator(Add, Integer(1), Integer(2)), Integer(3)), "", sp, false);
    assert "" + "(1 + 2) * 3" == "(1 + 2) * 3";
  }

  /** A bracketed sum as the right operand of a product. */
  lemma BracketsRight()
    ensures Parse.Parse("3 * (4 + 5)") == Some([Operator(Mult, Integer(3), Operator(Add, Integer(4), Integer(5)))])
  {
    var sp := Spaces(Tight, Spaces(Tight, Tight));
    assert Print(Integer(3), 2, Tight, false) == "3";
    assert Print(Integer(4), 1, Tight, false) == "4";
    assert Print(Integer(5), 0, Tight, false) == "5";
    InfixText(Add, Integer(4), Integer(5), 0, Spaces(Tight, Tight), false, "4", "5", "4 + 5");
    BracketText(Operator(Add, Integer(4), Integer(5)), 1, Spaces(Tight, Tight), false, "4 + 5", "(4 + 5)");
    InfixText(Mult, Integer(3), Operator(Add, Integer(4), Integer(5)), 0, sp, false, "3", "(4 + 5)", "3 * (4 + 5)");
    ParsePrinted(Operator(Mult, Integer(3), Operator(Add, Integer(4), Integer(5))), "", sp, false);
    assert "" + "3 * (4 + 5)" == "3 * (4 + 5)";
  }

  /**
   * Each slot takes its own whitespace: none around `+`, a space inside the opening
   * bracket and before `*`, none after it.
   */
  lemma MixedSpacing()
    ensures Parse.Parse("( 1+2) *3") == Some([Operator(Mult, Operator(Add, Integer(1), Integer(2)), Integer(3))])
  {
    var inner := Spaced(Pads(" ", "", "", ""), Tight, Tight);
    var sp := Spaced(Pads("", " ", "", ""), inner, Tight);
    assert Print(Integer(1), 1, Tight, false) == "1";
    assert Print(Integer(2), 0, Tight, false) == "2";
    InfixText(Add, Integer(1), Integer(2), 0, inner, false, "1", "2", "1+2");
    BracketText(Operator(Add, Integer(1), Integer(2)), 2, inner, false, "1+2", "( 1+2)");
    assert Print(Integer(3), 1, Tight, false) == "3";
    InfixText(Mult, Operator(Add, Integer(1), Integer(2)), Integer(3), 0, sp, false, "( 1+2)", "3", "( 1+2) *3");
    ParsePrinted(Operator(Mult, Operator(Add, Integer(1), Integer(2)), Integer(3)), "", sp, false);
    assert "" + "( 1+2) *3" == "( 1+2) *3";
  }

  /** The first rendering of `TwoExpressions`. */
  lemma TwoExpressionsText1()
    ensures Print(Operator(Add, Integer(1), Operator(Mult, Integer(2), Integer(3))), 0, Spaces(Tight, Spaces(Tight, Tight)), false) == "1 + 2 * 3"
  {
    assert Print(Integer(1), 1, Tight, false) == "1";
    assert Print(Integer(2), 2, Tight, false) == "2";
    assert Print(Integer(3), 1, Tight, false) == "3";
    InfixText(Mult, Integer(2), Integer(3), 0, Spaces(Tight, Tight), false, "2", "3", "2 * 3");
    InfixText(Add, Integer(1), Operator(Mult, Integer(2), Integer(3)), 0, Spaces(Tight, Spaces(Tight, Tight)), false, "1", "2 * 3", "1 + 2 * 3");
  }

  /** The second rendering of `TwoExpressions`. */
  lemma TwoExpressionsText2()
    ensures Print(Operator(Add, Operator(Mult, Integer(1), Integer(2)), Integer(3)), 0, Spaces(Spaces(Tight, Tight), Tight), false) == "1 * 2 + 3"
  {
    assert Print(Integer(1), 2, Tight, false) == "1";
    assert Print(Integer(2), 1, Tight, false) == "2";
    InfixText(Mult, Integer(1), Integer(2), 1, Spaces(Tight, Tight), false, "1", "2", "1 * 2");
    assert Print(Integer(3), 0, Tight, false) == "3";
    InfixText(Add, Operator(Mult, Integer(1), Integer(2)), Integer(3), 0, Spaces(Spaces(Tight, Tight), Tight), false, "1 * 2", "3", "1 * 2 + 3");
  }

  /** The rendering of `TwoExpressions`, joined by a space. */
  lemma TwoExpressionsText(es: seq<Expr>, sps: seq<Spacing>)
    requires es == [Operator(Add, Integer(1), Operator(Mult, Integer(2), Integer(3))), Operator(Add, Operator(Mult, Integer(1), Integer(2)), Integer(3))]
    requires sps == [Spaces(Tight, Spaces(Tight, Tight)), Spaces(Spaces(Tight, Tight), Tight)]
    ensures Joined(es, [Blank(" ")], sps, false) == "1 + 2 * 3 1 * 2 + 3"
    ensures forall i | 0 <= i < |sps| :: IsSpacing(sps[i])
    ensures Print(es[1], 0, sps[1], false)[0] != '-'
  {
    TwoExpressionsText1();
    TwoExpressionsText2();
    JoinedText(es, [Blank(" ")], sps, false, ["1 + 2 * 3", "1 * 2 + 3"], "1 + 2 * 3 1 * 2 + 3");
  }

  /** Two expressions separated by a space come back as a list of two. */
  lemma TwoExpressions()
    ensures Parse.Parse("1 + 2 * 3 1 * 2 + 3") == Some([Operator(Add, Integer(1), Operator(Mult, Integer(2), Integer(3))), Operator(Add, Operator(Mult, Integer(1), Integer(2)), Integer(3))])
  {
    var es := [Operator(Add, Integer(1), Operator(Mult, Integer(2), Integer(3))), Operator(Add, Operator(Mult, Integer(1), Integer(2)), Integer(3))];
    var sps := [Spaces(Tight, Spaces(Tight, Tight)), Spaces(Spaces(Tight, Tight), Tight)];
    TwoExpressionsText(es, sps);
    ParseJoined(es, [Blank(" ")], "", sps, false);
    assert "" + "1 + 2 * 3 1 * 2 + 3" == "1 + 2 * 3 1 * 2 + 3";
  }

  /** Two dice rolls separated by a space. */
  lemma TwoRolls()
    ensures Parse.Parse("1d6 1d6") == Some([Operator(Roll, Integer(1), Integer(6)), Operator(Roll, Integer(1), Integer(6))])
  {
    assert Print(Integer(1), 4, Tight, false) == "1";
    assert Print(Integer(6), 3, Tight, false) == "6";
    InfixText(Roll, Integer(1), Integer(6), 0, Tight, false, "1", "6", "1d6");
    JoinedText([Operator(Roll, Integer(1), Integer(6)), Operator(Roll, Integer(1), Integer(6))], [Blank(" ")], [Tight, Tight], false, ["1d6", "1d6"], "1d6 1d6");
    ParseJoined([Operator(Roll, Integer(1), Integer(6)), Operator(Roll, Integer(1), Integer(6))], [Blank(" ")], "", [Tight, Tight], false);
    assert "" + "1d6 1d6" == "1d6 1d6";
  }

  /** Two dice rolls separated by a bare comma. */
  lemma TwoRollsComma()
    ensures Parse.Parse("1d6,1d6") == Some([Operator(Roll, Integer(1), Integer(6)), Operator(Roll, Integer(1), Integer(6))])
  {
    assert Print(Integer(1), 4, Tight, false) == "1";
    assert Print(Integer(6), 3, Tight, false) == "6";
    InfixText(Roll, Integer(1), Integer(6), 0, Tight, false, "1", "6", "1d6");
    JoinedText([Operator(Roll, Integer(1), Integer(6)), Operator(Roll, Integer(1), Integer(6))], [CommaSep("", "")], [Tight, Tight], false, ["1d6", "1d6"], "1d6,1d6");
    ParseJoined([Operator(Roll, Integer(1), Integer(6)), Operator(Roll, Integer(1), Integer(6))], [CommaSep("", "")], "", [Tight, Tight], false);
    assert "" + "1d6,1d6" == "1d6,1d6";
  }

  /** Two dice rolls separated by a comma and a space. */
  lemma TwoRollsCommaSpace()
    ensures Parse.Parse("1d6, 1d6") == Some([Operator(Roll, Integer(1), Integer(6)), Operator(Roll, Integer(1), Integer(6))])
  {
    assert Print(Integer(1), 4, Tight, false) == "1";
    assert Print(Integer(6), 3, Tight, false) == "6";
    InfixText(Roll, Integer(1), Integer(6), 0, Tight, false, "1", "6", "1d6");
    JoinedText([Operator(Roll, Integer(1), Integer(6)), Operator(Roll, Integer(1), Integer(6))], [CommaSep("", " ")], [Tight, Tight], false, ["1d6", "1d6"], "1d6, 1d6");
    ParseJoined([Operator(Roll, Integer(1), Integer(6)), Operator(Roll, Integer(1), Integer(6))], [CommaSep("", " ")], "", [Tight, Tight], false);
    assert "" + "1d6, 1d6" == "1d6, 1d6";
  }

  /** An omitted dice count is one die. */
  lemma OmittedCount()
    ensures Parse.Parse("d6") == Some([Operator(Roll, Integer(1), Integer(6))])
  {
    assert Print(Integer(6), 3, Tight, true) == "6";
    TerseText(Integer(6), 0, Tight, "6", "d6");
    ParsePrinted(Operator(Roll, Integer(1), Integer(6)), "", Tight, true);
    assert "" + "d6" == "d6";
  }

  /** Two rolls with omitted counts. */
  lemma OmittedCounts()
    ensures Parse.Parse("d6 d6") == Some([Operator(Roll, Integer(1), Integer(6)), Operator(Roll, Integer(1), Integer(6))])
  {
    assert Print(Integer(6), 3, Tight, true) == "6";
    TerseText(Integer(6), 0, Tight, "6", "d6");
    JoinedText([Operator(Roll, Integer(1), Integer(6)), Operator(Roll, Integer(1), Integer(6))], [Blank(" ")], [Tight, Tight], true, ["d6", "d6"], "d6 d6");
    ParseJoined([Operator(Roll, Integer(1), Integer(6)), Operator(Roll, Integer(1), Integer(6))], [Blank(" ")], "", [Tight, Tight], true);
    assert "" + "d6 d6" == "d6 d6";
  }

  /** Trailing whitespace, a dangling operator and a leading zero are errors. */
  lemma Rejected()
    ensures Parse.Parse("1 ") == None
    ensures Parse.Parse("1+") == None
    ensures Parse.Parse("007") == None
  {
    ParseAccepts("1 ");
    assert !Space.AllSpace("1 ", 0, 2) by {
      assert !Space.IsSpace("1 "[0]);
    }
    ParseAccepts("1+");
    assert !Space.AllSpace("1+", 0, 2) by {
      assert !Space.IsSpace("1+"[0]);
    }
    LeadingZeroRejected("", "", "07");
    assert "" + "" + "0" + "07" == "007";
  }
}
