/**
 * The evaluation result and its rendering: `Integer(n)` is shown as the decimal digits
 * of `n`, with a leading `-` when `n` is negative. The literal parser reads every
 * rendering back as the same value.
 */
module EvalOutput {
  import opened Integers
  import opened Wrappers
  import Number
  import Ast

  /** The only kind of result so far. */
  datatype Output = Integer(value: I64)

  function DigitChar(d: nat): (c: char)
    requires d < 10
    ensures Number.IsDigit(c) && Number.DigitValue(c) == d
  {
    ('0' as int + d) as char
  }

  /** The decimal digits of `n`, most significant first. */
  function NatDigits(n: nat): (w: string)
    ensures |w| >= 1 && Number.IsDigit(w[0])
    decreases n
  {
    if n < 10 then [DigitChar(n)] else NatDigits(n / 10) + [DigitChar(n % 10)]
  }

  /** The digits are a decimal numeral for `n`, with a leading `0` only for `n == 0`. */
  lemma {:induction false} NatDigitsValue(n: nat)
    ensures var w := NatDigits(n);
            && Number.AllDigits(w) && Number.DigitsValue(w) == n
            && (w[0] == '0' ==> n == 0 && w == "0")
    decreases n
  {
    if n >= 10 {
      NatDigitsValue(n / 10);
      var w := NatDigits(n);
      assert w[..|w| - 1] == NatDigits(n / 10);
    }
  }

  /** `format!("{}", n)` for a signed integer: a `-` first exactly for negative numbers. */
  function Decimal(n: int): (w: string)
    ensures |w| >= 1
    ensures w[0] == '-' <==> n < 0
  {
    if n < 0 then "-" + NatDigits(-n) else NatDigits(n)
  }

  /** The rendering is a literal of the grammar whose value is `n`, signed exactly when negative. */
  lemma DecimalIsLiteral(n: int)
    ensures var w := Decimal(n);
            && Number.IsLiteral(w) && Number.LiteralValue(w) == n
            && (w[0] == '-' <==> n < 0)
            && (w[0] == '0' ==> w == "0")
  {
    var w := Decimal(n);
    if n < 0 {
      NatDigitsValue(-n);
      assert w[1..] == NatDigits(-n);
    } else {
      NatDigitsValue(n);
    }
  }

  /**
   * `Display for Output`: a literal the grammar accepts (digits, no leading zero except
   * `"0"` itself, `-` first exactly when negative) whose value is the result.
   */
  function Display(o: Output): (text: string)
    ensures Number.IsLiteral(text) && Number.LiteralValue(text) == o.value
    ensures text[0] == '-' <==> o.value < 0
    ensures forall i | 1 <= i < |text| :: Number.IsDigit(text[i])
    ensures text[0] == '0' ==> text == "0"
  {
    var text := Decimal(o.value);
    DecimalIsLiteral(o.value);
    forall i | 1 <= i < |text|
      ensures Number.IsDigit(text[i])
    {
      Number.LiteralTail(text, i);
    }
    text
  }

  /** A rendering inside a larger input, followed by a non-digit, parses back to its value. */
  lemma DecimalParsesBack(s: string, p: nat, n: I64)
    requires p + |Decimal(n)| <= |s| && s[p..p + |Decimal(n)|] == Decimal(n)
    requires p + |Decimal(n)| == |s| || !Number.IsDigit(s[p + |Decimal(n)|])
    ensures Number.Number(s, p) == Some((Ast.Integer(n), p + |Decimal(n)|))
  {
    var q := p + |Decimal(n)|;
    DecimalIsLiteral(n);
    Number.LiteralBeforeNonDigit(s, p, q);
    Number.NumberIsLongestLiteral(s, p);
    var r := Number.Number(s, p);
    if r.Some? {
      Number.LongestLiteralUnique(s, p, q, r.value.1);
    }
  }

  /** Round trip: the literal parser reads the whole rendering of any i64 back. */
  lemma DisplayRoundTrip(n: I64)
    ensures var text := Display(Integer(n));
            Number.Number(text, 0) == Some((Ast.Integer(n), |text|))
  {
    var text := Display(Integer(n));
    assert text[0..|text|] == text;
    DecimalParsesBack(text, 0, n);
  }
}
