/**
 * The integer literal recogniser: an optional `-`, then either a single `0` or a digit
 * 1-9 followed by any digits; the collected text is converted as by `i64::from_str`,
 * and a value outside the i64 range is a parse failure.
 */
module Number {
  import opened Wrappers
  import opened Integers
  import Ast

  predicate IsDigit(c: char) { '0' <= c <= '9' }

  predicate IsNonZeroDigit(c: char) { '1' <= c <= '9' }

  predicate AllDigits(w: string)
  {
    forall i | 0 <= i < |w| :: IsDigit(w[i])
  }

  function DigitValue(c: char): nat
    requires IsDigit(c)
  {
    c as int - '0' as int
  }

  /** The value of a string of decimal digits, most significant first. */
  function DigitsValue(w: string): nat
    requires AllDigits(w)
  {
    if w == [] then 0 else DigitsValue(w[..|w| - 1]) * 10 + DigitValue(w[|w| - 1])
  }

  /** An unsigned literal: `0` alone, or no leading zero. */
  predicate IsUnsigned(u: string)
  {
    u == "0" || (|u| >= 1 && IsNonZeroDigit(u[0]) && AllDigits(u[1..]))
  }

  /** The text the literal grammar accepts, before conversion. */
  predicate IsLiteral(w: string)
  {
    IsUnsigned(w) || (|w| >= 1 && w[0] == '-' && IsUnsigned(w[1..]))
  }

  lemma UnsignedIsDigits(u: string)
    requires IsUnsigned(u)
    ensures |u| >= 1 && AllDigits(u)
  {
  }

  /** What `i64::from_str` makes of a literal, before the range check: negative only after `-`. */
  function LiteralValue(w: string): (v: int)
    requires IsLiteral(w)
    ensures v < 0 ==> w[0] == '-'
    ensures w[0] == '-' ==> v <= 0
  {
    if |w| >= 1 && w[0] == '-' then
      UnsignedIsDigits(w[1..]);
      0 - DigitsValue(w[1..])
    else
      UnsignedIsDigits(w);
      DigitsValue(w)
  }

  /** `s[p..q]` is a literal and no longer prefix of `s[p..]` is one. */
  ghost predicate LongestLiteral(s: string, p: nat, q: nat)
  {
    p < q <= |s| && IsLiteral(s[p..q]) &&
    forall q' | q < q' <= |s| :: !IsLiteral(s[p..q'])
  }

  lemma LongestLiteralUnique(s: string, p: nat, q1: nat, q2: nat)
    requires LongestLiteral(s, p, q1) && LongestLiteral(s, p, q2)
    ensures q1 == q2
  {
  }

  /** A literal starts with `-` or a digit. */
  lemma LiteralHead(w: string)
    requires IsLiteral(w)
    ensures |w| >= 1 && (w[0] == '-' || IsDigit(w[0]))
  {
  }

  /** Every character of a literal after the first is a digit. */
  lemma LiteralTail(w: string, i: nat)
    requires IsLiteral(w) && 1 <= i < |w|
    ensures IsDigit(w[i])
  {
    if IsUnsigned(w) {
      UnsignedIsDigits(w);
    } else {
      UnsignedIsDigits(w[1..]);
      assert w[i] == w[1..][i - 1];
    }
  }

  /** A literal followed by a non-digit (or by nothing) is the longest one there. */
  lemma LiteralBeforeNonDigit(s: string, p: nat, q: nat)
    requires p < q <= |s| && IsLiteral(s[p..q])
    requires q == |s| || !IsDigit(s[q])
    ensures LongestLiteral(s, p, q)
  {
    forall q' | q < q' <= |s|
      ensures !IsLiteral(s[p..q'])
    {
      var w := s[p..q'];
      assert w[q - p] == s[q];
      if IsLiteral(w) {
        LiteralTail(w, q - p);
      }
    }
  }

  /** A literal made of a zero, possibly negated, cannot be extended. */
  lemma ZeroCannotExtend(s: string, p: nat, q: nat)
    requires p < q <= |s| && (s[p..q] == "0" || s[p..q] == "-0")
    ensures LongestLiteral(s, p, q)
  {
    forall q' | q < q' <= |s|
      ensures !IsLiteral(s[p..q'])
    {
      var w := s[p..q'];
      assert w[..q - p] == s[p..q];
      if s[p..q] == "0" {
        assert w[0] == '0' && |w| >= 2;
      } else {
        assert w[0] == '-' && w[1] == '0' && |w| >= 3;
        assert w[1..][0] == '0' && |w[1..]| >= 2;
      }
    }
  }

  /** `one_of(b"0123456789").repeat(0..)`: the maximal run of digits from `p`. */
  function DigitRun(s: string, p: nat): (q: nat)
    requires p <= |s|
    ensures p <= q <= |s|
    ensures q == |s| || !IsDigit(s[q])
    decreases |s| - p
  {
    if p < |s| && IsDigit(s[p]) then DigitRun(s, p + 1) else p
  }

  lemma {:induction false} DigitRunIsDigits(s: string, p: nat)
    requires p <= |s|
    ensures AllDigits(s[p..DigitRun(s, p)])
    decreases |s| - p
  {
    if p < |s| && IsDigit(s[p]) {
      var q := DigitRun(s, p + 1);
      DigitRunIsDigits(s, p + 1);
      assert s[p..q] == [s[p]] + s[p + 1..q];
    }
  }

  /** The decimal value of the characters `s[i..j]`, read in place. */
  function DigitsAt(s: string, i: nat, j: nat): int
    requires i <= j <= |s|
    decreases j
  {
    if j == i then 0 else DigitsAt(s, i, j - 1) * 10 + (s[j - 1] as int - '0' as int)
  }

  lemma {:induction false} DigitsAtValue(s: string, i: nat, j: nat)
    requires i <= j <= |s| && AllDigits(s[i..j])
    ensures DigitsAt(s, i, j) == DigitsValue(s[i..j])
    decreases j
  {
    if j > i {
      assert s[i..j][..j - i - 1] == s[i..j - 1];
      assert s[i..j][j - i - 1] == s[j - 1];
      DigitsAtValue(s, i, j - 1);
    }
  }

  /**
   * `number()`, which is `integer()`: the longest literal at `p`, converted to i64.
   * Fails when there is no literal at `p`, or when its value does not fit i64;
   * there is no backtracking to a shorter literal.
   */
  function Number(s: string, p: nat): (r: Option<(Ast.Expr, nat)>)
    requires p <= |s|
    ensures r.Some? ==> r.value.0.Integer? && p < r.value.1 <= |s|
  {
    var start := if p < |s| && s[p] == '-' then p + 1 else p;
    var unsigned :=
      if start < |s| && IsNonZeroDigit(s[start]) then Some(DigitRun(s, start + 1))
      else if start < |s| && s[start] == '0' then Some(start + 1)
      else None;
    match unsigned
    case None => None
    case Some(q) =>
      var v := if start == p + 1 then 0 - DigitsAt(s, start, q) else DigitsAt(s, start, q);
      if InI64(v) then Some((Ast.Integer(v), q)) else None
  }

  /**
   * What `Number` recognises: on success the longest literal at `p` and its value; on
   * failure, no literal at `p` whose longest form fits i64.
   */
  lemma NumberIsLongestLiteral(s: string, p: nat)
    requires p <= |s|
    ensures var r := Number(s, p);
            && (r.Some? ==> LongestLiteral(s, p, r.value.1))
            && (r.Some? ==> r.value.0.value == LiteralValue(s[p..r.value.1]))
            && (r.None? ==> forall q | p < q <= |s| :: LongestLiteral(s, p, q) ==> !InI64(LiteralValue(s[p..q])))
  {
    var start := if p < |s| && s[p] == '-' then p + 1 else p;
    if start < |s| && (IsNonZeroDigit(s[start]) || s[start] == '0') {
      var q := if IsNonZeroDigit(s[start]) then DigitRun(s, start + 1) else start + 1;
      UnsignedAt(s, p, start, q);
      LiteralValueAt(s, p, start, q);
      assert forall q' | p < q' <= |s| :: LongestLiteral(s, p, q') ==> q' == q;
    } else {
      NoLiteralAt(s, p);
    }
  }

  /** The in-place value of the recognised text is its literal value. */
  lemma LiteralValueAt(s: string, p: nat, start: nat, q: nat)
    requires p <= start <= p + 1 && start < q <= |s|
    requires start == p + 1 <==> (p < |s| && s[p] == '-')
    requires IsLiteral(s[p..q]) && AllDigits(s[start..q])
    ensures LiteralValue(s[p..q]) == if start == p + 1 then 0 - DigitsAt(s, start, q) else DigitsAt(s, start, q)
  {
    DigitsAtValue(s, start, q);
    if start == p + 1 {
      assert s[p..q][1..] == s[start..q];
    } else {
      assert s[p..q] == s[start..q];
      assert s[p..q][0] == s[p];
    }
  }

  /** The text recognised by the grammar is the longest literal at `p`. */
  lemma UnsignedAt(s: string, p: nat, start: nat, q: nat)
    requires p <= start <= p + 1 && start < q <= |s|
    requires start == p + 1 <==> (p < |s| && s[p] == '-')
    requires (IsNonZeroDigit(s[start]) && q == DigitRun(s, start + 1)) ||
             (s[start] == '0' && q == start + 1)
    ensures LongestLiteral(s, p, q)
  {
    var w := s[p..q];
    if s[start] == '0' {
      assert s[start..q] == "0";
      if start == p + 1 {
        assert w == "-0";
      } else {
        assert w == "0";
      }
      ZeroCannotExtend(s, p, q);
    } else {
      DigitRunIsDigits(s, start + 1);
      var u := s[start..q];
      assert u[1..] == s[start + 1..q];
      assert IsUnsigned(u);
      if start == p + 1 {
        assert w[1..] == u;
      } else {
        assert w == u;
      }
      LiteralBeforeNonDigit(s, p, q);
    }
  }

  /**
   * Without a digit at `p` (after an optional `-`) there is no literal: `+5`, a lone `-`
   * and a letter all fail.
   */
  lemma NumberNeedsDigit(s: string, p: nat)
    requires p <= |s|
    requires var start := if p < |s| && s[p] == '-' then p + 1 else p;
             start == |s| || !IsDigit(s[start])
    ensures Number(s, p) == None
  {
    NoLiteralAt(s, p);
  }

  /** No literal starts at `p` when the grammar finds no digit there. */
  lemma NoLiteralAt(s: string, p: nat)
    requires p <= |s|
    requires var start := if p < |s| && s[p] == '-' then p + 1 else p;
             !(start < |s| && (IsNonZeroDigit(s[start]) || s[start] == '0'))
    ensures forall q | p < q <= |s| :: !IsLiteral(s[p..q])
  {
    forall q | p < q <= |s|
      ensures !IsLiteral(s[p..q])
    {
      var w := s[p..q];
      assert w[0] == s[p];
      assert |w| >= 2 ==> w[1..][0] == s[p + 1];
    }
  }
}
