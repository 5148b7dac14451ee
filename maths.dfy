/**
 * The checked arithmetic on i64: every operation returns a `Result`, and `divide` and
 * `power` have one domain error each. Overflow, which panics in the source, is excluded
 * by preconditions. `roll` sums dice drawn from a random source passed in by reference.
 */
module Maths {
  import opened Integers
  import opened Wrappers
  import opened EvalError
  import Random
  import Dice

  /** `add`: always `Ok` with the sum. */
  function Add(left: I64, right: I64): (r: Result<I64, Error>)
    requires InI64(left + right)
    ensures r.Ok? && r.value == left + right
  {
    Ok(left + right)
  }

  /** `sub`: always `Ok` with the difference. */
  function Sub(left: I64, right: I64): (r: Result<I64, Error>)
    requires InI64(left - right)
    ensures r.Ok? && r.value == left - right
  {
    Ok(left - right)
  }

  /** `mult`: always `Ok` with the product. */
  function Mult(left: I64, right: I64): (r: Result<I64, Error>)
    requires InI64(left * right)
    ensures r.Ok? && r.value == left * right
  {
    Ok(left * right)
  }

  /**
   * `divide`: `DivideByZero` exactly when `right` is zero, and otherwise the quotient
   * rounded toward zero. `I64_MIN / -1` overflows and is excluded.
   */
  function Divide(left: I64, right: I64): (r: Result<I64, Error>)
    requires !(left == I64_MIN && right == -1)
    ensures r.Err? <==> right == 0
    ensures r.Err? ==> r.error == DivideByZero
    ensures r.Ok? ==> IsTruncQuotient(left, right, r.value)
  {
    if right == 0 then
      Err(DivideByZero)
    else
      TruncDivInI64(left, right);
      TruncDivIsTruncQuotient(left, right);
      Ok(TruncDiv(left, right))
  }

  /**
   * `power`: `NegativePowerNotImplemented` exactly when `right` is negative, and
   * otherwise `left` raised to `right as u32`, the exponent's low 32 bits.
   */
  function Power(left: I64, right: I64): (r: Result<I64, Error>)
    requires right >= 0 ==> InI64(IPow(left, AsU32(right)))
    ensures r.Err? <==> right < 0
    ensures r.Err? ==> r.error == NegativePowerNotImplemented
    ensures r.Ok? ==> r.value == IPow(left, AsU32(right))
  {
    if right < 0 then
      Err(NegativePowerNotImplemented)
    else
      Ok(IPow(left, AsU32(right)))
  }

  /** Subtraction undoes addition. */
  lemma SubUndoesAdd(a: I64, b: I64)
    requires InI64(a + b)
    ensures Sub(Add(a, b).value, b) == Ok(a)
  {
  }

  /** Division by a non-zero factor undoes multiplication exactly. */
  lemma DivideUndoesMult(a: I64, b: I64)
    requires InI64(a * b) && b != 0
    ensures !(a * b == I64_MIN && b == -1)
    ensures Divide(Mult(a, b).value, b) == Ok(a)
  {
    if b == -1 {
      MulNegOne(a);
    }
    assert IsTruncQuotient(a * b, b, a) by {
      assert a * b - a * b == 0;
    }
    TruncQuotientUnique(a * b, b, a);
  }

  lemma MulNegOne(a: int)
    ensures a * -1 == -a
  {
  }

  /** Any exponent gives `1` on the base `1`, and the exponent `0` gives `1` on any base. */
  lemma PowerOfOneAndZero(left: I64, right: I64)
    ensures right >= 0 ==> IPow(1, AsU32(right)) == 1
    ensures right >= 0 ==> Power(1, right) == Ok(1)
    ensures Power(left, 0) == Ok(1)
  {
    if right >= 0 {
      IPowOne(AsU32(right));
    }
  }

  lemma {:induction false} IPowOne(n: nat)
    ensures IPow(1, n) == 1
  {
    if n > 0 {
      IPowOne(n - 1);
    }
  }

  /** Below `2^32`, one more in the exponent is one more factor of the base. */
  lemma PowerStep(left: I64, n: I64)
    requires 0 <= n < U32_MODULUS - 1
    requires InI64(IPow(left, n)) && InI64(IPow(left, n + 1))
    ensures Power(left, n + 1).value == left * Power(left, n).value
  {
  }

  /** Exponents that agree in their low 32 bits give the same power. */
  lemma PowerExponentWraps(left: I64, right: I64)
    requires right >= 0 && InI64(right + U32_MODULUS) && InI64(IPow(left, AsU32(right)))
    ensures Power(left, right + U32_MODULUS) == Power(left, right)
  {
  }

  /**
   * The exponent law that `power` is evidently meant to satisfy fails for exponents of
   * `2^32` and more: `0` to the power `2^32` gives `1`, yet `0` to the power `2^31`,
   * squared, gives `0`.
   */
  lemma PowerBreaksExponentLaw()
    ensures Power(0, U32_MODULUS) == Ok(1)
    ensures Power(0, U32_MODULUS / 2) == Ok(0)
    ensures Power(0, U32_MODULUS).value != Power(0, U32_MODULUS / 2).value * Power(0, U32_MODULUS / 2).value
  {
    assert AsU32(U32_MODULUS) == 0;
  }

  /**
   * `power` with the whole exponent, as intended: `NegativePowerNotImplemented` exactly
   * when `right` is negative, and otherwise `left` raised to `right`.
   */
  function PowerChecked(left: I64, right: I64): (r: Result<I64, Error>)
    requires right >= 0 ==> InI64(IPow(left, right))
    ensures r.Err? <==> right < 0
    ensures r.Err? ==> r.error == NegativePowerNotImplemented
    ensures r.Ok? ==> r.value == IPow(left, right)
  {
    if right < 0 then Err(NegativePowerNotImplemented) else Ok(IPow(left, right))
  }

  /** `PowerChecked` agrees with `power` wherever the exponent fits in 32 bits. */
  lemma PowerCheckedAgrees(left: I64, right: I64)
    requires right < U32_MODULUS
    requires right >= 0 ==> InI64(IPow(left, right))
    ensures Power(left, right) == PowerChecked(left, right)
  {
  }

  /** `PowerChecked` keeps the exponent law for every pair of exponents. */
  lemma PowerCheckedExponentLaw(left: I64, m: I64, n: I64)
    requires m >= 0 && n >= 0 && InI64(m + n)
    requires InI64(IPow(left, m)) && InI64(IPow(left, n)) && InI64(IPow(left, m + n))
    ensures PowerChecked(left, m + n).value == PowerChecked(left, m).value * PowerChecked(left, n).value
  {
    IPowAdd(left, m, n);
  }

  lemma {:induction false} IPowAdd(x: int, m: nat, n: nat)
    ensures IPow(x, m + n) == IPow(x, m) * IPow(x, n)
    decreases n
  {
    if n > 0 {
      IPowAdd(x, m, n - 1);
      assert IPow(x, m + n) == x * IPow(x, m + n - 1);
      assert IPow(x, n) == x * IPow(x, n - 1);
      assert x * (IPow(x, m) * IPow(x, n - 1)) == IPow(x, m) * (x * IPow(x, n - 1));
    }
  }

  /**
   * `roll`: the sum, in loop order, of `num_die` dice drawn from `rng`; never an error.
   * No dice, and no draws, when `num_die` is not positive; no draws either for dice
   * without sides. Every running total must fit in i64, and `-num_sides` must too.
   */
  method Roll(rng: Random.Rng, numDie: I64, numSides: I64) returns (r: Result<I64, Error>)
    requires numDie <= 0 || numSides != I64_MIN
    requires Dice.SumsWithin(rng.seed, rng.draws, Dice.Count(numDie), numSides, I64_MIN, I64_MAX)
    modifies rng
    ensures r == Ok(Dice.DiceTotal(rng.seed, old(rng.draws), Dice.Count(numDie), numSides))
    ensures rng.draws == old(rng.draws) + Dice.Draws(numDie, numSides)
  {
    var seed, start := rng.seed, rng.draws;
    var total: I64 := 0;
    var i: I64 := 0;
    while i < numDie
      invariant 0 <= i <= Dice.Count(numDie)
      invariant rng.seed == seed && rng.draws == start + Dice.Draws(i, numSides)
      invariant total == Dice.DiceTotal(seed, start, i, numSides)
    {
      var die := RollOne(rng, numSides);
      var next := total + die;
      assert next == Dice.DiceTotal(seed, start, i + 1, numSides);
      total := next;
      i := i + 1;
    }
    r := Ok(total);
  }

  /**
   * `roll_one`: one die from the next draw, `0` without a draw for zero sides; in
   * `[1, num_sides]` or `[num_sides, -1]` otherwise.
   */
  method RollOne(rng: Random.Rng, numSides: I64) returns (v: I64)
    requires numSides != I64_MIN
    modifies rng
    ensures v == Dice.OneDie(rng.seed, old(rng.draws), numSides)
    ensures rng.draws == old(rng.draws) + (if numSides == 0 then 0 else 1)
  {
    if numSides == 0 {
      v := 0;
    } else if numSides < 0 {
      var x := rng.GenRange(-numSides);
      v := -x - 1;
    } else {
      var x := rng.GenRange(numSides);
      v := x + 1;
    }
  }
}
