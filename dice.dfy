/**
 * Dice arithmetic shared by both `roll` loops: what one die shows for a draw, how many
 * draws a roll takes, and the total of a roll as a function of the seed and of the
 * number of draws taken before it.
 */
module Dice {
  import opened Integers
  import Random

  /**
   * `roll_one` given the draw `x` from `[0, |sides|)`: no die for zero sides, `x + 1`
   * for positive sides, and `-x - 1` for negative sides.
   */
  function DieValue(sides: int, x: int): (v: int)
    ensures sides > 0 && 0 <= x < sides ==> 1 <= v <= sides
    ensures sides < 0 && 0 <= x < -sides ==> sides <= v <= -1
    ensures sides == 0 ==> v == 0
  {
    if sides == 0 then 0 else if sides < 0 then -x - 1 else x + 1
  }

  /** The die at draw `index`: in `[1, sides]`, in `[sides, -1]`, or `0` for no sides. */
  function OneDie(seed: U64, index: nat, sides: int): (v: int)
    ensures sides == 0 ==> v == 0
    ensures sides > 0 ==> 1 <= v <= sides
    ensures sides < 0 ==> sides <= v <= -1
  {
    if sides == 0 then 0 else DieValue(sides, Random.Sample(seed, index, Abs(sides)))
  }

  /** `for _ in 0..num_die` runs `num_die` times, or not at all when it is not positive. */
  function Count(numDie: int): nat
  {
    if numDie <= 0 then 0 else numDie
  }

  /** Draws taken by a roll: one per die, none for dice without sides. */
  function Draws(numDie: int, sides: int): nat
  {
    if sides == 0 then 0 else Count(numDie)
  }

  /**
   * The sum of the first `n` dice of a roll whose first die takes draw `start`: at least
   * `n` for positive sides, at most `-n` for negative sides, and `0` without sides.
   */
  function DiceTotal(seed: U64, start: nat, n: nat, sides: int): (t: int)
    ensures sides > 0 ==> t >= n
    ensures sides < 0 ==> t <= -(n as int)
    ensures sides == 0 ==> t == 0
    decreases n
  {
    if n == 0 then 0 else DiceTotal(seed, start, n - 1, sides) + OneDie(seed, start + n - 1, sides)
  }

  /**
   * `n` dice total in `[n, n * sides]` for positive sides and in `[n * sides, -n]` for
   * negative sides; dice without sides total `0`.
   */
  lemma {:induction false} DiceTotalBounds(seed: U64, start: nat, n: nat, sides: int)
    ensures var t := DiceTotal(seed, start, n, sides);
            && (sides > 0 ==> n <= t <= n * sides)
            && (sides < 0 ==> n * sides <= t <= -(n as int))
            && (sides == 0 ==> t == 0)
    decreases n
  {
    if n > 0 {
      DiceTotalBounds(seed, start, n - 1, sides);
      var before, last := DiceTotal(seed, start, n - 1, sides), OneDie(seed, start + n - 1, sides);
      assert DiceTotal(seed, start, n, sides) == before + last;
      MulStep(n, sides);
    }
  }

  lemma MulStep(n: nat, x: int)
    requires n > 0
    ensures n * x == (n - 1) * x + x
  {
  }

  /** Every running total of the loop, after `k <= n` dice, lies in `[lo, hi]`. */
  predicate SumsWithin(seed: U64, start: nat, n: nat, sides: int, lo: int, hi: int)
  {
    forall k | 0 <= k <= n :: lo <= DiceTotal(seed, start, k, sides) <= hi
  }

  /** `k` dice of `|sides|` sides total at most `k * |sides|` in absolute value. */
  lemma DiceTotalAbs(seed: U64, start: nat, k: nat, sides: int)
    ensures Abs(DiceTotal(seed, start, k, sides)) <= k * Abs(sides)
  {
    DiceTotalBounds(seed, start, k, sides);
    if sides < 0 {
      MulNegate(k, sides);
    }
  }

  lemma MulNegate(k: int, x: int)
    ensures k * -x == -(k * x)
  {
  }

  lemma MulMonotone(k: nat, n: nat, a: nat)
    requires k <= n
    ensures k * a <= n * a
  {
    assert n * a == k * a + (n - k) * a;
  }

  /** No running total overflows when `n` dice of `|sides|` cannot exceed the bounds. */
  lemma SumsWithinByBound(seed: U64, start: nat, n: nat, sides: int, lo: int, hi: int)
    requires lo <= -(n * Abs(sides)) && n * Abs(sides) <= hi
    ensures SumsWithin(seed, start, n, sides, lo, hi)
  {
    forall k | 0 <= k <= n
      ensures lo <= DiceTotal(seed, start, k, sides) <= hi
    {
      DiceTotalAbs(seed, start, k, sides);
      MulMonotone(k, n, Abs(sides));
    }
  }

  /** A roll of `n + m` dice totals a roll of `n` dice plus a roll of `m` dice taken after it. */
  lemma {:induction false} DiceTotalShift(seed: U64, start: nat, n: nat, m: nat, sides: int)
    ensures DiceTotal(seed, start, n + m, sides)
            == DiceTotal(seed, start, n, sides) + DiceTotal(seed, start + n, m, sides)
    decreases m
  {
    if m > 0 {
      DiceTotalShift(seed, start, n, m - 1, sides);
      var last := OneDie(seed, start + n + m - 1, sides);
      assert DiceTotal(seed, start, n + m, sides) == DiceTotal(seed, start, n + m - 1, sides) + last;
      assert DiceTotal(seed, start + n, m, sides) == DiceTotal(seed, start + n, m - 1, sides) + last;
    }
  }
}
