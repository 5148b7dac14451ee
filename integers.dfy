/**
 * Machine integers of the source (i32, i64, u64) as ranges of mathematical integers,
 * and the Rust integer operations whose meaning differs from Dafny's own:
 * truncating division, `as u32` and `pow`.
 */
module Integers {

  const I64_MIN: int := -0x8000_0000_0000_0000
  const I64_MAX: int := 0x7FFF_FFFF_FFFF_FFFF
  const I32_MIN: int := -0x8000_0000
  const I32_MAX: int := 0x7FFF_FFFF
  const U32_MODULUS: int := 0x1_0000_0000
  const U64_MODULUS: int := 0x1_0000_0000_0000_0000

  predicate InI64(x: int) { I64_MIN <= x <= I64_MAX }
  predicate InI32(x: int) { I32_MIN <= x <= I32_MAX }

  type I64 = x: int | I64_MIN <= x <= I64_MAX
  type I32 = x: int | I32_MIN <= x <= I32_MAX
  type U64 = x: int | 0 <= x < U64_MODULUS

  function Abs(x: int): nat { if x < 0 then -x else x }

  /** Rust's `x as u32` on a signed integer: keeps the low 32 bits. */
  function AsU32(x: int): (r: nat)
    ensures r < U32_MODULUS
    ensures 0 <= x < U32_MODULUS ==> r == x
    ensures -U32_MODULUS <= x < 0 ==> r == x + U32_MODULUS
  {
    x % U32_MODULUS
  }

  /**
   * Rust's `/` on signed integers: the quotient rounded toward zero. It is never larger
   * than the dividend, is zero when the divisor is larger, and is negative only when
   * exactly one operand is.
   */
  function TruncDiv(a: int, b: int): (q: int)
    requires b != 0
    ensures Abs(q) <= Abs(a)
    ensures Abs(a) < Abs(b) ==> q == 0
    ensures q != 0 ==> (q < 0 <==> (a < 0) != (b < 0))
  {
    var m := Abs(a) / Abs(b);
    DivBounds(Abs(a), Abs(b));
    DivSmall(Abs(a), Abs(b));
    if (a < 0) == (b < 0) then m else -m
  }

  /**
   * What "quotient truncated toward zero" means, independently of how it is computed:
   * the remainder is smaller than the divisor and is zero or has the dividend's sign.
   */
  predicate IsTruncQuotient(a: int, b: int, q: int)
  {
    var r := a - q * b;
    Abs(r) < Abs(b) && (r == 0 || (r < 0 <==> a < 0))
  }

  lemma {:induction false} MulAtLeast(q: nat, b: nat, k: nat)
    requires b >= k
    ensures q * b >= k * q
  {
    assert q * b - k * q == q * (b - k);
  }

  lemma DivBounds(A: nat, B: nat)
    requires B > 0
    ensures A / B <= A
    ensures B >= 2 ==> 2 * (A / B) <= A
  {
    var Q: nat := A / B;
    assert Q * B <= A;
    MulAtLeast(Q, B, 1);
    if B >= 2 {
      MulAtLeast(Q, B, 2);
    }
  }

  lemma SignedProduct(Q: int, B: int, q: int, b: int)
    requires (q == Q || q == -Q) && (b == B || b == -B)
    ensures q * b == (if (q == Q) == (b == B) then Q * B else -(Q * B))
  {
  }

  /** The remainder left by `TruncDiv`: `Abs(a) % Abs(b)`, with the sign of `a`. */
  lemma TruncRemainder(a: int, b: int)
    requires b != 0
    ensures a - TruncDiv(a, b) * b == (if a < 0 then -(Abs(a) % Abs(b)) else Abs(a) % Abs(b))
  {
    var A: int, B: int := Abs(a), Abs(b);
    var Q: int, R: int := A / B, A % B;
    assert A == Q * B + R;
    var q := TruncDiv(a, b);
    SignedProduct(Q, B, q, b);
  }

  lemma TruncDivAbs(a: int, b: int)
    requires b != 0
    ensures Abs(TruncDiv(a, b)) == Abs(a) / Abs(b) <= Abs(a)
  {
    DivBounds(Abs(a), Abs(b));
  }

  lemma DivSmall(A: nat, B: nat)
    requires B > 0
    ensures A < B ==> A / B == 0
  {
    var Q: nat := A / B;
    assert Q * B <= A;
    if A < B && Q > 0 {
      MulAtLeast(B, Q, 1);
      assert false;
    }
  }

  lemma ModBounds(A: nat, B: nat)
    requires B > 0
    ensures 0 <= A % B < B
  {
  }

  lemma TruncDivIsTruncQuotient(a: int, b: int)
    requires b != 0
    ensures IsTruncQuotient(a, b, TruncDiv(a, b))
    ensures Abs(TruncDiv(a, b)) <= Abs(a)
  {
    TruncDivAbs(a, b);
    ModBounds(Abs(a), Abs(b));
    TruncRemainder(a, b);
  }

  lemma MulAbsAtLeast(d: int, b: int)
    requires d != 0
    ensures Abs(d * b) >= Abs(b)
  {
    MulAtLeast(Abs(d), Abs(b), 0);
    assert Abs(d * b) == Abs(d) * Abs(b);
    MulAtLeast(Abs(b), Abs(d), 1);
  }

  lemma Distribute(q: int, q0: int, b: int)
    ensures (q - q0) * b == q * b - q0 * b
  {
  }

  /** The truncating quotient is the only one with the properties of `IsTruncQuotient`. */
  lemma TruncQuotientUnique(a: int, b: int, q: int)
    requires b != 0
    requires IsTruncQuotient(a, b, q)
    ensures q == TruncDiv(a, b)
  {
    var q0 := TruncDiv(a, b);
    TruncDivIsTruncQuotient(a, b);
    Distribute(q, q0, b);
    if q != q0 {
      MulAbsAtLeast(q - q0, b);
    }
  }

  /** The only i64 division that overflows is `I64_MIN / -1`. */
  lemma TruncDivInI64(a: int, b: int)
    requires InI64(a) && b != 0 && !(a == I64_MIN && b == -1)
    ensures InI64(TruncDiv(a, b))
  {
    TruncDivIsTruncQuotient(a, b);
    DivBounds(Abs(a), Abs(b));
  }

  lemma TruncDivInI32(a: int, b: int)
    requires InI32(a) && b != 0 && !(a == I32_MIN && b == -1)
    ensures InI32(TruncDiv(a, b))
  {
    TruncDivIsTruncQuotient(a, b);
    DivBounds(Abs(a), Abs(b));
  }

  /** Rust's `base.pow(exp)` without overflow: repeated multiplication; positive for positive bases. */
  function IPow(base: int, exp: nat): (r: int)
    ensures base > 0 ==> r > 0
    ensures base == 0 && exp > 0 ==> r == 0
    decreases exp
  {
    if exp == 0 then 1 else base * IPow(base, exp - 1)
  }
}
