/** Numeric constants and scalar helpers shared by every part of the renderer
    (include/global.h, global.h). Doubles are modelled as exact reals. */
module Global {
  /** Tolerances of the renderer. */
  const EPS_UNIT: real := 0.0001
  const EPS_DEUX: real := 0.00000001
  const EPS_QUAT: real := 0.0000000000000001

  /** M_PI, written out to the precision of a double. */
  const PI: real := 3.141592653589793

  /** std::min(a, b): returns a unless b < a. */
  function Min(a: real, b: real): real { if b < a then b else a }

  /** std::max(a, b): returns a unless a < b. */
  function Max(a: real, b: real): real { if a < b then b else a }

  function Abs(a: real): real { if a < 0.0 then -a else a }

  /** `r` is the value std::sqrt returns for `x` (the real square root). */
  predicate IsSqrt(r: real, x: real) { r >= 0.0 && r * r == x }

  /** static_cast<int>(x): truncation toward zero. */
  function Trunc(x: real): int {
    if x >= 0.0 then x.Floor else -((-x).Floor)
  }

  /** The C++ remainder `a % b`, which takes the sign of the dividend. */
  function CRem(a: int, b: int): int
    requires b != 0
  {
    if a >= 0 then a % b else -((-a) % b)
  }

  lemma TruncBounds(x: real)
    ensures x >= 0.0 ==> 0 <= Trunc(x) && Trunc(x) as real <= x < Trunc(x) as real + 1.0
    ensures x < 0.0 ==> Trunc(x) <= 0 && Trunc(x) as real - 1.0 < x <= Trunc(x) as real
  {
  }

  /** Truncation is monotone: a larger argument never truncates to a smaller integer. */
  lemma TruncMonotone(x: real, y: real)
    requires x <= y
    ensures Trunc(x) <= Trunc(y)
  {
    TruncBounds(x);
    TruncBounds(y);
  }

  /** `a % 2 == 0` in C++ holds exactly for even a, negative or not, although the
      C++ remainder of an odd negative number is -1. */
  lemma CRemParity(a: int)
    ensures CRem(a, 2) == 0 <==> a % 2 == 0
    ensures a < 0 && a % 2 == 1 ==> CRem(a, 2) == -1
  {
  }

  /** A positive square root belongs to a positive square. */
  lemma RootPositive(r: real, x: real)
    requires r > 0.0 && IsSqrt(r, x)
    ensures x > 0.0
  {
    PositiveProduct(r, r, x);
  }

  lemma PositiveProduct(a: real, b: real, p: real)
    requires a == b && a != 0.0 && p == a * b
    ensures p > 0.0
  {
    if a < 0.0 { assert (-a) * (-b) > 0.0; } else { assert a * b > 0.0 * b; }
  }
}
