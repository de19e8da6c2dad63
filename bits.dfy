/** Bitwise operators on C++ `int`, bit by bit: bit 0 of a value is its
    remainder mod 2 and a right shift is division by 2 rounding down, which is
    what an arithmetic shift does on two's complement. The `width` low bits
    are combined (32 for `int`). */
module Bits {
  function Pow2(n: nat): (r: nat)
    ensures r >= 1
  {
    if n == 0 then 1 else 2 * Pow2(n - 1)
  }

  /** x & y on the low `width` bits. */
  function And(x: int, y: int, width: nat): int
    decreases width
  {
    if width == 0 then 0 else (x % 2) * (y % 2) + 2 * And(x / 2, y / 2, width - 1)
  }

  /** x ^ y on the low `width` bits. */
  function Xor(x: int, y: int, width: nat): int
    decreases width
  {
    if width == 0 then 0 else (x % 2 + y % 2) % 2 + 2 * Xor(x / 2, y / 2, width - 1)
  }

  /** Euclidean division has one quotient and one remainder. */
  lemma RemainderUnique(x: int, d: int, q: int, r: int)
    requires d > 0 && x == d * q + r && 0 <= r < d
    ensures x % d == r && x / d == q
  {
    var q' := x / d;
    var r' := x % d;
    assert d * (q - q') == r' - r;
    if q - q' >= 1 {
      MulAtLeast(d, q - q');
    } else if q - q' <= -1 {
      MulAtLeast(d, q' - q);
    }
  }

  lemma MulAtLeast(d: int, k: int)
    requires d > 0 && k >= 1
    ensures d * k >= d
  {
    assert d * k - d == d * (k - 1);
  }

  /** The remainder mod 2^n splits into bit 0 and the remainder of the shifted
      value mod 2^(n-1). */
  lemma ModStep(x: int, n: nat)
    requires n > 0
    ensures x % Pow2(n) == x % 2 + 2 * ((x / 2) % Pow2(n - 1))
  {
    var p := Pow2(n - 1);
    var q := x / 2;
    var b := x % 2;
    var s := q % p;
    var t := q / p;
    assert q == p * t + s;
    assert x == (2 * p) * t + (2 * s + b);
    RemainderUnique(x, 2 * p, t, 2 * s + b);
  }

  /** With a mask of n one bits, AND keeps the value mod 2^n, negative values
      included. */
  lemma {:induction false} AndLowOnes(x: int, n: nat, width: nat)
    requires n <= width
    ensures And(x, Pow2(n) - 1, width) == x % Pow2(n)
    decreases n
  {
    if n == 0 {
      AndZero(x, width);
    } else {
      var m := Pow2(n) - 1;
      assert m % 2 == 1 && m / 2 == Pow2(n - 1) - 1;
      AndLowOnes(x / 2, n - 1, width - 1);
      ModStep(x, n);
    }
  }

  lemma {:induction false} AndZero(x: int, width: nat)
    ensures And(x, 0, width) == 0
    decreases width
  {
    if width > 0 {
      AndZero(x / 2, width - 1);
    }
  }

  lemma Pow2Eight()
    ensures Pow2(8) == 256
  {
  }

  /** x & 255 on an `int` is x mod 256, in [0, 255]. */
  lemma Low8(x: int)
    ensures And(x, 255, 32) == x % 256
    ensures 0 <= And(x, 255, 32) < 256
  {
    Pow2Eight();
    AndLowOnes(x, 8, 32);
  }

  /** The XOR of two values below 2^n stays below 2^n. */
  lemma {:induction false} XorBelow(a: int, b: int, n: nat, width: nat)
    requires 0 <= a < Pow2(n) && 0 <= b < Pow2(n)
    ensures 0 <= Xor(a, b, width) < Pow2(n)
    decreases width
  {
    if width > 0 {
      if n == 0 {
        XorBelow(a / 2, b / 2, 0, width - 1);
      } else {
        XorBelow(a / 2, b / 2, n - 1, width - 1);
      }
    }
  }
}
