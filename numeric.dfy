/** Real-number helpers shared by the curve programs and the ray tracer:
    Python's ** with an integer exponent, and clamping to an interval. */
module Numeric {

  /** x raised to an integer power, as Python's ** on a float and an int; a
      negative power of zero is undefined (ZeroDivisionError on a Python
      float, inf under NumPy), so it is excluded. */
  function Pow(x: real, e: int): real
    requires e >= 0 || x != 0.0
    decreases if e >= 0 then e else -e
  {
    if e == 0 then 1.0
    else if e > 0 then x * Pow(x, e - 1)
    else Pow(x, e + 1) / x
  }

  lemma {:induction false} PowNonNegative(x: real, e: nat)
    requires x >= 0.0
    ensures Pow(x, e) >= 0.0
  {
    if e > 0 {
      PowNonNegative(x, e - 1);
    }
  }

  lemma {:induction false} PowZero(e: nat)
    requires e > 0
    ensures Pow(0.0, e) == 0.0
  {
  }

  lemma {:induction false} PowOne(e: nat)
    ensures Pow(1.0, e) == 1.0
  {
    if e > 0 {
      PowOne(e - 1);
    }
  }

  lemma ProductNonNegative(a: real, b: real)
    ensures a >= 0.0 && b >= 0.0 ==> a * b >= 0.0
  {
  }

  /** numpy's clip of one value to [lo, hi]. */
  function Clamp(v: real, lo: real, hi: real): (r: real)
    requires lo <= hi
    ensures lo <= r <= hi
    ensures lo <= v <= hi ==> r == v
    ensures v < lo ==> r == lo
    ensures v > hi ==> r == hi
  {
    if v < lo then lo else if v > hi then hi else v
  }

  function Max0(v: real): (r: real)
    ensures r >= 0.0 && r >= v
    ensures v >= 0.0 ==> r == v
  {
    if v > 0.0 then v else 0.0
  }

  lemma ZeroProduct(a: real, b: real)
    ensures a * b == 0.0 <==> a == 0.0 || b == 0.0
  {
  }

  lemma SquarePositive(a: real)
    requires a != 0.0
    ensures a * a > 0.0
  {
    if a > 0.0 { assert a * a > 0.0 * a; } else { assert (-a) * (-a) > 0.0; }
  }

  lemma DivMul(a: real, n: real)
    requires n != 0.0
    ensures (a / n) * n == a
  {
  }

  lemma DivAddOne(a: real, k: real)
    requires k > 0.0
    ensures (a + k) / k == a / k + 1.0
  {
    DivMul(a + k, k);
    DivMul(a, k);
    var e := (a + k) / k - a / k - 1.0;
    assert e * k == 0.0;
    ZeroProduct(e, k);
  }

  /** A sum of three squares is non-negative, and zero only when every
      term is. */
  lemma SquaresZero(a: real, b: real, c: real, d: real)
    requires a * a + b * b + c * c == d
    ensures d >= 0.0
    ensures d == 0.0 ==> a == 0.0 && b == 0.0 && c == 0.0
  {
    SquareSign(a);
    SquareSign(b);
    SquareSign(c);
    NonNegativeSum(a * a, b * b, c * c, d);
  }

  lemma SquareSign(a: real)
    ensures a * a >= 0.0
    ensures a * a == 0.0 ==> a == 0.0
  {
    ZeroProduct(a, a);
    if a != 0.0 {
      SquarePositive(a);
    }
  }

  /** A square root is zero exactly when its square is. */
  lemma RootZero(n: real, a: real)
    requires n * n == a
    ensures n == 0.0 <==> a == 0.0
  {
    SquareSign(n);
  }

  lemma NonNegativeSum(x: real, y: real, z: real, d: real)
    requires x >= 0.0 && y >= 0.0 && z >= 0.0 && x + y + z == d
    ensures d >= 0.0
    ensures d == 0.0 ==> x == 0.0 && y == 0.0 && z == 0.0
  {
  }

  lemma DivRecip(x: real, n: real)
    requires n != 0.0
    ensures x / n == x * (1.0 / n)
  {
  }

  /** If k is the reciprocal of n then d = n² times k² is one. */
  lemma ReciprocalSquare(d: real, n: real, k: real)
    requires d == n * n && n * k == 1.0
    ensures d * (k * k) == 1.0
  {
    ReciprocalSquareCore(n, k);
  }

  lemma ReciprocalSquareCore(n: real, k: real)
    requires n * k == 1.0
    ensures (n * n) * (k * k) == 1.0
  {
    assert (n * n) * (k * k) == (n * k) * (n * k);
  }
}
