/** Scalar arithmetic shared by the two evaluators, over exact reals.

    Two things here stand in for floating point: the float-to-int
    conversion of Python's `int()` and of C's implicit `double -> int`
    (both truncate toward zero), and the two remainder operators, Python's
    float `%` (sign of the divisor) and C's `fmod` (sign of the dividend).
    All of them are modelled over exact reals: `fmod` is exact in IEEE
    arithmetic, while Python's `%` adds the divisor back after `fmod` when
    the signs differ, and that addition can round (`-1e-20 % 1.0` is `1.0`
    in floating point). That rounding is not modelled. */
module Numeric {
  import opened Wrappers

  function Abs(x: real): (r: real)
    ensures r >= 0.0
    ensures r == x || r == -x
  {
    if x < 0.0 then -x else x
  }

  function IntAbs(n: int): (r: nat)
    ensures r == n || r == -n
  {
    if n < 0 then -n else n
  }

  /** Conversion of a float to an integer, rounding toward zero. */
  function Trunc(x: real): (r: int)
    ensures x >= 0.0 ==> 0 <= r && r as real <= x < r as real + 1.0
    ensures x < 0.0 ==> r <= 0 && r as real - 1.0 < x <= r as real
  {
    if x >= 0.0 then x.Floor else -((-x).Floor)
  }

  predicate IsIntegral(x: real) {
    x.Floor as real == x
  }

  /** Truncation is the identity exactly on integral values. */
  lemma TruncExactIffIntegral(x: real)
    ensures Trunc(x) as real == x <==> IsIntegral(x)
  {
    if x < 0.0 && IsIntegral(x) {
      assert (-x).Floor == -(x.Floor);
    }
    if x < 0.0 && Trunc(x) as real == x {
      assert x.Floor == Trunc(x);
    }
  }

  /** Truncation toward zero never moves a value away from zero. */
  lemma TruncShrinks(x: real)
    ensures Abs(Trunc(x) as real) <= Abs(x)
    ensures Abs(Trunc(x) as real) < Abs(x) <==> !IsIntegral(x)
  {
    TruncExactIffIntegral(x);
  }

  lemma TruncMonotone(x: real, y: real)
    requires x <= y
    ensures Trunc(x) <= Trunc(y)
  {
    if x < 0.0 && y < 0.0 {
      assert (-y).Floor <= (-x).Floor;
    }
  }

  function Pow(b: real, n: nat): real {
    if n == 0 then 1.0 else b * Pow(b, n - 1)
  }

  lemma {:induction false} PowAtLeastOne(b: real, n: nat)
    requires b >= 1.0
    ensures Pow(b, n) >= 1.0
  {
    if n > 0 {
      PowAtLeastOne(b, n - 1);
      var p := Pow(b, n - 1);
      assert b * p - p == (b - 1.0) * p;
      MulNonNegative(b - 1.0, p);
    }
  }

  lemma MulNonNegative(a: real, b: real)
    requires a >= 0.0 && b >= 0.0
    ensures a * b >= 0.0
  {
  }

  /** `a / b` for `b >= 1` lies in `(0, a]` when `a > 0`. */
  lemma DivByAtLeastOne(a: real, b: real)
    requires a > 0.0 && b >= 1.0
    ensures 0.0 < a / b <= a
  {
    var q := a / b;
    QuotientSign(a, b);
    assert a - q == q * (b - 1.0);
    MulNonNegative(q, b - 1.0);
    assert q * b == a;
  }

  /** What is left of `a` after taking out `n` whole divisors `b`. */
  function Remainder(a: real, b: real, n: int): real {
    a - b * (n as real)
  }

  /** Python's float `%`: the remainder takes the sign of the divisor;
      a zero divisor raises ZeroDivisionError (`None`). */
  function PyFloatMod(a: real, b: real): (r: Option<real>)
    ensures r.None? <==> b == 0.0
    ensures r.Some? && b > 0.0 ==> 0.0 <= r.value < b
    ensures r.Some? && b < 0.0 ==> b < r.value <= 0.0
    ensures r.Some? ==> IsIntegral((a - r.value) / b)
  {
    if b == 0.0 then None
    else
      FlooredRemainderRange(a, b);
      Some(Remainder(a, b, (a / b).Floor))
  }

  /** C's `fmod`: the remainder takes the sign of the dividend;
      a zero divisor yields NaN (`None`). */
  function Fmod(a: real, b: real): (r: Option<real>)
    ensures r.None? <==> b == 0.0
    ensures r.Some? && a >= 0.0 ==> 0.0 <= r.value < Abs(b)
    ensures r.Some? && a < 0.0 ==> -Abs(b) < r.value <= 0.0
    ensures r.Some? ==> IsIntegral((a - r.value) / b)
  {
    if b == 0.0 then None
    else
      TruncatedRemainderFacts(a, b);
      Some(Remainder(a, b, Trunc(a / b)))
  }

  /** The floored remainder has the divisor's sign and leaves a whole
      number of divisors behind. */
  lemma FlooredRemainderRange(a: real, b: real)
    requires b != 0.0
    ensures var m := Remainder(a, b, (a / b).Floor);
      (b > 0.0 ==> 0.0 <= m < b) && (b < 0.0 ==> b < m <= 0.0) && IsIntegral((a - m) / b)
  {
    var n := (a / b).Floor;
    var f := a / b - n as real;
    var m := Remainder(a, b, n);
    QuotientRemainder(a, b, n as real, m);
    assert 0.0 <= f < 1.0 && m == b * f;
    ScaleFraction(b, f, m);
  }

  /** The truncated remainder has the dividend's sign and leaves a whole
      number of divisors behind. */
  lemma TruncatedRemainderFacts(a: real, b: real)
    requires b != 0.0
    ensures var m := Remainder(a, b, Trunc(a / b));
      (a >= 0.0 ==> 0.0 <= m < Abs(b)) && (a < 0.0 ==> -Abs(b) < m <= 0.0) && IsIntegral((a - m) / b)
  {
    var t := Trunc(a / b);
    var m := Remainder(a, b, t);
    QuotientRemainder(a, b, t as real, m);
    TruncatedRemainderRange(a, b, m);
  }

  /** `m = a - b*t` is `b` times the quotient's distance from `t`. */
  lemma QuotientRemainder(a: real, b: real, t: real, m: real)
    requires b != 0.0
    requires m == a - b * t
    ensures m == b * (a / b - t)
    ensures (a - m) / b == t
  {
    var q := a / b;
    assert q * b == a;
    assert m == b * (q - t);
  }

  /** The remainder against the truncated quotient has the dividend's sign. */
  lemma TruncatedRemainderRange(a: real, b: real, m: real)
    requires b != 0.0
    requires m == b * (a / b - Trunc(a / b) as real)
    ensures a >= 0.0 ==> 0.0 <= m < Abs(b)
    ensures a < 0.0 ==> -Abs(b) < m <= 0.0
  {
    var q := a / b;
    var t := Trunc(q) as real;
    QuotientSign(a, b);
    assert m == b * (q - t);
    if q >= 0.0 {
      ScaleFraction(b, q - t, m);
    } else {
      assert m == (-b) * (t - q);
      ScaleFraction(-b, t - q, m);
    }
  }

  /** The quotient is non-negative exactly when dividend and divisor agree in sign. */
  lemma QuotientSign(a: real, b: real)
    requires b != 0.0
    ensures a >= 0.0 && b > 0.0 ==> a / b >= 0.0
    ensures a >= 0.0 && b < 0.0 ==> a / b <= 0.0
    ensures a < 0.0 && b > 0.0 ==> a / b < 0.0
    ensures a < 0.0 && b < 0.0 ==> a / b > 0.0
  {
    var q := a / b;
    assert q * b == a;
    if a >= 0.0 && b > 0.0 && q < 0.0 { MulPositive(-q, b); }
    if a >= 0.0 && b < 0.0 && q > 0.0 { MulPositive(q, -b); }
    if a < 0.0 && b > 0.0 && q >= 0.0 { MulNonNegative(q, b); }
    if a < 0.0 && b < 0.0 && q <= 0.0 { MulNonNegative(-q, -b); }
  }

  /** Scaling a fraction in `[0, 1)` by `b` stays between 0 and `b`. */
  lemma ScaleFraction(b: real, f: real, m: real)
    requires 0.0 <= f < 1.0
    requires m == b * f
    ensures b > 0.0 ==> 0.0 <= m < b
    ensures b < 0.0 ==> b < m <= 0.0
  {
    if b > 0.0 {
      MulNonNegative(b, f);
      assert b - m == b * (1.0 - f);
      MulPositive(b, 1.0 - f);
    } else if b < 0.0 {
      MulNonNegative(-b, f);
      assert m - b == (-b) * (1.0 - f);
      MulPositive(-b, 1.0 - f);
    }
  }

  lemma MulPositive(a: real, b: real)
    requires a > 0.0 && b > 0.0
    ensures a * b > 0.0
  {
  }

  /** The two remainders coincide when dividend and divisor have the same
      sign and otherwise differ by exactly one divisor. */
  lemma PyFloatModVersusFmod(a: real, b: real)
    requires b != 0.0
    ensures a / b >= 0.0 ==> PyFloatMod(a, b) == Fmod(a, b)
    ensures a / b < 0.0 && !IsIntegral(a / b) ==>
      PyFloatMod(a, b).value == Fmod(a, b).value + b
  {
    var q := a / b;
    PyFloatModValue(a, b);
    FmodValue(a, b);
    if q >= 0.0 {
      assert Trunc(q) == q.Floor;
    } else if !IsIntegral(q) {
      assert Trunc(q) == q.Floor + 1;
      RemainderStep(a, b, q.Floor);
    }
  }

  /** One more divisor taken out leaves one divisor less. */
  lemma RemainderStep(a: real, b: real, n: int)
    ensures Remainder(a, b, n) == Remainder(a, b, n + 1) + b
  {
    assert (n + 1) as real == n as real + 1.0;
    assert b * (n as real + 1.0) == b * (n as real) + b;
  }

  /** The value Python's float `%` computes: the floored remainder. */
  lemma PyFloatModValue(a: real, b: real)
    requires b != 0.0
    ensures PyFloatMod(a, b) == Some(Remainder(a, b, (a / b).Floor))
  {
  }

  /** The value `fmod` computes: the truncated remainder. */
  lemma FmodValue(a: real, b: real)
    requires b != 0.0
    ensures Fmod(a, b) == Some(Remainder(a, b, Trunc(a / b)))
  {
  }

  /** Python's `%` is the only remainder with the divisor's sign, smaller
      than the divisor, that leaves a whole number of divisors behind. */
  lemma PyFloatModUnique(a: real, b: real, r: real)
    requires b != 0.0
    requires b > 0.0 ==> 0.0 <= r < b
    requires b < 0.0 ==> b < r <= 0.0
    requires IsIntegral((a - r) / b)
    ensures PyFloatMod(a, b) == Some(r)
  {
    RemaindersEqual(a, b, r, PyFloatMod(a, b).value);
  }

  /** `fmod` is the only remainder with the dividend's sign, smaller than
      the divisor, that leaves a whole number of divisors behind. */
  lemma FmodUnique(a: real, b: real, r: real)
    requires b != 0.0
    requires a >= 0.0 ==> 0.0 <= r < Abs(b)
    requires a < 0.0 ==> -Abs(b) < r <= 0.0
    requires IsIntegral((a - r) / b)
    ensures Fmod(a, b) == Some(r)
  {
    RemaindersEqual(a, b, r, Fmod(a, b).value);
  }

  /** Two remainders of `a` by `b` closer together than `b` are equal. */
  lemma RemaindersEqual(a: real, b: real, r: real, m: real)
    requires b != 0.0
    requires IsIntegral((a - r) / b) && IsIntegral((a - m) / b)
    requires Abs(r - m) < Abs(b)
    ensures r == m
  {
    var q := ((a - r) / b).Floor;
    var p := ((a - m) / b).Floor;
    DivisorMultiple(a - r, b);
    DivisorMultiple(a - m, b);
    assert r == Remainder(a, b, q) && m == Remainder(a, b, p);
    if p != q {
      MultipleAtLeast(b, p - q);
      RemainderDifference(a, b, p, q);
    }
  }

  /** A whole number of divisors is that number times the divisor. */
  lemma DivisorMultiple(x: real, b: real)
    requires b != 0.0 && IsIntegral(x / b)
    ensures x == b * ((x / b).Floor as real)
  {
    var t := x / b;
    assert t * b == x;
  }

  /** Taking out `p` and `q` whole divisors differ by `p - q` divisors. */
  lemma RemainderDifference(a: real, b: real, p: int, q: int)
    ensures Remainder(a, b, q) - Remainder(a, b, p) == b * ((p - q) as real)
  {
    assert (p - q) as real == p as real - q as real;
  }

  /** A non-zero whole multiple of `b` is at least as large as `b`. */
  lemma MultipleAtLeast(b: real, k: int)
    requires k != 0
    ensures Abs(b * (k as real)) >= Abs(b)
  {
    var n := k as real;
    if k >= 1 {
      if b >= 0.0 {
        MulNonNegative(b, n - 1.0);
        assert b * n == b + b * (n - 1.0);
      } else {
        MulNonNegative(-b, n - 1.0);
        assert b * n == b - (-b) * (n - 1.0);
      }
    } else {
      if b >= 0.0 {
        MulNonNegative(b, -n - 1.0);
        assert b * n == -b - b * (-n - 1.0);
      } else {
        MulNonNegative(-b, -n - 1.0);
        assert b * n == -b + (-b) * (-n - 1.0);
      }
    }
  }

  /** A non-zero value taken modulo itself is zero in Python. */
  lemma PyFloatModSelf(a: real)
    requires a != 0.0
    ensures PyFloatMod(a, a) == Some(0.0)
  {
    var q := a / a;
    assert (q - 1.0) * a == 0.0;
    ProductZero(q - 1.0, a);
    PyFloatModValue(a, a);
    assert Remainder(a, a, 1) == 0.0;
  }

  lemma ProductZero(x: real, y: real)
    requires y != 0.0 && x * y == 0.0
    ensures x == 0.0
  {
    if x > 0.0 && y > 0.0 { MulPositive(x, y); }
    if x > 0.0 && y < 0.0 { MulPositive(x, -y); }
    if x < 0.0 && y > 0.0 { MulPositive(-x, y); }
    if x < 0.0 && y < 0.0 { MulPositive(-x, -y); }
  }

  // ---------------------------------------------------------------------
  // Integer division

  /** A multiple of a positive `s` by a non-zero integer is at least `s`
      away from 0. */
  lemma MulAtLeast(d: int, s: int)
    requires 0 < s
    ensures d >= 1 ==> d * s >= s
    ensures d <= -1 ==> d * s <= -s
  {
    if d >= 1 {
      assert d * s == (d - 1) * s + s;
      assert (d - 1) * s >= 0;
    } else if d <= -1 {
      assert d * s == (d + 1) * s - s;
      assert (-d - 1) * s >= 0;
      assert (d + 1) * s == -((-d - 1) * s);
    }
  }

  /** Euclidean division is unique: a quotient and a remainder in
      [0, size) that rebuild `i` are `i / size` and `i % size`. */
  lemma DivModUnique(i: int, size: nat, q: int, r: int)
    requires 0 <= r < size && i == q * size + r
    ensures i / size == q && i % size == r
  {
    var q' := i / size;
    var r' := i % size;
    assert i == q' * size + r';
    assert (q' - q) * size == q' * size - q * size;
    MulAtLeast(q' - q, size);
  }

  /** Multiplying by a non-negative factor keeps the order. */
  lemma MulMonotone(a: int, b: int, s: nat)
    requires a <= b
    ensures a * s <= b * s
  {
    if s > 0 {
      MulAtLeast(b - a, s);
      assert (b - a) * s == b * s - a * s;
    }
  }

  /** A strict order between multiples of a positive `s` comes from the
      factors. */
  lemma MulCancelLess(a: int, b: int, s: nat)
    requires 0 < s
    ensures a * s < b * s ==> a < b
  {
    if b <= a {
      MulMonotone(b, a, s);
    }
  }
}
