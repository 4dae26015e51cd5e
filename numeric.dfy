/** Failure-compatible wrappers and the two pieces of Python number semantics the
    driver relies on: `int(x)` on a float and `%` on numbers. Floats are modelled
    as exact reals. */
module Numeric {

  datatype Option<+T> = None | Some(value: T)

  datatype Result<+T, +E> = Success(value: T) | Failure(error: E)

  /** Python's `int(x)` on a float: truncation toward zero. */
  function Trunc(x: real): (r: int)
    ensures 0.0 <= x ==> 0 <= r && r as real <= x < r as real + 1.0
    ensures x < 0.0 ==> r <= 0 && r as real - 1.0 < x <= r as real
  {
    if x >= 0.0 then x.Floor else -((-x).Floor)
  }

  /** Truncation preserves order. */
  lemma TruncMonotone(a: real, b: real)
    requires a <= b
    ensures Trunc(a) <= Trunc(b)
  {
    if 0.0 <= a {
      assert a.Floor as real <= a <= b < b.Floor as real + 1.0;
    } else if b < 0.0 {
      assert (-b).Floor as real <= -b <= -a < (-a).Floor as real + 1.0;
    }
  }

  /** Scaling by a nonnegative factor preserves order. */
  lemma ScaleMonotone(m: real, a: real, b: real)
    requires 0.0 <= m && a <= b
    ensures m * a <= m * b
  {
    assert m * (b - a) >= 0.0;
  }

  /** Truncating after scaling by a nonnegative factor preserves order. */
  lemma TruncScaledMonotone(m: real, a: real, b: real)
    requires 0.0 <= m && a <= b
    ensures Trunc(m * a) <= Trunc(m * b)
  {
    ScaleMonotone(m, a, b);
    var low, high := m * a, m * b;
    assert low <= high;
    TruncMonotone(low, high);
  }

  /** Scaling by a positive factor preserves strict order. */
  lemma ScaleStrict(m: real, a: real, b: real)
    requires 0.0 < m && a < b
    ensures m * a < m * b
  {
    assert m * (b - a) > 0.0;
  }

  /** Python's `x % n`: the remainder takes the sign of the divisor
      (ZeroDivisionError when `n` is zero, which callers rule out). */
  function FloorMod(x: real, n: real): (r: real)
    requires n != 0.0
    ensures 0.0 < n ==> 0.0 <= r < n
    ensures n < 0.0 ==> n < r <= 0.0
    ensures 0.0 <= r / n < 1.0
  {
    var q := x / n;
    var k := q.Floor as real;
    DivisionInverse(x, n);
    Distribute(n, q, k);
    RemainderBounds(x, n, n * k, q - k);
    DivideBack(x - n * k, n, q - k);
    x - n * (x / n).Floor as real
  }

  /** `x - whole` lies between 0 and `n` when `x == whole + n * f` for a fraction `f`. */
  lemma RemainderBounds(x: real, n: real, whole: real, f: real)
    requires x == whole + n * f && 0.0 <= f < 1.0
    ensures 0.0 < n ==> 0.0 <= x - whole < n
    ensures n < 0.0 ==> n < x - whole <= 0.0
  {
    var part := n * f;
    ScaleFraction(n, f);
    assert x - whole == part;
    if 0.0 < n {
      assert 0.0 <= part < n;
    } else if n < 0.0 {
      assert n < part <= 0.0;
    }
  }

  lemma DivisionInverse(x: real, n: real)
    requires n != 0.0
    ensures x == n * (x / n)
  {
  }

  lemma DivideBack(r: real, n: real, f: real)
    requires n != 0.0 && r == n * f
    ensures r / n == f
  {
  }

  lemma Distribute(n: real, a: real, b: real)
    ensures n * a == n * b + n * (a - b)
  {
  }

  /** `n * f` for a fraction `f` in `[0, 1)` lies between 0 and `n`. */
  lemma ScaleFraction(n: real, f: real)
    requires 0.0 <= f < 1.0
    ensures 0.0 < n ==> 0.0 <= n * f < n
    ensures n < 0.0 ==> n < n * f <= 0.0
  {
    if 0.0 < n {
      assert n * (1.0 - f) > 0.0;
    } else if n < 0.0 {
      assert (-n) * (1.0 - f) > 0.0;
      assert (-n) * f >= 0.0;
    }
  }

  /** Adding whole multiples of the divisor does not change the remainder. */
  lemma FloorModPeriodic(x: real, n: real, k: int)
    requires n != 0.0
    ensures FloorMod(x + k as real * n, n) == FloorMod(x, n)
  {
    ShiftedQuotient(x, n, k);
  }

  /** Shifting `x` by `k` whole divisors leaves `x - n * floor(x / n)` unchanged. */
  lemma ShiftedQuotient(x: real, n: real, k: int)
    requires n != 0.0
    ensures var y := x + k as real * n;
            y - n * (y / n).Floor as real == x - n * (x / n).Floor as real
  {
    var y := x + k as real * n;
    QuotientShift(x, n, k as real);
    var j := (x / n).Floor;
    assert (y / n).Floor == j + k;
    var before, moved := n * j as real, n * (j + k) as real;
    Distribute(n, (j + k) as real, j as real);
    assert (j + k) as real - j as real == k as real;
    assert moved == before + n * k as real;
  }

  /** Dividing `x + s * n` by `n` adds `s` to the quotient. */
  lemma QuotientShift(x: real, n: real, s: real)
    requires n != 0.0
    ensures (x + s * n) / n == x / n + s
  {
    var q := x / n;
    DivisionInverse(x, n);
    Distribute(n, q + s, q);
    assert (q + s) - q == s;
    assert x + s * n == n * (q + s);
    DivideBack(x + s * n, n, q + s);
  }

  /** A value already in `[0, n)` is its own remainder. */
  lemma FloorModOfRange(x: real, n: real)
    requires 0.0 <= x < n
    ensures FloorMod(x, n) == x
  {
    QuotientOfRange(x, n);
  }

  /** A value in `[0, n)` divided by `n` is a fraction in `[0, 1)`. */
  lemma QuotientOfRange(x: real, n: real)
    requires 0.0 <= x < n
    ensures 0.0 <= x / n < 1.0
  {
    var q := x / n;
    DivisionInverse(x, n);
    if q < 0.0 {
      ScaleStrict(n, q, 0.0);
    } else if 1.0 <= q {
      ScaleMonotone(n, 1.0, q);
    }
  }

  /** On whole numbers with a positive divisor, Python's `%` agrees with Dafny's. */
  lemma FloorModMatchesIntMod(a: int, b: int)
    requires 0 < b
    ensures FloorMod(a as real, b as real) == (a % b) as real
  {
    WholeDivision(a, b);
    ShiftedRemainder(a as real, (a % b) as real, b as real, a / b);
  }

  /** `a == a % b + (a / b) * b`, on reals. */
  lemma WholeDivision(a: int, b: int)
    requires 0 < b
    ensures a as real == (a % b) as real + (a / b) as real * b as real
  {
    assert a == a % b + (a / b) * b;
    CastProduct(a / b, b);
  }

  /** A value in `[0, n)` shifted by whole multiples of `n` has it as remainder. */
  lemma ShiftedRemainder(x: real, r: real, n: real, k: int)
    requires 0.0 <= r < n && x == r + k as real * n
    ensures FloorMod(x, n) == r
  {
    FloorModPeriodic(r, n, k);
    FloorModOfRange(r, n);
  }

  /** A fraction `c` of the product `f * n`, divided by `f`, lies in `[0, n)`. */
  lemma FractionOfProduct(x: real, f: real, n: real, c: real)
    requires f != 0.0 && 0.0 < n && 0.0 <= c < 1.0 && x == c * (f * n)
    ensures 0.0 <= x / f < n
  {
    assert x == f * (n * c);
    DivideBack(x, f, n * c);
    ScaleFraction(n, c);
  }

  lemma CastProduct(k: int, b: int)
    ensures (k * b) as real == k as real * b as real
  {
  }

  /** The remainder of a whole number by a whole number is whole. */
  lemma FloorModWhole(a: int, b: int)
    requires b != 0
    ensures FloorMod(a as real, b as real) == FloorMod(a as real, b as real).Floor as real
  {
    var k := (a as real / b as real).Floor;
    assert b as real * k as real == (b * k) as real;
    assert FloorMod(a as real, b as real) == (a - b * k) as real;
  }
}
