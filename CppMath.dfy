/**
 * The numeric conventions of C++ and Qt that the player relies on, written out
 * over Dafny's unbounded `int` and exact `real`.
 *
 * Dafny's `/` and `%` on `int` are Euclidean; C++ truncates toward zero.
 * `static_cast<int>(double)` truncates toward zero, `std::round` and Qt 6's
 * `qRound` round halves away from zero, `qBound(lo, v, hi)` is
 * `qMax(lo, qMin(hi, v))`.
 */
module CppMath {

  /** C++ integer division: the quotient is truncated toward zero. */
  function CDiv(a: int, b: int): (q: int)
    requires b != 0
    ensures a >= 0 && b > 0 ==> q == a / b
    ensures a <= 0 && b > 0 ==> q == -((-a) / b)
  {
    if a >= 0 && b > 0 then a / b
    else if a >= 0 then -(a / (-b))
    else if b > 0 then -((-a) / b)
    else (-a) / (-b)
  }

  /** C++ remainder: it has the sign of the dividend. */
  function CMod(a: int, b: int): (r: int)
    requires b != 0
    ensures CDiv(a, b) * b + r == a
    ensures a >= 0 ==> 0 <= r < Abs(b)
    ensures a < 0 ==> -(Abs(b) as int) < r <= 0
    ensures a >= 0 && b > 0 ==> r == a % b
  {
    if a >= 0 && b > 0 then a % b
    else if a >= 0 then NegatedDivisor(a, -b); a % (-b)
    else if b > 0 then NegatedDividend(-a, b); -((-a) % b)
    else NegatedDividend(-a, -b); NegatedDivisor(-a, -b); -((-a) % (-b))
  }

  lemma NegatedDivisor(a: int, d: int)
    requires d > 0
    ensures -(a / d) * -d + a % d == a
  {
    assert -(a / d) * -d == (a / d) * d;
  }

  lemma NegatedDividend(a: int, d: int)
    requires d > 0
    ensures -(a / d) * d + -(a % d) == -a && (a / d) * -d + -(a % d) == -a
  {
    assert -(a / d) * d == -((a / d) * d);
    assert (a / d) * -d == -((a / d) * d);
  }

  function Abs(a: int): (r: nat)
    ensures r == a || r == -a
  {
    if a < 0 then -a else a
  }

  function AbsReal(x: real): (r: real)
    ensures r >= 0.0 && (r == x || r == -x)
  {
    if x < 0.0 then -x else x
  }

  /** `qMax` and `std::max` on doubles, as the back steps and the safe end position use them. */
  function MaxReal(a: real, b: real): (r: real)
    ensures r >= a && r >= b && (r == a || r == b)
  {
    if a >= b then a else b
  }

  function MinReal(a: real, b: real): (r: real)
    ensures r <= a && r <= b && (r == a || r == b)
  {
    if a <= b then a else b
  }

  /** `std::max` on integers, as the frame count's floor of 1 uses it. */
  function Max(a: int, b: int): (r: int)
    ensures r >= a && r >= b && (r == a || r == b)
  {
    if a >= b then a else b
  }

  /** `static_cast<int>(x)` for a double: truncation toward zero. */
  function Trunc(x: real): (r: int)
    ensures x >= 0.0 ==> r as real <= x < r as real + 1.0
    ensures x <= 0.0 ==> r as real - 1.0 < x <= r as real
  {
    if x >= 0.0 then x.Floor else -((-x).Floor)
  }

  /**
   * `std::round(x)` and Qt 6's `qRound(x)`: the nearest integer, halves
   * rounded away from zero.
   */
  function Round(x: real): (r: int)
    ensures x >= 0.0 ==> r >= 0 && r as real - 0.5 <= x < r as real + 0.5
    ensures x <= 0.0 ==> r <= 0 && r as real - 0.5 < x <= r as real + 0.5
  {
    if x >= 0.0 then (x + 0.5).Floor else -((-x + 0.5).Floor)
  }

  /** `std::ceil(x)`, already integral, cast to `int`. */
  function Ceil(x: real): (r: int)
    ensures r as real - 1.0 < x <= r as real
  {
    -((-x).Floor)
  }

  /** `qBound(lo, v, hi)` on integers. */
  function Bound(lo: int, v: int, hi: int): (r: int)
    ensures lo <= hi ==> lo <= r <= hi
    ensures lo <= v <= hi ==> r == v
    ensures hi < lo ==> r == lo
    ensures lo <= hi && v < lo ==> r == lo
    ensures lo <= hi && hi < v ==> r == hi
  {
    if hi < v then (if lo > hi then lo else hi)
    else if lo > v then lo
    else v
  }

  /** `qBound(lo, v, hi)` on doubles. */
  function BoundReal(lo: real, v: real, hi: real): (r: real)
    ensures lo <= hi ==> lo <= r <= hi
    ensures lo <= v <= hi ==> r == v
    ensures hi < lo ==> r == lo
    ensures lo <= hi && v < lo ==> r == lo
    ensures lo <= hi && hi < v ==> r == hi
  {
    if hi < v then (if lo > hi then lo else hi)
    else if lo > v then lo
    else v
  }

  /**
   * `qFuzzyCompare(p1, p2)`: the two are equal up to a relative error of one
   * part in 10^12.
   */
  predicate FuzzyEqual(p1: real, p2: real)
  {
    AbsReal(p1 - p2) * 1000000000000.0 <= MinReal(AbsReal(p1), AbsReal(p2))
  }

  /** The range of a C++ `int`, which `QString::toInt` and `QString::number(int)` use. */
  const IntMin: int := -0x8000_0000
  const IntMax: int := 0x7FFF_FFFF

  predicate InInt32(n: int)
  {
    IntMin <= n <= IntMax
  }

  /** Whole division seen through reals: `frame / n` is the floor of the real quotient. */
  lemma WholeSeconds(frame: int, n: int)
    requires n >= 1 && frame >= 0
    ensures (frame / n) as real <= frame as real / n as real < (frame / n) as real + 1.0
  {
    var q, r := frame / n, frame % n;
    assert frame == q * n + r && 0 <= r < n;
    assert frame as real == q as real * n as real + r as real;
    assert frame as real / n as real == q as real + r as real / n as real;
  }

  /** Dividing a real whose floor is `s >= 0` by `d` has floor `s / d`. */
  lemma FloorOfQuotient(x: real, s: int, d: int)
    requires d >= 1 && s >= 0 && s as real <= x < s as real + 1.0
    ensures Trunc(x / d as real) == s / d
  {
    var q := s / d;
    var y := x / d as real;
    assert q * d <= s < q * d + d;
    assert (q * d) as real <= x < (q * d + d) as real;
    assert y * d as real == x;
    assert q as real * d as real <= y * d as real;
    assert y * d as real < (q + 1) as real * d as real;
  }

  lemma HoursField(ts: real, s: int)
    requires s >= 0 && s as real <= ts < s as real + 1.0
    ensures Trunc(ts / 3600.0) == s / 3600
  {
    FloorOfQuotient(ts, s, 3600);
  }

  lemma MinutesField(ts: real, s: int, h: int)
    requires s >= 0 && s as real <= ts < s as real + 1.0 && h == s / 3600
    ensures Trunc((ts - (h * 3600) as real) / 60.0) == (s % 3600) / 60
  {
    var r := s % 3600;
    assert r == s - h * 3600;
    FloorOfQuotient(ts - (h * 3600) as real, r, 60);
  }

  lemma SecondsOfSplit(s: int, h: int, r: int, m: int)
    requires s >= 0 && h == s / 3600 && r == s % 3600 && m == r / 60
    ensures r - m * 60 == s % 60 && s - h * 3600 - m * 60 == s % 60
  {
    QuotientOfParts(s, h * 60 + m, r % 60, 60);
  }

  /** The whole seconds of the split are the seconds the frame started at. */
  lemma ClockOfSeconds(s: int)
    requires s >= 0
    ensures (s / 3600) * 3600 + ((s % 3600) / 60) * 60 + s % 60 == s
  {
    SecondsOfSplit(s, s / 3600, s % 3600, (s % 3600) / 60);
  }

  lemma QuotientOfParts(a: int, q: int, r: int, d: int)
    requires q >= 0 && 0 <= r < d && a == q * d + r
    ensures CDiv(a, d) == q && CMod(a, d) == r
  {
    DivBelow(a, d, q + 1);
    if a / d < q {
      MulMonotone(a / d + 1, q, d);
    }
  }

  /** Dividing a non-negative `a` below `k * d` by `d` gives less than `k`. */
  lemma DivBelow(a: int, d: int, k: int)
    requires 0 <= a < k * d && d > 0
    ensures 0 <= a / d < k && 0 <= a % d < d && a == (a / d) * d + a % d
  {
    if a / d >= k {
      assert (a / d) * d >= k * d by {
        MulMonotone(k, a / d, d);
      }
    }
  }

  /** Integer division by a positive divisor is monotone. */
  lemma DivMonotone(a: int, b: int, d: int)
    requires 0 <= a <= b && d > 0
    ensures a / d <= b / d
  {
    if a / d > b / d {
      assert a >= (a / d) * d;
      MulMonotone(b / d + 1, a / d, d);
    }
  }

  lemma MulMonotone(x: int, y: int, d: int)
    requires x <= y && d >= 0
    ensures x * d <= y * d
  {
  }

  /** A non-negative real within a unit above `s` truncates to `s`. */
  lemma WholePart(x: real, s: int)
    requires s >= 0 && s as real <= x < s as real + 1.0
    ensures Trunc(x) == s
  {
  }
}
