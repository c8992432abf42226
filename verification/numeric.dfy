/** Exact-arithmetic versions of the numeric primitives the source relies on:
    clamping, Java’s truncating `(int)` cast and `%`, JavaScript’s `Math.round`
    and `Math.floor`, and powers of two. Doubles are modelled as `real`. */
module Numeric {

  function Abs(x: real): (r: real)
    ensures r >= 0.0
    ensures r == x || r == -x
  {
    if x < 0.0 then -x else x
  }

  function MinReal(a: real, b: real): (r: real)
    ensures r <= a && r <= b
    ensures r == a || r == b
  {
    if a <= b then a else b
  }

  function MaxReal(a: real, b: real): (r: real)
    ensures r >= a && r >= b
    ensures r == a || r == b
  {
    if a >= b then a else b
  }

  /** `Math.max(lo, Math.min(hi, x))` */
  function ClampReal(x: real, lo: real, hi: real): (r: real)
    requires lo <= hi
    ensures lo <= r <= hi
    ensures lo <= x <= hi ==> r == x
    ensures x < lo ==> r == lo
    ensures x > hi ==> r == hi
  {
    MaxReal(lo, MinReal(hi, x))
  }

  /** `Math.max(lo, Math.min(hi, x))` on Java `int`s */
  function ClampInt(x: int, lo: int, hi: int): (r: int)
    requires lo <= hi
    ensures lo <= r <= hi
    ensures lo <= x <= hi ==> r == x
    ensures x < lo ==> r == lo
    ensures x > hi ==> r == hi
  {
    if x < lo then lo else if x > hi then hi else x
  }

  /** JavaScript `Math.floor` */
  function Floor(x: real): (r: int)
    ensures r as real <= x < r as real + 1.0
  {
    x.Floor
  }

  /** Java’s `(int)` cast of a double: rounds toward zero. */
  function Trunc(x: real): (r: int)
    ensures x >= 0.0 ==> 0 <= r && r as real <= x < r as real + 1.0
    ensures x < 0.0 ==> r <= 0 && r as real - 1.0 < x <= r as real
  {
    if x >= 0.0 then x.Floor else -((-x).Floor)
  }

  /** JavaScript `Math.round`: the nearest integer, halves rounded up. */
  function Round(x: real): (r: int)
    ensures r as real - 0.5 <= x < r as real + 0.5
  {
    (x + 0.5).Floor
  }

  /** The `%` operator of Java and JavaScript on doubles: the remainder of a
      division truncated toward zero, carrying the sign of the dividend. */
  function FMod(x: real, m: real): (r: real)
    requires m > 0.0
    ensures x >= 0.0 ==> 0.0 <= r < m
    ensures x < 0.0 ==> -m < r <= 0.0
  {
    var t := Trunc(x / m) as real;
    TruncRemainder(x, m);
    x - m * t
  }

  lemma TruncRemainder(x: real, m: real)
    requires m > 0.0
    ensures var t := Trunc(x / m) as real;
      && (x >= 0.0 ==> 0.0 <= x - m * t < m)
      && (x < 0.0 ==> -m < x - m * t <= 0.0)
  {
    var q := x / m;
    var t := Trunc(q) as real;
    assert x == m * q;
    MulMonotone(m, q, 0.0);
    MulMonotone(m, 0.0, q);
    if x >= 0.0 {
      assert q >= 0.0;
      assert t <= q < t + 1.0;
      MulMonotone(m, t, q);
      MulMonotone(m, q, t + 1.0);
      assert m * (t + 1.0) == m * t + m;
      calc {
        x;
        == m * q;
        >= m * t;
      }
      calc {
        x;
        == m * q;
        < m * (t + 1.0);
        == m * t + m;
      }
    } else {
      assert q < 0.0;
      assert t - 1.0 < q <= t;
      MulMonotone(m, q, t);
      MulMonotone(m, t - 1.0, q);
      calc {
        x;
        == m * q;
        > m * (t - 1.0);
        == m * t - m;
      }
      calc {
        x;
        == m * q;
        <= m * t;
      }
    }
  }

  lemma MulMonotone(m: real, a: real, b: real)
    requires m > 0.0
    ensures a <= b ==> m * a <= m * b
    ensures a < b ==> m * a < m * b
  {
  }

  function Pow2(n: nat): (r: nat)
    ensures r >= 1
  {
    if n == 0 then 1 else 2 * Pow2(n - 1)
  }

  function Pow10(n: nat): (r: nat)
    ensures r >= 1
  {
    if n == 0 then 1 else 10 * Pow10(n - 1)
  }

  /** `Math.pow(2, z)` for an integer exponent of either sign. */
  function Pow2Real(z: int): (r: real)
    ensures r > 0.0
    ensures z >= 0 ==> r == Pow2(z) as real
  {
    if z >= 0 then Pow2(z) as real else 1.0 / Pow2(-z) as real
  }

  lemma {:induction false} Pow2RealStep(z: int)
    ensures Pow2Real(z + 1) == 2.0 * Pow2Real(z)
  {
    if z >= 0 {
      assert Pow2(z + 1) == 2 * Pow2(z);
    } else if z == -1 {
      assert Pow2(1) == 2 * Pow2(0);
    } else {
      assert Pow2(-z) == 2 * Pow2(-z - 1);
      var p := Pow2(-z - 1) as real;
      assert Pow2Real(z) == 1.0 / (2.0 * p);
      assert Pow2Real(z + 1) == 1.0 / p;
    }
  }

  /** For a non-negative double, `(int)(d / k)` and `(int)((d % k) / j)` are the
      integer quotient and remainder-quotient of the truncated value. */
  lemma TruncDiv(d: real, k: nat)
    requires d >= 0.0 && k > 0
    ensures Trunc(d / k as real) == d.Floor / k
    ensures FMod(d, k as real) == d - (k * (d.Floor / k)) as real
  {
    var q := d.Floor / k;
    QuotientBracket(d, k);
    assert Trunc(d / k as real) == q;
    CastProduct(k, q);
  }

  /** The integer quotient of the floor brackets the real quotient. */
  lemma QuotientBracket(d: real, k: nat)
    requires d >= 0.0 && k > 0
    ensures (d.Floor / k) as real <= d / k as real < (d.Floor / k + 1) as real
  {
    var n := d.Floor;
    var q := n / k;
    var kr := k as real;
    assert k * q <= n < k * (q + 1);
    CastProduct(k, q);
    CastProduct(k, q + 1);
    DivTimes(d, kr);
    CancelFactor(q as real, d / kr, (q + 1) as real, kr);
  }

  lemma CastProduct(a: int, b: int)
    ensures (a * b) as real == a as real * b as real
  {
  }

  lemma DivTimes(a: real, m: real)
    requires m > 0.0
    ensures (a / m) * m == a
  {
  }

  /** Dividing a bracket by a positive factor. */
  lemma CancelFactor(lo: real, x: real, hi: real, m: real)
    requires m > 0.0
    requires lo * m <= x * m < hi * m
    ensures lo <= x < hi
  {
    if x < lo {
      MulMonotone(m, x, lo);
    }
    if hi <= x {
      MulMonotone(m, hi, x);
    }
  }

  /** The floor of a non-negative double reduced modulo `k` is the integer
      remainder of its floor. */
  lemma FloorOfFMod(d: real, k: nat)
    requires d >= 0.0 && k > 0
    ensures FMod(d, k as real) >= 0.0
    ensures FMod(d, k as real).Floor == d.Floor % k
  {
    TruncDiv(d, k);
    var c := k * (d.Floor / k);
    assert FMod(d, k as real) == d - c as real;
    assert d.Floor - c == d.Floor % k;
    var f := d - c as real;
    assert (d.Floor - c) as real <= f < (d.Floor - c) as real + 1.0;
  }

  /** `(int)((d % k) / j)` for a non-negative double `d`. */
  lemma TruncModDiv(d: real, k: nat, j: nat)
    requires d >= 0.0 && k > 0 && j > 0
    ensures Trunc(FMod(d, k as real) / j as real) == (d.Floor % k) / j
  {
    FloorOfFMod(d, k);
    TruncDiv(FMod(d, k as real), j);
  }

  /** `(int)(d % k)` for a non-negative double `d`. */
  lemma TruncMod(d: real, k: nat)
    requires d >= 0.0 && k > 0
    ensures Trunc(FMod(d, k as real)) == d.Floor % k
  {
    FloorOfFMod(d, k);
  }
}
