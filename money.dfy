/** Currency arithmetic shared by the balance engine and the share rules.
    Amounts are exact reals; the only rounding is the cent rounding that the
    source writes as `Math.round(x * 100) / 100`. */
module Money {

  /** `Math.round(x * 100) / 100`: JavaScript's Math.round rounds halves
      toward positive infinity, so this is floor(100x + 1/2) / 100. */
  function Round2(x: real): real {
    ((x * 100.0 + 0.5).Floor as real) / 100.0
  }

  /** x is a whole number of cents. */
  predicate OnCents(x: real) {
    (x * 100.0).Floor as real == x * 100.0
  }

  /** `Math.abs` */
  function Abs(x: real): (r: real)
    ensures r >= 0.0 && (r == x || r == -x)
  {
    if x < 0.0 then -x else x
  }

  /** `Math.min` of two numbers */
  function Min(a: real, b: real): (r: real)
    ensures r <= a && r <= b && (r == a || r == b)
  {
    if a <= b then a else b
  }

  /** The rounded value is a whole number of cents, within half a cent of x:
      x - 0.005 < Round2(x) <= x + 0.005. */
  lemma Round2Bounds(x: real)
    ensures OnCents(Round2(x))
    ensures x - 0.005 < Round2(x) <= x + 0.005
  {
    var f := (x * 100.0 + 0.5).Floor;
    assert Round2(x) * 100.0 == f as real;
    assert (f as real).Floor == f;
  }

  /** A value already on cents is left alone, so rounding is idempotent. */
  lemma Round2OnCents(x: real)
    requires OnCents(x)
    ensures Round2(x) == x
  {
    var n := (x * 100.0).Floor;
    assert x * 100.0 + 0.5 == n as real + 0.5;
    assert (n as real + 0.5).Floor == n;
  }

  lemma Round2Idempotent(x: real)
    ensures Round2(Round2(x)) == Round2(x)
  {
    Round2Bounds(x);
    Round2OnCents(Round2(x));
  }

  /** Rounding is monotone. */
  lemma Round2Monotone(x: real, y: real)
    requires x <= y
    ensures Round2(x) <= Round2(y)
  {
    assert (x * 100.0 + 0.5).Floor <= (y * 100.0 + 0.5).Floor;
  }

  /** A nonzero rounded value has the sign of the value it came from: a
      positive result needs x >= 0.005 and a negative one x < -0.005. */
  lemma Round2Sign(x: real)
    ensures Round2(x) > 0.0 ==> x >= 0.005
    ensures Round2(x) < 0.0 ==> x < -0.005
    ensures (Round2(x) == 0.0) <==> (-0.005 <= x < 0.005)
  {
    var f := (x * 100.0 + 0.5).Floor;
    assert f as real <= x * 100.0 + 0.5 < f as real + 1.0;
    if -0.005 <= x < 0.005 {
      assert 0.0 <= x * 100.0 + 0.5 < 1.0;
      assert f == 0;
    }
  }

  /** Halves go up, not away from zero: 0.005 becomes a cent, -0.005 becomes 0. */
  lemma Round2HalfUp()
    ensures Round2(0.005) == 0.01
    ensures Round2(-0.005) == 0.0
    ensures Round2(-0.015) == -0.01
  {
    assert 0.005 * 100.0 + 0.5 == 1.0;
    assert (1.0).Floor == 1;
    assert -0.005 * 100.0 + 0.5 == 0.0;
    assert (0.0).Floor == 0;
    assert -0.015 * 100.0 + 0.5 == -1.0;
    assert (-1.0).Floor == -1;
  }

  lemma IntegralFloor(n: int)
    ensures (n as real).Floor == n
  {
  }

  /** Cents are closed under sum, difference, negation and min. */
  lemma CentsArithmetic(a: real, b: real)
    requires OnCents(a) && OnCents(b)
    ensures OnCents(a + b) && OnCents(a - b) && OnCents(-a) && OnCents(Min(a, b))
  {
    var n, m := (a * 100.0).Floor, (b * 100.0).Floor;
    assert (a + b) * 100.0 == (n + m) as real;
    IntegralFloor(n + m);
    assert (a - b) * 100.0 == (n - m) as real;
    IntegralFloor(n - m);
    assert (-a) * 100.0 == (-n) as real;
    IntegralFloor(-n);
  }

  /** A whole number of cents above one cent is at least two cents. */
  lemma CentsAboveOneCent(x: real)
    requires OnCents(x) && x > 0.01
    ensures x >= 0.02
  {
    var n := (x * 100.0).Floor;
    assert n as real == x * 100.0;
    assert n > 1;
  }
}
