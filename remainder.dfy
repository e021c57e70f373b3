/**
 * The IEEE-754 remainder operation used to wrap phase biases into one
 * wavelength: remainder(x, y) = x - y*n, where n is the integer nearest to
 * x/y and a tie is broken towards the even integer.  The model works over
 * exact reals, where the operation is exact as it is in IEEE arithmetic.
 */
module IeeeRemainder {

  /** True when v has no fractional part. */
  predicate IsInteger(v: real) {
    v.Floor as real == v
  }

  /** Nearest integer to q, ties to even (the rounding std::remainder uses). */
  function RoundHalfEven(q: real): (n: int)
    ensures -0.5 <= q - n as real <= 0.5
    ensures (q - n as real == 0.5 || q - n as real == -0.5) ==> n % 2 == 0
  {
    var f := q.Floor;
    var d := q - f as real;
    if d < 0.5 then f
    else if d > 0.5 then f + 1
    else if f % 2 == 0 then f
    else f + 1
  }

  /** Any integer that is as close to q as RoundHalfEven promises is the one it returns. */
  lemma RoundHalfEvenUnique(q: real, m: int)
    requires -0.5 <= q - m as real <= 0.5
    requires (q - m as real == 0.5 || q - m as real == -0.5) ==> m % 2 == 0
    ensures m == RoundHalfEven(q)
  {
    // two distinct integers within 1/2 of q would lie 1 apart, both at a tie
  }

  lemma MulBounds(y: real, t: real)
    requires y > 0.0
    requires -0.5 <= t <= 0.5
    ensures -y / 2.0 <= y * t <= y / 2.0
  {
  }

  lemma DivBounds(y: real, r: real)
    requires y > 0.0
    requires -y / 2.0 <= r <= y / 2.0
    ensures -0.5 <= r / y <= 0.5
    ensures r / y == 0.5 ==> r == y / 2.0
    ensures r / y == -0.5 ==> r == -y / 2.0
  {
    assert r == y * (r / y);
  }

  lemma DivSub(a: real, b: real, y: real)
    requires y > 0.0
    ensures (a - b) / y == a / y - b / y
    ensures a - b == y * ((a - b) / y)
  {
  }

  /** remainder(x, y) for a positive divisor y (a wavelength c/f). */
  function Remainder(x: real, y: real): (r: real)
    requires y > 0.0
    ensures -y / 2.0 <= r <= y / 2.0
    ensures IsInteger((x - r) / y)
    ensures (r == y / 2.0 || r == -y / 2.0) ==> ((x - r) / y).Floor % 2 == 0
  {
    var q := x / y;
    var n := RoundHalfEven(q);
    var t := q - n as real;
    assert x == y * q;
    MulBounds(y, t);
    assert x - y * (n as real) == y * t;
    assert (y * (n as real)) / y == n as real;
    x - y * (n as real)
  }

  /**
   * The three properties in Remainder's contract determine its value:
   * any r' in [-y/2, y/2] that differs from x by an integer multiple of y,
   * with an even multiple on a tie, is remainder(x, y).
   */
  lemma RemainderUnique(x: real, y: real, r': real)
    requires y > 0.0
    requires -y / 2.0 <= r' <= y / 2.0
    requires IsInteger((x - r') / y)
    requires (r' == y / 2.0 || r' == -y / 2.0) ==> ((x - r') / y).Floor % 2 == 0
    ensures r' == Remainder(x, y)
  {
    var m := ((x - r') / y).Floor;
    DivSub(x, r', y);
    DivBounds(y, r');
    assert x / y - m as real == r' / y;
    RoundHalfEvenUnique(x / y, m);
  }

  /** Wrapping an already wrapped value changes nothing. */
  lemma RemainderIdempotent(x: real, y: real)
    requires y > 0.0
    ensures Remainder(Remainder(x, y), y) == Remainder(x, y)
  {
    var r := Remainder(x, y);
    assert (r - r) / y == 0.0;
    RemainderUnique(r, y, r);
  }

  /** A value strictly inside (-y/2, y/2) is its own remainder. */
  lemma RemainderOfWrapped(x: real, y: real)
    requires y > 0.0
    requires -y / 2.0 < x < y / 2.0
    ensures Remainder(x, y) == x
  {
    assert (x - x) / y == 0.0;
    RemainderUnique(x, y, x);
  }

  /**
   * Shifting by whole wavelengths does not change the wrapped value, except
   * on a tie, where the even-quotient rule can move it to the other edge
   * (remainder(0.5, 1) == 0.5 but remainder(1.5, 1) == -0.5).
   */
  lemma RemainderPeriodic(x: real, y: real, k: int)
    requires y > 0.0
    requires -y / 2.0 < Remainder(x, y) < y / 2.0
    ensures Remainder(x + (k as real) * y, y) == Remainder(x, y)
  {
    var r := Remainder(x, y);
    ShiftMultiple(x, r, y, k);
    RemainderUnique(x + (k as real) * y, y, r);
  }

  /** If x - r is an integer multiple of y, so is x + k*y - r. */
  lemma ShiftMultiple(x: real, r: real, y: real, k: int)
    requires y > 0.0
    requires IsInteger((x - r) / y)
    ensures IsInteger((x + (k as real) * y - r) / y)
  {
    var m := ((x - r) / y).Floor;
    assert x - r == y * (m as real) by {
      DivSub(x, r, y);
    }
    assert x + (k as real) * y - r == y * ((m + k) as real);
    MulDiv(y, (m + k) as real);
    assert (x + (k as real) * y - r) / y == (m + k) as real;
    assert ((m + k) as real).Floor == m + k;
  }

  lemma MulDiv(y: real, a: real)
    requires y > 0.0
    ensures (y * a) / y == a
  {
  }

  /** The tie exception of RemainderPeriodic is real. */
  lemma RemainderTieNotPeriodic()
    ensures Remainder(0.5, 1.0) == 0.5
    ensures Remainder(1.5, 1.0) == -0.5
  {
  }
}
