/** Exact decimal arithmetic on a cent grid: half-up rounding of a quotient, ties away from zero. */
module Money {

  function Abs(x: int): nat { if x < 0 then -x else x }

  /** n / d rounded to the nearest integer. */
  function HalfUp(n: int, d: int): (r: int)
    requires d != 0
  {
    if d < 0 then Nearest(-n, -d) else Nearest(n, d)
  }

  function Nearest(n: int, d: int): int
    requires d > 0
  {
    if n >= 0 then (2 * n + d) / (2 * d) else -((-2 * n + d) / (2 * d))
  }

  lemma QuotientBounds(a: int, b: int)
    requires b > 0
    ensures a / b * b <= a < a / b * b + b
  {
  }

  /** A rounded quotient is within half a unit of the exact one. */
  lemma HalfUpError(n: int, d: int)
    requires d > 0
    ensures 2 * Abs(HalfUp(n, d) * d - n) <= d
  {
    var m := if n >= 0 then 2 * n + d else -2 * n + d;
    QuotientBounds(m, 2 * d);
    var q := m / (2 * d);
    assert q * (2 * d) == 2 * (q * d);
    assert (-q) * d == -(q * d);
  }

  lemma {:induction false} MulMonotone(a: int, b: int, d: int)
    requires d > 0 && a < b
    ensures a * d + d <= b * d
    decreases b - a
  {
    assert a * d + d == (a + 1) * d;
    if a + 1 < b {
      MulMonotone(a + 1, b, d);
    }
  }

  lemma {:induction false} MulNonNegative(a: nat, b: nat)
    ensures a * b >= 0
  {
    if a > 0 {
      MulNonNegative(a - 1, b);
      assert a * b == (a - 1) * b + b;
    }
  }

  /** A rounded share of a non-negative whole stays between nothing and the whole. */
  lemma HalfUpShare(whole: int, part: int, d: int)
    requires d > 0 && whole >= 0 && 0 <= part <= d
    ensures 0 <= HalfUp(whole * part, d) <= whole
  {
    var n := whole * part;
    var r := HalfUp(n, d);
    MulNonNegative(whole, part);
    MulNonNegative(whole, d - part);
    assert whole * (d - part) == whole * d - n;
    HalfUpError(n, d);
    if r < 0 {
      MulMonotone(r, 0, d);
    } else if whole < r {
      MulMonotone(whole, r, d);
    }
  }

  /**
    What half-up rounding is: a non-negative quotient lies at least half a unit above the number
    before, and below half a unit above the result; a negative one mirrors it, so ties go away
    from zero.
  */
  lemma HalfUpIs(n: int, d: int)
    requires d > 0
    ensures n >= 0 ==> var r := HalfUp(n, d); 2 * (r * d) - d <= 2 * n < 2 * (r * d) + d
    ensures HalfUp(-n, d) == -HalfUp(n, d) && HalfUp(n, -d) == HalfUp(-n, d)
  {
    if n >= 0 {
      QuotientBounds(2 * n + d, 2 * d);
      var q := (2 * n + d) / (2 * d);
      assert q * (2 * d) == 2 * (q * d);
    }
    if n == 0 {
      NothingRounded(d);
    }
  }

  lemma NothingRounded(d: int)
    requires d > 0
    ensures HalfUp(0, d) == 0
  {
    QuotientBounds(d, 2 * d);
    var q := d / (2 * d);
    if q >= 1 {
      MulMonotone(0, q, 2 * d);
    } else if q < 0 {
      MulMonotone(q, 0, 2 * d);
    }
  }
}
