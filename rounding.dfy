/**
 * Decimal rounding (`roundToPrecision`, euler.cpp:66-69): a value is scaled
 * by 10^p, rounded to the nearest integer with halves going away from zero
 * (the rule of `std::round`), and scaled back. Values are exact reals here,
 * so the model says nothing about binary floating-point error.
 *
 * `Round` and `OnGrid` are defined one decimal digit at a time, which keeps
 * every unfolding of them linear; `RoundIsScaledRound` proves that `Round` is
 * the source's one-shot formula.
 */
module Rounding {

  /** 10^p. */
  function Pow10(p: nat): (n: nat)
    ensures n >= 1
  {
    if p == 0 then 1 else 10 * Pow10(p - 1)
  }

  /** The scale of precision p, 10^p as a real. */
  function Scale(p: nat): (s: real)
    ensures s >= 1.0
  {
    Pow10(p) as real
  }

  predicate IsInt(t: real)
  {
    t.Floor as real == t
  }

  /**
   * `std::round`: the nearest integer, a half going away from zero. Each of
   * the two intervals below holds exactly one integer, so they determine it.
   */
  function RoundHalfAway(t: real): (n: int)
    ensures t >= 0.0 ==> n >= 0 && t - 0.5 < n as real <= t + 0.5
    ensures t < 0.0 ==> n <= 0 && t - 0.5 <= n as real < t + 0.5
  {
    if t >= 0.0 then (t + 0.5).Floor else -((-t + 0.5).Floor)
  }

  /** Rounding to p decimals, one decimal digit at a time. */
  function RoundDigits(v: real, p: nat): real
    decreases p
  {
    if p == 0 then RoundHalfAway(v) as real else RoundDigits(10.0 * v, p - 1) / 10.0
  }

  /**
   * `roundToPrecision(v, p)`. Kept apart from the recursion in `RoundDigits`
   * so that a rounded value nested inside another rounded expression is one
   * and the same term wherever it occurs.
   */
  function Round(v: real, p: nat): real
  {
    RoundDigits(v, p)
  }

  /** `v` is a whole multiple of 10^-p: it is printed exactly with p decimals. */
  predicate OnGrid(v: real, p: nat)
    decreases p
  {
    if p == 0 then IsInt(v) else OnGrid(10.0 * v, p - 1)
  }

  /** The source's formula at scale s: round(v * s) / s. */
  function ScaledRound(v: real, s: real): real
    requires s > 0.0
  {
    RoundHalfAway(v * s) as real / s
  }

  /** `Round` is the source's formula: round(v * 10^p) / 10^p. */
  lemma {:induction false} RoundIsScaledRound(v: real, p: nat)
    ensures Round(v, p) == ScaledRound(v, Scale(p))
    decreases p
  {
    if p > 0 {
      RoundIsScaledRound(10.0 * v, p - 1);
      ScaledRoundStep(v, Scale(p - 1));
    }
  }

  /** Scaling by 10 * s is scaling by 10, then by s. */
  lemma ScaledRoundStep(v: real, s: real)
    requires s > 0.0
    ensures ScaledRound(v, 10.0 * s) == ScaledRound(10.0 * v, s) / 10.0
  {
    assert (10.0 * v) * s == v * (10.0 * s);
    var k := RoundHalfAway(v * (10.0 * s)) as real;
    assert (k / s) / 10.0 == k / (10.0 * s);
  }

  /** An integer is its own nearest integer. */
  lemma RoundHalfAwayOfInt(t: real)
    requires IsInt(t)
    ensures RoundHalfAway(t) as real == t
  {
    var n, k := RoundHalfAway(t), t.Floor;
    assert -1.0 < (n - k) as real < 1.0;
  }

  /** The result of rounding lies on the grid. */
  lemma {:induction false} RoundIsOnGrid(v: real, p: nat)
    ensures OnGrid(Round(v, p), p)
    decreases p
  {
    if p > 0 {
      RoundIsOnGrid(10.0 * v, p - 1);
      assert 10.0 * Round(v, p) == Round(10.0 * v, p - 1);
    }
  }

  /** A value already on the grid is left unchanged by rounding. */
  lemma {:induction false} RoundOnGrid(v: real, p: nat)
    requires OnGrid(v, p)
    ensures Round(v, p) == v
    decreases p
  {
    if p == 0 {
      RoundHalfAwayOfInt(v);
    } else {
      RoundOnGrid(10.0 * v, p - 1);
    }
  }

  /** Rounding twice is rounding once. */
  lemma RoundIdempotent(v: real, p: nat)
    ensures Round(Round(v, p), p) == Round(v, p)
  {
    RoundIsOnGrid(v, p);
    RoundOnGrid(Round(v, p), p);
  }

  /** The result of rounding is at most half a unit of 10^-p away from `v`. */
  lemma {:induction false} RoundError(v: real, p: nat)
    ensures -0.5 <= (Round(v, p) - v) * Scale(p) <= 0.5
    decreases p
  {
    if p > 0 {
      RoundError(10.0 * v, p - 1);
      assert (Round(v, p) - v) * Scale(p) == (Round(10.0 * v, p - 1) - 10.0 * v) * Scale(p - 1);
    }
  }

  /** With precision 0 the result is the nearest integer, halves away from zero. */
  lemma RoundToInteger(v: real)
    ensures Round(v, 0) == RoundHalfAway(v) as real
    ensures IsInt(Round(v, 0))
  {
  }

  lemma IsIntSum(x: real, y: real)
    requires IsInt(x) && IsInt(y)
    ensures IsInt(x + y)
  {
    assert x + y == (x.Floor + y.Floor) as real;
  }

  /** Integers lie on every grid. */
  lemma {:induction false} IntOnGrid(v: real, p: nat)
    requires IsInt(v)
    ensures OnGrid(v, p)
    decreases p
  {
    if p > 0 {
      assert 10.0 * v == (10 * v.Floor) as real;
      IntOnGrid(10.0 * v, p - 1);
    }
  }

  /** The grid is closed under addition. */
  lemma {:induction false} GridSum(a: real, b: real, p: nat)
    requires OnGrid(a, p) && OnGrid(b, p)
    ensures OnGrid(a + b, p)
    decreases p
  {
    if p == 0 {
      IsIntSum(a, b);
    } else {
      GridSum(10.0 * a, 10.0 * b, p - 1);
      assert 10.0 * (a + b) == 10.0 * a + 10.0 * b;
    }
  }

  /** The sum of two grid values needs no further rounding. */
  lemma RoundSum(a: real, b: real, p: nat)
    requires OnGrid(a, p) && OnGrid(b, p)
    ensures Round(a + b, p) == a + b && OnGrid(a + b, p)
  {
    GridSum(a, b, p);
    RoundOnGrid(a + b, p);
  }
}
