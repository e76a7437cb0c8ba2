/**
 * The value arithmetic of the slider: conversion between a value and a
 * position along the track, rounding to the step, and clamping to the range.
 * Numbers are mathematical reals; the source's IEEE doubles are not modelled.
 */
module SliderMath {

  function Abs(x: real): real { if x < 0.0 then -x else x }

  /** Position of `value` along the track on a 0–100 scale. */
  function ValueToPercent(value: real, min: real, max: real): real
    requires min != max
  {
    (value - min) * 100.0 / (max - min)
  }

  /** The ends of the range sit at 0 and 100, and the range in between. */
  lemma ValueToPercentBounds(value: real, min: real, max: real)
    requires min != max
    ensures value == min ==> ValueToPercent(value, min, max) == 0.0
    ensures value == max ==> ValueToPercent(value, min, max) == 100.0
    ensures min < max && min <= value <= max ==> 0.0 <= ValueToPercent(value, min, max) <= 100.0
  {
    if min < max && min <= value <= max {
      PercentBound(value - min, max - min);
    }
    if value == max {
      MulDiv(100.0, max - min);
      assert (value - min) * 100.0 == 100.0 * (max - min);
    }
  }

  /** Value at a position given as a FRACTION of the track, on a 0–1 scale. */
  function PercentToValue(percent: real, min: real, max: real): real
  {
    (max - min) * percent + min
  }

  /** Fraction 0 gives `min`, fraction 1 gives `max`, and fractions in between stay in range. */
  lemma PercentToValueBounds(percent: real, min: real, max: real)
    ensures percent == 0.0 ==> PercentToValue(percent, min, max) == min
    ensures percent == 1.0 ==> PercentToValue(percent, min, max) == max
    ensures min <= max && 0.0 <= percent <= 1.0 ==> min <= PercentToValue(percent, min, max) <= max
  {
    if min <= max && 0.0 <= percent <= 1.0 {
      var d := max - min;
      var a := d * percent;
      FractionBound(d, percent);
      assert PercentToValue(percent, min, max) == a + min;
      Between(a + min, a, min, max);
    }
  }

  /** On an increasing range, a larger fraction gives a larger value. */
  lemma PercentToValueMonotone(f1: real, f2: real, min: real, max: real)
    requires min <= max && f1 <= f2
    ensures PercentToValue(f1, min, max) <= PercentToValue(f2, min, max)
  {
    MulLeLeft(f1, f2, max - min);
  }

  /** The two conversions are inverse once the 0–100 scale of the first is divided by 100. */
  lemma PercentRoundTrip(value: real, min: real, max: real)
    requires min != max
    ensures PercentToValue(ValueToPercent(value, min, max) / 100.0, min, max) == value
  {
    var d := max - min;
    assert ValueToPercent(value, min, max) / 100.0 == (value - min) / d;
    DivMul(value - min, d);
  }

  /** ... and in the other direction, from a fraction back to a 0–100 percentage. */
  lemma FractionRoundTrip(fraction: real, min: real, max: real)
    requires min != max
    ensures ValueToPercent(PercentToValue(fraction, min, max), min, max) == 100.0 * fraction
  {
    var d := max - min;
    assert PercentToValue(fraction, min, max) - min == d * fraction;
    assert d * fraction * 100.0 == (100.0 * fraction) * d;
    MulDiv(100.0 * fraction, d);
  }

  /** JavaScript's Math.round: the integer floor(x + 1/2), so halves round towards +infinity. */
  function MathRound(x: real): (k: int)
    ensures x - 0.5 < k as real <= x + 0.5
  {
    (x + 0.5).Floor
  }

  /**
   * The multiple of `step` nearest to `value`, counted from 0 (not from the
   * slider's minimum). The decimal-precision fix applied afterwards in the
   * source is the identity over reals.
   */
  function RoundValueToStep(value: real, step: real): real
    requires step != 0.0
  {
    MathRound(value / step) as real * step
  }

  /** The rounded value is a whole number of steps, at most half a step away from `value`. */
  lemma RoundToStepBounds(value: real, step: real)
    requires step != 0.0
    ensures IsMultipleOf(RoundValueToStep(value, step), step)
    ensures Abs(RoundValueToStep(value, step) - value) <= Abs(step) / 2.0
  {
    var k := MathRound(value / step);
    assert RoundValueToStep(value, step) == k as real * step;
    RoundError(value, step);
    WholeStepsAreMultiples(k, step);
  }

  /** `x` is a whole number of steps away from 0. */
  predicate IsMultipleOf(x: real, step: real)
    requires step != 0.0
  {
    (x / step).Floor as real == x / step
  }

  lemma WholeStepsAreMultiples(k: int, step: real)
    requires step != 0.0
    ensures IsMultipleOf(k as real * step, step)
  {
    MulDiv(k as real, step);
    assert (k as real).Floor == k;
  }

  /** One step up or down from a multiple of `step` is again a multiple. */
  lemma NeighbourMultiples(value: real, step: real)
    requires step != 0.0 && IsMultipleOf(value, step)
    ensures IsMultipleOf(value + step, step) && IsMultipleOf(value - step, step)
  {
    var k := (value / step).Floor;
    DivMul(value, step);
    assert value == k as real * step;
    var above, below := k + 1, k - 1;
    OneMore(k as real, step);
    assert value + step == above as real * step && value - step == below as real * step;
    WholeStepsAreMultiples(above, step);
    WholeStepsAreMultiples(below, step);
  }

  /** Sums and differences of multiples of `step` are multiples of `step`. */
  lemma MultiplesAddUp(a: real, b: real, step: real)
    requires step != 0.0 && IsMultipleOf(a, step) && IsMultipleOf(b, step)
    ensures IsMultipleOf(a + b, step) && IsMultipleOf(a - b, step)
  {
    var ka, kb := (a / step).Floor, (b / step).Floor;
    DivMul(a, step);
    DivMul(b, step);
    assert a == ka as real * step && b == kb as real * step;
    var sum, diff := ka + kb, ka - kb;
    assert sum as real == ka as real + kb as real && diff as real == ka as real - kb as real;
    AddMul(ka as real, kb as real, step);
    Distrib(ka as real, kb as real, step);
    assert a + b == sum as real * step && a - b == diff as real * step;
    WholeStepsAreMultiples(sum, step);
    WholeStepsAreMultiples(diff, step);
  }

  lemma AddMul(a: real, b: real, s: real)
    ensures a * s + b * s == (a + b) * s
  {
  }

  lemma OneMore(a: real, s: real)
    ensures (a + 1.0) * s == a * s + s && (a - 1.0) * s == a * s - s
  {
  }

  /** The rounding error is the distance of `value / step` to its rounding, scaled by |step|. */
  lemma RoundError(value: real, step: real)
    requires step != 0.0
    ensures Abs(MathRound(value / step) as real * step - value) <= Abs(step) / 2.0
  {
    var q := value / step;
    var k := MathRound(q);
    MultipleError(value, step, k);
    ScaledLe(Abs(k as real * step - value), Abs(step) / 2.0, Abs(k as real - q), 0.5, Abs(step));
  }

  /** No multiple of `step` is closer to `value` than the rounded value. */
  lemma RoundIsNearest(value: real, step: real, j: int)
    requires step != 0.0
    ensures Abs(RoundValueToStep(value, step) - value) <= Abs(j as real * step - value)
  {
    var k := MathRound(value / step);
    assert RoundValueToStep(value, step) == k as real * step;
    RoundError(value, step);
    if j != k {
      MultiplesApart(k, j, step);
      FartherThanHalf(k as real * step, j as real * step, value, Abs(step) / 2.0);
    }
  }

  /** Two different multiples of `step` are at least |step| apart. */
  lemma MultiplesApart(k: int, j: int, step: real)
    requires k != j
    ensures Abs(j as real * step - k as real * step) >= Abs(step)
  {
    Distrib(j as real, k as real, step);
    AbsMul(j as real - k as real, step);
    MulLe(1.0, Abs(j as real - k as real), Abs(step));
  }

  /** A point within `h` of `v` is closer to `v` than any point 2h away from it. */
  lemma FartherThanHalf(r: real, x: real, v: real, h: real)
    requires Abs(r - v) <= h && Abs(x - r) >= 2.0 * h
    ensures Abs(r - v) <= Abs(x - v)
  {
  }

  /** The distance from `value` to the j-th multiple of `step`, measured in steps. */
  lemma MultipleError(value: real, step: real, j: int)
    requires step != 0.0
    ensures Abs(j as real * step - value) == Abs(j as real - value / step) * Abs(step)
  {
    var q := value / step;
    assert j as real * step - value == (j as real - q) * step by {
      DivMul(value, step);
      Distrib(j as real, q, step);
    }
    AbsMul(j as real - q, step);
  }

  /** Exact multiples of `step` are fixed points of the rounding. */
  lemma RoundFixesMultiples(value: real, step: real)
    requires step != 0.0 && IsMultipleOf(value, step)
    ensures RoundValueToStep(value, step) == value
  {
    var k := (value / step).Floor;
    assert MathRound(value / step) == k;
    DivMul(value, step);
  }

  /** Rounding to the step is idempotent. */
  lemma RoundIdempotent(value: real, step: real)
    requires step != 0.0
    ensures RoundValueToStep(RoundValueToStep(value, step), step) == RoundValueToStep(value, step)
  {
    RoundToStepBounds(value, step);
    RoundFixesMultiples(RoundValueToStep(value, step), step);
  }

  /** With a positive step, rounding preserves order. */
  lemma RoundMonotone(a: real, b: real, step: real)
    requires step > 0.0 && a <= b
    ensures RoundValueToStep(a, step) <= RoundValueToStep(b, step)
  {
    var ka, kb := MathRound(a / step), MathRound(b / step);
    assert ka <= kb by {
      DivLe(a, b, step);
      assert a / step + 0.5 <= b / step + 0.5;
    }
    MulMono(ka, kb, step);
    assert RoundValueToStep(a, step) == ka as real * step;
    assert RoundValueToStep(b, step) == kb as real * step;
  }

  lemma ScaledLe(e1: real, e2: real, a1: real, a2: real, s: real)
    requires e1 == a1 * s && e2 == a2 * s && a1 <= a2 && 0.0 <= s
    ensures e1 <= e2
  {
    MulLe(a1, a2, s);
  }

  lemma MulMono(ka: int, kb: int, step: real)
    requires ka <= kb && step > 0.0
    ensures ka as real * step <= kb as real * step
  {
    MulLe(ka as real, kb as real, step);
  }

  // Small facts of real arithmetic that the solver does not find on its own.

  lemma DivSelf(y: real)
    requires y != 0.0
    ensures y / y == 1.0
  {
  }

  lemma DivMul(x: real, y: real)
    requires y != 0.0
    ensures (x / y) * y == x
  {
  }

  lemma MulDiv(k: real, s: real)
    requires s != 0.0
    ensures (k * s) / s == k
  {
  }

  lemma Distrib(k: real, q: real, s: real)
    ensures k * s - q * s == (k - q) * s
  {
  }

  lemma MulNonneg(a: real, b: real)
    requires 0.0 <= a && 0.0 <= b
    ensures 0.0 <= a * b
  {
  }

  lemma MulLe(a: real, b: real, c: real)
    requires a <= b && 0.0 <= c
    ensures a * c <= b * c
  {
    MulNonneg(b - a, c);
    Distrib(b, a, c);
  }

  lemma MulLeLeft(a: real, b: real, c: real)
    requires a <= b && 0.0 <= c
    ensures c * a <= c * b
  {
    MulNonneg(c, b - a);
    assert c * b - c * a == c * (b - a);
  }

  lemma Between(x: real, a: real, min: real, max: real)
    requires x == a + min && 0.0 <= a <= max - min
    ensures min <= x <= max
  {
  }

  lemma AbsMul(a: real, b: real)
    ensures Abs(a * b) == Abs(a) * Abs(b)
  {
    if a < 0.0 && b < 0.0 {
      assert a * b == (-a) * (-b);
      MulNonneg(-a, -b);
    } else if a < 0.0 {
      assert -(a * b) == (-a) * b;
      MulNonneg(-a, b);
    } else if b < 0.0 {
      assert -(a * b) == a * (-b);
      MulNonneg(a, -b);
    } else {
      MulNonneg(a, b);
    }
  }

  lemma DivLe(a: real, b: real, s: real)
    requires s > 0.0 && a <= b
    ensures a / s <= b / s
  {
  }

  lemma FractionBound(d: real, p: real)
    requires 0.0 <= d && 0.0 <= p <= 1.0
    ensures 0.0 <= d * p <= d
  {
    MulNonneg(d, p);
    MulNonneg(d, 1.0 - p);
    assert d * (1.0 - p) == d - d * p;
  }

  lemma PercentBound(a: real, d: real)
    requires 0.0 <= a <= d && d > 0.0
    ensures 0.0 <= a * 100.0 / d <= 100.0
  {
    var x := a * 100.0 / d;
    DivMul(a * 100.0, d);
    if x < 0.0 {
      MulLe(x, 0.0, d);
      assert false;
    }
    if x > 100.0 {
      MulLe(100.0, x, d);
      assert false;
    }
  }

  /** The source's getAllowedValue: clamp `val` to the range [min, max]. */
  function GetAllowedValue(val: real, min: real, max: real): (r: real)
    ensures min <= max ==> min <= r <= max
    ensures min <= val <= max ==> r == val
    ensures r == val || r == min || r == max
  {
    if val > max then max else if val < min then min else val
  }

  /** The clamped value is the point of [min, max] nearest to `val`. */
  lemma ClampIsNearest(val: real, min: real, max: real, y: real)
    requires min <= y <= max
    ensures Abs(GetAllowedValue(val, min, max) - val) <= Abs(y - val)
  {
  }

  /** Clamping is idempotent. */
  lemma ClampIdempotent(val: real, min: real, max: real)
    requires min <= max
    ensures GetAllowedValue(GetAllowedValue(val, min, max), min, max) == GetAllowedValue(val, min, max)
  {
  }

  /** Clamping preserves order. */
  lemma ClampMonotone(a: real, b: real, min: real, max: real)
    requires min <= max && a <= b
    ensures GetAllowedValue(a, min, max) <= GetAllowedValue(b, min, max)
  {
  }

  /**
   * The tail shared by the key and pointer handlers: round to the step when
   * the step is non-zero (`if (step)`), then clamp to the range.
   */
  function StepAndClamp(value: real, min: real, max: real, step: real): (r: real)
    ensures min <= max ==> min <= r <= max
  {
    GetAllowedValue(if step != 0.0 then RoundValueToStep(value, step) else value, min, max)
  }

  /** A value on the step grid and inside the range passes through unchanged. */
  lemma StepAndClampKeepsGridValues(value: real, min: real, max: real, step: real)
    requires step != 0.0 && IsMultipleOf(value, step) && min <= value <= max
    ensures StepAndClamp(value, min, max, step) == value
  {
    RoundFixesMultiples(value, step);
  }

  /** For a positive step the shared tail preserves order. */
  lemma StepAndClampMonotone(a: real, b: real, min: real, max: real, step: real)
    requires min <= max && step > 0.0 && a <= b
    ensures StepAndClamp(a, min, max, step) <= StepAndClamp(b, min, max, step)
  {
    RoundMonotone(a, b, step);
    ClampMonotone(RoundValueToStep(a, step), RoundValueToStep(b, step), min, max);
  }
}
