/**
 * `toFixed` of index.js: fixed-precision rounding over exact reals.
 * `Math.floor(y)` is `y.Floor`; `Math.round(y)` rounds half toward +infinity, `(y + 1/2).Floor`.
 */
module Rounding {

  function Pow10(n: nat): (r: nat)
    ensures r >= 1
  {
    if n == 0 then 1 else 10 * Pow10(n - 1)
  }

  /** `Math.round` */
  function Round(y: real): int
  {
    (y + 0.5).Floor
  }

  /**
   * `toFixed(number, precision)`: truncate to `precision + 1` digits after the point,
   * then round half up at that extra digit and drop it.
   */
  function ToFixed(number: real, precision: nat): real
  {
    Quantize(number, Pow10(precision + 1) as real)
  }

  /** The body of `toFixed` once `multiplier = 10^(precision+1)` is computed. */
  function Quantize(number: real, multiplier: real): real
    requires multiplier > 0.0
  {
    (Steps(number, multiplier) * 10) as real / multiplier
  }

  /** `Math.round(Math.floor(number * multiplier) / 10)` */
  function Steps(number: real, multiplier: real): int
  {
    Round((number * multiplier).Floor as real / 10.0)
  }

  /** Bounds of `Math.round`: within half of its argument, ties going up. */
  lemma RoundBounds(y: real)
    ensures y - 0.5 < Round(y) as real <= y + 0.5
  {
  }

  lemma MultiplierIsTenSteps(precision: nat)
    ensures Pow10(precision + 1) as real == 10.0 * Pow10(precision) as real
  {
  }

  lemma QuantizeIsSteps(x: real, p: real)
    requires p >= 1.0
    ensures Quantize(x, 10.0 * p) == Steps(x, 10.0 * p) as real / p
  {
    var k := Steps(x, 10.0 * p) as real;
    assert (k * 10.0) / (10.0 * p) == k / p;
  }

  /** `ToFixed` lands on a whole number of steps of `10^-precision`. */
  lemma ToFixedOnGrid(x: real, precision: nat)
    ensures ToFixed(x, precision) * Pow10(precision) as real
            == Steps(x, Pow10(precision + 1) as real) as real
  {
    var p := Pow10(precision) as real;
    MultiplierIsTenSteps(precision);
    QuantizeIsSteps(x, p);
    var k := Steps(x, 10.0 * p) as real;
    assert (k / p) * p == k;
  }

  lemma StepsError(x: real, p: real)
    requires p >= 1.0
    ensures var k := Steps(x, 10.0 * p) as real;
            x * p - 0.6 < k <= x * p + 0.5
  {
    var m := 10.0 * p;
    var w := (x * m).Floor as real;
    assert x * m - 1.0 < w <= x * m;
    RoundBounds(w / 10.0);
    assert x * m / 10.0 == x * p;
  }

  /**
   * The result is within half a step above and 0.6 of a step below the exact value: the
   * truncation to the extra digit can lose up to a tenth of a step before rounding.
   */
  lemma ToFixedError(x: real, precision: nat)
    ensures var p := Pow10(precision) as real;
            x * p - 0.6 < ToFixed(x, precision) * p <= x * p + 0.5
  {
    var p := Pow10(precision) as real;
    ToFixedOnGrid(x, precision);
    MultiplierIsTenSteps(precision);
    StepsError(x, p);
  }

  /** The exact band of inputs that collapse to 0: `[-5, 5)` in units of `10^-(precision+1)`. */
  predicate RoundsToZero(x: real, precision: nat)
  {
    -5.0 <= x * Pow10(precision + 1) as real < 5.0
  }

  lemma StepsZeroIff(x: real, m: real)
    ensures Steps(x, m) == 0 <==> -5.0 <= x * m < 5.0
  {
    var w := (x * m).Floor;
    assert Steps(x, m) == 0 <==> -5 <= w < 5;
  }

  lemma QuantizeZeroIff(x: real, p: real)
    requires p >= 1.0
    ensures Quantize(x, 10.0 * p) == 0.0 <==> -5.0 <= x * (10.0 * p) < 5.0
  {
    QuantizeIsSteps(x, p);
    StepsZeroIff(x, 10.0 * p);
    var k := Steps(x, 10.0 * p) as real;
    assert k / p == 0.0 <==> k == 0.0;
  }

  lemma ToFixedZeroIff(x: real, precision: nat)
    ensures ToFixed(x, precision) == 0.0 <==> RoundsToZero(x, precision)
  {
    var p := Pow10(precision) as real;
    var m := Pow10(precision + 1) as real;
    MultiplierIsTenSteps(precision);
    assert m == 10.0 * p;
    QuantizeZeroIff(x, p);
    assert ToFixed(x, precision) == Quantize(x, m);
    assert x * m == x * (10.0 * p);
  }

  lemma GridStepsExact(x: real, p: real, n: int)
    requires p >= 1.0 && x * p == n as real
    ensures Steps(x, 10.0 * p) == n
    ensures x == n as real / p
  {
    assert x * (10.0 * p) == (10 * n) as real;
  }

  /** A value already on the `10^-precision` grid is returned unchanged. */
  lemma ToFixedExactOnGrid(x: real, precision: nat, n: int)
    requires x * Pow10(precision) as real == n as real
    ensures ToFixed(x, precision) == x
  {
    var p := Pow10(precision) as real;
    MultiplierIsTenSteps(precision);
    QuantizeIsSteps(x, p);
    GridStepsExact(x, p, n);
  }

  /** Rounding twice is rounding once. */
  lemma ToFixedIdempotent(x: real, precision: nat)
    ensures ToFixed(ToFixed(x, precision), precision) == ToFixed(x, precision)
  {
    ToFixedOnGrid(x, precision);
    ToFixedExactOnGrid(ToFixed(x, precision), precision, Steps(x, Pow10(precision + 1) as real));
  }

  lemma StepsMonotonic(x: real, y: real, m: real)
    requires x <= y && m > 0.0
    ensures Steps(x, m) <= Steps(y, m)
  {
    assert x * m <= y * m;
    var wx := (x * m).Floor;
    var wy := (y * m).Floor;
    assert wx <= wy;
    assert wx as real / 10.0 + 0.5 <= wy as real / 10.0 + 0.5;
  }

  lemma ToFixedMonotonic(x: real, y: real, precision: nat)
    requires x <= y
    ensures ToFixed(x, precision) <= ToFixed(y, precision)
  {
    var p := Pow10(precision) as real;
    MultiplierIsTenSteps(precision);
    QuantizeIsSteps(x, p);
    QuantizeIsSteps(y, p);
    StepsMonotonic(x, y, 10.0 * p);
    var kx := Steps(x, 10.0 * p) as real;
    var ky := Steps(y, 10.0 * p) as real;
    assert kx / p <= ky / p;
  }

  lemma ToFixedZero(precision: nat)
    ensures ToFixed(0.0, precision) == 0.0
  {
  }

  /** The two reference values: 1px and 0.5px over a root of 16 at five digits. */
  lemma ToFixedExamples()
    ensures ToFixed(1.0 / 16.0, 5) == 0.0625
    ensures ToFixed(0.5 / 16.0, 5) == 0.03125
  {
    assert Pow10(5) == 100000;
    ToFixedExactOnGrid(1.0 / 16.0, 5, 6250);
    ToFixedExactOnGrid(0.5 / 16.0, 5, 3125);
  }
}
