/**
 * The period-over-period comparison primitive shared by every metric:
 * decimal rounding (`roundTo`) and the compared-metric triple
 * (`calculateChanges`). Numbers are exact reals; the IEEE behaviour of the
 * source (NaN, Infinity, the exponent-string trick failing for huge values)
 * is not modelled.
 */
module Comparison {
  import opened Common

  /** The triple attached to every comparable figure. */
  datatype ComparedMetric = ComparedMetric(
    previousCount: real,
    absoluteChange: real,
    percentageChange: Option<real>)

  function Pow10(d: nat): (p: nat)
    ensures p >= 1
  {
    if d == 0 then 1 else 10 * Pow10(d - 1)
  }

  /** The number of units of 10^-d in 1. */
  function Scale(d: nat): (s: real)
    ensures s >= 1.0
  {
    Pow10(d) as real
  }

  /** `x` is a whole multiple of 10^-d. */
  predicate OnGrid(x: real, d: nat) {
    (x * Scale(d)).Floor as real == x * Scale(d)
  }

  /** A whole number of units 10^-d lies on the grid. */
  lemma GridPoint(k: int, d: nat)
    ensures OnGrid(k as real / Scale(d), d)
    ensures (k as real / Scale(d)) * Scale(d) == k as real
  {
    var s := Scale(d);
    assert (k as real / s) * s == k as real;
  }

  /** The difference of two values with two decimal places has two decimal places. */
  lemma CentsDifference(x: real, y: real)
    requires OnGrid(x, 2) && OnGrid(y, 2)
    ensures OnGrid(x - y, 2)
  {
    Cents(x);
    Cents(y);
    WholeDifference(x * 100.0, y * 100.0);
    Cents(x - y);
  }

  /** On the two-place grid, a value times 100 is whole. */
  lemma Cents(x: real)
    ensures OnGrid(x, 2) <==> (x * 100.0).Floor as real == x * 100.0
  {
    assert Scale(2) == 100.0 by { assert Pow10(2) == 100; }
  }

  lemma WholeDifference(p: real, q: real)
    requires p.Floor as real == p && q.Floor as real == q
    ensures (p - q).Floor as real == p - q
  {
    assert p - q == (p.Floor - q.Floor) as real;
  }

  /** The only whole number in the window (x - 1/2, x + 1/2] is floor(x + 1/2). */
  lemma FloorWindow(x: real, a: int)
    requires x - 0.5 < a as real <= x + 0.5
    ensures a == (x + 0.5).Floor
  {
  }

  lemma FloorMono(x: real, y: real)
    requires x <= y
    ensures x.Floor <= y.Floor
  {
  }

  lemma MulDiv(x: real, s: real)
    requires s >= 1.0
    ensures (x * s) / s == x
  {
  }

  lemma DivMono(a: real, b: real, s: real)
    requires s >= 1.0 && a <= b
    ensures a / s <= b / s
  {
    assert b / s - a / s == (b - a) / s;
  }

  lemma MulMono(a: real, b: real, s: real)
    requires s >= 1.0 && a <= b
    ensures a * s <= b * s
  {
    assert b * s - a * s == (b - a) * s;
  }

  /**
   * Rounding to `d` decimal places as JavaScript's `Math.round` does it on
   * the scaled value: floor(v * 10^d + 1/2) / 10^d. The result lies on the
   * 10^-d grid, within half a unit of `v`, and a value exactly halfway
   * between two grid points goes to the upper one (toward +infinity).
   */
  function RoundTo(v: real, d: nat): (r: real)
    ensures OnGrid(r, d)
    ensures v * Scale(d) - 0.5 < r * Scale(d) <= v * Scale(d) + 0.5
  {
    GridPoint(ScaledRound(v, d), d);
    ScaledRound(v, d) as real / Scale(d)
  }

  /** `Math.round` of the scaled value: the nearest whole number, halves upward. */
  function ScaledRound(v: real, d: nat): int {
    (v * Scale(d) + 0.5).Floor
  }

  /**
   * The two postconditions of RoundTo determine its result: any grid point
   * in the half-open unit window around `v` is the rounded value.
   */
  lemma RoundToUnique(v: real, d: nat, r: real)
    requires OnGrid(r, d)
    requires v * Scale(d) - 0.5 < r * Scale(d) <= v * Scale(d) + 0.5
    ensures r == RoundTo(v, d)
  {
    var a := (r * Scale(d)).Floor;
    FloorWindow(v * Scale(d), a);
    assert a == ScaledRound(v, d);
    MulDiv(r, Scale(d));
    assert r == a as real / Scale(d);
  }

  /** Rounding a rounded value changes nothing. */
  lemma RoundToIdempotent(v: real, d: nat)
    ensures RoundTo(RoundTo(v, d), d) == RoundTo(v, d)
  {
    var r := RoundTo(v, d);
    RoundToUnique(r, d, r);
  }

  /** Rounding never moves a value past a grid point: it is monotone. */
  lemma RoundToMonotone(v: real, w: real, d: nat)
    requires v <= w
    ensures RoundTo(v, d) <= RoundTo(w, d)
  {
    MulMono(v, w, Scale(d));
    FloorMono(v * Scale(d) + 0.5, w * Scale(d) + 0.5);
    assert ScaledRound(v, d) <= ScaledRound(w, d);
    DivMono(ScaledRound(v, d) as real, ScaledRound(w, d) as real, Scale(d));
  }

  /** Halves go toward +infinity, also for negative values. */
  lemma RoundToHalves()
    ensures RoundTo(-2.5, 0) == -2.0
    ensures RoundTo(2.5, 0) == 3.0
    ensures RoundTo(-0.125, 2) == -0.12
  {
    assert Scale(0) == 1.0;
    assert Scale(2) == 100.0 by { assert Pow10(2) == 100; }
  }

  /** Rounding keeps zero and never flips the sign of a value. */
  lemma RoundedSign(x: real, d: nat)
    ensures RoundTo(0.0, d) == 0.0
    ensures x >= 0.0 ==> RoundTo(x, d) >= 0.0
    ensures x <= 0.0 ==> RoundTo(x, d) <= 0.0
  {
    RoundToUnique(0.0, d, 0.0);
    if x >= 0.0 {
      RoundToMonotone(0.0, x, d);
    } else {
      RoundToMonotone(x, 0.0, d);
    }
  }

  /**
   * `calculateChanges(current, previous)`: the previous value and the
   * absolute change are always reported; the percentage change is missing
   * (null) exactly when the previous value is zero, and otherwise is the
   * relative change in percent rounded to two places.
   */
  function CalculateChanges(current: real, previous: real): (r: ComparedMetric)
    ensures r.previousCount == previous
    ensures r.absoluteChange == current - previous
    ensures r.percentageChange.None? <==> previous == 0.0
    ensures r.percentageChange.Some? ==>
      var exact := (current - previous) / previous * 100.0;
      && OnGrid(r.percentageChange.value, 2)
      && exact * 100.0 - 0.5 < r.percentageChange.value * 100.0 <= exact * 100.0 + 0.5
    ensures previous > 0.0 && current >= previous ==> r.percentageChange.value >= 0.0
    ensures previous > 0.0 && current <= previous ==> r.percentageChange.value <= 0.0
    ensures previous != 0.0 && current == previous ==> r.percentageChange == Some(0.0)
  {
    var absoluteChange := current - previous;
    assert Scale(2) == 100.0 by { assert Pow10(2) == 100; }
    if previous != 0.0 then
      var exact := absoluteChange / previous * 100.0;
      RoundedSign(exact, 2);
      ComparedMetric(previous, absoluteChange, Some(RoundTo(exact, 2)))
    else
      ComparedMetric(previous, absoluteChange, None)
  }

  /** The worked example: 80% previously and 95% now is a rise of 18.75%. */
  lemma SuccessRateExample()
    ensures CalculateChanges(95.0, 80.0) == ComparedMetric(80.0, 15.0, Some(18.75))
  {
    assert Scale(2) == 100.0 by { assert Pow10(2) == 100; }
    assert RoundTo(18.75, 2) == 18.75;
  }
}
