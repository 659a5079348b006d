/** The gas density found from pressure and temperature as a root of a quadratic
    whose coefficients depend on the temperature. Single-precision arithmetic is
    modelled over the reals, and a square root as the number it is defined to be. */
module Density {

  function CoA(t: real): real {
    0.0012655 * t - 0.33733
  }

  function CoB(t: real): real {
    0.56676 * t + 152.64
  }

  function CoC(p: real, t: real): real {
    -0.036515 * t - (p - 6.6876)
  }

  function Discriminant(p: real, t: real): real {
    CoB(t) * CoB(t) - 4.0 * CoA(t) * CoC(p, t)
  }

  /** What the C library's sqrt returns. */
  ghost predicate IsSqrt(s: real, x: real) {
    0.0 <= s && s * s == x
  }

  /** The pressure of a gas of density d: the curve that the code solves for d. */
  function PressureOf(d: real, t: real): real {
    CoA(t) * d * d + CoB(t) * d - 0.036515 * t + 6.6876
  }

  /** The rate at which that pressure changes with the density. */
  function Rate(d: real, t: real): real {
    2.0 * CoA(t) * d + CoB(t)
  }

  /** The density is the one point of the pressure curve that has this pressure and
      where the pressure does not fall with the density. */
  ghost predicate IsDensity(d: real, p: real, t: real) {
    PressureOf(d, t) == p && Rate(d, t) >= 0.0
  }

  function PressureAt20(d: real): real {
    d * (163.98 - 0.312 * d) + 6.457
  }

  method CalculateDensity(fPressure: real, fTemperature: real, sqrt: real) returns (density: real, fPRS20: real)
    requires CoA(fTemperature) != 0.0
    requires IsSqrt(sqrt, Discriminant(fPressure, fTemperature))
    ensures IsDensity(density, fPressure, fTemperature)
    ensures forall d :: IsDensity(d, fPressure, fTemperature) ==> d == density
    ensures fPRS20 == PressureAt20(density)
  {
    var coA := 0.0012655 * fTemperature - 0.33733;
    var coB := 0.56676 * fTemperature + 152.64;
    var coC := sqrt;
    coC := (coC - coB) / (2.0 * coA);
    SolvesForDensity(fPressure, fTemperature, sqrt, coC);
    fPRS20 := coC * (163.98 - 0.312 * coC) + 6.457;
    density := coC;
  }

  /** Completing the square. */
  lemma SquareOfRate(d: real, t: real)
    ensures Rate(d, t) * Rate(d, t) == Discriminant(PressureOf(d, t), t)
  {
  }

  /** Rates and pressures: with equal rates the densities are equal. */
  lemma RateDecides(d: real, e: real, t: real)
    requires CoA(t) != 0.0 && Rate(d, t) == Rate(e, t)
    ensures d == e
  {
  }

  lemma EqualSquares(x: real, y: real)
    requires 0.0 <= x && 0.0 <= y && x * x == y * y
    ensures x == y
  {
    SquaresGrow(x, y);
    SquaresGrow(y, x);
  }

  lemma SquaresGrow(x: real, y: real)
    requires 0.0 <= x
    ensures x < y ==> x * x < y * y
  {
    if x < y {
      assert 0.0 < (y - x) * y;
      assert 0.0 <= x * (y - x);
    }
  }

  /** A discriminant gives its pressure back. */
  lemma PressureFromDiscriminant(p: real, q: real, t: real)
    requires CoA(t) != 0.0
    requires Discriminant(p, t) == Discriminant(q, t)
    ensures p == q
  {
  }

  lemma SolvesForDensity(p: real, t: real, s: real, d: real)
    requires CoA(t) != 0.0 && IsSqrt(s, Discriminant(p, t)) && d == (s - CoB(t)) / (2.0 * CoA(t))
    ensures IsDensity(d, p, t)
    ensures forall e :: IsDensity(e, p, t) ==> e == d
  {
    assert Rate(d, t) == s by { assert d * (2.0 * CoA(t)) == s - CoB(t); }
    SquareOfRate(d, t);
    PressureFromDiscriminant(PressureOf(d, t), p, t);
    forall e | IsDensity(e, p, t) ensures e == d {
      DensityIsUnique(d, e, p, t);
    }
  }

  lemma DensityIsUnique(d: real, e: real, p: real, t: real)
    requires CoA(t) != 0.0 && IsDensity(d, p, t) && IsDensity(e, p, t)
    ensures d == e
  {
    SquareOfRate(d, t);
    SquareOfRate(e, t);
    EqualSquares(Rate(d, t), Rate(e, t));
    RateDecides(d, e, t);
  }

  /** The square root that the code takes is the rate at the density, so a pressure
      whose discriminant is no square has no density. */
  lemma RateIsTheRoot(d: real, p: real, t: real)
    requires IsDensity(d, p, t)
    ensures IsSqrt(Rate(d, t), Discriminant(p, t))
  {
  }

  /** Of the two densities with this pressure it is the smaller one while the leading
      coefficient is negative, and the larger one beyond. */
  lemma DensityAmongTheRoots(d: real, e: real, p: real, t: real)
    requires IsDensity(d, p, t) && PressureOf(e, t) == p
    ensures CoA(t) < 0.0 ==> d <= e
    ensures CoA(t) > 0.0 ==> e <= d
  {
    if CoA(t) < 0.0 && e < d {
      RateFalls(e, d, t);
      DensityIsUnique(d, e, p, t);
    } else if CoA(t) > 0.0 && d < e {
      assert 0.0 < CoA(t) * (e - d);
      assert Rate(e, t) - Rate(d, t) == 2.0 * (CoA(t) * (e - d));
      DensityIsUnique(d, e, p, t);
    }
  }

  lemma LeadingCoefficient(t: real)
    ensures t <= 266.5 ==> CoA(t) < 0.0
    ensures t >= 267.0 ==> CoA(t) > 0.0
  {
  }

  /** At a fixed temperature a higher pressure gives a higher density, and the other
      way round. */
  lemma DensityFollowsPressure(d: real, e: real, p: real, q: real, t: real)
    requires IsDensity(d, p, t) && IsDensity(e, q, t)
    requires CoA(t) != 0.0
    ensures p < q <==> d < e
  {
    var x := Rate(d, t) + Rate(e, t);
    PressureRise(d, e, t);
    if d != e && x == 0.0 {
      RateDecides(d, e, t);
    }
    assert d < e ==> x * (e - d) > 0.0;
    assert d > e ==> x * (d - e) > 0.0;
  }

  lemma RateFalls(d: real, e: real, t: real)
    requires d < e && CoA(t) < 0.0
    ensures Rate(d, t) > Rate(e, t)
  {
  }

  /** Between two densities the pressure rises at the mean of the two rates. */
  lemma PressureRise(d: real, e: real, t: real)
    ensures PressureOf(e, t) - PressureOf(d, t) == (Rate(d, t) + Rate(e, t)) * (e - d) / 2.0
  {
  }

  /** No gas, no density: the density is not negative exactly when the pressure is
      at least that of an empty cell, as long as the curve does not fall there. */
  lemma DensityIsNotNegative(d: real, p: real, t: real)
    requires IsDensity(d, p, t)
    requires CoA(t) != 0.0 && CoB(t) >= 0.0
    ensures d >= 0.0 <==> p >= PressureOf(0.0, t)
    ensures PressureOf(0.0, t) == 6.6876 - 0.036515 * t
  {
    assert Rate(0.0, t) == CoB(t);
    assert IsDensity(0.0, PressureOf(0.0, t), t);
    DensityFollowsPressure(d, 0.0, p, PressureOf(0.0, t), t);
  }

  /** The pressure reported for 20 degrees is never the one measured at 20 degrees: it
      is higher, at any density. */
  lemma PressureAt20Differs(d: real, p: real)
    requires IsDensity(d, p, 20.0)
    ensures PressureAt20(d) - p == 0.49970 + 0.0048 * d + 0.00002 * d * d
    ensures PressureAt20(d) - p > 0.2
  {
    var x := d + 120.0;
    assert x * x >= 0.0;
    assert 0.0048 * d + 0.00002 * d * d == 0.00002 * (x * x) - 0.288;
  }

  /** It does increase with the density wherever the density at 20 degrees can be. */
  lemma PressureAt20Increases(d: real, e: real)
    requires d < e && 0.0 <= Rate(e, 20.0)
    ensures PressureAt20(d) < PressureAt20(e)
  {
    assert e <= 262.77;
    assert PressureAt20(e) - PressureAt20(d) == (e - d) * (163.98 - 0.312 * (d + e));
  }

  // ----- Temperature -----

  /** How the pressure of a gas of density d changes with each degree. */
  function PerDegree(d: real): real {
    0.0012655 * d * d + 0.56676 * d - 0.036515
  }

  /** At every density the pressure is linear in the temperature, and at 20 degrees it
      is this quadratic in the density. */
  lemma PressureByTemperature(d: real, t: real)
    ensures PressureOf(d, t) - PressureOf(d, 20.0) == (t - 20.0) * PerDegree(d)
    ensures PressureOf(d, 20.0) == -0.31202 * d * d + 163.9752 * d + 5.9573
  {
  }

  lemma PressureBetween(d: real, t: real, t': real)
    ensures PressureOf(d, t') - PressureOf(d, t) == (t' - t) * PerDegree(d)
  {
    PressureByTemperature(d, t);
    PressureByTemperature(d, t');
  }

  /** At the same pressure a warmer cell holds the thinner gas exactly when the density
      is one at which pressure rises with the temperature, as long as that density is
      on the rising branch of the warmer cell too. */
  lemma WarmerIsThinner(d: real, d': real, p: real, t: real, t': real)
    requires t < t' && CoA(t') < 0.0
    requires IsDensity(d, p, t) && IsDensity(d', p, t')
    ensures PerDegree(d) > 0.0 ==> d' < d
    ensures Rate(d, t') >= 0.0 ==> (d' < d <==> PerDegree(d) > 0.0)
  {
    var q := PressureOf(d, t');
    PressureBetween(d, t, t');
    assert q - p == (t' - t) * PerDegree(d);
    SignOfProduct(t' - t, PerDegree(d));
    if Rate(d, t') >= 0.0 {
      DensityFollowsPressure(d', d, p, q, t');
    } else if d <= d' {
      if d < d' { RateFalls(d, d', t'); }
    }
  }

  lemma SignOfProduct(x: real, y: real)
    requires x > 0.0
    ensures x * y > 0.0 <==> y > 0.0
  {
  }

  /** Among densities from 0 on, pressure rises with the temperature from 0.0645 on,
      and falls up to 0.0644. */
  lemma PerDegreeSign(d: real)
    requires 0.0 <= d
    ensures d >= 0.0645 ==> PerDegree(d) > 0.0
    ensures d <= 0.0644 ==> PerDegree(d) < 0.0
  {
    Grows(0.0645, d);
    Grows(d, 0.0644);
  }

  lemma Grows(d: real, e: real)
    requires 0.0 <= d
    ensures d <= e ==> PerDegree(d) <= PerDegree(e)
  {
    if d <= e {
      SquaresGrow(d, e);
    }
  }
}
