/** Calibration of the pressure sensor: the line map through four calibration
    points. Single-precision arithmetic is modelled over the reals. */
module PressureCurve {

  /** A calibration point for every converter reading: four readings, and the
      pressure known for each. */
  datatype Points = Points(adc: seq<nat>, prs: seq<nat>)

  predicate Complete(ps: Points) {
    |ps.adc| == 4 && |ps.prs| == 4
  }

  /** No two neighbouring readings coincide, so no segment divides by zero. */
  predicate Usable(ps: Points) {
    Complete(ps) && forall i :: 1 <= i < 4 ==> ps.adc[i - 1] != ps.adc[i]
  }

  predicate Increasing(knots: seq<nat>) {
    forall i :: 1 <= i < |knots| ==> knots[i - 1] < knots[i]
  }

  predicate Ordered(ps: Points) {
    Complete(ps) && Increasing(ps.adc)
  }

  /** The first segment whose right end is beyond x, the last if none is. */
  ghost predicate IsSegment(adc: seq<nat>, x: real, i: nat)
    requires |adc| == 4
  {
    && 1 <= i < 4
    && (forall k :: 1 <= k < i ==> x >= adc[k] as real)
    && (i < 3 ==> x < adc[i] as real)
  }

  function Segment(adc: seq<nat>, x: real): (i: nat)
    requires |adc| == 4
    ensures IsSegment(adc, x, i)
    ensures forall k :: IsSegment(adc, x, k) ==> k == i
  {
    if x < adc[1] as real then 1 else if x < adc[2] as real then 2 else 3
  }

  function Rise(ps: Points, i: nat): real
    requires Complete(ps) && 1 <= i < 4
  {
    ps.prs[i] as real - ps.prs[i - 1] as real
  }

  function Run(ps: Points, i: nat): real
    requires Complete(ps) && 1 <= i < 4
  {
    ps.adc[i] as real - ps.adc[i - 1] as real
  }

  function Slope(ps: Points, i: nat): real
    requires Usable(ps) && 1 <= i < 4
  {
    Rise(ps, i) / Run(ps, i)
  }

  /** The line of segment i. */
  function Line(ps: Points, i: nat, x: real): real
    requires Usable(ps) && 1 <= i < 4
  {
    ps.prs[i - 1] as real + (x - ps.adc[i - 1] as real) * Slope(ps, i)
  }

  function Pressure(ps: Points, x: real): real
    requires Usable(ps)
  {
    Line(ps, Segment(ps.adc, x), x)
  }

  method CalculatePRSVal(fADC: real, usaADC: array<nat>, usaPRS: array<nat>) returns (fPrs: real)
    requires usaADC.Length == 4 && usaPRS.Length == 4
    requires Usable(Points(usaADC[..], usaPRS[..]))
    ensures fPrs == Pressure(Points(usaADC[..], usaPRS[..]), fADC)
  {
    ghost var ps := Points(usaADC[..], usaPRS[..]);
    fPrs := 0.0;
    var i := 1;
    var mapped := false;
    while i < 4 && !mapped
      invariant 1 <= i <= 4 && (i == 4 ==> mapped)
      invariant forall k :: 1 <= k < i ==> fADC >= ps.adc[k] as real
      invariant mapped ==> fPrs == Pressure(ps, fADC)
      decreases 4 - i, !mapped
    {
      if fADC < usaADC[i] as real || i == 3 {
        assert IsSegment(ps.adc, fADC, i);
        var p, a := usaPRS[i - 1] as real, usaADC[i - 1] as real;
        var rise, run := usaPRS[i] as real - p, usaADC[i] as real - a;
        LineAsWritten(ps, i, fADC, p, a, rise, run);
        fPrs := p + (fADC - a) * rise / run;
        mapped := true;
      } else {
        i := i + 1;
      }
    }
  }

  lemma LineAsWritten(ps: Points, i: nat, x: real, p: real, a: real, rise: real, run: real)
    requires Usable(ps) && 1 <= i < 4
    requires p == ps.prs[i - 1] as real && a == ps.adc[i - 1] as real && rise == Rise(ps, i) && run == Run(ps, i)
    ensures run != 0.0
    ensures p + (x - a) * rise / run == Line(ps, i, x)
  {
  }

  /** All four points are reproduced. */
  lemma PassesThroughPoints(ps: Points, k: nat)
    requires Ordered(ps) && k < 4
    ensures Pressure(ps, ps.adc[k] as real) == ps.prs[k] as real
  {
    if k == 0 {
      assert IsSegment(ps.adc, ps.adc[0] as real, 1);
    } else {
      EndOfLine(ps, k);
      if k < 3 {
        assert IsSegment(ps.adc, ps.adc[k] as real, k + 1);
      } else {
        assert IsSegment(ps.adc, ps.adc[k] as real, k);
      }
    }
  }

  lemma EndOfLine(ps: Points, i: nat)
    requires Usable(ps) && 1 <= i < 4
    ensures Line(ps, i, ps.adc[i] as real) == ps.prs[i] as real
  {
  }

  // ----- Slopes -----

  ghost predicate SlopesWithin(ps: Points, low: real, high: real) {
    Ordered(ps) && forall i :: 1 <= i < 4 ==> low <= Slope(ps, i) <= high
  }

  lemma LineSlope(ps: Points, i: nat, x: real, y: real, low: real, high: real)
    requires SlopesWithin(ps, low, high) && 1 <= i < 4 && x <= y
    ensures RisesWithin(x, y, Line(ps, i, x), Line(ps, i, y), low, high)
  {
  }

  ghost predicate RisesWithin(x: real, y: real, p: real, q: real, low: real, high: real) {
    low * (y - x) <= q - p <= high * (y - x)
  }

  lemma RisesAddUp(x: real, y: real, z: real, p: real, q: real, r: real, low: real, high: real)
    requires RisesWithin(x, y, p, q, low, high) && RisesWithin(y, z, q, r, low, high)
    ensures RisesWithin(x, z, p, r, low, high)
  {
  }

  /** Up to the right end of a segment, then on from there. */
  lemma {:induction false} SlopeUpTo(ps: Points, x: real, k: nat, low: real, high: real)
    requires SlopesWithin(ps, low, high) && Segment(ps.adc, x) <= k < 3
    ensures x <= ps.adc[k] as real
    ensures RisesWithin(x, ps.adc[k] as real, Pressure(ps, x), ps.prs[k] as real, low, high)
    decreases k
  {
    var a, p := ps.adc[k] as real, ps.prs[k] as real;
    EndOfLine(ps, k);
    if Segment(ps.adc, x) == k {
      LineSlope(ps, k, x, a, low, high);
    } else {
      SlopeUpTo(ps, x, k - 1, low, high);
      AlongSegment(ps, k, a, low, high);
      RisesAddUp(x, ps.adc[k - 1] as real, a, Pressure(ps, x), ps.prs[k - 1] as real, p, low, high);
    }
  }

  lemma AlongSegment(ps: Points, i: nat, y: real, low: real, high: real)
    requires SlopesWithin(ps, low, high) && 1 <= i < 4 && ps.adc[i - 1] as real <= y
    ensures RisesWithin(ps.adc[i - 1] as real, y, ps.prs[i - 1] as real, Line(ps, i, y), low, high)
  {
  }

  /** Over the whole line, extrapolation included, the pressure rises between any
      two readings at a rate that lies between the rates of the three segments. */
  lemma PressureSlope(ps: Points, x: real, y: real, low: real, high: real)
    requires SlopesWithin(ps, low, high) && x <= y
    ensures RisesWithin(x, y, Pressure(ps, x), Pressure(ps, y), low, high)
  {
    var i, j := Segment(ps.adc, x), Segment(ps.adc, y);
    if i == j {
      LineSlope(ps, i, x, y, low, high);
    } else {
      assert i < j;
      SlopeUpTo(ps, x, j - 1, low, high);
      AlongSegment(ps, j, y, low, high);
      RisesAddUp(x, ps.adc[j - 1] as real, y, Pressure(ps, x), ps.prs[j - 1] as real, Pressure(ps, y), low, high);
    }
  }

  function Abs(x: real): real {
    if x < 0.0 then -x else x
  }

  function Max(x: real, y: real): real {
    if x < y then y else x
  }

  /** The steepest of the three segments, up or down. */
  function Steepest(ps: Points): (m: real)
    requires Ordered(ps)
    ensures SlopesWithin(ps, -m, m)
    ensures exists i :: 1 <= i < 4 && m == Abs(Slope(ps, i))
  {
    Max(Abs(Slope(ps, 1)), Max(Abs(Slope(ps, 2)), Abs(Slope(ps, 3))))
  }

  ghost predicate WithinRate(x: real, y: real, p: real, q: real, bound: real) {
    Abs(q - p) <= bound * Abs(y - x)
  }

  ghost predicate IsLipschitz(ps: Points, bound: real)
    requires Ordered(ps)
  {
    forall x, y :: WithinRate(x, y, Pressure(ps, x), Pressure(ps, y), bound)
  }

  /** The pressure is Lipschitz, so continuous, and the steepest segment gives the
      least constant. */
  lemma LipschitzConstants(ps: Points, bound: real)
    requires Ordered(ps)
    ensures IsLipschitz(ps, bound) <==> Steepest(ps) <= bound
  {
    if Steepest(ps) <= bound {
      forall x, y ensures WithinRate(x, y, Pressure(ps, x), Pressure(ps, y), bound) {
        RisesAtMost(ps, x, y, bound);
      }
    }
    if IsLipschitz(ps, bound) {
      SteepestIsMet(ps, bound);
    }
  }

  lemma RisesAtMost(ps: Points, x: real, y: real, bound: real)
    requires Ordered(ps) && Steepest(ps) <= bound
    ensures WithinRate(x, y, Pressure(ps, x), Pressure(ps, y), bound)
  {
    assert SlopesWithin(ps, -bound, bound);
    if x <= y {
      PressureSlope(ps, x, y, -bound, bound);
      RateOfRise(x, y, Pressure(ps, x), Pressure(ps, y), bound);
    } else {
      PressureSlope(ps, y, x, -bound, bound);
      RateOfRise(y, x, Pressure(ps, y), Pressure(ps, x), bound);
    }
  }

  lemma RateOfRise(x: real, y: real, p: real, q: real, bound: real)
    requires x <= y && RisesWithin(x, y, p, q, -bound, bound)
    ensures WithinRate(x, y, p, q, bound) && WithinRate(y, x, q, p, bound)
  {
  }

  lemma SteepestIsMet(ps: Points, bound: real)
    requires Ordered(ps) && IsLipschitz(ps, bound)
    ensures Steepest(ps) <= bound
  {
    var i :| 1 <= i < 4 && Steepest(ps) == Abs(Slope(ps, i));
    PassesThroughPoints(ps, i - 1);
    PassesThroughPoints(ps, i);
    var x, y := ps.adc[i - 1] as real, ps.adc[i] as real;
    assert WithinRate(x, y, Pressure(ps, x), Pressure(ps, y), bound);
    SlopeFromRate(ps, i, bound);
  }

  lemma SlopeFromRate(ps: Points, i: nat, bound: real)
    requires Ordered(ps) && 1 <= i < 4
    requires WithinRate(ps.adc[i - 1] as real, ps.adc[i] as real, ps.prs[i - 1] as real, ps.prs[i] as real, bound)
    ensures Abs(Slope(ps, i)) <= bound
  {
  }

  ghost predicate IsMonotone(ps: Points)
    requires Ordered(ps)
  {
    forall x, y :: x <= y ==> Pressure(ps, x) <= Pressure(ps, y)
  }

  /** The pressure never falls exactly when the table of pressures does not. */
  lemma MonotoneWhenTableIs(ps: Points)
    requires Ordered(ps)
    ensures IsMonotone(ps) <==> forall i :: 1 <= i < 4 ==> ps.prs[i - 1] <= ps.prs[i]
  {
    if forall i :: 1 <= i < 4 ==> ps.prs[i - 1] <= ps.prs[i] {
      var m := Steepest(ps);
      forall i | 1 <= i < 4 ensures 0.0 <= Slope(ps, i) {
        Quotient(Rise(ps, i), Run(ps, i));
      }
      forall x, y | x <= y ensures Pressure(ps, x) <= Pressure(ps, y) {
        PressureSlope(ps, x, y, 0.0, m);
      }
    }
    if IsMonotone(ps) {
      forall i | 1 <= i < 4 ensures ps.prs[i - 1] <= ps.prs[i] {
        PassesThroughPoints(ps, i - 1);
        PassesThroughPoints(ps, i);
        assert Pressure(ps, ps.adc[i - 1] as real) <= Pressure(ps, ps.adc[i] as real);
      }
    }
  }

  lemma Quotient(x: real, y: real)
    requires 0.0 < y
    ensures 0.0 <= x ==> 0.0 <= x / y
    ensures 0.0 < x ==> 0.0 < x / y
  {
  }

  // ----- The map backwards -----

  function Swapped(ps: Points): Points {
    Points(ps.prs, ps.adc)
  }

  /** The flattest of three rising segments. */
  function Flattest(ps: Points): (m: real)
    requires Ordered(ps) && Increasing(ps.prs)
    ensures 0.0 < m && forall i :: 1 <= i < 4 ==> m <= Slope(ps, i)
  {
    Quotient(Rise(ps, 1), Run(ps, 1));
    Quotient(Rise(ps, 2), Run(ps, 2));
    Quotient(Rise(ps, 3), Run(ps, 3));
    -Max(-Slope(ps, 1), Max(-Slope(ps, 2), -Slope(ps, 3)))
  }

  lemma StrictlyIncreasing(ps: Points, x: real, y: real)
    requires Ordered(ps) && Increasing(ps.prs) && x < y
    ensures Pressure(ps, x) < Pressure(ps, y)
  {
    var low, high := Flattest(ps), Steepest(ps);
    PressureSlope(ps, x, y, low, high);
    RisesStrictly(x, y, Pressure(ps, x), Pressure(ps, y), low, high);
  }

  lemma Positive(x: real, y: real)
    requires 0.0 < x && 0.0 < y
    ensures 0.0 < x * y
  {
  }

  lemma RisesStrictly(x: real, y: real, p: real, q: real, low: real, high: real)
    requires x < y && 0.0 < low && RisesWithin(x, y, p, q, low, high)
    ensures p < q
  {
    var w := y - x;
    Positive(low, w);
    assert low * w <= q - p;
  }

  /** The pressures at the inner points separate what their readings separate. */
  lemma SameSide(ps: Points, x: real, k: nat)
    requires Ordered(ps) && Increasing(ps.prs) && k < 4
    ensures x < ps.adc[k] as real <==> Pressure(ps, x) < ps.prs[k] as real
  {
    var a := ps.adc[k] as real;
    PassesThroughPoints(ps, k);
    if x < a { StrictlyIncreasing(ps, x, a); }
    if a < x { StrictlyIncreasing(ps, a, x); }
  }

  lemma LineInverts(ps: Points, i: nat, x: real)
    requires Ordered(ps) && Increasing(ps.prs) && 1 <= i < 4
    ensures Line(Swapped(ps), i, Line(ps, i, x)) == x
  {
  }

  /** With pressures that increase too, the same function over the swapped tables
      is its inverse on the whole line. */
  lemma SwappedInverts(ps: Points, x: real)
    requires Ordered(ps) && Increasing(ps.prs)
    ensures Pressure(Swapped(ps), Pressure(ps, x)) == x
  {
    SameSide(ps, x, 1);
    SameSide(ps, x, 2);
    assert Segment(ps.prs, Pressure(ps, x)) == Segment(ps.adc, x);
    LineInverts(ps, Segment(ps.adc, x), x);
  }
}
