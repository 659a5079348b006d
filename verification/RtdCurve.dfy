/** Calibration of a platinum temperature sensor: the interpolated table, the
    quadratic formula, and how far apart the two are. Single-precision arithmetic
    is modelled over the reals. */
module RtdCurve {

  const RMIN: real := 842.707
  const RMAX: real := 1479.51
  const RSEG: real := 21.2269
  const NSEG: nat := 30

  /** The 31 temperatures of the lookup table. */
  function Knot(j: nat): real
    requires j <= NSEG
  {
    if j == 0 then -40.0006 else if j == 1 then -34.6322 else if j == 2 then -29.2542 else
    if j == 3 then -23.8669 else if j == 4 then -18.4704 else if j == 5 then -13.0649 else
    if j == 6 then -7.65042 else if j == 7 then -2.22714 else if j == 8 then 3.20489 else
    if j == 9 then 8.64565 else if j == 10 then 14.0952 else if j == 11 then 19.5536 else
    if j == 12 then 25.0208 else if j == 13 then 30.497 else if j == 14 then 35.9821 else
    if j == 15 then 41.4762 else if j == 16 then 46.9794 else if j == 17 then 52.4917 else
    if j == 18 then 58.0131 else if j == 19 then 63.5436 else if j == 20 then 69.0834 else
    if j == 21 then 74.6325 else if j == 22 then 80.1909 else if j == 23 then 85.7587 else
    if j == 24 then 91.3359 else if j == 25 then 96.9225 else if j == 26 then 102.519 else
    if j == 27 then 108.124 else if j == 28 then 113.74 else if j == 29 then 119.365 else
    124.999
  }

  /** The resistance at the j-th knot. */
  function Resistance(j: nat): real {
    RMIN + RSEG * j as real
  }

  /** C's conversion to int: towards zero. */
  function Truncate(x: real): int {
    if x >= 0.0 then x.Floor else -((-x).Floor)
  }

  /** The table segment used for a resistance. Both knots of it exist. */
  function Segment(r: real): (j: nat)
    ensures j + 1 <= NSEG
  {
    var j := Truncate((r - RMIN) / RSEG);
    if j < 0 then 0 else if j > NSEG - 1 then NSEG - 1 else j
  }

  type Knots = ks: seq<real> | |ks| == NSEG + 1 witness seq(NSEG + 1, j => 0.0)

  /** The line through the two knots of segment j. */
  function Line(ks: Knots, j: nat, r: real): real
    requires j < NSEG
  {
    ks[j] + (r - Resistance(j)) * (ks[j + 1] - ks[j]) / RSEG
  }

  function Interpolated(ks: Knots, r: real): real {
    Line(ks, Segment(r), r)
  }

  function Table(): Knots {
    seq(NSEG + 1, j requires 0 <= j <= NSEG => Knot(j))
  }

  function TableTemp(r: real): real {
    Interpolated(Table(), r)
  }

  function Quadratic(a: real, b: real, c: real, r: real): real {
    r * (a * r + b) + c
  }

  function Low(r: real): real {
    Quadratic(0.0000101006, 0.23569455, -245.795, r)
  }

  function High(r: real): real {
    Quadratic(0.0000102718, 0.23516512, -245.431, r)
  }

  function FormulaTemp(r: real): real {
    if r > 1000.0 then High(r) else Low(r)
  }

  // ----- The table form -----

  /** Where a segment begins and ends, as far as the clamping lets it. */
  lemma SegmentBounds(r: real)
    ensures var j := Segment(r);
      && (j > 0 ==> Resistance(j) <= r)
      && (j < NSEG - 1 ==> r < Resistance(j + 1))
  {
  }

  /** Neighbouring segments meet at their common knot. */
  lemma LinesMeet(ks: Knots, j: nat)
    requires j + 1 < NSEG
    ensures Line(ks, j, Resistance(j + 1)) == ks[j + 1] == Line(ks, j + 1, Resistance(j + 1))
  {
  }

  const MIN_SLOPE: real := 0.2529
  const MAX_SLOPE: real := 0.2655

  predicate Rising(ks: Knots) {
    forall j :: 0 <= j < NSEG ==> MIN_SLOPE * RSEG <= ks[j + 1] - ks[j] <= MAX_SLOPE * RSEG
  }

  /** Each segment of the table rises by between 0.2529 and 0.2655 degrees per ohm. */
  lemma TableRises()
    ensures Rising(Table())
  {
    forall j | 0 <= j < NSEG
      ensures MIN_SLOPE * RSEG <= Table()[j + 1] - Table()[j] <= MAX_SLOPE * RSEG
    {
      KnotRises(j);
    }
  }

  lemma KnotRises(j: nat)
    requires j < NSEG
    ensures MIN_SLOPE * RSEG <= Knot(j + 1) - Knot(j) <= MAX_SLOPE * RSEG
  {
  }

  lemma LineSlope(ks: Knots, j: nat, r: real, s: real)
    requires j < NSEG && r <= s && Rising(ks)
    ensures MIN_SLOPE * (s - r) <= Line(ks, j, s) - Line(ks, j, r) <= MAX_SLOPE * (s - r)
  {
    var d := ks[j + 1] - ks[j];
    var slope := d / RSEG;
    assert MIN_SLOPE <= slope <= MAX_SLOPE;
    assert (r - Resistance(j)) * d / RSEG == (r - Resistance(j)) * slope;
    assert (s - Resistance(j)) * d / RSEG == (s - Resistance(j)) * slope;
    Scaled(s - r, slope, MIN_SLOPE);
    Scaled(s - r, MAX_SLOPE, slope);
  }

  lemma Scaled(x: real, a: real, b: real)
    requires 0.0 <= x && b <= a
    ensures x * b <= x * a
  {
  }

  lemma SegmentsOrdered(r: real, s: real)
    requires r <= s
    ensures Segment(r) <= Segment(s)
  {
  }

  /** From a resistance up to a knot behind its segment. */
  lemma {:induction false} SlopeUpTo(ks: Knots, r: real, j: nat)
    requires Segment(r) < j < NSEG && Rising(ks)
    ensures r < Resistance(j)
    ensures MIN_SLOPE * (Resistance(j) - r) <= ks[j] - Interpolated(ks, r) <= MAX_SLOPE * (Resistance(j) - r)
    decreases j
  {
    LinesMeet(ks, j - 1);
    if Segment(r) == j - 1 {
      SegmentBounds(r);
      LineSlope(ks, j - 1, r, Resistance(j));
    } else {
      SlopeUpTo(ks, r, j - 1);
      LinesMeet(ks, j - 2);
      LineSlope(ks, j - 1, Resistance(j - 1), Resistance(j));
    }
  }

  lemma InterpolatedSlope(ks: Knots, r: real, s: real)
    requires r <= s && Rising(ks)
    ensures MIN_SLOPE * (s - r) <= Interpolated(ks, s) - Interpolated(ks, r) <= MAX_SLOPE * (s - r)
  {
    var i, j := Segment(r), Segment(s);
    SegmentsOrdered(r, s);
    if i == j {
      LineSlope(ks, i, r, s);
    } else {
      SegmentBounds(s);
      SlopeUpTo(ks, r, j);
      LinesMeet(ks, j - 1);
      LineSlope(ks, j, Resistance(j), s);
    }
  }

  /** For all resistances, in and beyond the table: the table form rises by between
      0.2529 and 0.2655 degrees per ohm. So it is continuous, across the knots as
      elsewhere, and strictly increasing. */
  lemma TableSlope(r: real, s: real)
    requires r <= s
    ensures MIN_SLOPE * (s - r) <= TableTemp(s) - TableTemp(r) <= MAX_SLOPE * (s - r)
  {
    TableRises();
    InterpolatedSlope(Table(), r, s);
  }

  /** The table form reproduces the table, and beyond its ends continues its first and
      its last line. */
  lemma TablePassesThroughKnots(j: nat)
    requires j <= NSEG
    ensures TableTemp(Resistance(j)) == Table()[j]
  {
    PassesThroughKnots(Table(), j);
  }

  lemma PassesThroughKnots(ks: Knots, j: nat)
    requires j <= NSEG
    ensures Interpolated(ks, Resistance(j)) == ks[j]
  {
    var i := Segment(Resistance(j));
    SegmentBounds(Resistance(j));
    assert i == j || i + 1 == j == NSEG;
    LineEnds(ks, i);
  }

  lemma LineEnds(ks: Knots, j: nat)
    requires j < NSEG
    ensures Line(ks, j, Resistance(j)) == ks[j] && Line(ks, j, Resistance(j + 1)) == ks[j + 1]
  {
    assert Resistance(j + 1) - Resistance(j) == RSEG;
  }

  lemma TableBeyondItsEnds(r: real)
    ensures r <= 842.707 ==> TableTemp(r) == -40.0006 + (r - 842.707) * 5.3684 / 21.2269
    ensures r >= 1479.514 ==> TableTemp(r) == 119.365 + (r - 1458.2871) * 5.634 / 21.2269
  {
    SegmentBounds(r);
    if r <= 842.707 {
      assert Segment(r) == 0;
    } else if r >= 1479.514 {
      assert Segment(r) == NSEG - 1;
    }
  }

  // ----- The formula -----

  /** Strictly increasing on all resistances, across its break at 1000 ohms. */
  lemma FormulaIncreases(r: real, s: real)
    requires 0.0 <= r < s
    ensures FormulaTemp(r) < FormulaTemp(s)
  {
    if s <= 1000.0 {
      QuadraticIncreases(0.0000101006, 0.23569455, r, s);
    } else if r > 1000.0 {
      QuadraticIncreases(0.0000102718, 0.23516512, r, s);
    } else {
      QuadraticIncreases(0.0000102718, 0.23516512, 1000.0, s);
      if r < 1000.0 {
        QuadraticIncreases(0.0000101006, 0.23569455, r, 1000.0);
      }
      assert Low(1000.0) < High(1000.0);
    }
  }

  lemma QuadraticIncreases(a: real, b: real, r: real, s: real)
    requires 0.0 <= a && 0.0 < b && 0.0 <= r < s
    ensures r * (a * r + b) < s * (a * s + b)
  {
  }

  /** Three values of each branch, which determine it, the lower one at its end. */
  lemma FormulaValues()
    ensures FormulaTemp(0.0) == -245.795 && FormulaTemp(500.0) == -125.422575 && FormulaTemp(1000.0) == 0.00015
    ensures FormulaTemp(1200.0) == 51.558536 && FormulaTemp(1500.0) == 130.42823
    ensures FormulaTemp(2000.0) == 265.98644
  {
  }

  /** 1000 ohms itself belong to the lower branch: behind it the formula jumps. */
  lemma FormulaJumps(r: real)
    requires r > 1000.0
    ensures FormulaTemp(r) - FormulaTemp(1000.0) > 0.00577
  {
    QuadraticIncreases(0.0000102718, 0.23516512, 1000.0, r);
  }

  // ----- How far apart they are -----

  /** A quadratic read from a point u on. */
  lemma Shifted(a: real, b: real, c: real, u: real, w: real)
    ensures Quadratic(a, b, c, u + w) == Quadratic(a, b, c, u) + w * ((2.0 * a * u + b) + a * w)
  {
  }

  /** Between two points w = 0 and w = h, a quadratic sags below its chord by
      a * w * (h - w). */
  lemma Sag(a: real, k: real, w: real, h: real, t: real)
    requires t * h == w
    ensures w * (k + a * w) == t * (h * (k + a * h)) - a * (w * (h - w))
  {
  }

  lemma SagBound(a: real, w: real, h: real)
    requires 0.0 <= a && 0.0 <= w <= h
    ensures 0.0 <= a * (w * (h - w)) <= a * (h * h)
  {
  }

  lemma Product(x: real, y: real)
    requires 0.0 <= x && 0.0 <= y
    ensures 0.0 <= x * y
  {
  }

  lemma AtLeastBetween(t: real, d0: real, d1: real, low: real)
    requires 0.0 <= t <= 1.0 && low <= d0 && low <= d1
    ensures low <= d0 + t * (d1 - d0)
  {
    var x, e0, e1 := 1.0 - t, d0 - low, d1 - low;
    Product(x, e0);
    Product(t, e1);
    assert t * (d1 - d0) == t * e1 - t * e0;
    assert x * e0 == e0 - t * e0;
    assert d0 + t * (d1 - d0) - low == x * e0 + t * e1;
  }

  /** What lies between two values lies within their bounds. */
  lemma Between(t: real, d0: real, d1: real, low: real, high: real)
    requires 0.0 <= t <= 1.0 && low <= d0 <= high && low <= d1 <= high
    ensures low <= Chord(d0, d1, t) <= high
  {
    AtLeastBetween(t, d0, d1, low);
    AtLeastBetween(t, -d0, -d1, -high);
    assert t * (-d1 - -d0) == -(t * (d1 - d0));
  }

  function Chord(p: real, q: real, t: real): real {
    p + t * (q - p)
  }

  lemma ChordOfDifferences(v0: real, v1: real, p: real, q: real, t: real)
    ensures Chord(v0 - p, v1 - q, t) == Chord(v0, v1, t) - Chord(p, q, t)
  {
  }

  /** The error between two points, where the chord's errors are v0 - p and v1 - q:
      theirs interpolated, less the sag. */
  lemma ErrorBetween(v: real, v0: real, v1: real, p: real, q: real, t: real, sag: real, margin: real,
                     low: real, high: real)
    requires 0.0 <= t <= 1.0 && v == Chord(v0, v1, t) - sag && 0.0 <= sag <= margin
    requires low <= v0 - p <= high && low <= v1 - q <= high
    ensures low - margin <= v - Chord(p, q, t) <= high
  {
    var d0, d1 := v0 - p, v1 - q;
    Between(t, d0, d1, low, high);
    ChordOfDifferences(v0, v1, p, q, t);
  }

  /** A quadratic with a small leading coefficient is close to any line that is
      close to it at two points, at every fraction t of the way between them. First
      for one read from its first point on. */
  lemma NearChordShifted(a: real, k: real, v: real, v0: real, v1: real, p: real, q: real, h: real, w: real, t: real,
                         low: real, high: real)
    requires 0.0 <= a && 0.0 <= t <= 1.0 && t * h == w && 0.0 <= w <= h
    requires v == v0 + w * (k + a * w) && v1 == v0 + h * (k + a * h)
    requires low <= v0 - p <= high && low <= v1 - q <= high
    ensures low - a * (h * h) <= v - Chord(p, q, t) <= high
  {
    Sag(a, k, w, h, t);
    SagBound(a, w, h);
    assert v1 - v0 == h * (k + a * h);
    ErrorBetween(v, v0, v1, p, q, t, a * (w * (h - w)), a * (h * h), low, high);
  }

  lemma NearChord(a: real, b: real, c: real, p: real, q: real, u: real, h: real, w: real, t: real,
                  low: real, high: real)
    requires 0.0 <= a && 0.0 <= t <= 1.0 && t * h == w && 0.0 <= w <= h
    requires low <= Quadratic(a, b, c, u) - p <= high
    requires low <= Quadratic(a, b, c, u + h) - q <= high
    ensures low - a * (h * h) <= Quadratic(a, b, c, u + w) - Chord(p, q, t) <= high
  {
    Shifted(a, b, c, u, w);
    Shifted(a, b, c, u, h);
    NearChordShifted(a, 2.0 * a * u + b, Quadratic(a, b, c, u + w), Quadratic(a, b, c, u), Quadratic(a, b, c, u + h),
                     p, q, h, w, t, low, high);
  }

  const KNOT_LOW: real := -0.01535
  const KNOT_HIGH: real := 0.008

  ghost predicate LowMeets(ks: Knots, j: nat)
    requires j <= NSEG
  {
    KNOT_LOW <= Low(Resistance(j)) - ks[j] <= KNOT_HIGH
  }

  ghost predicate HighMeets(ks: Knots, j: nat)
    requires j <= NSEG
  {
    KNOT_LOW <= High(Resistance(j)) - ks[j] <= KNOT_HIGH
  }

  /** Each branch of the formula at the knots of its side, and at the knot on the
      other side of the break, which lies between the knots 7 and 8. */
  ghost predicate FormulaMeets(ks: Knots) {
    && (forall j :: 0 <= j <= 8 ==> LowMeets(ks, j))
    && (forall j :: 7 <= j <= NSEG ==> HighMeets(ks, j))
  }

  lemma KnotErrors(j: nat)
    requires j <= NSEG
    ensures j <= 8 ==> KNOT_LOW <= Low(Resistance(j)) - Knot(j) <= KNOT_HIGH
    ensures j >= 7 ==> KNOT_LOW <= High(Resistance(j)) - Knot(j) <= KNOT_HIGH
  {
  }

  lemma FormulaMeetsTable()
    ensures FormulaMeets(Table())
  {
    forall j | 0 <= j <= NSEG
      ensures j <= 8 ==> LowMeets(Table(), j)
      ensures j >= 7 ==> HighMeets(Table(), j)
    {
      KnotErrors(j);
    }
  }

  lemma LineAt(ks: Knots, j: nat, w: real, t: real)
    requires j < NSEG && t * RSEG == w
    ensures Line(ks, j, Resistance(j) + w) == Chord(ks[j], ks[j + 1], t)
  {
    assert w * (ks[j + 1] - ks[j]) / RSEG == t * (ks[j + 1] - ks[j]);
  }

  lemma LowWithin(p: real, q: real, u: real, w: real, t: real)
    requires 0.0 <= w <= RSEG && t * RSEG == w
    requires KNOT_LOW <= Low(u) - p <= KNOT_HIGH && KNOT_LOW <= Low(u + RSEG) - q <= KNOT_HIGH
    ensures -0.02 <= Low(u + w) - Chord(p, q, t) <= 0.02
  {
    NearChord(0.0000101006, 0.23569455, -245.795, p, q, u, RSEG, w, t, KNOT_LOW, KNOT_HIGH);
  }

  lemma HighWithin(p: real, q: real, u: real, w: real, t: real)
    requires 0.0 <= w <= RSEG && t * RSEG == w
    requires KNOT_LOW <= High(u) - p <= KNOT_HIGH && KNOT_LOW <= High(u + RSEG) - q <= KNOT_HIGH
    ensures -0.02 <= High(u + w) - Chord(p, q, t) <= 0.02
  {
    NearChord(0.0000102718, 0.23516512, -245.431, p, q, u, RSEG, w, t, KNOT_LOW, KNOT_HIGH);
  }

  lemma KnotsAgreeWithFormula(ks: Knots, r: real)
    requires RMIN <= r <= RMAX && FormulaMeets(ks)
    ensures -0.02 <= FormulaTemp(r) - Interpolated(ks, r) <= 0.02
  {
    var j := Segment(r);
    SegmentBounds(r);
    assert Resistance(0) == RMIN && RMAX <= Resistance(NSEG);
    var u := Resistance(j);
    var w := r - u;
    assert u + w == r && Resistance(j + 1) == u + RSEG;
    LineAt(ks, j, w, w / RSEG);
    if r > 1000.0 {
      assert j >= 7 && HighMeets(ks, j) && HighMeets(ks, j + 1);
      HighWithin(ks[j], ks[j + 1], u, w, w / RSEG);
    } else {
      assert j <= 7 && LowMeets(ks, j) && LowMeets(ks, j + 1);
      LowWithin(ks[j], ks[j + 1], u, w, w / RSEG);
    }
  }

  /** Throughout the range of the table the two forms agree to 0.02 degrees. */
  lemma TableAgreesWithFormula(r: real)
    requires RMIN <= r <= RMAX
    ensures -0.02 <= FormulaTemp(r) - TableTemp(r) <= 0.02
  {
    FormulaMeetsTable();
    KnotsAgreeWithFormula(Table(), r);
  }
}
