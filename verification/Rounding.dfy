/** Decimal rounding of scores and distances (`checked_round` in road_matching.cpp), in exact arithmetic. */
module Rounding {
  import opened Decimals
  import opened Numbers

  const MACHINE_EPSILON: real := 1.0 / 4503599627370496.0

  /** Units of the last of `places` decimal places in one. */
  function Unit(places: nat): (r: real)
    ensures r > 0.0
  {
    Pow10(places) as real
  }

  /** How near to one half a fraction must be to count as a tie. */
  function TieTolerance(scaled: real): real {
    Min(0.25, 8.0 * MACHINE_EPSILON * Max(1.0, Abs(scaled)))
  }

  /** Round to an integer: near-ties go to the even neighbour, everything else to the nearest. */
  function RoundToInteger(scaled: real): int {
    var lower := scaled.Floor;
    if Abs(scaled - lower as real - 0.5) <= TieTolerance(scaled) then
      if lower % 2 == 0 then lower else lower + 1
    else
      (scaled + 0.5).Floor
  }

  function RoundScaled(value: real, factor: real): real
    requires factor > 0.0
  {
    RoundToInteger(value * factor) as real / factor
  }

  function Round(value: real, places: nat): real {
    RoundScaled(value, Unit(places))
  }

  lemma FloorBounds(x: real)
    ensures x.Floor as real <= x < x.Floor as real + 1.0
  {
  }

  lemma RoundToIntegerNear(x: real)
    ensures x.Floor <= RoundToInteger(x) <= x.Floor + 1
    ensures Abs(RoundToInteger(x) as real - x) <= 0.75
  {
    FloorBounds(x);
    FloorBounds(x + 0.5);
  }

  /** The tie tolerance grows more slowly than its argument, so ties cannot reorder values. */
  lemma RoundToIntegerMonotone(x: real, y: real)
    requires x <= y
    ensures RoundToInteger(x) <= RoundToInteger(y)
  {
    FloorBounds(x);
    FloorBounds(y);
    FloorBounds(x + 0.5);
    FloorBounds(y + 0.5);
    RoundToIntegerNear(x);
    RoundToIntegerNear(y);
    if x.Floor == y.Floor {
      assert TieTolerance(x) - TieTolerance(y) <= y - x;
    }
  }

  /** Exactly one integer is nearest by more than the tolerance, or the even one of a near tie; it is the result. */
  lemma RoundToIntegerIs(x: real, n: int)
    ensures var tolerance := Min(0.25, 8.0 * MACHINE_EPSILON * Max(1.0, Abs(x)));
            RoundToInteger(x) == n <==>
              Abs(x - n as real) < 0.5 - tolerance || (Abs(Abs(x - n as real) - 0.5) <= tolerance && n % 2 == 0)
  {
    FloorBounds(x);
    FloorBounds(x + 0.5);
    var lower := x.Floor;
    if n < lower {
      assert x - n as real >= 1.0;
    } else if n > lower + 1 {
      assert n as real - x > 1.0;
    }
  }

  lemma RoundScaledIs(value: real, factor: real)
    requires factor > 0.0
    ensures RoundScaled(value, factor) * factor == RoundToInteger(value * factor) as real
  {
    MulDiv(RoundToInteger(value * factor) as real, factor);
  }

  /** Rounding to decimal places rounds the number of units of the last place. */
  lemma RoundIs(value: real, places: nat)
    ensures var unit := Unit(places);
            unit == Pow10(places) as real && Round(value, places) * unit == RoundToInteger(value * unit) as real
  {
    hide RoundScaled, RoundToInteger, Pow10;
    RoundScaledIs(value, Unit(places));
  }

  lemma RoundScaledMonotone(x: real, y: real, f: real)
    requires x <= y && f > 0.0
    ensures RoundScaled(x, f) <= RoundScaled(y, f)
  {
    hide RoundToInteger;
    MulMonotone(x, y, f);
    RoundToIntegerMonotone(x * f, y * f);
    QuotientMonotone(RoundToInteger(x * f) as real, RoundToInteger(y * f) as real, f);
  }

  /** Rounding never reverses the order of two scores. */
  lemma RoundMonotone(x: real, y: real, places: nat)
    requires x <= y
    ensures Round(x, places) <= Round(y, places)
  {
    hide RoundScaled;
    RoundScaledMonotone(x, y, Unit(places));
  }

  lemma RoundInteger(n: int)
    ensures RoundToInteger(n as real) == n
  {
    FloorBounds(n as real);
    FloorBounds(n as real + 0.5);
  }

  lemma DivideEqual(v: real, f: real, n: real)
    requires f > 0.0 && v * f == n
    ensures n / f == v
  {
    MulDiv(n, f);
    MulMonotone(n / f, v, f);
    MulMonotone(v, n / f, f);
  }

  lemma RoundOnGrid(v: real, f: real, n: int)
    requires f > 0.0 && v * f == n as real
    ensures RoundScaled(v, f) == v
  {
    RoundInteger(n);
    var scaled := v * f;
    assert RoundToInteger(scaled) == n;
    DivideEqual(v, f, n as real);
  }

  lemma RoundScaledFacts(x: real, f: real)
    requires f > 0.0
    ensures RoundScaled(RoundScaled(x, f), f) == RoundScaled(x, f)
    ensures Abs(RoundScaled(x, f) - x) * f <= 0.75
  {
    hide RoundToInteger;
    var n := RoundToInteger(x * f);
    MulDiv(n as real, f);
    RoundOnGrid(RoundScaled(x, f), f, n);
    RoundToIntegerNear(x * f);
    ScaledDifference(RoundScaled(x, f), x, f);
  }

  lemma ScaledDifference(a: real, b: real, f: real)
    requires f > 0.0
    ensures Abs(a - b) * f == Abs(a * f - b * f)
  {
    MulMonotone(a, b, f);
  }

  /** A rounded value lies on the decimal grid, so rounding it again changes nothing; the first rounding
      moved it by at most three quarters of the last decimal place. */
  lemma RoundIdempotent(x: real, places: nat)
    ensures Round(Round(x, places), places) == Round(x, places)
    ensures Abs(Round(x, places) - x) * Unit(places) <= 0.75
  {
    hide RoundScaled;
    RoundScaledFacts(x, Unit(places));
  }

  /** Distinct scores may become equal: both halves next to an even integer round to it. */
  lemma RoundMergesTies()
    ensures RoundToInteger(1.5) == RoundToInteger(2.5) == 2
  {
    assert (1.5).Floor == 1 && (2.5).Floor == 2;
  }

  lemma RoundNonPositive(x: real, places: nat)
    requires x <= 0.0
    ensures Round(x, places) <= 0.0
  {
    hide RoundToInteger;
    RoundMonotone(x, 0.0, places);
    RoundInteger(0);
  }

  // ----- the decimal grid -----

  ghost predicate HasUnits(x: real, places: nat, n: int) {
    x * Unit(places) == n as real
  }

  /** `x` has at most `places` decimal places. */
  ghost predicate OnGrid(x: real, places: nat) {
    exists n :: HasUnits(x, places, n)
  }

  lemma UnitsOf(x: real, places: nat) returns (n: int)
    requires OnGrid(x, places)
    ensures HasUnits(x, places, n)
  {
    n :| HasUnits(x, places, n);
  }

  lemma RoundFixesGrid(x: real, places: nat)
    requires OnGrid(x, places)
    ensures Round(x, places) == x
  {
    hide RoundScaled;
    var n := UnitsOf(x, places);
    RoundOnGrid(x, Unit(places), n);
  }

  lemma RoundOntoGrid(x: real, places: nat)
    ensures OnGrid(Round(x, places), places)
  {
    hide RoundToInteger;
    var n := RoundToInteger(x * Unit(places));
    MulDiv(n as real, Unit(places));
    assert HasUnits(Round(x, places), places, n);
  }

  lemma GridSum(x: real, y: real, places: nat)
    requires OnGrid(x, places) && OnGrid(y, places)
    ensures OnGrid(x + y, places)
  {
    hide Unit;
    var m := UnitsOf(x, places);
    var n := UnitsOf(y, places);
    assert (x + y) * Unit(places) == x * Unit(places) + y * Unit(places) == (m + n) as real;
    assert HasUnits(x + y, places, m + n);
  }

  lemma UnitProduct(coarse: nat, fine: nat)
    requires coarse <= fine
    ensures Unit(fine) == Unit(coarse) * Pow10(fine - coarse) as real
  {
    hide Pow10;
    Pow10Sum(coarse, fine - coarse);
  }

  /** More places only refine the grid. */
  lemma GridFiner(x: real, coarse: nat, fine: nat)
    requires OnGrid(x, coarse) && coarse <= fine
    ensures OnGrid(x, fine)
  {
    hide Unit;
    var n := UnitsOf(x, coarse);
    var factor := Pow10(fine - coarse);
    UnitProduct(coarse, fine);
    assert x * Unit(fine) == x * Unit(coarse) * factor as real == (n * factor) as real;
    assert HasUnits(x, fine, n * factor);
  }

  // ----- halves away from zero -----

  /** std::round. */
  function RoundAway(x: real): int {
    if x >= 0.0 then (x + 0.5).Floor else -(-x + 0.5).Floor
  }

  lemma RoundAwayMonotone(x: real, y: real)
    requires x <= y
    ensures RoundAway(x) <= RoundAway(y)
    ensures 0.0 <= x ==> 0 <= RoundAway(x)
  {
  }

  /** The nearest integer, and of two equally near ones the one farther from zero. */
  lemma RoundAwayIs(x: real, n: int)
    ensures RoundAway(x) == n <==>
              Abs(x - n as real) < 0.5 || (Abs(x - n as real) == 0.5 && Abs(n as real) > Abs(x))
  {
    FloorBounds(x + 0.5);
    FloorBounds(-x + 0.5);
    var r := RoundAway(x);
    if n < r {
      assert (n + 1) as real <= r as real;
    } else if n > r {
      assert n as real >= (r + 1) as real;
    }
  }

  lemma RoundAwayInteger(n: nat)
    ensures RoundAway(n as real) == n
  {
  }

  function RoundAwayScaled(x: real, f: real): real
    requires f > 0.0
  {
    RoundAway(x * f) as real / f
  }

  /** Round to `places` decimal places, halves away from zero. */
  function RoundPlaces(x: real, places: nat): real {
    RoundAwayScaled(x, Unit(places))
  }

  lemma RoundAwayScaledMonotone(x: real, y: real, f: real)
    requires x <= y && f > 0.0
    ensures RoundAwayScaled(x, f) <= RoundAwayScaled(y, f)
  {
    hide RoundAway;
    MulMonotone(x, y, f);
    RoundAwayMonotone(x * f, y * f);
    QuotientMonotone(RoundAway(x * f) as real, RoundAway(y * f) as real, f);
  }

  lemma RoundPlacesMonotone(x: real, y: real, places: nat)
    requires x <= y
    ensures RoundPlaces(x, places) <= RoundPlaces(y, places)
  {
    hide RoundAwayScaled;
    RoundAwayScaledMonotone(x, y, Unit(places));
  }

  lemma RoundAwayScaledNear(x: real, f: real)
    requires f > 0.0
    ensures Abs(RoundAwayScaled(x, f) - x) * f <= 0.5
  {
    var n := RoundAway(x * f);
    RoundAwayIs(x * f, n);
    MulDiv(n as real, f);
    ScaledDifference(RoundAwayScaled(x, f), x, f);
  }

  /** Rounding to decimal places moves a value by at most half a unit of the last one. */
  lemma RoundPlacesNear(x: real, places: nat)
    ensures Abs(RoundPlaces(x, places) - x) * Unit(places) <= 0.5
  {
    hide RoundAwayScaled;
    RoundAwayScaledNear(x, Unit(places));
  }
}
