/**
  Lot normalisation (number_helpers.py) and the default lot of a routed signal (live.py),
  over exact decimals.
*/
module LotSizing {
  import opened Arithmetic
  import opened Options

  // Decimal.quantize(..., ROUND_HALF_UP): ties go away from zero.
  function RoundHalfUp(x: real): int {
    if x >= 0.0 then (x + 0.5).Floor else -((-x + 0.5).Floor)
  }

  // decimal_round with its default of two places.
  function DecimalRound(x: real): real { RoundHalfUp(x * 100.0) as real / 100.0 }

  function Clamp(lot: real, min: real, max: real): real {
    var lot := if lot < min then min else lot;
    if lot > max then max else lot
  }

  // A lot within the limits stays, one outside becomes the limit it exceeds.
  lemma ClampIsNearestAllowed(lot: real, min: real, max: real)
    requires min <= max
    ensures min <= lot <= max ==> Clamp(lot, min, max) == lot
    ensures lot < min ==> Clamp(lot, min, max) == min
    ensures lot > max ==> Clamp(lot, min, max) == max
  {
  }

  function NormalizeLot(lot: real, min: real, max: real, step: real): real
    requires step > 0.0
  {
    DecimalRound(Clamp(lot, min, max) / step) * step
  }

  // The grid the result lies on: two places of lot/step, so hundredths of the step.
  function Units(q: real, step: real): real { q * (step / 100.0) }

  function GridPoint(k: int, step: real): real { Units(k as real, step) }

  lemma RoundingIsNearestAndMonotone(x: real, y: real)
    ensures -0.5 <= RoundHalfUp(x) as real - x <= 0.5
    ensures x <= y ==> RoundHalfUp(x) <= RoundHalfUp(y)
    ensures x == x.Floor as real ==> RoundHalfUp(x) == x.Floor
  {
  }

  // A tie goes to the integer further from zero.
  lemma TiesGoAwayFromZero(n: nat)
    ensures RoundHalfUp(n as real + 0.5) == n + 1 && RoundHalfUp(-(n as real) - 0.5) == -(n + 1)
  {
    assert (n as real + 0.5 + 0.5).Floor == n + 1;
  }

  // What NormalizeLot computes, in units of a hundredth of the step.
  lemma InGridUnits(lot: real, min: real, max: real, step: real) returns (q: real)
    requires step > 0.0
    ensures Clamp(lot, min, max) == Units(q, step)
    ensures NormalizeLot(lot, min, max, step) == GridPoint(RoundHalfUp(q), step)
  {
    var c := Clamp(lot, min, max);
    q := c / step * 100.0;
    assert c / step * step == c;
    var n := RoundHalfUp(q) as real;
    assert n / 100.0 * step == n * (step / 100.0);
  }

  lemma UnitsKeepOrder(a: real, b: real, step: real)
    requires step > 0.0
    ensures a <= b <==> Units(a, step) <= Units(b, step)
    ensures a == b <==> Units(a, step) == Units(b, step)
  {
    if a < b { assert (b - a) * (step / 100.0) > 0.0; }
    if a > b { assert (a - b) * (step / 100.0) > 0.0; }
  }

  lemma UnitsAreAdditive(a: real, b: real, step: real)
    ensures Units(a + b, step) == Units(a, step) + Units(b, step)
  {
  }

  // Rounding q grid units to k whole ones moves the lot by at most half a unit and never past a grid point.
  lemma RoundedUnits(q: real, a: int, b: int, step: real)
    requires step > 0.0 && GridPoint(a, step) <= Units(q, step) <= GridPoint(b, step)
    ensures var k := RoundHalfUp(q);
            && a <= k <= b && GridPoint(a, step) <= GridPoint(k, step) <= GridPoint(b, step)
            && -(step / 200.0) <= GridPoint(k, step) - Units(q, step) <= step / 200.0
  {
    var k := RoundHalfUp(q);
    UnitsKeepOrder(a as real, q, step);
    UnitsKeepOrder(q, b as real, step);
    assert a <= k <= b;
    UnitsKeepOrder(a as real, k as real, step);
    UnitsKeepOrder(k as real, b as real, step);
    UnitsAreAdditive(q, k as real - q, step);
    UnitsKeepOrder(k as real - q, 0.5, step);
    UnitsKeepOrder(-0.5, k as real - q, step);
  }

  // With limits on the grid, the result is on the grid, inside the limits, and within half a grid
  // unit of the clamped lot.
  lemma NormalizedLotIsNearestInRange(lot: real, a: int, b: int, step: real) returns (k: int)
    requires step > 0.0 && a <= b
    ensures var min, max := GridPoint(a, step), GridPoint(b, step);
            var r := NormalizeLot(lot, min, max, step);
            && r == GridPoint(k, step) && a <= k <= b && min <= r <= max
            && -(step / 200.0) <= r - Clamp(lot, min, max) <= step / 200.0
  {
    var min, max := GridPoint(a, step), GridPoint(b, step);
    var q := InGridUnits(lot, min, max, step);
    k := RoundHalfUp(q);
    UnitsKeepOrder(a as real, b as real, step);
    RoundedUnits(q, a, b, step);
  }

  lemma RoundedUnitsMonotone(p: real, q: real, step: real)
    requires step > 0.0 && Units(p, step) <= Units(q, step)
    ensures GridPoint(RoundHalfUp(p), step) <= GridPoint(RoundHalfUp(q), step)
  {
    UnitsKeepOrder(p, q, step);
    RoundingIsNearestAndMonotone(p, q);
    UnitsKeepOrder(RoundHalfUp(p) as real, RoundHalfUp(q) as real, step);
  }

  lemma NormalizeIsMonotone(x: real, y: real, min: real, max: real, step: real)
    requires step > 0.0 && x <= y
    ensures NormalizeLot(x, min, max, step) <= NormalizeLot(y, min, max, step)
  {
    var p := InGridUnits(x, min, max, step);
    var q := InGridUnits(y, min, max, step);
    RoundedUnitsMonotone(p, q, step);
  }

  // A second clamp stays between the first one and what it was rounded to.
  lemma SecondClamp(lot: real, r: real, min: real, max: real)
    ensures var c := Clamp(lot, min, max);
            c <= Clamp(r, min, max) <= r || r <= Clamp(r, min, max) <= c || Clamp(r, min, max) == c
  {
  }

  // What lies between a value and the grid point it rounds to rounds to the same point.
  lemma BetweenRoundsTheSame(p: real, q: real, k: int, step: real)
    requires step > 0.0 && RoundHalfUp(p) == k
    requires Units(p, step) <= Units(q, step) <= GridPoint(k, step) || GridPoint(k, step) <= Units(q, step) <= Units(p, step)
    ensures RoundHalfUp(q) == k
  {
    UnitsKeepOrder(p, q, step);
    UnitsKeepOrder(q, p, step);
    UnitsKeepOrder(q, k as real, step);
    UnitsKeepOrder(k as real, q, step);
    RoundingIsNearestAndMonotone(p, q);
    RoundingIsNearestAndMonotone(q, p);
    RoundingIsNearestAndMonotone(q, k as real);
    RoundingIsNearestAndMonotone(k as real, q);
  }

  lemma NormalizeIsIdempotent(lot: real, min: real, max: real, step: real)
    requires step > 0.0
    ensures var r := NormalizeLot(lot, min, max, step);
            NormalizeLot(r, min, max, step) == r
  {
    var r := NormalizeLot(lot, min, max, step);
    var p := InGridUnits(lot, min, max, step);
    var q := InGridUnits(r, min, max, step);
    SecondClamp(lot, r, min, max);
    if Units(q, step) == Units(p, step) {
      UnitsKeepOrder(p, q, step);
    } else {
      BetweenRoundsTheSame(p, q, RoundHalfUp(p), step);
    }
  }

  lemma SameGridPoint(k: int, m: int, step: real)
    requires step > 0.0
    ensures GridPoint(k, step) == GridPoint(m, step) <==> k == m
  {
    UnitsKeepOrder(k as real, m as real, step);
  }

  lemma RoundsTo(q: real, m: int)
    ensures q >= 0.0 ==> (RoundHalfUp(q) == m <==> m as real - 0.5 <= q < m as real + 0.5)
    ensures q < 0.0 ==> (RoundHalfUp(q) == m <==> m as real - 0.5 < q <= m as real + 0.5)
  {
  }

  lemma HalfBelow(x: real, q: real, step: real)
    requires step > 0.0
    ensures x - 0.5 <= q <==> Units(x, step) - step / 200.0 <= Units(q, step)
    ensures x - 0.5 < q <==> Units(x, step) - step / 200.0 < Units(q, step)
  {
    UnitsAreAdditive(x, -0.5, step);
    UnitsKeepOrder(x - 0.5, q, step);
  }

  lemma HalfAbove(x: real, q: real, step: real)
    requires step > 0.0
    ensures q < x + 0.5 <==> Units(q, step) < Units(x, step) + step / 200.0
    ensures q <= x + 0.5 <==> Units(q, step) <= Units(x, step) + step / 200.0
  {
    UnitsAreAdditive(x, 0.5, step);
    UnitsKeepOrder(x + 0.5, q, step);
  }

  // Within half a grid unit; the half towards zero counts in, since ties round away from zero.
  predicate Near(x: real, point: real, step: real) {
    var half := step / 200.0;
    if x >= 0.0 then point - half <= x < point + half else point - half < x <= point + half
  }

  lemma RoundsToExactlyWhen(q: real, m: int, step: real)
    requires step > 0.0
    ensures GridPoint(RoundHalfUp(q), step) == GridPoint(m, step) <==> Near(Units(q, step), GridPoint(m, step), step)
  {
    UnitsKeepOrder(0.0, q, step);
    SameGridPoint(RoundHalfUp(q), m, step);
    RoundsTo(q, m);
    HalfBelow(m as real, q, step);
    HalfAbove(m as real, q, step);
  }

  // The docstring promises rounding to the step.  The code keeps two further decimals of lot/step,
  // so the result is a whole number of steps exactly when the clamped lot already was within half a
  // hundredth of one.
  lemma WholeStepExactlyWhen(lot: real, min: real, max: real, step: real)
    requires step > 0.0
    ensures (exists n: int :: NormalizeLot(lot, min, max, step) == GridPoint(100 * n, step))
            <==> exists n: int :: Near(Clamp(lot, min, max), GridPoint(100 * n, step), step)
  {
    var q := InGridUnits(lot, min, max, step);
    forall n: int ensures NormalizeLot(lot, min, max, step) == GridPoint(100 * n, step) <==>
                          Near(Clamp(lot, min, max), GridPoint(100 * n, step), step)
    {
      RoundsToExactlyWhen(q, 100 * n, step);
    }
  }

  const MIN_LOT := 0.01
  const MAX_LOT := 100.0
  const LOT_STEP := 0.01

  // The default step is 0.01, yet a lot of one step and a half stays as it is.
  lemma HalfAStepStays()
    ensures NormalizeLot(0.015, MIN_LOT, MAX_LOT, LOT_STEP) == 0.015
    ensures forall n: int :: NormalizeLot(0.015, MIN_LOT, MAX_LOT, LOT_STEP) != GridPoint(100 * n, LOT_STEP)
  {
    assert 0.015 / LOT_STEP * 100.0 == 150.0;
    assert RoundHalfUp(150.0) == 150;
    assert GridPoint(150, LOT_STEP) == 0.015;
    forall n: int ensures GridPoint(100 * n, LOT_STEP) != 0.015 { SameGridPoint(150, 100 * n, LOT_STEP); }
  }

  // ---- the default lot of route_signal_to_live ----

  // A nullable Decimal that Python finds true.
  predicate Given(x: Option<real>) { x.Some? && x.value != 0.0 }

  // A default lot lies within the limits, on four decimals as the DECIMAL(10, 4) column holds.
  ghost predicate DefaultLotOk(lot: real) { 0.01 <= lot <= 100.0 && 10000.0 * lot == (10000.0 * lot).Floor as real }

  lemma DefaultLotInNumbers(lot: real)
    ensures var r := NormalizeLot(lot, MIN_LOT, MAX_LOT, LOT_STEP);
            && DefaultLotOk(r)
            && (lot <= 0.01 ==> r == 0.01)
            && (lot >= 100.0 ==> r == 100.0)
            && (0.01 <= lot <= 100.0 ==> r - 0.00005 <= lot < r + 0.00005)
  {
    assert GridPoint(100, LOT_STEP) == MIN_LOT && GridPoint(1000000, LOT_STEP) == MAX_LOT;
    var k := NormalizedLotIsNearestInRange(lot, 100, 1000000, LOT_STEP);
    assert 10000.0 * GridPoint(k, LOT_STEP) == k as real;
    ClampIsNearestAllowed(lot, MIN_LOT, MAX_LOT);
    var q := InGridUnits(lot, MIN_LOT, MAX_LOT, LOT_STEP);
    RoundsTo(q, RoundHalfUp(q));
  }

  // Lost at the stop, the lot costs one percent of the balance: the placeholder pip value cancels the
  // pip size.
  method LotFromStop(balance: real, entry: real, stop: real) returns (lot: real)
    ensures entry != stop ==> 100.0 * lot * Abs(entry - stop) == balance
    ensures entry == stop ==> lot == MIN_LOT
    ensures balance < 0.0 ==> lot <= MIN_LOT
  {
    var riskAmount := balance * (1.0 / 100.0);
    var pipDistance := Abs(entry - stop) / 0.0001;
    var pipValue := 0.0001;
    if pipDistance > 0.0 {
      var distance := pipDistance * pipValue;
      assert distance == Abs(entry - stop) > 0.0;
      lot := riskAmount / distance;
      assert lot * distance == riskAmount;
      assert lot > 0.0 ==> lot * distance > 0.0;
    } else {
      lot := 0.01;
    }
  }

  method NormalizedDefault(raw: real) returns (lot: real)
    ensures DefaultLotOk(lot)
    ensures raw <= 0.01 ==> lot == 0.01
    ensures raw >= 100.0 ==> lot == 100.0
    ensures 0.01 <= raw <= 100.0 ==> lot - 0.00005 <= raw < lot + 0.00005
  {
    DefaultLotInNumbers(raw);
    lot := NormalizeLot(raw, MIN_LOT, MAX_LOT, LOT_STEP);
  }

  // The endpoint's branches: a lot given by the caller passes through untouched.  Otherwise `risked`
  // is the lot that loses one percent of the balance at the stop, and the answer is the allowed lot
  // of four decimals nearest to it, ties rounding up; where balance, entry or stop is missing, it is
  // the minimum.
  method SizeLot(requested: Option<real>, balance: Option<real>, entry: Option<real>, stop: Option<real>)
    returns (lot: real, ghost risked: real)
    ensures requested.Some? ==> lot == requested.value
    ensures requested.None? ==> DefaultLotOk(lot)
    ensures requested.None? && (balance.None? || balance.value <= 0.0) ==> lot == 0.01
    ensures requested.None? && !(Given(balance) && Given(entry) && Given(stop) && entry != stop) ==> lot == 0.01
    ensures requested.None? && Given(balance) && Given(entry) && Given(stop) && entry != stop ==>
              && 100.0 * risked * Abs(entry.value - stop.value) == balance.value
              && (risked <= 0.01 ==> lot == 0.01)
              && (risked >= 100.0 ==> lot == 100.0)
              && (0.01 <= risked <= 100.0 ==> lot - 0.00005 <= risked < lot + 0.00005)
  {
    risked := 0.0;
    if requested.Some? { lot := requested.value; return; }
    lot := 0.01;
    if Given(balance) && Given(stop) && Given(entry) {
      lot := LotFromStop(balance.value, entry.value, stop.value);
      risked := lot;
    }
    lot := NormalizedDefault(lot);
  }
}
