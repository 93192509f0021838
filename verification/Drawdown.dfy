/**
  Maximum drawdown (simulator.go and metrics.go): the one-pass peak loop against the largest drop of
  the curve.
*/
module Drawdown {
  import opened Arithmetic

  function PeakOf(e: seq<real>): real
    requires e != []
  {
    if |e| == 1 then e[0] else Max(PeakOf(e[..|e| - 1]), e[|e| - 1])
  }

  function MaxDrawdownOf(e: seq<real>): real {
    if |e| <= 1 then 0.0 else Max(MaxDrawdownOf(e[..|e| - 1]), PeakOf(e) - e[|e| - 1])
  }

  // ---- the largest drop ----

  function Drop(e: seq<real>, i: int, j: int): real
    requires 0 <= i <= j < |e|
  {
    e[i] - e[j]
  }

  ghost predicate BoundsDrops(e: seq<real>, d: real) { forall i, j | 0 <= i <= j < |e| :: Drop(e, i, j) <= d }

  ghost predicate IsDrop(e: seq<real>, d: real) { exists i, j | 0 <= i <= j < |e| :: Drop(e, i, j) == d }

  // d is the largest drop from any point of the curve to the same or a later one (0 without points).
  ghost predicate LargestDrop(e: seq<real>, d: real) {
    BoundsDrops(e, d) && (if e == [] then d == 0.0 else IsDrop(e, d))
  }

  lemma {:induction false} PeakIsMaximum(e: seq<real>)
    requires e != []
    ensures (forall i | 0 <= i < |e| :: e[i] <= PeakOf(e)) && exists i | 0 <= i < |e| :: e[i] == PeakOf(e)
  {
    if |e| > 1 {
      var init := e[..|e| - 1];
      PeakIsMaximum(init);
      var k :| 0 <= k < |init| && init[k] == PeakOf(init);
      assert e[k] == PeakOf(init) && e[|e| - 1] == e[|e| - 1];
      assert forall i | 0 <= i < |init| :: e[i] == init[i];
    } else {
      assert e[0] == PeakOf(e);
    }
  }

  lemma {:induction false} MaxDrawdownBoundsDrops(e: seq<real>)
    ensures BoundsDrops(e, MaxDrawdownOf(e))
  {
    if |e| > 1 {
      var n, init := |e| - 1, e[..|e| - 1];
      MaxDrawdownBoundsDrops(init);
      PeakIsMaximum(e);
      forall a, b | 0 <= a <= b < |e| ensures Drop(e, a, b) <= MaxDrawdownOf(e) {
        if b < n { assert Drop(init, a, b) <= MaxDrawdownOf(init); } else { assert e[a] <= PeakOf(e); }
      }
    }
  }

  lemma {:induction false} MaxDrawdownIsDrop(e: seq<real>)
    requires e != []
    ensures IsDrop(e, MaxDrawdownOf(e))
  {
    if |e| == 1 {
      assert Drop(e, 0, 0) == 0.0;
    } else if MaxDrawdownOf(e) == PeakOf(e) - e[|e| - 1] {
      PeakIsMaximum(e);
      var k :| 0 <= k < |e| && e[k] == PeakOf(e);
      assert Drop(e, k, |e| - 1) == MaxDrawdownOf(e);
    } else {
      var init := e[..|e| - 1];
      MaxDrawdownIsDrop(init);
      var i, j :| 0 <= i <= j < |init| && Drop(init, i, j) == MaxDrawdownOf(init);
      assert Drop(e, i, j) == MaxDrawdownOf(e);
    }
  }

  lemma MaxDrawdownIsLargestDrop(e: seq<real>)
    ensures LargestDrop(e, MaxDrawdownOf(e))
  {
    MaxDrawdownBoundsDrops(e);
    if e != [] { MaxDrawdownIsDrop(e); }
  }

  method MaxDrawdown(equity: seq<real>) returns (maxDD: real)
    ensures maxDD == MaxDrawdownOf(equity) && LargestDrop(equity, maxDD)
  {
    MaxDrawdownIsLargestDrop(equity);
    if |equity| < 2 { return 0.0; }
    maxDD := 0.0;
    var peak := equity[0];
    for i := 0 to |equity|
      invariant i == 0 ==> peak == equity[0] && maxDD == 0.0
      invariant i > 0 ==> peak == PeakOf(equity[..i]) && maxDD == MaxDrawdownOf(equity[..i])
    {
      var v := equity[i];
      if v > peak { peak := v; }
      var dd := peak - v;
      if dd > maxDD { maxDD := dd; }
      assert equity[..i + 1][..i] == equity[..i];
    }
    assert equity[..|equity|] == equity;
  }

  lemma BoundedDropIsDrawdown(e: seq<real>, d: real)
    requires BoundsDrops(e, d) && IsDrop(e, d)
    ensures MaxDrawdownOf(e) == d
  {
    MaxDrawdownBoundsDrops(e);
    MaxDrawdownIsDrop(e);
  }

  // ---- shifts and factors ----

  lemma DrawdownIgnoresShift(e: seq<real>, f: seq<real>, c: real)
    requires |e| == |f| && forall i | 0 <= i < |e| :: f[i] == e[i] + c
    ensures MaxDrawdownOf(f) == MaxDrawdownOf(e)
  {
    var d := MaxDrawdownOf(e);
    if e != [] {
      MaxDrawdownBoundsDrops(e);
      MaxDrawdownIsDrop(e);
      forall i, j | 0 <= i <= j < |f| ensures Drop(f, i, j) <= d { assert Drop(e, i, j) <= d; }
      var i, j :| 0 <= i <= j < |e| && Drop(e, i, j) == d;
      assert Drop(f, i, j) == d;
      BoundedDropIsDrawdown(f, d);
    }
  }

  lemma ScaledDrop(x: real, y: real, d: real, k: real)
    requires k > 0.0
    ensures x - y <= d ==> Times(k, x) - Times(k, y) <= Times(k, d)
    ensures x - y == d ==> Times(k, x) - Times(k, y) == Times(k, d)
  {
    ScaledDifference(k, x, y);
    ScaledDifference(k, d, x - y);
    ProductSign(k, d - (x - y));
  }

  lemma DropsScale(e: seq<real>, f: seq<real>, k: real, d: real)
    requires k > 0.0 && ScaledBy(k, e, f) && BoundsDrops(e, d)
    ensures BoundsDrops(f, Times(k, d))
  {
    forall i, j | 0 <= i <= j < |f| ensures Drop(f, i, j) <= Times(k, d) {
      assert Drop(e, i, j) <= d;
      ScaledDrop(e[i], e[j], d, k);
    }
  }

  lemma DrawdownScales(e: seq<real>, f: seq<real>, k: real)
    requires k > 0.0 && ScaledBy(k, e, f)
    ensures MaxDrawdownOf(f) == Times(k, MaxDrawdownOf(e))
  {
    var d := MaxDrawdownOf(e);
    if e != [] {
      MaxDrawdownBoundsDrops(e);
      DropsScale(e, f, k, d);
      MaxDrawdownIsDrop(e);
      var i, j :| 0 <= i <= j < |e| && Drop(e, i, j) == d;
      ScaledDrop(e[i], e[j], d, k);
      assert Drop(f, i, j) == Times(k, d);
      BoundedDropIsDrawdown(f, Times(k, d));
    }
  }

  // ---- one curve after another ----

  function TroughOf(e: seq<real>): real
    requires e != []
  {
    if |e| == 1 then e[0]
    else
      var t, v := TroughOf(e[..|e| - 1]), e[|e| - 1];
      if v < t then v else t
  }

  lemma {:induction false} TroughIsMinimum(e: seq<real>)
    requires e != []
    ensures (forall i | 0 <= i < |e| :: e[i] >= TroughOf(e)) && exists i | 0 <= i < |e| :: e[i] == TroughOf(e)
  {
    if |e| > 1 {
      var init := e[..|e| - 1];
      TroughIsMinimum(init);
      var k :| 0 <= k < |init| && init[k] == TroughOf(init);
      assert e[k] == TroughOf(init) && e[|e| - 1] == e[|e| - 1];
      assert forall i | 0 <= i < |init| :: e[i] == init[i];
    } else {
      assert e[0] == TroughOf(e);
    }
  }

  ghost predicate BoundsAcross(a: seq<real>, b: seq<real>, d: real) {
    forall i, j | 0 <= i < |a| && 0 <= j < |b| :: a[i] - b[j] <= d
  }

  lemma BoundsCompose(a: seq<real>, b: seq<real>, d: real)
    requires BoundsDrops(a, d) && BoundsDrops(b, d) && BoundsAcross(a, b, d)
    ensures BoundsDrops(a + b, d)
  {
    var e := a + b;
    forall i, j | 0 <= i <= j < |e| ensures Drop(e, i, j) <= d {
      if j < |a| { assert Drop(a, i, j) <= d; }
      else if |a| <= i { assert Drop(b, i - |a|, j - |a|) <= d; }
      else { assert a[i] - b[j - |a|] <= d; }
    }
  }

  lemma DropOfEither(a: seq<real>, b: seq<real>, d: real)
    requires IsDrop(a, d) || IsDrop(b, d)
    ensures IsDrop(a + b, d)
  {
    var e := a + b;
    if IsDrop(a, d) {
      var i, j :| 0 <= i <= j < |a| && Drop(a, i, j) == d;
      assert Drop(e, i, j) == d;
    } else {
      var i, j :| 0 <= i <= j < |b| && Drop(b, i, j) == d;
      assert Drop(e, |a| + i, |a| + j) == d;
    }
  }

  lemma AcrossIsBounded(a: seq<real>, b: seq<real>)
    requires a != [] && b != []
    ensures BoundsAcross(a, b, PeakOf(a) - TroughOf(b))
  {
    PeakIsMaximum(a);
    TroughIsMinimum(b);
    forall i, j | 0 <= i < |a| && 0 <= j < |b| ensures a[i] - b[j] <= PeakOf(a) - TroughOf(b) {
      assert a[i] <= PeakOf(a) && b[j] >= TroughOf(b);
    }
  }

  lemma PeakToTroughIsDrop(a: seq<real>, b: seq<real>)
    requires a != [] && b != []
    ensures IsDrop(a + b, PeakOf(a) - TroughOf(b))
  {
    PeakIsMaximum(a);
    TroughIsMinimum(b);
    var p :| 0 <= p < |a| && a[p] == PeakOf(a);
    var t :| 0 <= t < |b| && b[t] == TroughOf(b);
    assert Drop(a + b, p, |a| + t) == PeakOf(a) - TroughOf(b);
  }

  lemma LooserBound(e: seq<real>, d: real, top: real)
    requires BoundsDrops(e, d) && d <= top
    ensures BoundsDrops(e, top)
  {
  }

  lemma WorstOfThreeBounds(a: seq<real>, b: seq<real>, top: real)
    requires a != [] && b != []
    requires MaxDrawdownOf(a) <= top && MaxDrawdownOf(b) <= top && PeakOf(a) - TroughOf(b) <= top
    ensures BoundsDrops(a + b, top)
  {
    MaxDrawdownBoundsDrops(a);
    LooserBound(a, MaxDrawdownOf(a), top);
    MaxDrawdownBoundsDrops(b);
    LooserBound(b, MaxDrawdownOf(b), top);
    AcrossIsBounded(a, b);
    BoundsCompose(a, b, top);
  }

  lemma EachOfThreeIsDrop(a: seq<real>, b: seq<real>, top: real)
    requires a != [] && b != []
    requires top == MaxDrawdownOf(a) || top == MaxDrawdownOf(b) || top == PeakOf(a) - TroughOf(b)
    ensures IsDrop(a + b, top)
  {
    if top == MaxDrawdownOf(a) {
      MaxDrawdownIsDrop(a);
      DropOfEither(a, b, top);
    } else if top == MaxDrawdownOf(b) {
      MaxDrawdownIsDrop(b);
      DropOfEither(a, b, top);
    } else {
      PeakToTroughIsDrop(a, b);
    }
  }

  lemma WorstOfThree(a: seq<real>, b: seq<real>, top: real)
    requires a != [] && b != []
    requires MaxDrawdownOf(a) <= top && MaxDrawdownOf(b) <= top && PeakOf(a) - TroughOf(b) <= top
    requires top == MaxDrawdownOf(a) || top == MaxDrawdownOf(b) || top == PeakOf(a) - TroughOf(b)
    ensures MaxDrawdownOf(a + b) == top
  {
    WorstOfThreeBounds(a, b, top);
    EachOfThreeIsDrop(a, b, top);
    BoundedDropIsDrawdown(a + b, top);
  }

  predicate IsLargest(top: real, c: real, d: real, x: real) {
    c <= top && d <= top && x <= top && (top == c || top == d || top == x)
  }

  lemma LargestExists(c: real, d: real, x: real) returns (top: real)
    ensures IsLargest(top, c, d, x)
  {
    top := if c >= d then c else d;
    if x > top { top := x; }
  }

  // Two curves one after the other: the worst drop lies in one of them, or runs from the peak of the
  // first to the trough of the second.
  lemma DrawdownComposes(a: seq<real>, b: seq<real>)
    requires a != [] && b != []
    ensures IsLargest(MaxDrawdownOf(a + b), MaxDrawdownOf(a), MaxDrawdownOf(b), PeakOf(a) - TroughOf(b))
  {
    var top := LargestExists(MaxDrawdownOf(a), MaxDrawdownOf(b), PeakOf(a) - TroughOf(b));
    WorstOfThree(a, b, top);
  }

  // ---- where the curve starts ----

  // Somewhere the curve falls by at least x.
  ghost predicate FallsBy(e: seq<real>, x: real) { exists i, k | 0 <= i <= k < |e| :: Drop(e, i, k) >= x }

  lemma FallsByExactlyUpTo(e: seq<real>, x: real)
    requires e != []
    ensures FallsBy(e, x) <==> x <= MaxDrawdownOf(e)
  {
    MaxDrawdownIsLargestDrop(e);
    var i, k :| 0 <= i <= k < |e| && Drop(e, i, k) == MaxDrawdownOf(e);
  }

  lemma {:induction false} MaxDrawdownIsNotNegative(e: seq<real>)
    ensures MaxDrawdownOf(e) >= 0.0
  {
    if |e| > 1 { MaxDrawdownIsNotNegative(e[..|e| - 1]); }
  }

  lemma DrawdownFromZero(e: seq<real>)
    requires e != []
    ensures MaxDrawdownOf([0.0] + e) == MaxDrawdownOf(e) <==> -TroughOf(e) <= MaxDrawdownOf(e)
  {
    DrawdownComposes([0.0], e);
    MaxDrawdownIsNotNegative(e);
  }

  lemma EveryPointCoveredExactlyWhen(e: seq<real>)
    requires e != []
    ensures (forall j | 0 <= j < |e| :: FallsBy(e, -e[j])) <==> -TroughOf(e) <= MaxDrawdownOf(e)
  {
    forall j | 0 <= j < |e| ensures FallsBy(e, -e[j]) <==> -e[j] <= MaxDrawdownOf(e) { FallsByExactlyUpTo(e, -e[j]); }
    TroughIsMinimum(e);
    var t :| 0 <= t < |e| && e[t] == TroughOf(e);
  }

  // The peak starts at the first equity point, not at the zero the account starts from.  That loses
  // nothing exactly when every point below zero lies no deeper than the curve falls somewhere.
  lemma OpeningLossCountsExactlyWhen(e: seq<real>)
    requires e != []
    ensures MaxDrawdownOf([0.0] + e) == MaxDrawdownOf(e) <==> forall j | 0 <= j < |e| :: FallsBy(e, -e[j])
  {
    DrawdownFromZero(e);
    EveryPointCoveredExactlyWhen(e);
  }

  // A first trade that loses nothing is enough.
  lemma NoOpeningLossNoDifference(e: seq<real>)
    requires e != [] && e[0] >= 0.0
    ensures MaxDrawdownOf([0.0] + e) == MaxDrawdownOf(e)
  {
    forall j | 0 <= j < |e| ensures FallsBy(e, -e[j]) { assert Drop(e, 0, j) >= -e[j]; }
    OpeningLossCountsExactlyWhen(e);
  }

  // A single losing trade is no drawdown at all.
  lemma OpeningLossIsMissed()
    ensures MaxDrawdownOf([-1.0]) == 0.0 && MaxDrawdownOf([0.0, -1.0]) == 1.0
  {
    assert [0.0, -1.0][..1] == [0.0];
    assert PeakOf([0.0]) == 0.0 && MaxDrawdownOf([0.0]) == 0.0;
  }
}
