/**
  The Sharpe ratio (simulator.go and metrics.go): the two moments its passes compute, and the ratio
  over any square root.
*/
module Sharpe {
  import opened Arithmetic
  import opened Sequences

  datatype Moments = Moments(mean: real, variance: real)

  function Returns(e: seq<real>): (r: seq<real>)
    requires |e| >= 1
    ensures |r| == |e| - 1 && forall i | 0 <= i < |r| :: r[i] == e[i + 1] - e[i]
  {
    if |e| == 1 then [] else Returns(e[..|e| - 1]) + [e[|e| - 1] - e[|e| - 2]]
  }

  function SquaredDistance(m: real): real -> real { x => Square(x - m) }

  function MeanOf(r: seq<real>): real
    requires r != []
  {
    SumOf(Itself, r) / |r| as real
  }

  function VarianceOf(r: seq<real>): real
    requires r != []
  {
    SumOf(SquaredDistance(MeanOf(r)), r) / |r| as real
  }

  function MomentsOf(e: seq<real>): Moments {
    if |e| < 2 then Moments(0.0, 0.0) else Moments(MeanOf(Returns(e)), VarianceOf(Returns(e)))
  }

  // math.Sqrt on the values it is given, without its rounding.
  ghost predicate IsSquareRoot(sqrt: real -> real) {
    forall x | x >= 0.0 :: sqrt(x) >= 0.0 && Square(sqrt(x)) == x
  }

  function SharpeOf(sqrt: real -> real, e: seq<real>): real {
    if |e| < 2 || sqrt(MomentsOf(e).variance) == 0.0 then 0.0
    else MomentsOf(e).mean / sqrt(MomentsOf(e).variance)
  }

  method MeanAndVariance(rets: seq<real>) returns (mean: real, variance: real)
    requires rets != []
    ensures mean == MeanOf(rets) && variance == VarianceOf(rets)
  {
    mean := 0.0;
    for i := 0 to |rets|
      invariant mean == SumOf(Itself, rets[..i])
    {
      mean := mean + rets[i];
      assert rets[..i + 1][..i] == rets[..i];
    }
    assert rets[..|rets|] == rets;
    mean := mean / |rets| as real;
    variance := 0.0;
    for i := 0 to |rets|
      invariant variance == SumOf(SquaredDistance(mean), rets[..i])
    {
      variance := variance + Square(rets[i] - mean);
      assert rets[..i + 1][..i] == rets[..i];
    }
    variance := variance / |rets| as real;
  }

  method CalculateSharpeRatio(sqrt: real -> real, equity: seq<real>) returns (ratio: real)
    ensures ratio == SharpeOf(sqrt, equity)
  {
    if |equity| < 2 { return 0.0; }
    var rets: seq<real> := [];
    for i := 0 to |equity| - 1
      invariant |rets| == i && forall j | 0 <= j < i :: rets[j] == equity[j + 1] - equity[j]
    {
      rets := rets + [equity[i + 1] - equity[i]];
    }
    ghost var r := Returns(equity);
    forall i | 0 <= i < |r| ensures rets[i] == r[i] { assert r[i] == equity[i + 1] - equity[i]; }
    assert rets == r;
    var mean, variance := MeanAndVariance(rets);
    var stdDev := sqrt(variance);
    if stdDev == 0.0 { return 0.0; }
    return mean / stdDev;
  }

  lemma {:induction false} ReturnsTelescope(e: seq<real>)
    requires |e| >= 1
    ensures SumOf(Itself, Returns(e)) == e[|e| - 1] - e[0]
  {
    if |e| > 1 {
      ReturnsTelescope(e[..|e| - 1]);
      assert Returns(e)[..|e| - 2] == Returns(e[..|e| - 1]);
    }
  }

  lemma MeanTelescopes(e: seq<real>)
    requires |e| >= 2
    ensures MomentsOf(e).mean == (e[|e| - 1] - e[0]) / (|e| - 1) as real
  {
    ReturnsTelescope(e);
  }

  lemma SquareOfDifference(x: real, m: real)
    ensures Square(x - m) == Square(x) - 2.0 * (m * x) + Square(m)
  {
  }

  lemma {:induction false} SquaresExpand(r: seq<real>, m: real)
    ensures SumOf(SquaredDistance(m), r) == SumOf(Square, r) - 2.0 * Times(m, SumOf(Itself, r)) + Times(|r| as real, Square(m))
  {
    if r != [] {
      var x, init := r[|r| - 1], r[..|r| - 1];
      SquaresExpand(init, m);
      SquareOfDifference(x, m);
      Distributes(m, SumOf(Itself, init), x);
      Distributes(Square(m), |init| as real, 1.0);
    }
  }

  lemma CompleteTheSquare(squares: real, sum: real, n: real, m: real)
    requires n > 0.0 && m == sum / n
    ensures (squares - 2.0 * (m * sum) + n * Square(m)) / n == squares / n - Square(m)
  {
    assert sum == m * n;
    assert m * sum == n * Square(m);
    assert (squares - n * Square(m)) / n == squares / n - n * Square(m) / n;
  }

  lemma VarianceByCompletion(distances: real, squares: real, sum: real, n: real, m: real)
    requires n > 0.0 && m == sum / n && distances == squares - 2.0 * Times(m, sum) + Times(n, Square(m))
    ensures distances / n == squares / n - Square(m)
  {
    CompleteTheSquare(squares, sum, n, m);
  }

  lemma VarianceSplits(r: seq<real>)
    requires r != []
    ensures VarianceOf(r) == SumOf(Square, r) / |r| as real - Square(MeanOf(r))
  {
    SquaresExpand(r, MeanOf(r));
    VarianceByCompletion(SumOf(SquaredDistance(MeanOf(r)), r), SumOf(Square, r), SumOf(Itself, r), |r| as real, MeanOf(r));
  }

  // The two-pass variance is the mean of the squares minus the square of the mean.
  lemma VarianceIsMeanSquareMinusSquareMean(e: seq<real>)
    requires |e| >= 2
    ensures MomentsOf(e).variance == SumOf(Square, Returns(e)) / |Returns(e)| as real - Square(MomentsOf(e).mean)
  {
    VarianceSplits(Returns(e));
  }

  predicate AllAre(r: seq<real>, d: real) { forall i | 0 <= i < |r| :: r[i] == d }

  lemma {:induction false} SquaresVanishExactlyWhen(r: seq<real>, m: real)
    ensures SumOf(SquaredDistance(m), r) >= 0.0
    ensures SumOf(SquaredDistance(m), r) == 0.0 <==> AllAre(r, m)
  {
    if r != [] {
      SquaresVanishExactlyWhen(r[..|r| - 1], m);
      SquareSign(r[|r| - 1] - m);
      assert r == r[..|r| - 1] + [r[|r| - 1]];
    }
  }

  lemma {:induction false} ConstantSum(r: seq<real>, d: real)
    requires AllAre(r, d)
    ensures SumOf(Itself, r) == d * |r| as real
  {
    if r != [] {
      ConstantSum(r[..|r| - 1], d);
      Distributes(d, (|r| - 1) as real, 1.0);
    }
  }

  lemma ConstantMean(r: seq<real>, d: real)
    requires r != [] && AllAre(r, d)
    ensures MeanOf(r) == d
  {
    ConstantSum(r, d);
    var n := |r| as real;
    assert d * n / n == d;
  }

  lemma VarianceVanishesExactlyWhen(r: seq<real>)
    requires r != []
    ensures VarianceOf(r) == 0.0 <==> exists d :: AllAre(r, d)
  {
    var m := MeanOf(r);
    SquaresVanishExactlyWhen(r, m);
    DivisionKeepsZero(SumOf(SquaredDistance(m), r), |r| as real);
    assert VarianceOf(r) == 0.0 <==> AllAre(r, m);
    if d :| AllAre(r, d) {
      ConstantMean(r, d);
      assert m == d;
    }
  }

  // The ratio is forced to zero exactly on arithmetic progressions: curves of equal steps.
  lemma ZeroVarianceExactlyOnProgressions(e: seq<real>)
    requires |e| >= 2
    ensures MomentsOf(e).variance == 0.0 <==> exists d :: AllAre(Returns(e), d)
  {
    VarianceVanishesExactlyWhen(Returns(e));
    assert MomentsOf(e).variance == VarianceOf(Returns(e));
  }

  lemma SquareScales(k: real, x: real, m: real)
    ensures Square(k * x - k * m) == Square(k) * Square(x - m)
  {
    assert k * x - k * m == k * (x - m);
  }

  lemma {:induction false} SquaresScale(r: seq<real>, t: seq<real>, k: real, m: real)
    requires ScaledBy(k, r, t)
    ensures SumOf(Itself, t) == Times(k, SumOf(Itself, r))
    ensures SumOf(SquaredDistance(Times(k, m)), t) == Times(Square(k), SumOf(SquaredDistance(m), r))
  {
    if r != [] {
      var x, init := r[|r| - 1], r[..|r| - 1];
      assert t[|r| - 1] == k * x;
      SquaresScale(init, t[..|r| - 1], k, m);
      SquareScales(k, x, m);
      Distributes(k, SumOf(Itself, init), x);
      Distributes(Square(k), SumOf(SquaredDistance(m), init), Square(x - m));
    }
  }

  lemma ReturnsScale(e: seq<real>, f: seq<real>, k: real)
    requires ScaledBy(k, e, f) && |e| >= 1
    ensures ScaledBy(k, Returns(e), Returns(f))
  {
    var r, t := Returns(e), Returns(f);
    forall i | 0 <= i < |r| ensures t[i] == Times(k, r[i]) {
      assert r[i] == e[i + 1] - e[i] && t[i] == f[i + 1] - f[i];
      ScaledDifference(k, e[i + 1], e[i]);
    }
  }

  lemma MomentsScale(r: seq<real>, t: seq<real>, k: real)
    requires r != [] && ScaledBy(k, r, t)
    ensures MeanOf(t) == Times(k, MeanOf(r)) && VarianceOf(t) == Times(Square(k), VarianceOf(r))
  {
    var n, m := |r| as real, MeanOf(r);
    SquaresScale(r, t, k, m);
    ScaledQuotient(k, SumOf(Itself, r), n);
    ScaledQuotient(Square(k), SumOf(SquaredDistance(m), r), n);
  }

  lemma MomentsOfCurveScale(e: seq<real>, f: seq<real>, k: real)
    requires ScaledBy(k, e, f)
    ensures MomentsOf(f).mean == Times(k, MomentsOf(e).mean)
    ensures MomentsOf(f).variance == Times(Square(k), MomentsOf(e).variance)
  {
    if |e| >= 2 {
      var r := Returns(e);
      ReturnsScale(e, f, k);
      MomentsScale(r, Returns(f), k);
    }
  }

  // ---- the ratio ----

  lemma QuotientNotNegative(x: real, n: real)
    requires x >= 0.0 && n > 0.0
    ensures x / n >= 0.0
  {
    if x > 0.0 { QuotientSign(x, n); }
  }

  lemma VarianceIsNotNegative(e: seq<real>)
    ensures MomentsOf(e).variance >= 0.0
  {
    if |e| >= 2 {
      var r := Returns(e);
      SquaresVanishExactlyWhen(r, MeanOf(r));
      QuotientNotNegative(SumOf(SquaredDistance(MeanOf(r)), r), |r| as real);
    }
  }

  lemma DeviationVanishes(sqrt: real -> real, v: real)
    requires IsSquareRoot(sqrt) && v >= 0.0
    ensures sqrt(v) >= 0.0 && Square(sqrt(v)) == v && (sqrt(v) == 0.0 <==> v == 0.0)
  {
    SquareSign(sqrt(v));
  }

  lemma QuotientByRoot(mean: real, sd: real)
    requires sd > 0.0
    ensures Times(Square(mean / sd), Square(sd)) == Square(mean)
    ensures mean / sd > 0.0 <==> mean > 0.0
    ensures mean / sd == 0.0 <==> mean == 0.0
  {
    var q := mean / sd;
    assert Times(q, sd) == mean;
    ProductSign(q, sd);
    assert Times(q, sd) * Times(q, sd) == Times(Square(q), Square(sd));
  }

  // The ratio has the mean's sign and its square is the squared mean over the variance; with no
  // variance it is zero.  So it does not depend on which square root is used.
  lemma SharpeIsMeanOverDeviation(sqrt: real -> real, e: seq<real>)
    requires IsSquareRoot(sqrt)
    ensures var r, m := SharpeOf(sqrt, e), MomentsOf(e);
            && (m.variance == 0.0 ==> r == 0.0)
            && (m.variance != 0.0 ==>
                  Times(Square(r), m.variance) == Square(m.mean) && (r > 0.0 <==> m.mean > 0.0) && (r == 0.0 <==> m.mean == 0.0))
  {
    var m := MomentsOf(e);
    VarianceIsNotNegative(e);
    DeviationVanishes(sqrt, m.variance);
    if m.variance != 0.0 { QuotientByRoot(m.mean, sqrt(m.variance)); }
  }

  // A ratio of zero means a curve that ends where it began, or one of equal steps.
  lemma SharpeVanishesExactlyWhen(sqrt: real -> real, e: seq<real>)
    requires IsSquareRoot(sqrt) && |e| >= 2
    ensures SharpeOf(sqrt, e) == 0.0 <==> e[|e| - 1] == e[0] || exists d :: AllAre(Returns(e), d)
  {
    SharpeIsMeanOverDeviation(sqrt, e);
    ZeroVarianceExactlyOnProgressions(e);
    MeanTelescopes(e);
    DivisionKeepsZero(e[|e| - 1] - e[0], (|e| - 1) as real);
  }

  lemma ScaledDeviation(sqrt: real -> real, k: real, v: real)
    requires IsSquareRoot(sqrt) && k > 0.0 && v >= 0.0
    ensures sqrt(Times(Square(k), v)) == Times(k, sqrt(v))
  {
    var sd, w := sqrt(v), Times(Square(k), v);
    ProductSign(k, sd);
    assert Square(Times(k, sd)) == Times(Square(k), Square(sd));
    SquareSign(Times(k, sd));
    RootIsUnique(sqrt(w), Times(k, sd));
  }

  lemma SharpeIgnoresFactor(sqrt: real -> real, e: seq<real>, f: seq<real>, k: real)
    requires IsSquareRoot(sqrt) && k > 0.0 && ScaledBy(k, e, f)
    ensures SharpeOf(sqrt, f) == SharpeOf(sqrt, e)
  {
    if |e| >= 2 {
      var m := MomentsOf(e);
      MomentsOfCurveScale(e, f, k);
      VarianceIsNotNegative(e);
      ScaledDeviation(sqrt, k, m.variance);
      ProductSign(k, sqrt(m.variance));
      if sqrt(m.variance) != 0.0 { CommonFactorCancels(k, m.mean, sqrt(m.variance)); }
    }
  }
}
