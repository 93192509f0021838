/**
  Theorems about whole backtest runs: conservation, independence of the input order, scaling of the
  reward factor, and when the two notions of a winning trade agree.  They are about the functions that
  specify a run; a run reports what these functions say exactly when no signal divides by zero.
*/
module BacktestTheorems {
  import opened Arithmetic
  import opened Backtester
  import opened Drawdown
  import opened Metrics
  import opened Sequences
  import opened Sharpe

  // ---- conservation ----

  lemma {:induction false} EveryTradeHasOneOutcome(trades: seq<Trade>)
    ensures CountOf(IsTpHit, trades) + CountOf(IsSlHit, trades) + CountOf(IsOpen, trades) == |trades|
  {
    if trades != [] { EveryTradeHasOneOutcome(trades[..|trades| - 1]); }
  }

  // The total is the last equity point and the difference of the gross sums; every signal is won,
  // lost or open; and every stopped trade costs exactly half the reward factor.
  lemma RunConserves(cfg: Config, sqrt: real -> real, sorted: seq<Signal>, runId: int)
    ensures var trades := TradesOf(cfg, sorted);
            var r := ResultOf(sqrt, runId, trades);
            && r.totalRR == SumOf(Gain, trades) - SumOf(Loss, trades)
            && (sorted != [] ==> r.equityCurve[|r.equityCurve| - 1] == r.totalRR)
            && r.winCount + r.lossCount + CountOf(IsOpen, trades) == r.totalSignals == |sorted|
            && forall i | 0 <= i < |trades| && trades[i].outcome == SlHit :: trades[i].rr == -(cfg.defaultRR / 2.0)
  {
    var trades := TradesOf(cfg, sorted);
    GrossSumsSplitTotal(trades);
    EveryTradeHasOneOutcome(trades);
  }

  // ---- input order ----

  // Signals of equal time give equal trades.
  ghost predicate TimeDecidesTrade(cfg: Config, signals: seq<Signal>) {
    forall i, j | 0 <= i < |signals| && 0 <= j < |signals| && ByTime(signals[i]) == ByTime(signals[j]) ::
      TradeOf(cfg, signals[i]) == TradeOf(cfg, signals[j])
  }

  // Whatever order the sort gives to ties, there is one list of trades.
  ghost predicate OneTradeList(cfg: Config, signals: seq<Signal>) {
    forall s, t | SortedPermutation(ByTime, s, signals) && SortedPermutation(ByTime, t, signals) ::
      TradesOf(cfg, s) == TradesOf(cfg, t)
  }

  lemma PermutationKeepsTimeDecides(cfg: Config, a: seq<Signal>, b: seq<Signal>)
    requires Permutation(a, b) && TimeDecidesTrade(cfg, a)
    ensures TimeDecidesTrade(cfg, b)
  {
    forall i, j | 0 <= i < |b| && 0 <= j < |b| && ByTime(b[i]) == ByTime(b[j])
      ensures TradeOf(cfg, b[i]) == TradeOf(cfg, b[j])
    {
      assert b[i] in multiset(a) && b[j] in multiset(a);
      var k :| 0 <= k < |a| && a[k] == b[i];
      var l :| 0 <= l < |a| && a[l] == b[j];
      assert ByTime(a[k]) == ByTime(a[l]);
    }
  }

  // Two sorts agree on the timestamp at every position.
  lemma SortedTimesAgree(s: seq<Signal>, t: seq<Signal>)
    requires SortedBy(ByTime, s) && SortedBy(ByTime, t) && Permutation(s, t)
    ensures |s| == |t| && forall i | 0 <= i < |s| :: ByTime(s[i]) == ByTime(t[i])
  {
    MapPermutes(ByTime, s, t);
    SortIsUnique(Itself, Map(ByTime, s), Map(ByTime, t));
    assert |Map(ByTime, s)| == |Map(ByTime, t)|;
    forall i | 0 <= i < |s| ensures ByTime(s[i]) == ByTime(t[i]) {
      assert Map(ByTime, s)[i] == Map(ByTime, t)[i];
    }
  }

  lemma SameTradesPointwise(cfg: Config, s: seq<Signal>, t: seq<Signal>)
    requires |s| == |t| && forall i | 0 <= i < |s| :: TradeOf(cfg, s[i]) == TradeOf(cfg, t[i])
    ensures TradesOf(cfg, s) == TradesOf(cfg, t)
  {
    assert forall i | 0 <= i < |s| :: TradesOf(cfg, s)[i] == TradesOf(cfg, t)[i];
  }

  lemma SameTimesSameTrades(cfg: Config, s: seq<Signal>, t: seq<Signal>)
    requires SortedBy(ByTime, s) && SortedBy(ByTime, t) && Permutation(s, t) && TimeDecidesTrade(cfg, s)
    ensures TradesOf(cfg, s) == TradesOf(cfg, t)
  {
    SortedTimesAgree(s, t);
    forall i | 0 <= i < |s| ensures TradeOf(cfg, s[i]) == TradeOf(cfg, t[i]) {
      assert t[i] in multiset(s);
      var k :| 0 <= k < |s| && s[k] == t[i];
      assert ByTime(s[k]) == ByTime(s[i]);
    }
    SameTradesPointwise(cfg, s, t);
  }

  function Swapped(s: seq<Signal>, i: nat, j: nat): (t: seq<Signal>)
    requires i < |s| && j < |s|
    ensures |t| == |s| && t[i] == s[j] && t[j] == s[i] && forall k | 0 <= k < |s| && k != i && k != j :: t[k] == s[k]
    ensures Permutation(s, t)
  {
    s[i := s[j]][j := s[i]]
  }

  // Two tied signals with different trades can change places in the sorted order.
  lemma TiesCanSwap(cfg: Config, s: seq<Signal>, i: nat, j: nat)
    requires i < |s| && j < |s| && SortedBy(ByTime, s) && ByTime(s[i]) == ByTime(s[j])
    requires TradeOf(cfg, s[i]) != TradeOf(cfg, s[j])
    ensures SortedBy(ByTime, Swapped(s, i, j)) && TradesOf(cfg, s) != TradesOf(cfg, Swapped(s, i, j))
  {
    var t := Swapped(s, i, j);
    assert forall k | 0 <= k < |s| :: ByTime(t[k]) == ByTime(s[k]);
    assert TradesOf(cfg, s)[i] == TradeOf(cfg, s[i]) && TradesOf(cfg, t)[i] == TradeOf(cfg, s[j]);
  }

  lemma OneTradeListExactlyWhen(cfg: Config, signals: seq<Signal>)
    ensures OneTradeList(cfg, signals) <==> TimeDecidesTrade(cfg, signals)
  {
    if TimeDecidesTrade(cfg, signals) {
      forall s, t | SortedPermutation(ByTime, s, signals) && SortedPermutation(ByTime, t, signals)
        ensures TradesOf(cfg, s) == TradesOf(cfg, t)
      {
        PermutationKeepsTimeDecides(cfg, signals, s);
        SameTimesSameTrades(cfg, s, t);
      }
    } else {
      var s := Sorted(ByTime, signals);
      SortedOk(ByTime, signals);
      if TimeDecidesTrade(cfg, s) { PermutationKeepsTimeDecides(cfg, s, signals); }
      var i, j :| 0 <= i < |s| && 0 <= j < |s| && ByTime(s[i]) == ByTime(s[j]) && TradeOf(cfg, s[i]) != TradeOf(cfg, s[j]);
      TiesCanSwap(cfg, s, i, j);
      assert SortedPermutation(ByTime, Swapped(s, i, j), signals);
    }
  }

  // One report whatever order the sort gives to ties.
  ghost predicate OneReport(cfg: Config, sqrt: real -> real, runId: int, signals: seq<Signal>) {
    forall s, t | SortedPermutation(ByTime, s, signals) && SortedPermutation(ByTime, t, signals) ::
      ResultOf(sqrt, runId, TradesOf(cfg, s)) == ResultOf(sqrt, runId, TradesOf(cfg, t))
  }

  lemma ReportShowsTrades(sqrt: real -> real, runId: int, a: seq<Trade>, b: seq<Trade>)
    ensures ResultOf(sqrt, runId, a) == ResultOf(sqrt, runId, b) <==> a == b
  {
    assert ResultOf(sqrt, runId, a).trades == a && ResultOf(sqrt, runId, b).trades == b;
  }

  // The report of a set of signals is determined exactly when signals of equal time give equal
  // trades.  Pairwise distinct timestamps are the plainest case.
  lemma OrderDoesNotMatterExactlyWhen(cfg: Config, sqrt: real -> real, runId: int, signals: seq<Signal>)
    ensures OneReport(cfg, sqrt, runId, signals) <==> TimeDecidesTrade(cfg, signals)
  {
    forall s, t
      ensures ResultOf(sqrt, runId, TradesOf(cfg, s)) == ResultOf(sqrt, runId, TradesOf(cfg, t))
              <==> TradesOf(cfg, s) == TradesOf(cfg, t)
    {
      ReportShowsTrades(sqrt, runId, TradesOf(cfg, s), TradesOf(cfg, t));
    }
    OneTradeListExactlyWhen(cfg, signals);
  }

  // Then every permutation of the input gives the same report, whatever sort is used.
  lemma InputOrderDoesNotMatter(cfg: Config, a: seq<Signal>, b: seq<Signal>, sortedA: seq<Signal>, sortedB: seq<Signal>)
    requires Permutation(a, b) && SortedPermutation(ByTime, sortedA, a) && SortedPermutation(ByTime, sortedB, b)
    requires TimeDecidesTrade(cfg, a)
    ensures TradesOf(cfg, sortedA) == TradesOf(cfg, sortedB)
  {
    PermutationKeepsTimeDecides(cfg, a, sortedA);
    SameTimesSameTrades(cfg, sortedA, sortedB);
  }

  lemma DistinctTimesDecide(cfg: Config, signals: seq<Signal>)
    requires forall i, j | 0 <= i < j < |signals| :: ByTime(signals[i]) != ByTime(signals[j])
    ensures TimeDecidesTrade(cfg, signals)
  {
    forall i, j | 0 <= i < |signals| && 0 <= j < |signals| && ByTime(signals[i]) == ByTime(signals[j])
      ensures signals[i] == signals[j]
    {
      assert i == j;
    }
  }

  // With ties the sort may order them either way; the counts, the total and the profit factor agree all the same.
  lemma TiesKeepTotals(cfg: Config, sqrt: real -> real, sortedA: seq<Signal>, sortedB: seq<Signal>, runId: int)
    requires Permutation(sortedA, sortedB)
    ensures var r, q := ResultOf(sqrt, runId, TradesOf(cfg, sortedA)), ResultOf(sqrt, runId, TradesOf(cfg, sortedB));
            && r.totalSignals == q.totalSignals && r.winCount == q.winCount && r.lossCount == q.lossCount
            && r.winRate == q.winRate && r.totalRR == q.totalRR && r.profitFactor == q.profitFactor
  {
    var a, b := TradesOf(cfg, sortedA), TradesOf(cfg, sortedB);
    MapPermutes(Trader(cfg), sortedA, sortedB);
    SumPermutes(RR, a, b);
    SumPermutes(Gain, a, b);
    SumPermutes(Loss, a, b);
    CountPermutes(IsTpHit, a, b);
    CountPermutes(IsSlHit, a, b);
    assert |multiset(a)| == |a| && |multiset(b)| == |b|;
  }

  lemma WinThenLoss(cfg: Config, win: Signal, loss: Signal)
    requires cfg == Config(2.0, 0.0)
    requires win == Signal(1, "EURUSD", "BUY", 10.0, 9.0, [11.0], 0.0) && loss == Signal(2, "EURUSD", "BUY", 10.0, 9.0, [], 0.0)
    ensures TradeOf(cfg, win).rr == 1.0 && TradeOf(cfg, loss).rr == -1.0
  {
  }

  lemma EquityOfTwo(t: Trade, u: Trade)
    ensures Equity([t, u]) == [t.rr, t.rr + u.rr]
  {
    assert [t, u][..1] == [t] && [t][..0] == [];
    assert SumOf(RR, [t]) == t.rr;
    assert Equity([t]) == [t.rr];
  }

  lemma DrawdownOfTwoPoints(x: real, y: real)
    ensures MaxDrawdownOf([x, y]) == if x > y then x - y else 0.0
  {
    assert [x, y][..1] == [x];
    assert PeakOf([x]) == x && MaxDrawdownOf([x]) == 0.0;
  }

  lemma DrawdownOfTwo(cfg: Config, x: Signal, y: Signal)
    ensures var fall := -TradeOf(cfg, y).rr;
            MaxDrawdownOf(Equity(TradesOf(cfg, [x, y]))) == if fall > 0.0 then fall else 0.0
  {
    var t, u := TradeOf(cfg, x), TradeOf(cfg, y);
    assert TradesOf(cfg, [x, y]) == [t, u];
    EquityOfTwo(t, u);
    DrawdownOfTwoPoints(t.rr, t.rr + u.rr);
  }

  // The drawdown does depend on how ties fall: a loss and a win at the same instant.
  lemma TiesCanChangeDrawdown() returns (cfg: Config, a: seq<Signal>, b: seq<Signal>)
    ensures Permutation(a, b) && SortedBy(ByTime, a) && SortedBy(ByTime, b)
    ensures MaxDrawdownOf(Equity(TradesOf(cfg, a))) == 1.0 && MaxDrawdownOf(Equity(TradesOf(cfg, b))) == 0.0
  {
    cfg := Config(2.0, 0.0);
    var win := Signal(1, "EURUSD", "BUY", 10.0, 9.0, [11.0], 0.0);
    var loss := Signal(2, "EURUSD", "BUY", 10.0, 9.0, [], 0.0);
    WinThenLoss(cfg, win, loss);
    a, b := [win, loss], [loss, win];
    DrawdownOfTwo(cfg, win, loss);
    DrawdownOfTwo(cfg, loss, win);
    assert multiset(a) == multiset{win, loss} == multiset(b);
  }

  // ---- the reward factor ----

  function ScaledTrade(k: real, t: Trade): Trade { t.(rr := Times(k, t.rr)) }

  function ScaledTrades(k: real, trades: seq<Trade>): (ts: seq<Trade>)
    ensures |ts| == |trades| && forall i | 0 <= i < |trades| :: ts[i] == ScaledTrade(k, trades[i])
  {
    if trades == [] then [] else ScaledTrades(k, trades[..|trades| - 1]) + [ScaledTrade(k, trades[|trades| - 1])]
  }

  // Everything the factor cannot change stays; everything linear in it scales.
  ghost predicate ScaledResult(k: real, r: SimulationResult, q: SimulationResult) {
    && q.totalSignals == r.totalSignals && q.winCount == r.winCount && q.lossCount == r.lossCount
    && q.winRate == r.winRate && q.profitFactor == r.profitFactor && q.sharpeRatio == r.sharpeRatio
    && q.trades == ScaledTrades(k, r.trades) && ScaledBy(k, r.equityCurve, q.equityCurve)
    && q.totalRR == Times(k, r.totalRR) && q.maxDrawdown == Times(k, r.maxDrawdown)
  }

  lemma HalvedProduct(u: real, k: real, factor: real)
    ensures u * Times(k, factor) / 2.0 == Times(k, u * factor / 2.0)
  {
  }

  lemma TradesScale(cfg: Config, k: real, sorted: seq<Signal>)
    ensures TradesOf(cfg.(defaultRR := Times(k, cfg.defaultRR)), sorted) == ScaledTrades(k, TradesOf(cfg, sorted))
  {
    var cfg' := cfg.(defaultRR := Times(k, cfg.defaultRR));
    forall i | 0 <= i < |sorted| ensures TradeOf(cfg', sorted[i]) == ScaledTrade(k, TradeOf(cfg, sorted[i])) {
      assert UnitRR(cfg', sorted[i]) == UnitRR(cfg, sorted[i]);
      HalvedProduct(UnitRR(cfg, sorted[i]), k, cfg.defaultRR);
    }
  }

  lemma OneScaledTrade(k: real, t: Trade)
    requires k > 0.0
    ensures Gain(ScaledTrade(k, t)) == Times(k, Gain(t)) && Loss(ScaledTrade(k, t)) == Times(k, Loss(t))
  {
    ProductSign(k, t.rr);
    ScaledDifference(k, 0.0, t.rr);
  }

  lemma {:induction false} TotalsScale(k: real, trades: seq<Trade>)
    requires k > 0.0
    ensures var scaled := ScaledTrades(k, trades);
            && SumOf(RR, scaled) == Times(k, SumOf(RR, trades))
            && SumOf(Gain, scaled) == Times(k, SumOf(Gain, trades))
            && SumOf(Loss, scaled) == Times(k, SumOf(Loss, trades))
  {
    if trades != [] {
      var init, t := trades[..|trades| - 1], trades[|trades| - 1];
      TotalsScale(k, init);
      OneScaledTrade(k, t);
      ScaledSum(k, SumOf(RR, init), t.rr);
      ScaledSum(k, SumOf(Gain, init), Gain(t));
      ScaledSum(k, SumOf(Loss, init), Loss(t));
      assert ScaledTrades(k, trades)[..|trades| - 1] == ScaledTrades(k, init);
    }
  }

  lemma {:induction false} CountsStay(k: real, trades: seq<Trade>)
    ensures CountOf(IsTpHit, ScaledTrades(k, trades)) == CountOf(IsTpHit, trades)
    ensures CountOf(IsSlHit, ScaledTrades(k, trades)) == CountOf(IsSlHit, trades)
  {
    if trades != [] {
      CountsStay(k, trades[..|trades| - 1]);
      assert ScaledTrades(k, trades)[..|trades| - 1] == ScaledTrades(k, trades[..|trades| - 1]);
    }
  }

  lemma {:induction false} EquityScales(k: real, trades: seq<Trade>)
    requires k > 0.0
    ensures ScaledBy(k, Equity(trades), Equity(ScaledTrades(k, trades)))
  {
    if trades != [] {
      EquityScales(k, trades[..|trades| - 1]);
      TotalsScale(k, trades);
      assert ScaledTrades(k, trades)[..|trades| - 1] == ScaledTrades(k, trades[..|trades| - 1]);
    }
  }

  lemma ProfitFactorScales(k: real, trades: seq<Trade>)
    requires k > 0.0
    ensures ProfitFactorOf(ScaledTrades(k, trades)) == ProfitFactorOf(trades)
  {
    TotalsScale(k, trades);
    if SumOf(Loss, trades) != 0.0 {
      CommonFactorCancels(k, SumOf(Gain, trades), SumOf(Loss, trades));
    } else {
      ProductSign(k, 0.0);
    }
  }

  lemma ResultScales(sqrt: real -> real, k: real, trades: seq<Trade>, runId: int)
    requires IsSquareRoot(sqrt) && k > 0.0
    ensures ScaledResult(k, ResultOf(sqrt, runId, trades), ResultOf(sqrt, runId, ScaledTrades(k, trades)))
  {
    TotalsScale(k, trades);
    CountsStay(k, trades);
    EquityScales(k, trades);
    ProfitFactorScales(k, trades);
    DrawdownScales(Equity(trades), Equity(ScaledTrades(k, trades)), k);
    SharpeIgnoresFactor(sqrt, Equity(trades), Equity(ScaledTrades(k, trades)), k);
  }

  lemma RewardFactorScales(cfg: Config, sqrt: real -> real, k: real, sorted: seq<Signal>, runId: int)
    requires IsSquareRoot(sqrt) && k > 0.0
    ensures ScaledResult(k, ResultOf(sqrt, runId, TradesOf(cfg, sorted)),
                         ResultOf(sqrt, runId, TradesOf(cfg.(defaultRR := Times(k, cfg.defaultRR)), sorted)))
  {
    TradesScale(cfg, k, sorted);
    ResultScales(sqrt, k, TradesOf(cfg, sorted), runId);
  }

  // ---- two notions of a win ----

  // A target hit pays a positive reward exactly when the stop lies below the entry: always for a
  // sensible BUY, never for a sensible SELL, whose reward is divided by a negative distance.
  lemma TargetHitPaysExactlyWhen(cfg: Config, sig: Signal)
    requires cfg.defaultRR > 0.0 && Divisible(cfg, sig)
    ensures TradeOf(cfg, sig).rr > 0.0 <==> TargetAhead(cfg, sig) && sig.stopLoss < AdjustedEntry(cfg, sig)
  {
    var e, u := AdjustedEntry(cfg, sig), UnitRR(cfg, sig);
    if TargetAhead(cfg, sig) { QuotientSign(Abs(sig.takeProfit[0] - e), e - sig.stopLoss); }
    ProductSign(cfg.defaultRR, u);
    assert u * cfg.defaultRR / 2.0 == Times(cfg.defaultRR, u) / 2.0;
  }

  predicate StopBelowOnHit(cfg: Config, sig: Signal) {
    TargetAhead(cfg, sig) ==> sig.stopLoss < AdjustedEntry(cfg, sig)
  }

  ghost predicate StopsBelowOnHits(cfg: Config, sorted: seq<Signal>) {
    forall i | 0 <= i < |sorted| :: StopBelowOnHit(cfg, sorted[i])
  }

  // metrics.go counts trades with a positive reward, Run counts TP_HIT outcomes: the former never
  // exceed the latter, and they agree exactly when every hit target had its stop below the entry.
  lemma {:induction false} WinCountsAgreeExactlyWhen(cfg: Config, sorted: seq<Signal>)
    requires cfg.defaultRR > 0.0 && AllDivisible(cfg, sorted)
    ensures var trades := TradesOf(cfg, sorted);
            && CountOf(IsWin, trades) <= CountOf(IsTpHit, trades)
            && (CountOf(IsWin, trades) == CountOf(IsTpHit, trades) <==> StopsBelowOnHits(cfg, sorted))
  {
    if sorted != [] {
      var init, last := sorted[..|sorted| - 1], sorted[|sorted| - 1];
      assert sorted == init + [last];
      WinCountsAgreeExactlyWhen(cfg, init);
      OneMoreTrade(cfg, sorted, |init|);
      assert sorted[..|init| + 1] == sorted;
      TargetHitPaysExactlyWhen(cfg, last);
      CountConcat(IsWin, TradesOf(cfg, init), [TradeOf(cfg, last)]);
      CountConcat(IsTpHit, TradesOf(cfg, init), [TradeOf(cfg, last)]);
      OneElement(RR, IsWin, TradeOf(cfg, last));
      OneElement(RR, IsTpHit, TradeOf(cfg, last));
      assert StopsBelowOnHits(cfg, sorted) <==> StopsBelowOnHits(cfg, init) && StopBelowOnHit(cfg, last);
    }
  }

  // A sound SELL that reaches its target: a hit with a negative reward, counted by one and not by the other.
  lemma SellTargetIsBookedAsLoss() returns (cfg: Config, sig: Signal)
    ensures sig.action == "SELL" && sig.takeProfit != [] && sig.takeProfit[0] < AdjustedEntry(cfg, sig) < sig.stopLoss
    ensures TradeOf(cfg, sig).outcome == TpHit && TradeOf(cfg, sig).rr == -1.0
    ensures CountOf(IsTpHit, TradesOf(cfg, [sig])) == 1 && CountOf(IsWin, TradesOf(cfg, [sig])) == 0
  {
    cfg, sig := Config(2.0, 0.0), Signal(1, "EURUSD", "SELL", 10.0, 11.0, [9.0], 0.0);
    assert TradesOf(cfg, [sig]) == [TradeOf(cfg, sig)];
    OneElement(RR, IsTpHit, TradeOf(cfg, sig));
    OneElement(RR, IsWin, TradeOf(cfg, sig));
  }
}
