/**
  Trades, the equity curve and the profit factor (simulator.go and metrics.go).
*/
module Metrics {
  import opened Sequences

  datatype Outcome = TpHit | SlHit | Open

  datatype Trade = Trade(
    signalId: int, symbol: string, action: string, entryPrice: real, exitPrice: real, rr: real, outcome: Outcome)

  function RR(t: Trade): real { t.rr }
  predicate IsTpHit(t: Trade) { t.outcome == TpHit }
  predicate IsSlHit(t: Trade) { t.outcome == SlHit }
  predicate IsOpen(t: Trade) { t.outcome == Open }
  predicate IsWin(t: Trade) { t.rr > 0.0 }

  // Cumulative RR after each trade.
  function Equity(trades: seq<Trade>): (e: seq<real>)
    ensures |e| == |trades|
  {
    if trades == [] then [] else Equity(trades[..|trades| - 1]) + [SumOf(RR, trades)]
  }

  // ---- profit factor ----

  datatype Ratio = Finite(value: real) | Infinite

  function Gain(t: Trade): real { if t.rr > 0.0 then t.rr else 0.0 }
  function Loss(t: Trade): real { if t.rr > 0.0 then 0.0 else -t.rr }

  // What a trade gained and what it lost: its reward, split by sign.
  lemma GainAndLoss(t: Trade)
    ensures Gain(t) - Loss(t) == t.rr && Gain(t) >= 0.0 && Loss(t) >= 0.0 && (Gain(t) == 0.0 || Loss(t) == 0.0)
  {
  }

  function ProfitFactorOf(trades: seq<Trade>): Ratio {
    if SumOf(Loss, trades) == 0.0 then Infinite else Finite(SumOf(Gain, trades) / SumOf(Loss, trades))
  }

  method ProfitFactor(trades: seq<Trade>) returns (r: Ratio)
    ensures r == ProfitFactorOf(trades)
    ensures r.Finite? ==> r.value * SumOf(Loss, trades) == SumOf(Gain, trades)
  {
    var grossProfit, grossLoss := 0.0, 0.0;
    for i := 0 to |trades|
      invariant grossProfit == SumOf(Gain, trades[..i]) && grossLoss == SumOf(Loss, trades[..i])
    {
      var rr := trades[i].rr;
      if rr > 0.0 { grossProfit := grossProfit + rr; } else { grossLoss := grossLoss + (if rr < 0.0 then -rr else rr); }
      assert trades[..i + 1][..i] == trades[..i];
    }
    assert trades[..|trades|] == trades;
    if grossLoss == 0.0 { return Infinite; }
    assert grossProfit / grossLoss * grossLoss == grossProfit;
    return Finite(grossProfit / grossLoss);
  }

  lemma {:induction false} GrossSumsSplitTotal(trades: seq<Trade>)
    ensures SumOf(RR, trades) == SumOf(Gain, trades) - SumOf(Loss, trades)
    ensures SumOf(Gain, trades) >= 0.0 && SumOf(Loss, trades) >= 0.0
  {
    if trades != [] { GrossSumsSplitTotal(trades[..|trades| - 1]); }
  }

  // The profit factor is infinite exactly when no trade lost anything.
  lemma {:induction false} InfiniteExactlyWithoutLosses(trades: seq<Trade>)
    ensures ProfitFactorOf(trades).Infinite? <==> forall i | 0 <= i < |trades| :: trades[i].rr >= 0.0
  {
    if trades != [] {
      var init := trades[..|trades| - 1];
      InfiniteExactlyWithoutLosses(init);
      GrossSumsSplitTotal(init);
      assert forall i | 0 <= i < |init| :: init[i] == trades[i];
      assert trades == init + [trades[|trades| - 1]];
    }
  }
}
