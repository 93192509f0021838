/**
  The backtest simulator (simulator.go) over exact reals: what one signal turns into, what a run
  reports, and theorems relating whole runs.
*/
module Backtester {
  import opened Arithmetic
  import opened Drawdown
  import opened Metrics
  import opened Options
  import opened Sequences
  import opened Sharpe

  datatype Config = Config(defaultRR: real, spreadPips: real)

  datatype Signal = Signal(
    id: int, symbol: string, action: string, entryPrice: real, stopLoss: real, takeProfit: seq<real>, timestamp: real)

  // ---- what one signal means ----

  function AdjustedEntry(cfg: Config, sig: Signal): real {
    if sig.action == "BUY" then sig.entryPrice + cfg.spreadPips / 10000.0
    else sig.entryPrice - cfg.spreadPips / 10000.0
  }

  // The first target lies beyond the entry, on the side the action bets on.
  predicate TargetAhead(cfg: Config, sig: Signal) {
    sig.takeProfit != [] &&
    if sig.action == "BUY" then sig.takeProfit[0] > AdjustedEntry(cfg, sig)
    else sig.takeProfit[0] < AdjustedEntry(cfg, sig)
  }

  predicate StopBehind(cfg: Config, sig: Signal) {
    if sig.action == "BUY" then sig.stopLoss < AdjustedEntry(cfg, sig) else sig.stopLoss > AdjustedEntry(cfg, sig)
  }

  // The reward is divided by entry - stop; the code has no guard against a zero there.
  predicate Divisible(cfg: Config, sig: Signal) {
    TargetAhead(cfg, sig) ==> sig.stopLoss != AdjustedEntry(cfg, sig)
  }

  predicate AllDivisible(cfg: Config, signals: seq<Signal>) {
    forall i | 0 <= i < |signals| :: Divisible(cfg, signals[i])
  }

  function OutcomeOf(cfg: Config, sig: Signal): Outcome {
    if TargetAhead(cfg, sig) then TpHit else if StopBehind(cfg, sig) then SlHit else Open
  }

  // Distance to the target over (entry - stop): its sign is the sign of entry - stop, for either action.
  function RewardRatio(cfg: Config, sig: Signal): real {
    var e := AdjustedEntry(cfg, sig);
    if sig.takeProfit != [] && e != sig.stopLoss then Abs(sig.takeProfit[0] - e) / (e - sig.stopLoss) else 0.0
  }

  function UnitRR(cfg: Config, sig: Signal): real {
    match OutcomeOf(cfg, sig)
    case TpHit => RewardRatio(cfg, sig)
    case SlHit => -1.0
    case Open => 0.0
  }

  // The trade of a signal that does not divide by zero.  For one that does, the reward given here has
  // no counterpart, and no report is built on it.
  function TradeOf(cfg: Config, sig: Signal): Trade {
    var e, o := AdjustedEntry(cfg, sig), OutcomeOf(cfg, sig);
    var exit := match o case TpHit => sig.takeProfit[0] case SlHit => sig.stopLoss case Open => e;
    Trade(sig.id, sig.symbol, sig.action, e, exit, UnitRR(cfg, sig) * cfg.defaultRR / 2.0, o)
  }

  // ---- what a run reports ----

  datatype SimulationResult = SimulationResult(
    runId: int, totalSignals: nat, winCount: nat, lossCount: nat, winRate: Option<real>, totalRR: real,
    profitFactor: Ratio, maxDrawdown: real, sharpeRatio: real, equityCurve: seq<real>, trades: seq<Trade>)

  // A percentage; of no trades it is 0/0, not a number.
  function WinRateOf(wins: nat, n: nat): Option<real> {
    if n == 0 then None else Some(wins as real / n as real * 100.0)
  }

  function ResultOf(sqrt: real -> real, runId: int, trades: seq<Trade>): SimulationResult {
    var wins, equity := CountOf(IsTpHit, trades), Equity(trades);
    SimulationResult(runId, |trades|, wins, CountOf(IsSlHit, trades), WinRateOf(wins, |trades|), SumOf(RR, trades),
                     ProfitFactorOf(trades), MaxDrawdownOf(equity), SharpeOf(sqrt, equity), equity, trades)
  }

  function Trader(cfg: Config): Signal -> Trade { sig => TradeOf(cfg, sig) }

  function TradesOf(cfg: Config, sorted: seq<Signal>): seq<Trade> { Map(Trader(cfg), sorted) }

  function ByTime(sig: Signal): real { sig.timestamp }

  // ---- the code ----

  lemma OppositeQuotient(d: real)
    requires d != 0.0
    ensures -d / d == -1.0 && d / d == 1.0
  {
  }

  // The reward of a target, in numbers: what it multiplies the distance to the stop with is the
  // distance to the target, times half the factor.
  lemma RewardInNumbers(distance: real, risk: real, factor: real)
    requires risk != 0.0
    ensures 2.0 * (distance / risk * factor / 2.0) * risk == distance * factor
  {
    var q := distance / risk;
    assert q * risk == distance;
    assert q * factor * risk == q * risk * factor;
  }

  // A BUY enters above its signal and any other action below it, by the spread.
  ghost predicate Opens(cfg: Config, sig: Signal, t: Trade) {
    && t.signalId == sig.id && t.symbol == sig.symbol && t.action == sig.action
    && (sig.action == "BUY" ==> 10000.0 * (t.entryPrice - sig.entryPrice) == cfg.spreadPips)
    && (sig.action != "BUY" ==> 10000.0 * (sig.entryPrice - t.entryPrice) == cfg.spreadPips)
  }

  // It ends at the target ahead, else at the stop behind, else where it started, with the reward
  // that this is worth in units of half the factor.
  ghost predicate Closes(cfg: Config, sig: Signal, t: Trade) {
    var hit := sig.takeProfit != []
      && if t.action == "BUY" then sig.takeProfit[0] > t.entryPrice else sig.takeProfit[0] < t.entryPrice;
    var stopped := if t.action == "BUY" then sig.stopLoss < t.entryPrice else sig.stopLoss > t.entryPrice;
    if hit then
      && t.outcome == TpHit && t.exitPrice == sig.takeProfit[0]
      && 2.0 * t.rr * (t.entryPrice - sig.stopLoss) == Abs(t.exitPrice - t.entryPrice) * cfg.defaultRR
    else if stopped then
      t.outcome == SlHit && t.exitPrice == sig.stopLoss && 2.0 * t.rr == -cfg.defaultRR
    else
      t.outcome == Open && t.exitPrice == t.entryPrice && t.rr == 0.0
  }

  // t is the trade of a signal.
  ghost predicate Books(cfg: Config, sig: Signal, t: Trade) { Opens(cfg, sig, t) && Closes(cfg, sig, t) }

  lemma TradeOpens(cfg: Config, sig: Signal)
    ensures Opens(cfg, sig, TradeOf(cfg, sig))
  {
    assert 10000.0 * (cfg.spreadPips / 10000.0) == cfg.spreadPips;
  }

  lemma TradeCloses(cfg: Config, sig: Signal)
    requires Divisible(cfg, sig)
    ensures Closes(cfg, sig, TradeOf(cfg, sig))
  {
    var e := AdjustedEntry(cfg, sig);
    if TargetAhead(cfg, sig) { RewardInNumbers(Abs(sig.takeProfit[0] - e), e - sig.stopLoss, cfg.defaultRR); }
  }

  lemma TradeBooks(cfg: Config, sig: Signal)
    requires Divisible(cfg, sig)
    ensures Books(cfg, sig, TradeOf(cfg, sig))
  {
    TradeOpens(cfg, sig);
    TradeCloses(cfg, sig);
  }

  // None is the division by zero, whose float result is no number a report could be read from.
  method SimulateTrade(cfg: Config, sig: Signal) returns (t: Option<Trade>)
    ensures t.None? <==> !Divisible(cfg, sig)
    ensures t.Some? ==> t.value == TradeOf(cfg, sig) && Books(cfg, sig, t.value)
    ensures t.Some? && t.value.outcome == Open ==> t.value.rr == 0.0
  {
    var entry := sig.entryPrice;
    var spreadAdj := cfg.spreadPips / 10000.0;
    if sig.action == "BUY" { entry := entry + spreadAdj; } else { entry := entry - spreadAdj; }
    var exitPrice, outcome, rr := entry, Open, 0.0;
    if sig.action == "BUY" {
      if |sig.takeProfit| > 0 && sig.takeProfit[0] > entry {
        exitPrice, outcome := sig.takeProfit[0], TpHit;
        if entry == sig.stopLoss { return None; }
        rr := (sig.takeProfit[0] - entry) / (entry - sig.stopLoss);
      } else if sig.stopLoss < entry {
        exitPrice, outcome := sig.stopLoss, SlHit;
        rr := (sig.stopLoss - entry) / (entry - sig.stopLoss);
        OppositeQuotient(entry - sig.stopLoss);
        if rr > 0.0 { rr := -rr; }
      }
    } else {
      if |sig.takeProfit| > 0 && sig.takeProfit[0] < entry {
        exitPrice, outcome := sig.takeProfit[0], TpHit;
        if entry == sig.stopLoss { return None; }
        rr := (entry - sig.takeProfit[0]) / (entry - sig.stopLoss);
      } else if sig.stopLoss > entry {
        exitPrice, outcome := sig.stopLoss, SlHit;
        rr := (entry - sig.stopLoss) / (entry - sig.stopLoss);
        OppositeQuotient(entry - sig.stopLoss);
        if rr > 0.0 { rr := -rr; }
      }
    }
    rr := rr * cfg.defaultRR / 2.0;
    t := Some(Trade(sig.id, sig.symbol, sig.action, entry, exitPrice, rr, outcome));
    assert t.value == TradeOf(cfg, sig);
    TradeBooks(cfg, sig);
  }

  // sort.Slice promises a sorted permutation and nothing about ties.
  method SortByTimestamp(signals: seq<Signal>) returns (sorted: seq<Signal>)
    ensures SortedPermutation(ByTime, sorted, signals)
    ensures multiset(sorted) == multiset(signals)
    ensures forall i, j | 0 <= i < j < |sorted| :: sorted[i].timestamp <= sorted[j].timestamp
  {
    sorted := Sorted(ByTime, signals);
    SortedOk(ByTime, signals);
    forall i, j | 0 <= i < j < |sorted| ensures sorted[i].timestamp <= sorted[j].timestamp {
      assert ByTime(sorted[i]) <= ByTime(sorted[j]);
    }
  }

  lemma PermutationKeepsDivisible(cfg: Config, signals: seq<Signal>, sorted: seq<Signal>)
    requires Permutation(signals, sorted)
    ensures AllDivisible(cfg, signals) <==> AllDivisible(cfg, sorted)
  {
    if AllDivisible(cfg, signals) {
      forall i | 0 <= i < |sorted| ensures Divisible(cfg, sorted[i]) { assert sorted[i] in multiset(signals); }
    }
    if AllDivisible(cfg, sorted) {
      forall i | 0 <= i < |signals| ensures Divisible(cfg, signals[i]) { assert signals[i] in multiset(sorted); }
    }
  }

  lemma OneMoreTrade(cfg: Config, sorted: seq<Signal>, i: nat)
    requires i < |sorted|
    ensures TradesOf(cfg, sorted[..i + 1]) == TradesOf(cfg, sorted[..i]) + [TradeOf(cfg, sorted[i])]
  {
    assert sorted[..i + 1][..i] == sorted[..i];
  }

  // What the accumulators of the loop hold after some trades.
  ghost predicate Tally(trades: seq<Trade>, equity: seq<real>, cumRR: real, wins: int, losses: int) {
    && equity == Equity(trades) && cumRR == SumOf(RR, trades)
    && wins == CountOf(IsTpHit, trades) && losses == CountOf(IsSlHit, trades)
  }

  lemma TallyOneMore(trades: seq<Trade>, equity: seq<real>, cumRR: real, wins: int, losses: int, t: Trade)
    requires Tally(trades, equity, cumRR, wins, losses) && (t.outcome == Open ==> t.rr == 0.0)
    ensures Tally(trades + [t], equity + [cumRR + t.rr], cumRR + t.rr,
                  wins + if t.outcome == TpHit then 1 else 0, losses + if t.outcome == SlHit then 1 else 0)
  {
    var more := trades + [t];
    assert more[..|more| - 1] == trades;
  }

  lemma DivisibleSoFar(cfg: Config, order: seq<Signal>, i: nat)
    requires i < |order| && AllDivisible(cfg, order[..i])
    ensures AllDivisible(cfg, order[..i + 1]) <==> Divisible(cfg, order[i])
  {
    assert order[..i + 1] == order[..i] + [order[i]];
    assert Divisible(cfg, order[..i + 1][i]) <==> Divisible(cfg, order[i]);
  }

  // The loop of Run: one trade, one equity point and at most one counter per signal.  A division by
  // zero makes every sum from there on no number; `finite` says that none occurred.
  method SimulateAll(cfg: Config, order: seq<Signal>)
    returns (finite: bool, trades: seq<Trade>, equityPoints: seq<real>, cumRR: real, wins: nat, losses: nat)
    ensures finite <==> AllDivisible(cfg, order)
    ensures finite ==> trades == TradesOf(cfg, order) && Tally(trades, equityPoints, cumRR, wins, losses)
  {
    finite, trades, equityPoints, cumRR, wins, losses := true, [], [], 0.0, 0, 0;
    for i := 0 to |order|
      invariant finite && AllDivisible(cfg, order[..i])
      invariant trades == TradesOf(cfg, order[..i])
      invariant Tally(trades, equityPoints, cumRR, wins, losses)
    {
      OneMoreTrade(cfg, order, i);
      DivisibleSoFar(cfg, order, i);
      var simulated := SimulateTrade(cfg, order[i]);
      if simulated.None? {
        finite := false;
        return;
      }
      var trade := simulated.value;
      TallyOneMore(trades, equityPoints, cumRR, wins, losses, trade);
      trades := trades + [trade];
      if trade.outcome == TpHit {
        wins := wins + 1;
        cumRR := cumRR + trade.rr;
      } else if trade.outcome == SlHit {
        losses := losses + 1;
        cumRR := cumRR + trade.rr;
      }
      equityPoints := equityPoints + [cumRR];
    }
    assert order[..|order|] == order;
  }

  // What a run leaves in the cache: a report, or one whose sums are no numbers.
  datatype RunReport = Complete(result: SimulationResult) | NotFinite(runId: int)

  function IdOf(r: RunReport): int { if r.Complete? then r.result.runId else r.runId }

  // r is a report on the signals in some order their timestamps allow.
  ghost predicate ReportsOn(cfg: Config, sqrt: real -> real, signals: seq<Signal>, r: SimulationResult) {
    exists sorted: seq<Signal> ::
      && multiset(sorted) == multiset(signals)
      && (forall i, j | 0 <= i < j < |sorted| :: sorted[i].timestamp <= sorted[j].timestamp)
      && |r.trades| == |sorted| && (forall i | 0 <= i < |sorted| :: Books(cfg, sorted[i], r.trades[i]))
      && r == ResultOf(sqrt, r.runId, TradesOf(cfg, sorted))
  }

  // ---- what a report says, in numbers ----

  // The counts are those of the trades.
  ghost predicate TellsCounts(trades: seq<Trade>, wins: int, losses: int) {
    && wins == |set i | 0 <= i < |trades| && trades[i].outcome == TpHit|
    && losses == |set i | 0 <= i < |trades| && trades[i].outcome == SlHit|
  }

  // The win rate is the share of the wins in percent, and no number without trades.
  ghost predicate TellsRate(n: nat, wins: nat, rate: Option<real>) {
    if n == 0 then rate.None? else rate.Some? && rate.value * n as real == 100.0 * wins as real
  }

  // A point of the curve is the one before it plus the reward of its trade.
  ghost predicate Accumulates(trades: seq<Trade>, curve: seq<real>, i: int)
    requires 0 <= i < |trades| == |curve|
  {
    curve[i] == (if i == 0 then 0.0 else curve[i - 1]) + trades[i].rr
  }

  // The curve accumulates the rewards, and the total is its last point.
  ghost predicate TellsCurve(trades: seq<Trade>, curve: seq<real>, total: real) {
    && |curve| == |trades|
    && (forall i | 0 <= i < |trades| :: Accumulates(trades, curve, i))
    && total == (if trades == [] then 0.0 else curve[|trades| - 1])
  }

  // The profit factor: times the losses it is the gains, and it is infinite without a loss.
  ghost predicate TellsFactor(trades: seq<Trade>, factor: Ratio) {
    && (factor.Infinite? <==> forall i | 0 <= i < |trades| :: trades[i].rr >= 0.0)
    && (factor.Finite? ==> factor.value * SumOf(Loss, trades) == SumOf(Gain, trades))
  }

  // What a report says is true of its trades.
  ghost predicate Tells(r: SimulationResult) {
    && r.totalSignals == |r.trades|
    && TellsCounts(r.trades, r.winCount, r.lossCount)
    && TellsRate(|r.trades|, r.winCount, r.winRate)
    && TellsCurve(r.trades, r.equityCurve, r.totalRR)
    && TellsFactor(r.trades, r.profitFactor)
    && LargestDrop(r.equityCurve, r.maxDrawdown)
  }

  lemma WinsAreCardinality(trades: seq<Trade>)
    ensures CountOf(IsTpHit, trades) == |set i | 0 <= i < |trades| && trades[i].outcome == TpHit|
  {
    CountIsCardinality(IsTpHit, trades, set i | 0 <= i < |trades| && trades[i].outcome == TpHit);
  }

  lemma LossesAreCardinality(trades: seq<Trade>)
    ensures CountOf(IsSlHit, trades) == |set i | 0 <= i < |trades| && trades[i].outcome == SlHit|
  {
    CountIsCardinality(IsSlHit, trades, set i | 0 <= i < |trades| && trades[i].outcome == SlHit);
  }

  lemma RateTold(wins: nat, n: nat)
    ensures TellsRate(n, wins, WinRateOf(wins, n))
  {
    if n > 0 { QuotientTimes(wins as real, n as real); }
  }

  lemma {:induction false} PointIsSum(trades: seq<Trade>, i: nat)
    requires i < |trades|
    ensures Equity(trades)[i] == SumOf(RR, trades[..i + 1])
  {
    var n := |trades| - 1;
    if i < n {
      PointIsSum(trades[..n], i);
      assert trades[..n][..i + 1] == trades[..i + 1];
    } else {
      assert trades[..i + 1] == trades;
    }
  }

  lemma PointAccumulates(trades: seq<Trade>, i: nat)
    requires i < |trades|
    ensures Accumulates(trades, Equity(trades), i)
  {
    PointIsSum(trades, i);
    assert trades[..i + 1][..i] == trades[..i];
    if i > 0 { PointIsSum(trades, i - 1); }
  }

  lemma TotalIsLastPoint(trades: seq<Trade>)
    requires trades != []
    ensures SumOf(RR, trades) == Equity(trades)[|trades| - 1]
  {
    PointIsSum(trades, |trades| - 1);
    assert trades[..|trades|] == trades;
  }

  lemma CurveTold(trades: seq<Trade>)
    ensures TellsCurve(trades, Equity(trades), SumOf(RR, trades))
  {
    if trades != [] { TotalIsLastPoint(trades); }
    forall i | 0 <= i < |trades| ensures Accumulates(trades, Equity(trades), i) { PointAccumulates(trades, i); }
  }

  lemma FactorTold(trades: seq<Trade>)
    ensures TellsFactor(trades, ProfitFactorOf(trades))
  {
    InfiniteExactlyWithoutLosses(trades);
    var profit, loss := SumOf(Gain, trades), SumOf(Loss, trades);
    if loss != 0.0 { QuotientTimes(profit, loss); }
  }

  // The end of Run: the metrics over the trades and the curve.
  method Summarize(sqrt: real -> real, runId: int, trades: seq<Trade>, equityPoints: seq<real>, cumRR: real,
                   wins: nat, losses: nat)
    returns (result: SimulationResult)
    requires Tally(trades, equityPoints, cumRR, wins, losses)
    ensures result == ResultOf(sqrt, runId, trades) && result.runId == runId
    ensures result.trades == trades && Tells(result)
  {
    WinsAreCardinality(trades);
    LossesAreCardinality(trades);
    RateTold(wins, |trades|);
    CurveTold(trades);
    FactorTold(trades);
    MaxDrawdownIsLargestDrop(equityPoints);
    var profitFactor := ProfitFactor(trades);
    var maxDrawdown := MaxDrawdown(equityPoints);
    var sharpeRatio := CalculateSharpeRatio(sqrt, equityPoints);
    result := SimulationResult(runId, |trades|, wins, losses, WinRateOf(wins, |trades|), cumRR,
                               profitFactor, maxDrawdown, sharpeRatio, equityPoints, trades);
  }

  lemma TradesBook(cfg: Config, order: seq<Signal>)
    requires AllDivisible(cfg, order)
    ensures forall i | 0 <= i < |order| :: Books(cfg, order[i], TradesOf(cfg, order)[i])
  {
    forall i | 0 <= i < |order| ensures Books(cfg, order[i], TradesOf(cfg, order)[i]) { TradeBooks(cfg, order[i]); }
  }

  // Run without its bookkeeping.
  method Report(cfg: Config, sqrt: real -> real, runId: int, signals: seq<Signal>) returns (report: RunReport)
    ensures IdOf(report) == runId
    ensures report.Complete? <==> AllDivisible(cfg, signals)
    ensures report.Complete? ==> ReportsOn(cfg, sqrt, signals, report.result)
    ensures report.Complete? ==> Tells(report.result) && report.result.totalSignals == |signals|
  {
    var order := SortByTimestamp(signals);
    assert |multiset(order)| == |order| && |multiset(signals)| == |signals|;
    PermutationKeepsDivisible(cfg, signals, order);
    var finite, trades, equityPoints, cumRR, wins, losses := SimulateAll(cfg, order);
    if !finite { return NotFinite(runId); }
    TradesBook(cfg, order);
    var result := Summarize(sqrt, runId, trades, equityPoints, cumRR, wins, losses);
    assert result == ResultOf(sqrt, result.runId, TradesOf(cfg, order));
    return Complete(result);
  }

  class Simulator {
    const cfg: Config
    const sqrt: real -> real
    var runCounter: int
    var cache: map<int, RunReport>
    ghost var reports: seq<RunReport> // what Run has returned, the first run first

    // The cache holds exactly the reports returned so far, each under its own id.
    ghost predicate CacheOk()
      reads this
    {
      && (forall id :: id in cache <==> 1 <= id <= |reports|)
      && (forall id | 1 <= id <= |reports| :: cache[id] == reports[id - 1] && IdOf(cache[id]) == id)
    }

    ghost predicate Valid()
      reads this
    {
      runCounter == |reports| && CacheOk()
    }

    constructor (cfg: Config, sqrt: real -> real)
      ensures Valid() && this.cfg == cfg && this.sqrt == sqrt && reports == []
    {
      this.cfg, this.sqrt := cfg, sqrt;
      runCounter, cache, reports := 0, map[], [];
    }

    method Store(report: RunReport)
      requires CacheOk() && IdOf(report) == |reports| + 1
      modifies this`cache, this`reports
      ensures CacheOk() && reports == old(reports) + [report]
    {
      cache := cache[IdOf(report) := report];
      reports := reports + [report];
    }

    // A run reports on its input under the next id and leaves every earlier report as it was.
    method Run(signals: seq<Signal>) returns (report: RunReport)
      requires Valid()
      modifies this
      ensures Valid() && reports == old(reports) + [report] && IdOf(report) == |reports|
      ensures report.Complete? <==> AllDivisible(cfg, signals)
      ensures report.Complete? ==> ReportsOn(cfg, sqrt, signals, report.result)
      ensures report.Complete? ==> Tells(report.result) && report.result.totalSignals == |signals|
    {
      runCounter := runCounter + 1;
      report := Report(cfg, sqrt, runCounter, signals);
      Store(report);
    }

    // The id of a run gives back what that run returned, however many runs came after it; no other
    // id gives anything.
    method GetCachedResult(runId: int) returns (report: Option<RunReport>)
      requires Valid()
      ensures report.Some? <==> 1 <= runId <= |reports|
      ensures report.Some? ==> report.value == reports[runId - 1] && IdOf(report.value) == runId
    {
      report := if runId in cache then Some(cache[runId]) else None;
    }
  }
}
