/**
  The live worker's risk decision (risk_mgr.go).  `ValidateJob` and
  `CheckDailyDrawdown` keep the source's statement order; `Acceptable` says what
  they decide, and the lemmas are about that decision.
*/
module RiskManager {
  import opened Arithmetic
  import opened Options

  datatype Config = Config(minLot: real, maxLot: real, maxDailyDrawdown: real, minRR: real, maxPositions: int)

  // One decoded JSON value, as far as Go's type assertions can tell values apart.
  datatype Json = Number(n: real) | Text(s: string) | Other

  // The decoded payload column; an absent key is `Other`, a non-array take_profit is `None`.
  datatype Payload =
    | Malformed
    | Order(action: Json, entryPrice: Json, stopLoss: Json, takeProfit: Option<seq<Json>>, lotSize: Json)

  datatype RiskSetting = NoRow | Unreadable | Percent(p: real)

  // What the worker's four queries return while one job is being validated.
  datatype Snapshot = Snapshot(
    balance: Option<real>,
    riskSetting: RiskSetting,
    todayPL: Option<real>,
    openPositions: Option<nat>)

  datatype Reason =
    | BadPayload | LotBelowMinimum | LotAboveMaximum
    | BalanceUnavailable | NoBalance | SettingsUnavailable | NoAllowance | DailyLossExceeded
    | PositionsUnavailable | TooManyPositions | RewardTooSmall | MissingPrice | StopOnWrongSide

  datatype Verdict = Accepted | Rejected(reason: Reason)

  // ---- what the decision means ----

  // `v, _ := x.(float64)`: anything but a number reads as zero.
  function AsNumber(j: Json): real { if j.Number? then j.n else 0.0 }

  function Numbers(js: seq<Json>): seq<real> {
    if js == [] then []
    else Numbers(js[..|js| - 1]) + (if js[|js| - 1].Number? then [js[|js| - 1].n] else [])
  }

  function TakeProfits(p: Payload): seq<real>
    requires p.Order?
  {
    if p.takeProfit.Some? then Numbers(p.takeProfit.value) else []
  }

  function LossPercent(cfg: Config, setting: RiskSetting): real {
    if setting.Percent? && setting.p > 0.0 then setting.p else cfg.maxDailyDrawdown
  }

  function PercentOf(balance: real, percent: real): real { balance * (percent / 100.0) }

  // The most the account may lose today; None when a lookup fails or nothing may be lost.
  function Allowance(cfg: Config, balance: Option<real>, setting: RiskSetting): Option<real> {
    if balance.None? || balance.value <= 0.0 || setting.Unreadable? then None
    else
      var limit := PercentOf(balance.value, LossPercent(cfg, setting));
      if limit <= 0.0 then None else Some(limit)
  }

  function TodayPL(snap: Snapshot): real {
    if snap.todayPL.Some? then snap.todayPL.value else 0.0
  }

  function Exposure(lot: real, priceDiff: real): real { lot * 100000.0 * priceDiff }

  function PotentialLoss(lot: real, entry: real, stop: real): real {
    if lot > 0.0 && entry > 0.0 && stop > 0.0 then
      var loss := Exposure(lot, Abs(entry - stop));
      if 0.0 < loss < 0.01 then 0.01 else loss
    else lot * 10.0
  }

  predicate WithinDailyLoss(cfg: Config, snap: Snapshot, lot: real, entry: real, stop: real) {
    var a := Allowance(cfg, snap.balance, snap.riskSetting);
    a.Some? && PotentialLoss(lot, entry, stop) <= a.value + TodayPL(snap)
  }

  predicate MeetsMinRR(cfg: Config, entry: real, stop: real, tps: seq<real>) {
    entry == 0.0 || stop == 0.0 || tps == [] || entry == stop ||
    Abs(tps[0] - entry) / Abs(entry - stop) >= cfg.minRR
  }

  predicate StopOnRightSide(action: Json, entry: real, stop: real) {
    && (action == Text("BUY") ==> stop < entry)
    && (action == Text("SELL") ==> entry < stop)
  }

  // The conditions on the payload alone.
  predicate Sound(cfg: Config, p: Payload) {
    && p.Order?
    && var lot, entry, stop := AsNumber(p.lotSize), AsNumber(p.entryPrice), AsNumber(p.stopLoss);
    && cfg.minLot <= lot <= cfg.maxLot
    && MeetsMinRR(cfg, entry, stop, TakeProfits(p))
    && entry != 0.0 && stop != 0.0
    && StopOnRightSide(p.action, entry, stop)
  }

  predicate Acceptable(cfg: Config, p: Payload, snap: Snapshot) {
    && Sound(cfg, p)
    && WithinDailyLoss(cfg, snap, AsNumber(p.lotSize), AsNumber(p.entryPrice), AsNumber(p.stopLoss))
    && snap.openPositions.Some? && snap.openPositions.value < cfg.maxPositions
  }

  // ---- the same decision, in numbers ----

  // What the order may lose, less what the day has earned, is within the percentage of the balance:
  // the account's own percentage if it is positive, else the configured one.  A lot loses 100000 times
  // the distance to its stop, but at least a cent if anything, and 10 when a price is missing.
  ghost predicate FitsDailyLimit(cfg: Config, snap: Snapshot, lot: real, entry: real, stop: real) {
    && snap.balance.Some? && snap.balance.value > 0.0 && !snap.riskSetting.Unreadable?
    && var percent := if snap.riskSetting.Percent? && snap.riskSetting.p > 0.0 then snap.riskSetting.p
                      else cfg.maxDailyDrawdown;
    var pl := if snap.todayPL.Some? then snap.todayPL.value else 0.0;
    var units := lot * 100000.0 * (if entry < stop then stop - entry else entry - stop);
    var loss := if lot <= 0.0 || entry <= 0.0 || stop <= 0.0 then 10.0 * lot
                else if 0.0 < units < 0.01 then 0.01 else units;
    && percent > 0.0
    && 100.0 * (loss - pl) <= snap.balance.value * percent
  }

  // The first number of the take_profit array, at position i, is the target that counts.
  ghost predicate FirstTarget(p: Payload, i: int) {
    && p.Order? && p.takeProfit.Some? && 0 <= i < |p.takeProfit.value| && p.takeProfit.value[i].Number?
    && forall j | 0 <= j < i :: !p.takeProfit.value[j].Number?
  }

  ghost predicate RewardSuffices(cfg: Config, entry: real, stop: real, target: real) {
    var reward := if target < entry then entry - target else target - entry;
    var risk := if entry < stop then stop - entry else entry - stop;
    reward >= cfg.minRR * risk
  }

  // Everything the live worker asks of a job.
  ghost predicate PassesEveryCheck(cfg: Config, p: Payload, snap: Snapshot) {
    && p.Order? && p.entryPrice.Number? && p.stopLoss.Number?
    && var entry, stop := p.entryPrice.n, p.stopLoss.n;
    var lot := if p.lotSize.Number? then p.lotSize.n else 0.0;
    && cfg.minLot <= lot <= cfg.maxLot
    && entry != 0.0 && stop != 0.0
    && (p.action == Text("BUY") ==> stop < entry)
    && (p.action == Text("SELL") ==> stop > entry)
    && (entry != stop ==> forall i | FirstTarget(p, i) :: RewardSuffices(cfg, entry, stop, p.takeProfit.value[i].n))
    && snap.openPositions.Some? && snap.openPositions.value < cfg.maxPositions
    && FitsDailyLimit(cfg, snap, lot, entry, stop)
  }

  // A reported reason of the daily check is true of the account.
  ghost predicate DailyReasonHolds(
    cfg: Config, snap: Snapshot, lot: real, entry: real, stop: real, reason: Reason)
  {
    var readable := snap.balance.Some? && snap.balance.value > 0.0 && !snap.riskSetting.Unreadable?;
    var nothingAllowed := cfg.maxDailyDrawdown <= 0.0 && (snap.riskSetting.Percent? ==> snap.riskSetting.p <= 0.0);
    match reason
    case BalanceUnavailable => snap.balance.None?
    case NoBalance => snap.balance.Some? && snap.balance.value <= 0.0
    case SettingsUnavailable => snap.riskSetting.Unreadable?
    case NoAllowance => readable && nothingAllowed
    case DailyLossExceeded => readable && !nothingAllowed && !FitsDailyLimit(cfg, snap, lot, entry, stop)
    case _ => false
  }

  // And so is every reason ValidateJob reports.
  ghost predicate ReasonHolds(cfg: Config, p: Payload, snap: Snapshot, reason: Reason) {
    if p.Malformed? then reason == BadPayload
    else
      var lot, entry, stop := AsNumber(p.lotSize), AsNumber(p.entryPrice), AsNumber(p.stopLoss);
      match reason
      case BadPayload => false
      case LotBelowMinimum => lot < cfg.minLot
      case LotAboveMaximum => lot > cfg.maxLot
      case PositionsUnavailable => snap.openPositions.None?
      case TooManyPositions => snap.openPositions.Some? && snap.openPositions.value >= cfg.maxPositions
      case RewardTooSmall =>
        && entry != 0.0 && stop != 0.0 && entry != stop
        && !forall i | FirstTarget(p, i) :: RewardSuffices(cfg, entry, stop, p.takeProfit.value[i].n)
      case MissingPrice => entry == 0.0 || stop == 0.0
      case StopOnWrongSide => (p.action == Text("BUY") && stop >= entry) || (p.action == Text("SELL") && stop <= entry)
      case _ => DailyReasonHolds(cfg, snap, lot, entry, stop, reason)
  }

  // The order of the checks.
  function Rank(reason: Reason): nat {
    match reason
    case BadPayload => 0
    case LotBelowMinimum => 1
    case LotAboveMaximum => 2
    case BalanceUnavailable => 3
    case NoBalance => 4
    case SettingsUnavailable => 5
    case NoAllowance => 6
    case DailyLossExceeded => 7
    case PositionsUnavailable => 8
    case TooManyPositions => 9
    case RewardTooSmall => 10
    case MissingPrice => 11
    case StopOnWrongSide => 12
  }

  lemma ShareOfBalance(balance: real, percent: real)
    ensures 100.0 * PercentOf(balance, percent) == balance * percent
    ensures balance > 0.0 ==> (PercentOf(balance, percent) > 0.0 <==> percent > 0.0)
  {
    assert balance > 0.0 && percent > 0.0 ==> balance * percent > 0.0;
    assert balance > 0.0 && percent <= 0.0 ==> balance * percent <= 0.0;
  }

  lemma DailyLimitInNumbers(cfg: Config, snap: Snapshot, lot: real, entry: real, stop: real)
    ensures WithinDailyLoss(cfg, snap, lot, entry, stop) <==> FitsDailyLimit(cfg, snap, lot, entry, stop)
  {
    if snap.balance.Some? && snap.balance.value > 0.0 && !snap.riskSetting.Unreadable? {
      ShareOfBalance(snap.balance.value, LossPercent(cfg, snap.riskSetting));
    }
  }

  lemma QuotientAtLeast(x: real, d: real, m: real)
    requires d > 0.0
    ensures x / d >= m <==> x >= m * d
  {
    assert x / d * d == x;
    if x / d >= m { assert (x / d - m) * d >= 0.0; } else { assert (m - x / d) * d > 0.0; }
  }

  lemma MinRRInNumbers(cfg: Config, entry: real, stop: real, tps: seq<real>)
    requires entry != 0.0 && stop != 0.0 && entry != stop && tps != []
    ensures MeetsMinRR(cfg, entry, stop, tps) <==> RewardSuffices(cfg, entry, stop, tps[0])
  {
    QuotientAtLeast(Abs(tps[0] - entry), Abs(entry - stop), cfg.minRR);
  }

  lemma {:induction false} NoNumbers(js: seq<Json>)
    requires forall j | 0 <= j < |js| :: !js[j].Number?
    ensures Numbers(js) == []
  {
    if js != [] { NoNumbers(js[..|js| - 1]); }
  }

  // The first of the numbers is the first number.
  lemma {:induction false} FirstNumber(js: seq<Json>, i: int)
    requires 0 <= i < |js| && js[i].Number? && forall j | 0 <= j < i :: !js[j].Number?
    ensures Numbers(js) != [] && Numbers(js)[0] == js[i].n
  {
    var n := |js| - 1;
    if i < n { FirstNumber(js[..n], i); } else { NoNumbers(js[..n]); }
  }

  lemma {:induction false} NumberIsRead(js: seq<Json>, i: int)
    requires 0 <= i < |js| && js[i].Number?
    ensures Numbers(js) != []
  {
    var n := |js| - 1;
    if i < n { NumberIsRead(js[..n], i); }
  }

  lemma {:induction false} SomeNumberIsFirst(js: seq<Json>) returns (i: int)
    requires Numbers(js) != []
    ensures 0 <= i < |js| && js[i].Number? && forall j | 0 <= j < i :: !js[j].Number?
  {
    var n := |js| - 1;
    if Numbers(js[..n]) != [] { i := SomeNumberIsFirst(js[..n]); } else {
      i := n;
      forall j | 0 <= j < n ensures !js[j].Number? {
        if js[j].Number? { NumberIsRead(js[..n], j); }
      }
    }
  }

  lemma TargetInNumbers(cfg: Config, p: Payload, entry: real, stop: real)
    requires p.Order? && entry != 0.0 && stop != 0.0
    ensures MeetsMinRR(cfg, entry, stop, TakeProfits(p))
            <==> (entry != stop ==>
                    forall i | FirstTarget(p, i) :: RewardSuffices(cfg, entry, stop, p.takeProfit.value[i].n))
  {
    var tps := TakeProfits(p);
    forall i | FirstTarget(p, i) ensures tps != [] && tps[0] == p.takeProfit.value[i].n {
      FirstNumber(p.takeProfit.value, i);
    }
    if tps != [] && entry != stop {
      MinRRInNumbers(cfg, entry, stop, tps);
      var i := SomeNumberIsFirst(p.takeProfit.value);
      assert FirstTarget(p, i);
    }
  }

  lemma AcceptableInNumbers(cfg: Config, p: Payload, snap: Snapshot)
    ensures Acceptable(cfg, p, snap) <==> PassesEveryCheck(cfg, p, snap)
  {
    if p.Order? {
      var lot, entry, stop := AsNumber(p.lotSize), AsNumber(p.entryPrice), AsNumber(p.stopLoss);
      if entry != 0.0 && stop != 0.0 { TargetInNumbers(cfg, p, entry, stop); }
      DailyLimitInNumbers(cfg, snap, lot, entry, stop);
    }
  }

  // ---- the code ----

  method CheckDailyDrawdown(cfg: Config, snap: Snapshot, lot: real, entry: real, stop: real) returns (v: Verdict)
    ensures v.Accepted? <==> FitsDailyLimit(cfg, snap, lot, entry, stop)
    ensures v.Accepted? <==> WithinDailyLoss(cfg, snap, lot, entry, stop)
    ensures v.Rejected? ==> DailyReasonHolds(cfg, snap, lot, entry, stop, v.reason)
    ensures v.Rejected? ==> forall r | DailyReasonHolds(cfg, snap, lot, entry, stop, r) :: Rank(v.reason) <= Rank(r)
    ensures v.Accepted? ==> forall r :: !DailyReasonHolds(cfg, snap, lot, entry, stop, r)
  {
    DailyLimitInNumbers(cfg, snap, lot, entry, stop);
    if snap.balance.None? { return Rejected(BalanceUnavailable); }
    var balance := snap.balance.value;
    if balance <= 0.0 { return Rejected(NoBalance); }

    var percent := 0.0;
    match snap.riskSetting {
      case NoRow => percent := cfg.maxDailyDrawdown;
      case Unreadable => return Rejected(SettingsUnavailable);
      case Percent(p) => percent := p;
    }
    if percent <= 0.0 { percent := cfg.maxDailyDrawdown; }
    var maxAllowedLoss := PercentOf(balance, percent);
    ShareOfBalance(balance, percent);
    if maxAllowedLoss <= 0.0 { return Rejected(NoAllowance); }
    assert Allowance(cfg, snap.balance, snap.riskSetting) == Some(maxAllowedLoss);

    var todayPL := 0.0; // an unreadable P&L is only logged
    if snap.todayPL.Some? { todayPL := snap.todayPL.value; }

    var potentialLoss := 0.0;
    if lot > 0.0 && entry > 0.0 && stop > 0.0 {
      var priceDiff := Abs(entry - stop);
      potentialLoss := Exposure(lot, priceDiff);
      if potentialLoss > 0.0 && potentialLoss < 0.01 { potentialLoss := 0.01; }
    } else {
      potentialLoss := lot * 10.0;
    }
    assert potentialLoss == PotentialLoss(lot, entry, stop);

    var projectedLoss := todayPL - potentialLoss;
    if projectedLoss < -maxAllowedLoss { return Rejected(DailyLossExceeded); }
    return Accepted;
  }

  method CheckMinRR(cfg: Config, entry: real, stop: real, takeProfit: seq<real>) returns (v: Verdict)
    ensures v == if MeetsMinRR(cfg, entry, stop, takeProfit) then Accepted else Rejected(RewardTooSmall)
    ensures entry == 0.0 || stop == 0.0 || entry == stop || takeProfit == [] ==> v.Accepted?
    ensures entry != 0.0 && stop != 0.0 && entry != stop && takeProfit != [] ==>
              (v.Accepted? <==> RewardSuffices(cfg, entry, stop, takeProfit[0]))
  {
    if entry != 0.0 && stop != 0.0 && entry != stop && takeProfit != [] {
      MinRRInNumbers(cfg, entry, stop, takeProfit);
    }
    if entry == 0.0 || stop == 0.0 { return Accepted; }
    if |takeProfit| == 0 { return Accepted; }
    var risk := Abs(entry - stop);
    if risk == 0.0 { return Accepted; }
    var rr := Abs(takeProfit[0] - entry) / risk;
    if rr < cfg.minRR { return Rejected(RewardTooSmall); }
    return Accepted;
  }

  method ReadNumbers(raw: seq<Json>) returns (numbers: seq<real>)
    ensures numbers == Numbers(raw)
  {
    numbers := [];
    for i := 0 to |raw|
      invariant numbers == Numbers(raw[..i])
    {
      if raw[i].Number? { numbers := numbers + [raw[i].n]; }
      assert raw[..i + 1][..i] == raw[..i];
    }
    assert raw[..|raw|] == raw;
  }

  method ValidateJob(cfg: Config, payload: Payload, snap: Snapshot) returns (v: Verdict)
    ensures v.Accepted? <==> Acceptable(cfg, payload, snap)
    ensures v.Accepted? <==> PassesEveryCheck(cfg, payload, snap)
    ensures v.Rejected? ==> ReasonHolds(cfg, payload, snap, v.reason)
    ensures v.Rejected? ==> forall r | ReasonHolds(cfg, payload, snap, r) :: Rank(v.reason) <= Rank(r)
  {
    AcceptableInNumbers(cfg, payload, snap);
    if payload.Malformed? { return Rejected(BadPayload); }
    var entry, stop := AsNumber(payload.entryPrice), AsNumber(payload.stopLoss);
    if entry != 0.0 && stop != 0.0 { TargetInNumbers(cfg, payload, entry, stop); }
    var takeProfit := ReadNumbers(if payload.takeProfit.Some? then payload.takeProfit.value else []);
    var lot := AsNumber(payload.lotSize);

    if lot < cfg.minLot { return Rejected(LotBelowMinimum); }
    if lot > cfg.maxLot { return Rejected(LotAboveMaximum); }
    var daily := CheckDailyDrawdown(cfg, snap, lot, entry, stop);
    if daily.Rejected? { return daily; }
    if snap.openPositions.None? { return Rejected(PositionsUnavailable); }
    if snap.openPositions.value >= cfg.maxPositions { return Rejected(TooManyPositions); }
    var reward := CheckMinRR(cfg, entry, stop, takeProfit);
    if reward.Rejected? { return reward; }
    if entry == 0.0 || stop == 0.0 { return Rejected(MissingPrice); }
    if payload.action == Text("BUY") && stop >= entry { return Rejected(StopOnWrongSide); }
    if payload.action == Text("SELL") && stop <= entry { return Rejected(StopOnWrongSide); }
    return Accepted;
  }

  // ---- what the decision guarantees ----

  lemma ExposureMonotone(small: real, large: real, d: real)
    requires small <= large && d >= 0.0
    ensures Exposure(small, d) <= Exposure(large, d)
  {
    assert small * d <= large * d;
  }

  lemma PotentialLossMonotone(small: real, large: real, entry: real, stop: real)
    requires small <= large
    ensures PotentialLoss(small, entry, stop) <= PotentialLoss(large, entry, stop)
  {
    var d := Abs(entry - stop);
    ExposureMonotone(small, large, d);
    if large > 0.0 { ExposureMonotone(0.0, large, d); }
  }

  // Despite the 0.01 floor and the alternative estimate, shrinking an accepted lot never loses acceptance.
  lemma SmallerLotStillAccepted(cfg: Config, p: Payload, snap: Snapshot, lot: real)
    requires Acceptable(cfg, p, snap)
    requires cfg.minLot <= lot <= AsNumber(p.lotSize)
    ensures Acceptable(cfg, p.(lotSize := Number(lot)), snap)
  {
    PotentialLossMonotone(lot, AsNumber(p.lotSize), AsNumber(p.entryPrice), AsNumber(p.stopLoss));
  }

  lemma AllowanceGrowsWithBalance(cfg: Config, balance: real, richer: real, setting: RiskSetting)
    requires Allowance(cfg, Some(balance), setting).Some? && balance <= richer
    ensures Allowance(cfg, Some(richer), setting).Some?
    ensures Allowance(cfg, Some(balance), setting).value <= Allowance(cfg, Some(richer), setting).value
  {
    var f := LossPercent(cfg, setting) / 100.0;
    assert balance * f <= richer * f by { assert f <= 0.0 ==> balance * f <= 0.0; }
  }

  // More balance, a better day or fewer open positions never turn an acceptance into a rejection.
  lemma BetterAccountStillAccepted(cfg: Config, p: Payload, snap: Snapshot, balance: real, todayPL: real, open: nat)
    requires Acceptable(cfg, p, snap)
    requires snap.balance.value <= balance && TodayPL(snap) <= todayPL && open <= snap.openPositions.value
    ensures Acceptable(cfg, p, snap.(balance := Some(balance), todayPL := Some(todayPL), openPositions := Some(open)))
  {
    AllowanceGrowsWithBalance(cfg, snap.balance.value, balance, snap.riskSetting);
  }

  // Some reading of the account would let the job pass.
  ghost predicate SomeSnapshotAccepts(cfg: Config, p: Payload) { exists snap :: Acceptable(cfg, p, snap) }

  // A rich enough account accepts every sound payload, unless the configuration allows no position at all.
  lemma SomeSnapshotAcceptsExactlyWhen(cfg: Config, p: Payload)
    ensures SomeSnapshotAccepts(cfg, p) <==> Sound(cfg, p) && cfg.maxPositions > 0
  {
    if Sound(cfg, p) && cfg.maxPositions > 0 {
      var loss := PotentialLoss(AsNumber(p.lotSize), AsNumber(p.entryPrice), AsNumber(p.stopLoss));
      var snap := Snapshot(Some(if loss > 1.0 then loss else 1.0), Percent(100.0), None, Some(0));
      assert Allowance(cfg, snap.balance, snap.riskSetting) == snap.balance;
      assert Acceptable(cfg, p, snap);
    }
  }

  // With both prices positive and distinct, the daily limit is exactly a cap on the lot, plus one
  // cent of room that the floor demands of every order however small.
  lemma DailyLimitCapsTheLot(cfg: Config, snap: Snapshot, lot: real, entry: real, stop: real)
    requires lot > 0.0 && entry > 0.0 && stop > 0.0 && entry != stop && Allowance(cfg, snap.balance, snap.riskSetting).Some?
    ensures var room := Allowance(cfg, snap.balance, snap.riskSetting).value + TodayPL(snap);
            WithinDailyLoss(cfg, snap, lot, entry, stop)
            <==> 0.01 <= room && lot <= room / (100000.0 * Abs(entry - stop))
  {
    var room := Allowance(cfg, snap.balance, snap.riskSetting).value + TodayPL(snap);
    var unit := 100000.0 * Abs(entry - stop);
    assert unit > 0.0;
    assert lot * 100000.0 * Abs(entry - stop) == lot * unit;
    assert lot * unit > 0.0;
    assert room / unit * unit == room;
    if lot <= room / unit {
      assert lot * unit <= room / unit * unit;
    } else {
      assert lot * unit > room / unit * unit;
    }
  }

  // On a losing day a failed P&L query, which reads as zero, never turns an acceptance into a rejection.
  lemma LostReadingNeverRejects(cfg: Config, p: Payload, snap: Snapshot)
    requires Acceptable(cfg, p, snap) && TodayPL(snap) <= 0.0
    ensures Acceptable(cfg, p, snap.(todayPL := None))
  {
    BetterAccountStillAccepted(cfg, p, snap, snap.balance.value, 0.0, snap.openPositions.value);
  }

  // It can turn a rejection into an acceptance: the daily limit fails open.  Of the jobs accepted
  // without a reading, exactly those are wrongly accepted whose loss would not fit into what the
  // true P&L leaves.
  lemma WronglyAcceptedExactlyWhen(cfg: Config, p: Payload, snap: Snapshot, pl: real)
    requires snap.todayPL.None? && Acceptable(cfg, p, snap)
    ensures !Acceptable(cfg, p, snap.(todayPL := Some(pl)))
            <==> Allowance(cfg, snap.balance, snap.riskSetting).value + pl
                 < PotentialLoss(AsNumber(p.lotSize), AsNumber(p.entryPrice), AsNumber(p.stopLoss))
  {
  }

  // Such a job: one that risks 1.00 on an account of 1000 that lost its 1000 already.
  lemma UnreadablePLFailsOpen() returns (cfg: Config, p: Payload, snap: Snapshot)
    ensures snap.todayPL == Some(-1000.0) && snap.balance == Some(1000.0)
    ensures !Acceptable(cfg, p, snap) && Acceptable(cfg, p, snap.(todayPL := None))
  {
    cfg := Config(0.01, 100.0, 5.0, 1.5, 10);
    p := Order(Text("BUY"), Number(2.0), Number(1.999), None, Number(0.01));
    snap := Snapshot(Some(1000.0), NoRow, Some(-1000.0), Some(0));
    assert PotentialLoss(0.01, 2.0, 1.999) == 1.0;
    assert Allowance(cfg, snap.balance, NoRow) == Some(50.0);
  }
}
