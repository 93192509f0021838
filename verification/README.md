# A model of the signal platform's job queue, limiter, backtester and extractor

This project models four parts of the trading-signal platform and proves what they guarantee.

* **Live job queue.** `JobQueue` is a transition system: the `live_jobs` table with its locks and
  uncommitted writes, a program counter for every Go worker and every API request, and a history of
  claims, orders and cancellations. A step is one statement, commit, rollback, validation, POST or
  crash, so a run is any interleaving of any number of workers and requests. `LiveWorker` is the code
  itself: the service functions, `ClaimNextJob` and `ProcessNextJob`, each of whose statements is proved
  to be a step, with everybody else running in between; which of their calls fail is a parameter.
  `JobQueueOrigin` traces rows and claims back to the requests that made them. `RiskManager` and
  `LotSizing` hold the two pieces of arithmetic on the way.
* **Rate limiter.** `RateLimit` is the count-then-insert protocol, with no lock between the two.
* **Backtester.** `Metrics`, `Drawdown`, `Sharpe`, `Streaks` and `Backtester` prove the loops of the
  simulator and its metrics against declarative definitions, and `BacktestTheorems` relates whole runs to
  each other.
* **Signal extractor.** `NumberList`, `NumberListTheorems` and `ListNumerals` are the tokenizer of
  take-profit lists, `TakeProfit` and `TakeProfitTheorems` the allocator of levels.

`Options`, `Arithmetic`, `Collections` and `Sequences` are shared helpers. `dafny verify dfyconfig.toml` checks everything.

## Assumptions

* A claim locks only the row it selects (index on status and creation time,
  app/db/migrations/versions/004_add_slippage_metrics.py:34); an uncommitted row is locked by its writer.
* The unique constraint (app/models/live.py:15-17) covers rows of every status. The existing-job check
  reads committed rows; whether it waits for locks makes no difference to what is proved, since the model
  allows it to run with or without waiting.
* A status write that reports an error may have had no effect or may have taken effect with its answer
  lost. Both are modelled, for the claim's commit as well as for the SUCCESS write.
* The limiter's two clocks, of the API process and of the database, agree.
* Database and bridge fail as they like: each method takes what its calls come to as an argument, and its
  contract holds for every such argument.
* Numbers are exact: `real` stands for the floats and the `Decimal`s.

## Where the code differs from what one would expect

* A job whose order stands at the bridge can end as FAILED: when the reply to the order fails or cannot be
  read, and also when the answer to the SUCCESS write is lost, because the deferred FAILED write follows any
  error and is not guarded by status. `FailedWithOrderExactlyWhen` says when a claimed job can end so,
  `LostAnswerIsReachable` shows the second way from the empty table, `SuccessOverwrittenExactlyWhen` says
  when a SUCCESS already written can be lost, and `GuardKeepsFirstOutcome` what the guard of `complete_job`
  would keep.
* `cancel_job` returns true before its session commits. Only the commit binds
  (`CommittedCancelIsNeverExecuted`); before it the job can still be executed exactly when its payload is
  sound (`CancelAnsweredTrueMayStillExecute`).
* A worker that dies between its claim and its order leaves the job CLAIMED for good
  (`DeadWorkerStrandsItsJob`); a claimed job can still be settled exactly as long as a worker holds it
  (`ClaimedJobSettlesExactlyWhen`).
* After any job, even a cancelled one, the unique constraint keeps the same signal from ever being routed to
  the same account again although the existing-job check lets it through (`PairIsNeverEnqueuedAgain`,
  `CancelledPairIsBlocked`).
* `claim_job` in queue_service.py changes a detached object and is never called; the Go claim is modelled.
* A failed P&L query reads as zero, so the daily limit fails open (`UnreadablePLFailsOpen`,
  `WronglyAcceptedExactlyWhen`).
* `normalize_lot` promises the step; it rounds to a hundredth of the step (`HalfAStepStays`,
  `WholeStepExactlyWhen`).
* A SELL that reaches its target is booked with a negative reward, so the two win counts disagree
  (`SellTargetIsBookedAsLoss`, `TargetHitPaysExactlyWhen`, `WinCountsAgreeExactlyWhen`).
* The drawdown starts at the first trade's equity, not at zero (`OpeningLossIsMissed`,
  `OpeningLossCountsExactlyWhen`).
* The order of signals with equal timestamps is left to an unstable sort, and the report depends on it
  unless they give equal trades (`TiesCanChangeDrawdown`, `OrderDoesNotMatterExactlyWhen`).
* Two numerals with only a comma between them and a dot in one of them become one token
  (`DottedPairIsGlued`). And the list pattern stops at the first dot, so the lists it hands over hold whole
  numbers only (`MatchedListsHoldWholeNumbers`).

## Model

| member | source | states |
|---|---|---|
| JobQueue.StepFrame | go_workers/live_worker/db.go:71-146 | a step of one worker or request touches its own program counter and the one row it is about, nothing else |
| JobQueueInvariant.InvStep | go_workers/live_worker/db.go:64-146 | every step keeps the invariant: unique keys, locks owned by the transaction whose program counter says so, each claimed job held by its claimer, at most one claim and one order per job, orders only on validated payloads |
| JobQueueInvariant.InvRun | go_workers/live_worker/processor.go:30-80 | the invariant holds after every run from a state in which it holds |
| JobQueueInvariant.ClaimsAgree | go_workers/live_worker/db.go:71-126 | no job is ever claimed by two workers |
| JobQueueInvariant.HoldersDistinct | go_workers/live_worker/db.go:71-126 | two workers past their claims never hold the same job |
| JobQueueSafety.AtMostOneOrderPerSignalAndAccount | app/models/live.py:15-17 | in every reachable state of every interleaving with crashes and rollbacks, no two orders posted to the bridge share signal and account |
| JobQueueSafety.TwoRequestsPassTheCheck | app/routes/v1/live.py:89-98 | the existing-job check alone does not give that: two requests for one pair can both be past it |
| JobQueueSafety.CheckSeesAtMostOneRow | app/routes/v1/live.py:90-96 | the check's query for one row never meets two |
| JobQueueSafety.RunExtends | go_workers/live_worker/db.go:64-146 | over every run the history only grows and a committed row keeps its place, key and payload |
| JobQueueSafety.CommittedCancelIsNeverExecuted | app/services/queue_service.py:46-60 | once a cancellation committed, no continuation claims the job, posts an order for it or changes its status |
| JobQueueSafety.CommittedClaimIsNeverCancelled | go_workers/live_worker/db.go:113-126 | once a claim committed, no continuation cancels the job or returns it to PENDING |
| JobQueueSafety.PairIsNeverEnqueuedAgain | app/routes/v1/live.py:89-108 | after any committed job no request inserts the same pair again, yet the existing-job check passes exactly when that job is terminal |
| JobQueueSafety.UnguardedWriteRefinesCompleteJob | go_workers/live_worker/db.go:134-146 | whenever a worker reaches a status write, it alone claimed the row and nobody holds it; the bare UPDATE equals the guarded one exactly when no SUCCESS answer for the job was lost |
| JobQueueSafety.GuardKeepsFirstOutcome | app/services/queue_service.py:93-110 | at the deferred FAILED write the guarded write would keep SUCCESS exactly for the jobs whose SUCCESS answer was lost, where the bare write puts FAILED; after it, no further guarded write changes anything |
| JobQueueSafety.SuccessMeansOneApprovedOrder | go_workers/live_worker/processor.go:57-76 | a SUCCESS job has exactly one order, posted by the worker that claimed it on a snapshot that passed validation |
| JobQueueSafety.TerminalStatesAbsorb | go_workers/live_worker/processor.go:41-76 | over every run a terminal row stays as it is, except SUCCESS turning FAILED after a lost answer |
| JobQueueSafety.UnattendedRowNeverChanges | go_workers/live_worker/db.go:71-78 | a claimed or finished job no worker holds keeps its row and gets no further order in any run: a job whose worker died stays CLAIMED |
| JobQueueSafety.GivenUpIsNeverOrdered | go_workers/live_worker/processor.go:41-60 | a claimed job whose every holder is about to fail it before its order is never ordered in any continuation |
| JobQueueSafety.SuccessOverwrittenExactlyWhen | go_workers/live_worker/processor.go:47-54 | a SUCCESS row can still become FAILED in some continuation if and only if a worker has its deferred FAILED write pending for it |
| JobQueueWitness.AcceptableJobCanBePosted | go_workers/live_worker/processor.go:30-62 | an idle worker that meets an acceptable oldest job has a run that posts its order |
| JobQueueWitness.PendingExecutesExactlyWhen | go_workers/live_worker/processor.go:30-62 | any one idle worker alone, however many older jobs are ahead, has a run that posts an unheld pending job's order if and only if its payload is sound and positions are allowed at all; no other worker could do more |
| JobQueueWitness.CancelAnsweredTrueMayStillExecute | app/services/queue_service.py:58-60 | after cancel_job returned true but before the commit, some run still posts the order if and only if the payload is sound and positions are allowed at all |
| JobQueueWitness.ClaimedJobSettlesExactlyWhen | go_workers/live_worker/processor.go:41-76 | a CLAIMED job has a run that ends it as SUCCESS or FAILED if and only if some worker holds it |
| JobQueueWitness.DeadWorkerStrandsItsJob | go_workers/live_worker/processor.go:30-62 | a worker that dies between its claim and its order leaves the job CLAIMED and without an order in every continuation |
| JobQueueWitness.CancelledPairIsBlocked | app/routes/v1/live.py:89-108 | a reachable state in which a request passed the check after a cancelled job of its pair, and its insert is refused under every id |
| JobQueueWitness.LostAnswerEndsAsFailed | go_workers/live_worker/processor.go:73-76 | from a posted order, a SUCCESS write with a lost answer leads to a FAILED row |
| JobQueueWitness.LostAnswerIsReachable | go_workers/live_worker/processor.go:73-76 | from the empty table, every sound payload has a run that ends FAILED with its order posted and its SUCCESS answer lost |
| JobQueueWitness.FailedWithOrderExactlyWhen | go_workers/live_worker/processor.go:62-76 | a CLAIMED job can end FAILED with its order standing if and only if a worker holds it that has posted the order, is about to, or validates a sound payload with positions allowed |
| JobQueueOrder.OvertakingIsBounded | go_workers/live_worker/db.go:71-78 | a claim skips at most as many older PENDING rows as there are other open transactions |
| JobQueueOrder.ClosedQueueClaimsInOrder | go_workers/live_worker/db.go:75-77 | with one worker and no requests, claims follow created_at and pending jobs plus claims made is constant over every run |
| JobQueueOrder.PollFindsPendingWork | go_workers/live_worker/db.go:92-94 | a poll of the closed queue comes back empty if and only if nothing is pending |
| JobQueueOrder.PollsMakeProgress | go_workers/live_worker/main.go:41-52 | in every run of one worker on a closed queue, each poll takes a job off the pending set or was aborted, until nothing is pending |
| JobQueueOrder.ClosedQueueDrains | go_workers/live_worker/main.go:41-52 | n pending jobs of a closed queue are gone after n + 1 polls beyond the aborted ones, with exactly n committed claims |
| JobQueueOrder.OldestComesFirst | go_workers/live_worker/db.go:71-78 | the row a claim selects is PENDING, held by nobody and created no later than any other such row |
| JobQueueOrigin.RowsComeFromRequests | app/services/queue_service.py:20-33 | in every reachable state every row's creation time is that of its last Insert step, and its pair and payload are those its request checked before that step |
| JobQueueOrigin.ClaimsFollowInsertTimes | go_workers/live_worker/db.go:71-78 | one worker on a closed queue claims jobs in the order of the times their Insert steps gave them, in every run |
| LiveWorker.OthersLeaveAgent | go_workers/live_worker/db.go:64-146 | whatever all others do, an agent's program counter stays and no order appears in its name |
| LiveWorker.LiveJobs.AwaitRow | app/services/queue_service.py:51-58 | a statement on a held row waits, while others take steps of their own, until nobody holds it |
| LiveWorker.LiveJobs.AwaitInsert | app/services/queue_service.py:31-32 | an insert waits until no uncommitted row has its id or pair |
| LiveWorker.LiveJobs.EnqueueJob | app/services/queue_service.py:12-33 | inserts exactly when no row has the id or the pair, and then an uncommitted PENDING row with the given pair, payload and creation time, held by the request; else changes nothing |
| LiveWorker.LiveJobs.CancelJob | app/services/queue_service.py:46-60 | true exactly for a PENDING row, which becomes CANCELLED and held, uncommitted; no other row changes |
| LiveWorker.LiveJobs.CommitSession | app/db/session.py:33-45 | publishes the request's row and, for a cancellation, records it as final |
| LiveWorker.LiveJobs.RollbackSession | app/db/session.py:41-43 | restores the committed row, or removes an inserted one, and frees it |
| LiveWorker.LiveJobs.EndSession | app/db/session.py:37-45 | a commit that fails rolls the row back, any other publishes it; an error is a failed commit or a lost answer |
| LiveWorker.LiveJobs.EnqueueChecked | app/routes/v1/live.py:100-118 | an enqueued answer means a committed PENDING row with the given pair, payload and creation time, a refused insert a committed row of the same id or pair, an error a failing call; whatever ran in between |
| LiveWorker.LiveJobs.RouteSignalToLive | app/routes/v1/live.py:89-118 | answers a conflict exactly when some row of the pair is committed as PENDING or CLAIMED; an enqueued answer means a committed PENDING row with the given pair, payload and creation time, a refused insert a committed row of the same id or pair, an error a failing call |
| LiveWorker.LiveJobs.CancelJobEndpoint | app/routes/v1/live.py:144-161 | not found exactly without a committed row; cancelled means the job is and stays CANCELLED; the conflict answer means its committed status is not PENDING; an error means a failing call |
| LiveWorker.LiveJobs.BeginTx | go_workers/live_worker/db.go:65-69 | opens the claiming transaction |
| LiveWorker.LiveJobs.SelectForUpdate | go_workers/live_worker/db.go:71-97 | locks an oldest unheld PENDING row and changes nothing else, or finds that there is none |
| LiveWorker.LiveJobs.MarkClaimed | go_workers/live_worker/db.go:113-122 | the held row becomes CLAIMED, uncommitted |
| LiveWorker.LiveJobs.CommitClaimTx | go_workers/live_worker/db.go:124-126 | the claim is published and recorded even when its answer is lost, which leaves the worker idle |
| LiveWorker.LiveJobs.Rollback | go_workers/live_worker/db.go:69 | the deferred rollback restores the committed row and frees it |
| LiveWorker.LiveJobs.RollbackEmpty | go_workers/live_worker/db.go:69-97 | the rollback of a transaction that holds nothing leaves the table alone |
| LiveWorker.LiveJobs.MarkAndCommit | go_workers/live_worker/db.go:113-131 | marks the row and then commits, or rolls back exactly when the commit fails; an error is a failed commit or a lost answer |
| LiveWorker.LiveJobs.TakeSelected | go_workers/live_worker/db.go:99-131 | the selected job is marked and its claim committed without an error exactly when no call fails; a claim whose answer is lost is committed, any other failure rolls back |
| LiveWorker.LiveJobs.ClaimInTx | go_workers/live_worker/db.go:71-131 | no job and no error only after a SELECT at a moment at which no row was free; a returned job was selected, marked and claimed by this worker; an error is a failing call, followed by a rollback or a claim with a lost answer |
| LiveWorker.LiveJobs.ClaimNextJob | go_workers/live_worker/db.go:64-132 | no job and no error only if at a moment of the call no PENDING row was free; a returned job was selected, marked and claimed by this worker in this call; an error means a failing call, with nothing begun, a rollback, or a claim with a lost answer; nothing is posted |
| LiveWorker.LiveJobs.WriteSuccessStatus | go_workers/live_worker/db.go:134-146 | writes SUCCESS whatever the status, acknowledged, without effect, or with its answer lost, as given |
| LiveWorker.LiveJobs.WriteFailedStatus | go_workers/live_worker/processor.go:47-54 | writes FAILED whatever the status, or loses the write and only logs, as given |
| LiveWorker.LiveJobs.Validated | go_workers/live_worker/processor.go:57-60 | ValidateJob decides between ordering and the deferred failure |
| LiveWorker.LiveJobs.PostOrder | go_workers/live_worker/processor.go:102-109 | one POST: one order with the approving snapshot enters the history |
| LiveWorker.LiveJobs.ExecuteOrder | go_workers/live_worker/processor.go:82-134 | posts unless the order is never sent, and then once and only for this job; no error exactly on a good reply, any error leads to the deferred failure whether or not the order stands |
| LiveWorker.LiveJobs.ExecuteAndRecord | go_workers/live_worker/processor.go:62-80 | no error, and a SUCCESS row, exactly on a good reply and an acknowledged SUCCESS write |
| LiveWorker.LiveJobs.Process | go_workers/live_worker/processor.go:57-80 | no error, and a SUCCESS row, exactly without a panic, with an acceptable payload, a good reply and an acknowledged SUCCESS write; an error leaves the deferred write pending |
| LiveWorker.LiveJobs.ProcessClaimed | go_workers/live_worker/processor.go:41-80 | a claimed job is executed exactly then; otherwise it ends FAILED if the deferred write goes through |
| LiveWorker.LiveJobs.ProcessNextJob | go_workers/live_worker/processor.go:30-80 | one poll, with everyone running between its statements: nothing to do means that at a moment of the poll no PENDING row was free, a failed claim that a call failed; a job taken was selected in this poll and is executed exactly when it neither panics nor is rejected, the bridge replies well and the SUCCESS write is acknowledged; posts only for that job |
| RiskManager.CheckDailyDrawdown | go_workers/live_worker/risk_mgr.go:77-159 | with a positive balance, readable settings and p the account's percentage if positive, else the configured one: passes exactly when p > 0 and 100 (loss - P&L) <= balance * p, the loss being 100000 times lot times stop distance, at least a cent, or 10 a lot without prices; the reported reason is the first, in the order of the checks, that is true of the account |
| RiskManager.DailyLimitInNumbers | go_workers/live_worker/risk_mgr.go:116-154 | comparing loss and allowance is comparing 100 (loss - P&L) with balance times percentage, failed lookups included |
| RiskManager.CheckMinRR | go_workers/live_worker/risk_mgr.go:172-190 | with entry, stop and a target there, and entry and stop apart, accepts exactly when the first target is at least minRR times as far from the entry as the stop; otherwise always |
| RiskManager.ValidateJob | go_workers/live_worker/risk_mgr.go:19-75 | accepts exactly when the lot is within its limits, entry and stop are numbers other than zero, the stop is below a BUY and above a SELL, the first number among the targets pays minRR times the risk, a position is free and the daily check passes; the reported reason is the first, in the order of the checks, that is true of job and account |
| RiskManager.AcceptableInNumbers | go_workers/live_worker/risk_mgr.go:19-75 | the predicate the queue's theorems use is that conjunction |
| RiskManager.PotentialLossMonotone | go_workers/live_worker/risk_mgr.go:135-145 | the loss estimate never falls as the lot grows, floor and alternative estimate included |
| RiskManager.SmallerLotStillAccepted | go_workers/live_worker/risk_mgr.go:39-55 | an accepted lot stays accepted when made smaller, down to the minimum lot |
| RiskManager.AllowanceGrowsWithBalance | go_workers/live_worker/risk_mgr.go:97-120 | a richer account has an allowance, and none smaller |
| RiskManager.BetterAccountStillAccepted | go_workers/live_worker/risk_mgr.go:116-170 | acceptance survives a higher balance, a better day and fewer open positions |
| RiskManager.DailyLimitCapsTheLot | go_workers/live_worker/risk_mgr.go:136-154 | for distinct positive prices the daily check is exactly a cap on the lot, plus one cent of room |
| RiskManager.LostReadingNeverRejects | go_workers/live_worker/risk_mgr.go:129-133 | on a losing day, losing the P&L reading never turns an acceptance into a rejection |
| RiskManager.WronglyAcceptedExactlyWhen | go_workers/live_worker/risk_mgr.go:129-154 | a job accepted without a reading would have been rejected with it if and only if the allowance plus the true P&L is less than the estimated loss |
| RiskManager.UnreadablePLFailsOpen | go_workers/live_worker/risk_mgr.go:129-133 | such a job: rejected after a loss of the whole balance, accepted when that loss cannot be read |
| RiskManager.SomeSnapshotAcceptsExactlyWhen | go_workers/live_worker/risk_mgr.go:39-71 | some reading of the account accepts a job if and only if its payload is sound and positions are allowed at all |
| LotSizing.RoundingIsNearestAndMonotone | app/utils/number_helpers.py:16-21 | half-up rounding is within one half, monotone, and keeps whole numbers |
| LotSizing.TiesGoAwayFromZero | app/utils/number_helpers.py:16-21 | a tie goes to the integer further from zero |
| LotSizing.ClampIsNearestAllowed | app/utils/number_helpers.py:50-55 | a lot within the limits stays, one outside becomes the limit it exceeds |
| LotSizing.NormalizedLotIsNearestInRange | app/utils/number_helpers.py:48-57 | with limits on the grid of step/100, the result is on the grid, within the limits and within step/200 of the clamped lot |
| LotSizing.NormalizeIsMonotone | app/utils/number_helpers.py:48-57 | a larger lot never normalizes to a smaller one |
| LotSizing.NormalizeIsIdempotent | app/utils/number_helpers.py:48-57 | normalizing twice changes nothing, for any limits and positive step |
| LotSizing.WholeStepExactlyWhen | app/utils/number_helpers.py:56-57 | the result is a whole number of steps, as the docstring says, if and only if the clamped lot was within step/200 of one |
| LotSizing.HalfAStepStays | app/utils/number_helpers.py:48-57 | with step 0.01 a lot of 0.015 stays 0.015, no multiple of the step |
| LotSizing.DefaultLotInNumbers | app/routes/v1/live.py:74 | with the route's limits the normalized lot lies in [0.01, 100] on four decimals, within 0.00005 of a lot in between, ties rounding up, and is the limit for a lot at or beyond one |
| LotSizing.LotFromStop | app/routes/v1/live.py:60-68 | 100 * lot * stop distance is the balance; 0.01 when entry and stop agree |
| LotSizing.SizeLot | app/routes/v1/live.py:54-74 | a given lot passes untouched; otherwise the lot that loses one percent of the balance at the stop, brought into [0.01, 100] and rounded to four decimals, ties up; 0.01 when balance, entry or stop is missing or both prices agree |
| RateLimit.StepKeepsBound | app/middleware/rate_limit.py:27-49 | every step, the cutoff taken before the count included, keeps for every client and window the logged requests plus those that may still land below limit + k |
| RateLimit.InvRun | app/middleware/rate_limit.py:27-49 | the bound on every window survives every run |
| RateLimit.WindowIsBounded | app/middleware/rate_limit.py:27-49 | in every interleaving every window holds at most limit + k - 1 logged requests of a client, k bounding its requests between count and commit |
| RateLimit.RejectsExactlyWhenFull | app/middleware/rate_limit.py:28-41 | a request is turned away if and only if the current window, with the rows that left it since the cutoff was taken, holds the limit; a full window always rejects |
| RateLimit.HundredPerMinute | app/middleware/rate_limit.py:24-49 | with the code's numbers: of the rows a client logged in any 60000 ms there are at most 100 + k - 1 |
| RateLimit.AdmitsExactlyBelowHundred | app/middleware/rate_limit.py:28-41 | a count lets a request through exactly when fewer than 100 rows of the client were logged since 60000 ms before its cutoff was taken |
| RateLimit.BoundIsAttained | app/middleware/rate_limit.py:34-49 | for every limit and k some interleaving fills a window with exactly limit + k - 1 |
| RateLimit.RateLimiter.Middleware | app/middleware/rate_limit.py:10-52 | with others running between its statements: lets the request through exactly when its count saw fewer than 100 rows of the last 60000 ms; a rejection logs nothing, else its own row is logged last; every minute holds at most 100 + k - 1 rows of any client |
| Metrics.ProfitFactor | go_workers/backtester/simulator.go:251-265 | the loop computes the factor that turns gross loss into gross profit, infinite without losses |
| Metrics.GainAndLoss | go_workers/backtester/metrics.go:11-17 | a trade's gain minus its loss is its reward, neither is negative and one is zero |
| Metrics.InfiniteExactlyWithoutLosses | go_workers/backtester/metrics.go:18-21 | the factor is infinite if and only if no trade lost |
| Metrics.GrossSumsSplitTotal | go_workers/backtester/metrics.go:11-17 | gross profit minus gross loss is the total, both non-negative |
| Drawdown.MaxDrawdown | go_workers/backtester/simulator.go:267-283 | the one-pass peak loop finds the largest e[i] - e[j] with i <= j, 0 without points |
| Drawdown.MaxDrawdownIsLargestDrop | go_workers/backtester/simulator.go:267-283 | which is the maximum of e[i] - e[j] over all i <= j: a bound on all of them and attained |
| Drawdown.DrawdownIgnoresShift | go_workers/backtester/metrics.go:24-40 | adding a constant to the curve changes nothing |
| Drawdown.DrawdownScales | go_workers/backtester/metrics.go:24-40 | multiplying the curve by k > 0 multiplies the drawdown by k |
| Drawdown.DrawdownComposes | go_workers/backtester/metrics.go:24-40 | the drawdown of two curves in a row is the largest of both and of first peak minus second trough |
| Sharpe.CalculateSharpeRatio | go_workers/backtester/simulator.go:285-308 | two passes, the root and the quotient; 0 for short curves and without deviation |
| Sharpe.MeanTelescopes | go_workers/backtester/simulator.go:289-297 | the mean is (last - first)/(n - 1) |
| Sharpe.VarianceIsMeanSquareMinusSquareMean | go_workers/backtester/simulator.go:298-302 | the two-pass variance is the mean of squares minus the square of the mean |
| Sharpe.ZeroVarianceExactlyOnProgressions | go_workers/backtester/simulator.go:303-306 | the ratio is forced to zero if and only if the curve is an arithmetic progression |
| Sharpe.SharpeIsMeanOverDeviation | go_workers/backtester/simulator.go:303-307 | over any square root: 0 without variance, else the mean's sign and a square equal to squared mean over variance |
| Sharpe.SharpeVanishesExactlyWhen | go_workers/backtester/metrics.go:42-71 | the ratio is 0 if and only if the curve ends where it began or is an arithmetic progression |
| Sharpe.MomentsOfCurveScale | go_workers/backtester/metrics.go:42-65 | scaling the curve by k scales the mean by k and the variance by k squared |
| Sharpe.SharpeIgnoresFactor | go_workers/backtester/metrics.go:42-71 | scaling the curve by k > 0 leaves the ratio alone |
| Backtester.SimulateTrade | go_workers/backtester/simulator.go:161-240 | no trade exactly when the reward divides by zero; else BUY enters above and others below the signal by spread/10000, the exit is the target ahead, else the stop behind, else the entry, twice the reward times (entry - stop) is the target's distance times the factor, a stop costs half the factor |
| Backtester.TradeBooks | go_workers/backtester/simulator.go:161-240 | the function that specifies a trade has these properties for every signal that does not divide by zero |
| Backtester.SortByTimestamp | go_workers/backtester/simulator.go:89-93 | some time-ordered permutation; nothing is promised about ties |
| Backtester.SimulateAll | go_workers/backtester/simulator.go:95-121 | finite exactly when no signal divides by zero; then the accumulators hold the trades, their cumulative sums and the two counts |
| Backtester.Summarize | go_workers/backtester/simulator.go:123-152 | wins and losses are the numbers of trades that hit target and stop, win rate times trades is 100 times wins, each equity point adds its trade's reward to the one before, the total is the last, the factor times the gross loss is the gross profit, the drawdown is the largest fall of the curve |
| Backtester.Report | go_workers/backtester/simulator.go:88-152 | not finite exactly when a signal divides by zero; else the trades are those of a time-ordered permutation of the input, one for each signal, and counts, win rate, curve, total, factor and drawdown are those of the trades, in numbers |
| Backtester.Simulator.Run | go_workers/backtester/simulator.go:76-159 | the same for every run, under the next id, leaving every earlier report alone |
| Backtester.Simulator.GetCachedResult | go_workers/backtester/simulator.go:242-247 | the id of a run gives what that very run returned, however many came after; no other id gives anything |
| BacktestTheorems.RunConserves | go_workers/backtester/simulator.go:100-126 | total = last equity point = gross profit - gross loss; wins + losses + open = signals; every stopped trade costs exactly DefaultRR/2 |
| BacktestTheorems.OrderDoesNotMatterExactlyWhen | go_workers/backtester/simulator.go:88-128 | all sorts of the signals give one report if and only if signals of equal time give equal trades |
| BacktestTheorems.InputOrderDoesNotMatter | go_workers/backtester/simulator.go:88-128 | then every permutation of the input and every sort give the same trades, hence the same report |
| BacktestTheorems.DistinctTimesDecide | go_workers/backtester/simulator.go:88-93 | pairwise distinct timestamps are such a case |
| BacktestTheorems.TiesKeepTotals | go_workers/backtester/simulator.go:88-128 | with ties the counts, win rate, total and profit factor still agree |
| BacktestTheorems.TiesCanChangeDrawdown | go_workers/backtester/simulator.go:88-128 | and the drawdown need not: two signals at one instant |
| Drawdown.OpeningLossCountsExactlyWhen | go_workers/backtester/simulator.go:271-272 | starting the peak at the first point instead of zero is harmless if and only if every point below zero lies no deeper than some later point lies below an earlier one |
| Drawdown.NoOpeningLossNoDifference | go_workers/backtester/simulator.go:271-272 | a first trade without a loss is enough |
| Drawdown.OpeningLossIsMissed | go_workers/backtester/simulator.go:271-272 | a single losing trade counts as no drawdown |
| BacktestTheorems.RewardFactorScales | go_workers/backtester/simulator.go:228-229 | multiplying DefaultRR by k > 0 keeps outcomes, counts, profit factor and Sharpe ratio and scales rewards, curve, total and drawdown by k |
| BacktestTheorems.TargetHitPaysExactlyWhen | go_workers/backtester/simulator.go:201-207 | a trade pays a positive reward if and only if the target is ahead and the stop is below the entry, also for SELL |
| BacktestTheorems.SellTargetIsBookedAsLoss | go_workers/backtester/simulator.go:201-207 | a sound SELL whose target is hit at a reward of -1, a win to one count and not to the other |
| BacktestTheorems.WinCountsAgreeExactlyWhen | go_workers/backtester/metrics.go:73-84 | wins by reward never exceed wins by outcome, and agree if and only if every hit target had its stop below the entry |
| Streaks.CalculateWinRate | go_workers/backtester/metrics.go:73-84 | the rate times the number of trades is 100 times the number of those with a positive reward; 0 without trades |
| Streaks.CalculateConsecutiveWins | go_workers/backtester/metrics.go:97-111 | the length of the longest contiguous block of trades with positive rewards |
| Streaks.CalculateConsecutiveLosses | go_workers/backtester/metrics.go:113-127 | the length of the longest contiguous block of trades without a positive reward |
| Streaks.CalculateMaxConsecutiveLosses | go_workers/backtester/risk.go:77-91 | the same, by the second implementation |
| Streaks.LongestStreakIsUnique | go_workers/backtester/metrics.go:113-127 | that determines the result, so the two loss-streak functions agree on every input |
| Streaks.StreaksFitTogether | go_workers/backtester/metrics.go:97-127 | longest win streak plus longest loss streak is at most the number of trades |
| Streaks.SortFloats | go_workers/backtester/risk.go:68 | an in-place sort: an ordered permutation |
| Streaks.VaRIndexInRange | go_workers/backtester/risk.go:70-73 | the index is never too large, and below zero exactly for a confidence of 1 + 1/n or more |
| Streaks.VaRIndexInNumbers | go_workers/backtester/risk.go:70-73 | for a confidence c in (0, 1] the index is n (1 - c) rounded down, from 0 down the last, just above 1 the first |
| Streaks.CalculateVaR | go_workers/backtester/risk.go:62-75 | at that index: at most `index` returns lie below the result and more than `index` at or below it; the caller's slice is untouched; panics exactly when n (1 - c) <= -1 |
| Streaks.OrderStatisticIgnoresOrder | go_workers/backtester/risk.go:66-74 | so the result depends on the values only, not on their order or the sort |
| NumberList.ParseNumberList | go_workers/extractor/parser.go:358-467 | the loops compute the tokens of the list in either decimal convention |
| NumberListTheorems.TokensAreSettled | go_workers/extractor/parser.go:455-464 | no token is empty, has outer spaces or holds a delimiter or comma, for every input |
| NumberListTheorems.ReparsingIsIdempotent | go_workers/extractor/parser.go:358-467 | parsing the tokens joined with spaces gives the tokens again, for every input and convention |
| ListNumerals.NumeralsByParts | go_workers/extractor/parser.go:427-447 | cutting at delimiters and then at commas gives the same numerals as cutting at both |
| ListNumerals.TrimMaps | go_workers/extractor/parser.go:367-434 | trimming the text first changes nothing for a tokenizer that trims every part, Unicode spaces included |
| ListNumerals.TokensAreNumeralsExactlyWhen | go_workers/extractor/parser.go:425-464 | in the dot convention the tokens of any text are its numerals if and only if no part between delimiters holds a dot together with two numerals |
| ListNumerals.MatchedListsHoldWholeNumbers | go_workers/extractor/parser.go:304 | a list without a dot, the only kind the list pattern captures, gives exactly its numerals, none with a fraction |
| ListNumerals.DottedPairIsGlued | go_workers/extractor/parser.go:449-452 | two numerals with only a comma between them, one dotted, become one token |
| ListNumerals.ProperListsRoundTrip | go_workers/extractor/parser.go:425-453 | numerals joined by runs of commas and delimiters that each hold a delimiter come back exactly as written |
| ListNumerals.SeparatorsDivide | go_workers/extractor/parser.go:384-464 | semicolon, slash, bar, space, tab, line ends and form feed divide every text in both conventions: its tokens are those before followed by those behind |
| ListNumerals.OuterSpaceIsIgnored | go_workers/extractor/parser.go:367-434 | white space around any text is ignored, also no-break and other Unicode spaces that divide nothing |
| ListNumerals.PointNumberStays | go_workers/extractor/parser.go:449-453 | in the dot convention digits with a point are one token, as they are |
| ListNumerals.CommaNumberTurnsPoint | go_workers/extractor/parser.go:385-405 | in the comma convention digits with a comma are one token, with the comma turned into a point |
| ListNumerals.CommaDivides | go_workers/extractor/parser.go:440-447 | in the dot convention a comma divides two numbers without a point |
| ListNumerals.CommaIsDeleted | go_workers/extractor/parser.go:449-453 | and next to a point it is deleted, so that they become one token |
| TakeProfit.PlacesOfDecimal | go_workers/extractor/parser.go:532-539 | one point gives the length of the fraction, none gives zero |
| TakeProfit.PlacesInNumbers | go_workers/extractor/parser.go:532-539 | the count is the number of characters behind the only point, and zero without exactly one |
| TakeProfit.ValidatePrice | go_workers/extractor/parser.go:500-521 | true without a rule; with one, exactly when minValue <= price <= maxValue and, where places are listed, the number of decimals is one of them |
| TakeProfit.LastValidMatchWins | go_workers/extractor/parser.go:255-270 | the last valid match of a level sets its price |
| TakeProfit.EveryLevelHasAMatch | go_workers/extractor/parser.go:255-270 | every level known has such a match |
| TakeProfit.ReadIndexed | go_workers/extractor/parser.go:252-273 | the loop finds exactly the levels of valid matches, each with the price of the last |
| TakeProfit.ReadToken | go_workers/extractor/parser.go:314-321 | the token's number if it reads as one and keeps the symbol's rule, else nothing |
| TakeProfit.NextFree | go_workers/extractor/parser.go:323-328 | the search returns the least unused level from its start on |
| TakeProfit.FindUnused | go_workers/extractor/parser.go:323-328 | the inner loop terminates with that level |
| TakeProfit.LevelsAreFresh | go_workers/extractor/parser.go:313-334 | the levels given are unused before, at least len + 1 and strictly increasing in text order |
| TakeProfit.NothingFreeBehindCursor | go_workers/extractor/parser.go:322-334 | up to the last level given nothing is left unused |
| TakeProfit.GiveLevel | go_workers/extractor/parser.go:322-333 | one accepted price extends the allocation by one, from any point the search may resume at |
| TakeProfit.AllocateList | go_workers/extractor/parser.go:308-335 | one list match adds its valid prices to the levels found so far |
| TakeProfit.ListsCompose | go_workers/extractor/parser.go:306-313 | restarting at len + 1 for each match gives the same levels as one list with all prices in text order |
| TakeProfit.InOrder | go_workers/extractor/parser.go:344-350 | exactly the map's entries, by strictly increasing level, whatever order the map is walked in |
| TakeProfit.ExtractTakeProfit | go_workers/extractor/parser.go:248-353 | the answer lists, by level, the indexed prices and the allocation of all list prices that keep the rule, in text order; no price listed lies outside the rule's bounds or has an unlisted number of decimals |
| TakeProfitTheorems.PricesInTokenOrder | go_workers/extractor/parser.go:314-334 | a list gives the prices of its readable tokens that keep the rule, in the order of the tokens |
| TakeProfitTheorems.PricesInListOrder | go_workers/extractor/parser.go:306-335 | and the lists of a text in the order of the lists |
| TakeProfitTheorems.ListsKeepEveryLevel | go_workers/extractor/parser.go:305-335 | no existing level is overwritten, every list price keeps a level of its own, and in text order the prices take the least unused levels from len + 1 on |
| TakeProfitTheorems.NoGapExactlyWhen | go_workers/extractor/parser.go:313-334 | m indexed levels and t list prices are numbered exactly 1..m + t if and only if the indexed ones are exactly 1..m |
| TakeProfitTheorems.PlainListsAreNumberedFromOne | go_workers/extractor/parser.go:305-353 | without indexed levels the answer is exactly the list prices, numbered 1, 2, ... in text order |

## Left out

- CancelJobEndpoint: the caller's ownership check, which also answers not found.
- AwaitRow: that a lock is released at last is assumed; lock timeouts and deadlock victims are not modelled beyond the rollback they end in.
- RouteSignalToLive: fetching signal and account, building the payload and formatting the answer; lot sizing is `LotSizing.SizeLot`.
- Simulator.Run: a signal whose reward divides by zero gives a float infinity that spreads over the sums; such a run leaves a report without contents here, where the code's still lists trades and counts.
- `complete_job` and `claim_job` are called by nothing in the repository and are no steps of the system; the write of the former is the function `Completed`.
- Signal fields that never reach a report: order type, source and confidence.
- CalculateSharpeRatio: the square root is a parameter, taken to be exact where its properties are used.
- SortFloats: its own steps are the library's; it is stated by its result.
- ExtractTakeProfit: regex matches come as sequences of levels, prices and list texts, number reading and shortest formatting as functions; levels are assumed to fit in 32 bits.
- Float rounding, the 28-digit precision of `Decimal`, integer widths of counters and ids.
- `cleanNumericString`, the text cleaner and the extraction of single values: regex passes.
- The Kelly, Sortino and Calmar formulas and the average reward: single expressions.
- Limits on open positions over whole runs: nothing in the repository inserts the rows that are counted.
- The Python backtest route, which stores placeholder results.
- Timestamps other than created_at, result columns, logs and metrics of the workers; the ticker between polls.
- The simulator's mutex, so concurrent runs of one simulator; the configured lifetime of cached reports, which nothing reads.
- HTTP, gRPC, SQL driver and JSON details: only their outcomes, as choices of a step.
- Authentication, licences, ownership, CRUD routes, migrations, web sockets and configuration.
