/**
  In which order jobs are claimed: bounded overtaking among any number of workers, and the
  draining of a closed queue by a single one.
*/
module JobQueueOrder {
  import opened Collections
  import opened Options
  import opened JobQueue
  import opened JobQueueInvariant
  import Risk = RiskManager

  // ---- bounded overtaking ----

  // What the claiming SELECT takes: a PENDING row nobody holds, created no later than any other such.
  lemma OldestComesFirst(t: Table, id: JobId)
    requires Oldest(t, id)
    ensures id in t && t[id].lock.None? && t[id].status == Pending
    ensures forall j | j in t && t[j].lock.None? && t[j].status == Pending :: t[id].createdAt <= t[j].createdAt
  {
    forall j | j in t && t[j].lock.None? && t[j].status == Pending ensures t[id].createdAt <= t[j].createdAt {
      assert Selectable(t, j);
    }
  }

  // Committed PENDING rows, whoever may be holding them.
  ghost function PendingJobs(s: State): set<JobId> {
    set id | id in s.rows && s.rows[id].committed == Some(Pending)
  }

  // Older PENDING jobs that a claim of `id` passes over.
  ghost function Overtaken(s: State, id: JobId): set<JobId>
    requires id in s.rows
  {
    set j | j in PendingJobs(s) && s.rows[j].createdAt < s.rows[id].createdAt
  }

  // Transactions currently holding a row.
  ghost function OpenTransactions(s: State): set<Holder> {
    (set w | w in s.workers && (W(s, w).Locked? || W(s, w).Marked?) :: ByWorker(w)) +
    (set r | r in s.requests && (R(s, r).Inserting? || R(s, r).Cancelling?) :: ByRequest(r))
  }

  ghost function HeldBy(s: State, h: Holder): JobId {
    var j := JobOf(s, h);
    if j.Some? then j.value else 0
  }

  lemma {:induction false} ImageIsNoLarger(s: State, hs: set<Holder>)
    ensures |set h | h in hs :: HeldBy(s, h)| <= |hs|
  {
    if hs != {} {
      var x :| x in hs;
      ImageIsNoLarger(s, hs - {x});
      assert (set h | h in hs :: HeldBy(s, h)) == (set h | h in hs - {x} :: HeldBy(s, h)) + {HeldBy(s, x)};
    }
  }

  // Whenever a claim takes a row, the older PENDING rows it skipped are all held by other open
  // transactions, each of which holds one: there are at most as many of them.
  lemma OvertakingIsBounded(cfg: Risk.Config, s: State, w: WorkerId, id: JobId)
    requires Reachable(cfg, s) && Enabled(s, Select(w, id))
    ensures ByWorker(w) !in OpenTransactions(s)
    ensures |Overtaken(s, id)| <= |OpenTransactions(s)|
  {
    ReachableInv(cfg, s);
    var open := OpenTransactions(s);
    var held := set h | h in open :: HeldBy(s, h);
    forall j | j in Overtaken(s, id) ensures j in held {
      assert LockOk(s, j);
      assert !Selectable(s.rows, j);
      var h := s.rows[j].lock.value;
      assert h in open && HeldBy(s, h) == j;
    }
    ImageIsNoLarger(s, open);
    SubsetIsNoLarger(Overtaken(s, id), held);
  }

  // ---- one worker, a closed queue ----

  ghost predicate OnlyWorker(steps: seq<Step>, w: WorkerId) {
    forall i | 0 <= i < |steps| :: Actor(steps[i]) == ByWorker(w)
  }

  // No transaction but w's is open.
  ghost predicate OnlyLocks(s: State, w: WorkerId) {
    forall id | id in s.rows && s.rows[id].lock.Some? :: s.rows[id].lock == Some(ByWorker(w))
  }

  // What w holds is the oldest of the pending jobs.
  ghost predicate HoldsOldest(s: State, w: WorkerId) {
    W(s, w).Locked? || W(s, w).Marked? ==>
      && W(s, w).job in PendingJobs(s)
      && forall j | j in PendingJobs(s) :: s.rows[W(s, w).job].createdAt <= s.rows[j].createdAt
  }

  ghost predicate Solo(s: State, w: WorkerId) { OnlyLocks(s, w) && HoldsOldest(s, w) }

  // The claims from index `from` on are in created_at order and none is younger than a pending job.
  ghost predicate InOrder(s: State, from: nat) {
    && from <= |s.hist.claims|
    && (forall i | from <= i < |s.hist.claims| :: s.hist.claims[i].job in s.rows)
    && (forall i, j | from <= i < j < |s.hist.claims| ::
          s.rows[s.hist.claims[i].job].createdAt <= s.rows[s.hist.claims[j].job].createdAt)
    && (forall i, p | from <= i < |s.hist.claims| && p in PendingJobs(s) ::
          s.rows[s.hist.claims[i].job].createdAt <= s.rows[p].createdAt)
  }

  // Pending jobs plus claims made: what a closed queue conserves.
  ghost function Outstanding(s: State): nat { |PendingJobs(s)| + |s.hist.claims| }

  // Rows keep their creation times.
  ghost predicate SameAges(s: State, s': State) {
    forall id | id in s.rows :: id in s'.rows && s'.rows[id].createdAt == s.rows[id].createdAt
  }

  lemma WorkerKeepsAges(cfg: Risk.Config, s: State, w: WorkerId, step: Step)
    requires Local(cfg, s, step) && Actor(step) == ByWorker(w)
    ensures SameAges(s, Apply(cfg, s, step))
  {
    StepFrameRows(cfg, s, step);
  }

  lemma WorkerTakesPending(cfg: Risk.Config, s: State, w: WorkerId, step: Step)
    requires Local(cfg, s, step) && Actor(step) == ByWorker(w)
    ensures PendingJobs(Apply(cfg, s, step)) ==
            if step.CommitClaim? then PendingJobs(s) - {W(s, w).job} else PendingJobs(s)
    ensures step.CommitClaim? ==> W(s, w).job in PendingJobs(s)
  {
    StepFrameRows(cfg, s, step);
  }

  lemma SoloStepPending(cfg: Risk.Config, s: State, w: WorkerId, step: Step)
    requires Local(cfg, s, step) && Actor(step) == ByWorker(w)
    ensures PendingJobs(Apply(cfg, s, step)) ==
            if step.CommitClaim? then PendingJobs(s) - {W(s, w).job} else PendingJobs(s)
    ensures step.CommitClaim? ==> W(s, w).job in PendingJobs(s)
    ensures SameAges(s, Apply(cfg, s, step))
  {
    WorkerKeepsAges(cfg, s, w, step);
    WorkerTakesPending(cfg, s, w, step);
  }

  lemma StepKeepsLocks(cfg: Risk.Config, s: State, w: WorkerId, step: Step)
    requires Local(cfg, s, step) && Actor(step) == ByWorker(w) && OnlyLocks(s, w)
    ensures OnlyLocks(Apply(cfg, s, step), w)
  {
    StepFrame(cfg, s, step);
  }

  lemma StepKeepsOldest(cfg: Risk.Config, s: State, w: WorkerId, step: Step)
    requires Local(cfg, s, step) && Actor(step) == ByWorker(w) && HoldsOldest(s, w)
    requires step.Select? ==> forall j | j in PendingJobs(s) :: j == step.id || Selectable(s.rows, j)
    ensures HoldsOldest(Apply(cfg, s, step), w)
  {
    SoloStepPending(cfg, s, w, step);
  }

  lemma StepKeepsSolo(cfg: Risk.Config, s: State, w: WorkerId, step: Step)
    requires Local(cfg, s, step) && Actor(step) == ByWorker(w) && Solo(s, w)
    requires step.Select? ==> forall j | j in PendingJobs(s) :: j == step.id || Selectable(s.rows, j)
    ensures Solo(Apply(cfg, s, step), w)
  {
    StepKeepsLocks(cfg, s, w, step);
    StepKeepsOldest(cfg, s, w, step);
  }

  lemma OrderStays(s: State, s': State, from: nat)
    requires InOrder(s, from) && SameAges(s, s')
    requires s'.hist.claims == s.hist.claims && PendingJobs(s') == PendingJobs(s)
    ensures InOrder(s', from) && Outstanding(s') == Outstanding(s)
  {
  }

  lemma OrderGrows(s: State, s': State, c: Claim, from: nat)
    requires InOrder(s, from) && SameAges(s, s')
    requires c.job in PendingJobs(s) && forall j | j in PendingJobs(s) :: s.rows[c.job].createdAt <= s.rows[j].createdAt
    requires s'.hist.claims == s.hist.claims + [c] && PendingJobs(s') == PendingJobs(s) - {c.job}
    ensures InOrder(s', from) && Outstanding(s') == Outstanding(s)
  {
    assert |PendingJobs(s')| == |PendingJobs(s)| - 1;
  }

  lemma SoloStepClaims(cfg: Risk.Config, s: State, w: WorkerId, step: Step)
    requires Enabled(s, step) && Actor(step) == ByWorker(w)
    ensures Apply(cfg, s, step).hist.claims ==
            s.hist.claims + if step.CommitClaim? then [Claim(W(s, w).job, w)] else []
  {
  }

  lemma StepKeepsOrder(cfg: Risk.Config, s: State, w: WorkerId, step: Step, from: nat)
    requires Local(cfg, s, step) && Actor(step) == ByWorker(w) && Solo(s, w) && InOrder(s, from)
    ensures InOrder(Apply(cfg, s, step), from) && Outstanding(Apply(cfg, s, step)) == Outstanding(s)
  {
    var s' := Apply(cfg, s, step);
    SoloStepPending(cfg, s, w, step);
    SoloStepClaims(cfg, s, w, step);
    if step.CommitClaim? {
      OrderGrows(s, s', Claim(W(s, w).job, w), from);
    } else {
      OrderStays(s, s', from);
    }
  }

  lemma SoloStep(cfg: Risk.Config, s: State, w: WorkerId, step: Step, from: nat)
    requires Inv(cfg, s) && Enabled(s, step) && Actor(step) == ByWorker(w)
    requires Solo(s, w) && InOrder(s, from)
    ensures var s' := Apply(cfg, s, step);
            Solo(s', w) && InOrder(s', from) && Outstanding(s') == Outstanding(s)
  {
    InvIsLocal(cfg, s, step);
    if step.Select? {
      assert WorkerOk(cfg, s, w);
      forall j | j in PendingJobs(s) ensures Selectable(s.rows, j) { assert LockOk(s, j); }
    }
    StepKeepsSolo(cfg, s, w, step);
    StepKeepsOrder(cfg, s, w, step, from);
  }

  // With one worker and no requests in flight, claims follow created_at order, and every
  // committed claim takes exactly one job off the pending set.
  lemma {:induction false} ClosedQueueClaimsInOrder(cfg: Risk.Config, s: State, w: WorkerId, steps: seq<Step>, from: nat)
    requires Inv(cfg, s) && ValidRun(cfg, s, steps) && OnlyWorker(steps, w)
    requires Solo(s, w) && InOrder(s, from)
    ensures var s' := Exec(cfg, s, steps);
            Solo(s', w) && InOrder(s', from) && Outstanding(s') == Outstanding(s)
    decreases |steps|
  {
    if steps != [] {
      InvStep(cfg, s, steps[0]);
      assert Actor(steps[0]) == ByWorker(w);
      SoloStep(cfg, s, w, steps[0], from);
      ClosedQueueClaimsInOrder(cfg, Apply(cfg, s, steps[0]), w, steps[1..], from);
    }
  }

  lemma {:induction false} OldestExists(s: State, ids: set<JobId>) returns (m: JobId)
    requires ids != {} && ids <= s.rows.Keys
    ensures m in ids && forall j | j in ids :: s.rows[m].createdAt <= s.rows[j].createdAt
  {
    m := SomeMember(ids);
    if ids != {m} {
      var rest := OldestExists(s, ids - {m});
      if s.rows[rest].createdAt < s.rows[m].createdAt { m := rest; }
    }
  }

  // A poll of the closed queue comes back empty exactly when nothing is pending; otherwise the
  // SELECT finds a row.  With the conserved count, n pending jobs are gone after n committed claims.
  lemma PollFindsPendingWork(cfg: Risk.Config, s: State, w: WorkerId)
    requires Inv(cfg, s) && Solo(s, w) && W(s, w).InTx?
    ensures Enabled(s, SelectNone(w)) <==> PendingJobs(s) == {}
    ensures (exists id :: Enabled(s, Select(w, id))) <==> PendingJobs(s) != {}
  {
    forall id ensures Selectable(s.rows, id) <==> id in PendingJobs(s) { assert LockOk(s, id); }
    if PendingJobs(s) != {} {
      var id := OldestExists(s, PendingJobs(s));
      assert Selectable(s.rows, id) && Enabled(s, Select(w, id));
    }
  }

  // ---- progress ----

  // Polls begun, and polls cut short by a rollback or a crash.
  function Polls(steps: seq<Step>): nat {
    if steps == [] then 0 else (if steps[0].Begin? then 1 else 0) + Polls(steps[1..])
  }

  function Aborts(steps: seq<Step>): nat {
    if steps == [] then 0 else (if steps[0].Abort? then 1 else 0) + Aborts(steps[1..])
  }

  // Whether a poll has begun and its claim is still open.
  function InPoll(s: State, w: WorkerId): nat {
    if W(s, w).InTx? || W(s, w).Locked? || W(s, w).Marked? then 1 else 0
  }

  lemma StepIsProgress(cfg: Risk.Config, s: State, w: WorkerId, step: Step)
    requires Enabled(s, step) && Actor(step) == ByWorker(w)
    requires step.SelectNone? ==> PendingJobs(s) == {}
    ensures PendingJobs(s) == {} ||
            InPoll(s, w) + (if step.Begin? then 1 else 0)
            <= InPoll(Apply(cfg, s, step), w) + (if step.Abort? || step.CommitClaim? then 1 else 0)
  {
  }

  // Every poll of the closed queue either takes a job off the pending set or is aborted, unless
  // nothing is pending any more.
  lemma {:induction false} PollsMakeProgress(cfg: Risk.Config, s: State, w: WorkerId, steps: seq<Step>)
    requires Inv(cfg, s) && ValidRun(cfg, s, steps) && OnlyWorker(steps, w) && Solo(s, w)
    ensures var s' := Exec(cfg, s, steps);
            && PendingJobs(s') <= PendingJobs(s)
            && (PendingJobs(s') == {} ||
                Polls(steps) + InPoll(s, w) <= |PendingJobs(s)| - |PendingJobs(s')| + Aborts(steps) + InPoll(s', w))
    decreases |steps|
  {
    if steps != [] {
      var step, s1 := steps[0], Apply(cfg, s, steps[0]);
      assert Actor(step) == ByWorker(w);
      InvStep(cfg, s, step);
      InvIsLocal(cfg, s, step);
      SoloStep(cfg, s, w, step, |s.hist.claims|);
      SoloStepPending(cfg, s, w, step);
      if step.SelectNone? { PollFindsPendingWork(cfg, s, w); }
      StepIsProgress(cfg, s, w, step);
      PollsMakeProgress(cfg, s1, w, steps[1..]);
    }
  }

  // So a closed queue drains: n pending jobs are gone after n + 1 polls beyond those that were
  // aborted, and then exactly n more claims have been committed.
  lemma ClosedQueueDrains(cfg: Risk.Config, s: State, w: WorkerId, steps: seq<Step>)
    requires Inv(cfg, s) && ValidRun(cfg, s, steps) && OnlyWorker(steps, w) && Solo(s, w)
    ensures var s' := Exec(cfg, s, steps);
            var made := |s'.hist.claims| - |s.hist.claims|;
            && made <= |PendingJobs(s)| && (PendingJobs(s') == {} <==> made == |PendingJobs(s)|)
            && (Polls(steps) + InPoll(s, w) > |PendingJobs(s)| + Aborts(steps) ==> PendingJobs(s') == {})
  {
    ClosedQueueClaimsInOrder(cfg, s, w, steps, |s.hist.claims|);
    PollsMakeProgress(cfg, s, w, steps);
  }
}
