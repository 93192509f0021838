/**
  What the job queue guarantees over whole runs: one order per signal and account,
  cancellation against execution, and the unguarded status write.
*/
module JobQueueSafety {
  import opened Options
  import opened JobQueue
  import opened JobQueueInvariant
  import Risk = RiskManager

  // ---- one order per (signal, account) ----

  lemma AtMostOneOrderPerSignalAndAccount(cfg: Risk.Config, s: State)
    requires Reachable(cfg, s)
    ensures forall o | o in s.hist.orders :: o.job in s.rows
    ensures forall i, j | 0 <= i < j < |s.hist.orders| ::
              s.rows[s.hist.orders[i].job].key != s.rows[s.hist.orders[j].job].key
  {
    ReachableInv(cfg, s);
    forall o | o in s.hist.orders ensures o.job in s.rows { assert OrderOk(cfg, s, o); }
  }

  // The existing-job check alone would not give this: two requests can both pass it.
  lemma TwoRequestsPassTheCheck(cfg: Risk.Config, key: Key, p: Risk.Payload)
    ensures exists s :: Reachable(cfg, s) && R(s, 1) == Checked(key, p) && R(s, 2) == Checked(key, p)
  {
    assert Leads(cfg, INITIAL, [], INITIAL);
    var s1 := Apply(cfg, INITIAL, Check(1, key, p));
    ReachableStep(cfg, INITIAL, Check(1, key, p));
    ReachableStep(cfg, s1, Check(2, key, p));
    assert R(Apply(cfg, s1, Check(2, key, p)), 1) == Checked(key, p);
  }

  // `scalar_one_or_none` in the check never meets two rows.
  lemma CheckSeesAtMostOneRow(cfg: Risk.Config, s: State, a: JobId, b: JobId)
    requires Reachable(cfg, s) && a in s.rows && b in s.rows && s.rows[a].key == s.rows[b].key
    ensures a == b
  {
    ReachableInv(cfg, s);
  }

  // ---- what no run takes back ----

  ghost predicate Committed(s: State, id: JobId) { id in s.rows && s.rows[id].committed.Some? }

  // History only grows, and a committed row keeps its place, its key and its payload.
  ghost predicate Extends(s: State, s': State) {
    && s.hist.claims <= s'.hist.claims && s.hist.orders <= s'.hist.orders && s.hist.cancels <= s'.hist.cancels
    && s.hist.lostAcks <= s'.hist.lostAcks
    && forall id | Committed(s, id) ::
         Committed(s', id) && s'.rows[id].key == s.rows[id].key && s'.rows[id].payload == s.rows[id].payload
  }

  lemma StepKeepsCommitted(cfg: Risk.Config, s: State, step: Step, id: JobId)
    requires Enabled(s, step) && Committed(s, id)
    ensures var s' := Apply(cfg, s, step);
            Committed(s', id) && s'.rows[id].key == s.rows[id].key && s'.rows[id].payload == s.rows[id].payload
  {
  }

  lemma StepExtends(cfg: Risk.Config, s: State, step: Step)
    requires Enabled(s, step)
    ensures Extends(s, Apply(cfg, s, step))
  {
    StepHistory(cfg, s, step);
    forall id | Committed(s, id)
      ensures var s' := Apply(cfg, s, step);
              Committed(s', id) && s'.rows[id].key == s.rows[id].key && s'.rows[id].payload == s.rows[id].payload
    {
      StepKeepsCommitted(cfg, s, step, id);
    }
  }

  lemma {:induction false} RunExtends(cfg: Risk.Config, s: State, steps: seq<Step>)
    requires Inv(cfg, s) && ValidRun(cfg, s, steps)
    ensures Extends(s, Exec(cfg, s, steps)) && Inv(cfg, Exec(cfg, s, steps))
    decreases |steps|
  {
    if steps != [] {
      InvStep(cfg, s, steps[0]);
      StepExtends(cfg, s, steps[0]);
      RunExtends(cfg, Apply(cfg, s, steps[0]), steps[1..]);
    }
  }

  // A committed cancellation is final: in every continuation the job is never claimed, never
  // ordered, and its status stays CANCELLED.
  lemma CommittedCancelIsNeverExecuted(cfg: Risk.Config, s: State, steps: seq<Step>, id: JobId)
    requires Reachable(cfg, s) && ValidRun(cfg, s, steps) && id in s.hist.cancels
    ensures var s' := Exec(cfg, s, steps);
            && !ClaimedEver(s'.hist, id) && !Ordered(s'.hist, id)
            && HasStatus(s', id, Cancelled)
  {
    ReachableInv(cfg, s);
    RunExtends(cfg, s, steps);
    assert RowHistoryOk(Exec(cfg, s, steps), id) && LockOk(Exec(cfg, s, steps), id);
  }

  // And a committed claim is final against cancellation.
  lemma CommittedClaimIsNeverCancelled(cfg: Risk.Config, s: State, steps: seq<Step>, id: JobId)
    requires Reachable(cfg, s) && ValidRun(cfg, s, steps) && ClaimedEver(s.hist, id)
    ensures var s' := Exec(cfg, s, steps);
            id !in s'.hist.cancels && id in s'.rows && s'.rows[id].lock.None? && Executing(s'.rows[id].status)
  {
    ReachableInv(cfg, s);
    RunExtends(cfg, s, steps);
    var s' := Exec(cfg, s, steps);
    var c :| c in s.hist.claims && c.job == id;
    assert c in s'.hist.claims;
    assert RowHistoryOk(s', id) && LockOk(s', id);
  }

  predicate Terminal(status: Status) { status == Success || status == Failed || status == Cancelled }

  // The unique constraint outlives the job: after any committed job, whatever became of it, no
  // request ever inserts the same pair again, although the existing-job check lets the request
  // through exactly when that job is terminal.
  lemma PairIsNeverEnqueuedAgain(cfg: Risk.Config, s: State, steps: seq<Step>, id: JobId)
    requires Reachable(cfg, s) && ValidRun(cfg, s, steps) && Committed(s, id)
    ensures var s', key := Exec(cfg, s, steps), s.rows[id].key;
            && (forall r, j, t :: R(s', r).Checked? && R(s', r).key == key ==> !Enabled(s', Insert(r, j, t)))
            && (NoLiveJob(s'.rows, key) <==>
                Committed(s', id) && Terminal(s'.rows[id].committed.value))
  {
    ReachableInv(cfg, s);
    RunExtends(cfg, s, steps);
    var s' := Exec(cfg, s, steps);
    assert s'.rows[id].key == s.rows[id].key;
  }

  // ---- the unguarded status write ----

  // Wherever ProcessNextJob reaches a status write, the row is the one this worker claimed, no
  // other transaction holds it, and the bare UPDATE does what the guarded complete_job would do;
  // the one exception is the FAILED write that follows a SUCCESS write whose answer was lost.
  lemma UnguardedWriteRefinesCompleteJob(cfg: Risk.Config, s: State, w: WorkerId, status: Status)
    requires Reachable(cfg, s) && (W(s, w).Sent? || W(s, w).Failing?) && status != Success
    ensures var id := W(s, w).job;
            && Claim(id, w) in s.hist.claims && (forall v | Claim(id, v) in s.hist.claims :: v == w)
            && Unblocked(s.rows, id)
            && (Written(s.rows, id, status) == Completed(s.rows, id, status) <==> id !in s.hist.lostAcks)
            && (W(s, w).Sent? ==> Written(s.rows, id, Success) == Completed(s.rows, id, Success))
  {
    ReachableInv(cfg, s);
    var id := W(s, w).job;
    assert WorkerOk(cfg, s, w) && RowHistoryOk(s, id);
    forall v | Claim(id, v) in s.hist.claims ensures v == w { ClaimsAgree(cfg, s, id, v, w); }
    assert Written(s.rows, id, status)[id].status == status;
  }

  // What complete_job's guard would change: at the deferred FAILED write it keeps the SUCCESS of a
  // lost answer, which the bare write overwrites; everywhere else the two agree.
  lemma GuardKeepsFirstOutcome(cfg: Risk.Config, s: State, w: WorkerId)
    requires Reachable(cfg, s) && W(s, w).Failing?
    ensures var id := W(s, w).job;
            && id in s.rows && Written(s.rows, id, Failed)[id].status == Failed
            && Completed(s.rows, id, Failed)[id].status == (if id in s.hist.lostAcks then Success else Failed)
            && (forall status :: Completed(Completed(s.rows, id, Failed), id, status) == Completed(s.rows, id, Failed))
  {
    ReachableInv(cfg, s);
    var id := W(s, w).job;
    assert WorkerOk(cfg, s, w) && RowHistoryOk(s, id);
  }

  // SUCCESS is only ever written for a job whose payload passed validation and for which
  // exactly one order went out, posted by the one worker that claimed it.
  lemma SuccessMeansOneApprovedOrder(cfg: Risk.Config, s: State, id: JobId)
    requires Reachable(cfg, s) && HasStatus(s, id, Success)
    ensures exists i | 0 <= i < |s.hist.orders| ::
              var o := s.hist.orders[i];
              && o.job == id && Claim(id, o.worker) in s.hist.claims
              && Risk.Acceptable(cfg, s.rows[id].payload, o.snap)
              && forall j | 0 <= j < |s.hist.orders| && s.hist.orders[j].job == id :: j == i
  {
    ReachableInv(cfg, s);
    assert LockOk(s, id) && RowHistoryOk(s, id);
    var o :| o in s.hist.orders && o.job == id;
    assert OrderOk(cfg, s, o);
    var i :| 0 <= i < |s.hist.orders| && s.hist.orders[i] == o;
  }

  // What a terminal row may still become: only SUCCESS with a lost answer can turn into FAILED.
  ghost predicate Absorbed(s: State, s': State, id: JobId) {
    && id in s.rows && id in s'.rows
    && (s'.rows[id].committed == s.rows[id].committed
        || (s.rows[id].committed == Some(Success) && s'.rows[id].committed == Some(Failed) && id in s.hist.lostAcks))
  }

  lemma StepAbsorbs(cfg: Risk.Config, s: State, step: Step, id: JobId)
    requires Local(cfg, s, step) && LockOk(s, id)
    requires Committed(s, id) && Terminal(s.rows[id].committed.value)
    ensures Absorbed(s, Apply(cfg, s, step), id)
    ensures id in Apply(cfg, s, step).hist.lostAcks ==> id in s.hist.lostAcks
  {
    StepFrame(cfg, s, step);
  }

  lemma {:induction false} TerminalStatesAbsorb(cfg: Risk.Config, s: State, steps: seq<Step>, id: JobId)
    requires Inv(cfg, s) && ValidRun(cfg, s, steps)
    requires Committed(s, id) && Terminal(s.rows[id].committed.value)
    ensures Absorbed(s, Exec(cfg, s, steps), id)
    decreases |steps|
  {
    if steps != [] {
      var s1 := Apply(cfg, s, steps[0]);
      InvIsLocal(cfg, s, steps[0]);
      InvStep(cfg, s, steps[0]);
      StepAbsorbs(cfg, s, steps[0], id);
      TerminalStatesAbsorb(cfg, s1, steps[1..], id);
    }
  }

  // ---- jobs no worker holds any more ----

  ghost predicate Unattended(s: State, id: JobId) {
    && Committed(s, id) && Executing(s.rows[id].committed.value)
    && forall w | PastClaim(W(s, w)) :: W(s, w).job != id
  }

  lemma NobodyActsOnUnattended(cfg: Risk.Config, s: State, step: Step, id: JobId)
    requires Local(cfg, s, step) && LockOk(s, id) && Unattended(s, id)
    ensures Subject(s, step) != Some(id)
  {
  }

  // A worker holds after its step what the step was about.
  lemma JobAfterStep(cfg: Risk.Config, s: State, step: Step, w: WorkerId)
    requires Enabled(s, step)
    ensures PastClaim(W(Apply(cfg, s, step), w)) ==>
              Subject(s, step) == Some(W(Apply(cfg, s, step), w).job) || W(Apply(cfg, s, step), w) == W(s, w)
  {
  }

  lemma StepLeavesUnattended(cfg: Risk.Config, s: State, step: Step, id: JobId)
    requires Local(cfg, s, step) && LockOk(s, id) && Unattended(s, id)
    ensures var s' := Apply(cfg, s, step);
            Unattended(s', id) && s'.rows[id] == s.rows[id] && (Ordered(s'.hist, id) <==> Ordered(s.hist, id))
  {
    var s' := Apply(cfg, s, step);
    NobodyActsOnUnattended(cfg, s, step, id);
    StepFrame(cfg, s, step);
    StepHistory(cfg, s, step);
    assert SameRow(s.rows, s'.rows, id);
    forall w | PastClaim(W(s', w)) ensures W(s', w).job != id { JobAfterStep(cfg, s, step, w); }
  }

  // Once no worker holds a claimed or finished job, its row never changes again and no further
  // order is posted for it.  So a SUCCESS or FAILED whose worker moved on is final, and a job
  // whose worker crashed after the claim stays CLAIMED: nothing executes, cancels or re-queues it.
  lemma {:induction false} UnattendedRowNeverChanges(cfg: Risk.Config, s: State, steps: seq<Step>, id: JobId)
    requires Inv(cfg, s) && ValidRun(cfg, s, steps) && Unattended(s, id)
    ensures var s' := Exec(cfg, s, steps);
            Unattended(s', id) && s'.rows[id] == s.rows[id] && (Ordered(s'.hist, id) <==> Ordered(s.hist, id))
    decreases |steps|
  {
    if steps != [] {
      var s1 := Apply(cfg, s, steps[0]);
      InvIsLocal(cfg, s, steps[0]);
      InvStep(cfg, s, steps[0]);
      assert LockOk(s, id) && RowHistoryOk(s, id);
      StepLeavesUnattended(cfg, s, steps[0], id);
      UnattendedRowNeverChanges(cfg, s1, steps[1..], id);
    }
  }

  // A SUCCESS row can still become FAILED exactly when some worker is about to run its deferred
  // FAILED write for it, which (by the invariant) takes a SUCCESS write whose answer was lost.
  lemma SuccessOverwrittenExactlyWhen(cfg: Risk.Config, s: State, id: JobId)
    requires Reachable(cfg, s) && HasStatus(s, id, Success)
    ensures (exists steps :: ValidRun(cfg, s, steps) && HasStatus(Exec(cfg, s, steps), id, Failed))
            <==> exists w :: W(s, w) == Failing(id)
    ensures forall w :: W(s, w) == Failing(id) ==> id in s.hist.lostAcks
  {
    ReachableInv(cfg, s);
    assert LockOk(s, id);
    forall w | PastClaim(W(s, w)) && W(s, w).job == id ensures W(s, w) == Failing(id) && id in s.hist.lostAcks {
      assert WorkerOk(cfg, s, w);
    }
    if w :| W(s, w) == Failing(id) {
      var step := WriteFailed(w, true);
      assert WorkerOk(cfg, s, w);
      OneStep(cfg, s, step);
      assert HasStatus(Exec(cfg, s, [step]), id, Failed);
    } else {
      forall steps | ValidRun(cfg, s, steps) ensures HasStatus(Exec(cfg, s, steps), id, Success) {
        UnattendedRowNeverChanges(cfg, s, steps, id);
      }
    }
  }

  // ---- jobs given up before their order ----

  // Whoever still holds the job is about to fail it, and no order was posted.
  ghost predicate GivenUp(s: State, id: JobId) {
    && Committed(s, id) && Executing(s.rows[id].committed.value) && !Ordered(s.hist, id)
    && forall w | PastClaim(W(s, w)) && W(s, w).job == id :: W(s, w).Failing?
  }

  lemma NobodyOrdersGivenUp(cfg: Risk.Config, s: State, step: Step, id: JobId)
    requires Local(cfg, s, step) && LockOk(s, id) && GivenUp(s, id)
    ensures !Ordered(Apply(cfg, s, step).hist, id)
  {
  }

  // Only the holder acts on such a job, and its write or crash is its last step on it.
  lemma HolderLetsGo(cfg: Risk.Config, s: State, step: Step, id: JobId)
    requires Local(cfg, s, step) && LockOk(s, id) && GivenUp(s, id) && Subject(s, step) == Some(id)
    ensures Actor(step).ByWorker? && W(Apply(cfg, s, step), Actor(step).w).Idle?
  {
  }

  lemma StepKeepsExecuting(cfg: Risk.Config, s: State, step: Step, id: JobId)
    requires Local(cfg, s, step) && LockOk(s, id) && GivenUp(s, id)
    ensures Committed(Apply(cfg, s, step), id) && Executing(Apply(cfg, s, step).rows[id].committed.value)
  {
    StepFrameRows(cfg, s, step);
  }

  lemma StepKeepsGivenUp(cfg: Risk.Config, s: State, step: Step, id: JobId)
    requires Local(cfg, s, step) && LockOk(s, id) && GivenUp(s, id)
    ensures GivenUp(Apply(cfg, s, step), id)
  {
    var s' := Apply(cfg, s, step);
    NobodyOrdersGivenUp(cfg, s, step, id);
    StepKeepsExecuting(cfg, s, step, id);
    StepFrameAgents(cfg, s, step);
    forall w | PastClaim(W(s', w)) && W(s', w).job == id ensures W(s', w).Failing? {
      JobAfterStep(cfg, s, step, w);
      if Subject(s, step) == Some(id) { HolderLetsGo(cfg, s, step, id); }
    }
  }

  // A job given up before its order is never ordered.
  lemma {:induction false} GivenUpIsNeverOrdered(cfg: Risk.Config, s: State, steps: seq<Step>, id: JobId)
    requires Inv(cfg, s) && ValidRun(cfg, s, steps) && GivenUp(s, id)
    ensures GivenUp(Exec(cfg, s, steps), id)
    decreases |steps|
  {
    if steps != [] {
      InvIsLocal(cfg, s, steps[0]);
      InvStep(cfg, s, steps[0]);
      assert LockOk(s, id);
      StepKeepsGivenUp(cfg, s, steps[0], id);
      GivenUpIsNeverOrdered(cfg, Apply(cfg, s, steps[0]), steps[1..], id);
    }
  }
}
