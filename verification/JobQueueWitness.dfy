/**
  Runs that exist, and exactly when: which pending jobs can be executed, which answers do not bind,
  and which claimed jobs can still be settled.
*/
module JobQueueWitness {
  import opened Collections
  import opened Options
  import opened JobQueue
  import opened JobQueueInvariant
  import opened JobQueueOrder
  import opened JobQueueSafety
  import Risk = RiskManager

  lemma Prepend(cfg: Risk.Config, s: State, step: Step, rest: seq<Step>)
    requires Enabled(s, step) && ValidRun(cfg, Apply(cfg, s, step), rest)
    ensures ValidRun(cfg, s, [step] + rest)
    ensures Exec(cfg, s, [step] + rest) == Exec(cfg, Apply(cfg, s, step), rest)
  {
    assert ([step] + rest)[1..] == rest;
  }

  // One claim of the oldest job, with or without the answer to its commit.
  lemma ClaimOldest(cfg: Risk.Config, s: State, w: WorkerId, m: JobId, acknowledged: bool) returns (run: seq<Step>)
    requires W(s, w).Idle? && Oldest(s.rows, m)
    ensures ValidRun(cfg, s, run) && OnlyWorker(run, w)
    ensures var s' := Exec(cfg, s, run);
            && W(s', w) == (if acknowledged then Validating(m) else Idle)
            && s'.rows == s.rows[m := s.rows[m].(status := Claimed, committed := Some(Claimed), lock := None)]
  {
    var s1 := Apply(cfg, s, Begin(w));
    var s2 := Apply(cfg, s1, Select(w, m));
    var s3 := Apply(cfg, s2, Mark(w));
    OneStep(cfg, s3, CommitClaim(w, acknowledged));
    run := [CommitClaim(w, acknowledged)];
    Prepend(cfg, s2, Mark(w), run);
    run := [Mark(w)] + run;
    Prepend(cfg, s1, Select(w, m), run);
    run := [Select(w, m)] + run;
    Prepend(cfg, s, Begin(w), run);
    run := [Begin(w)] + run;
  }

  lemma ValidateAndPost(cfg: Risk.Config, s: State, w: WorkerId, id: JobId, snap: Risk.Snapshot) returns (run: seq<Step>)
    requires W(s, w) == Validating(id) && id in s.rows && Risk.Acceptable(cfg, s.rows[id].payload, snap)
    ensures ValidRun(cfg, s, run) && OnlyWorker(run, w)
    ensures var s' := Exec(cfg, s, run);
            W(s', w) == Sent(id) && Ordered(s'.hist, id) && s'.rows == s.rows
  {
    var s1 := Apply(cfg, s, Validate(w, snap));
    var s2 := Apply(cfg, s1, Post(w));
    assert Order(id, w, snap) in s2.hist.orders;
    OneStep(cfg, s1, Post(w));
    run := [Post(w)];
    Prepend(cfg, s, Validate(w, snap), run);
    run := [Validate(w, snap)] + run;
  }

  // An idle worker that meets an acceptable oldest job can carry it through to the bridge.
  lemma AcceptableJobCanBePosted(cfg: Risk.Config, s: State, w: WorkerId, id: JobId, snap: Risk.Snapshot)
    returns (run: seq<Step>)
    requires W(s, w).Idle? && Oldest(s.rows, id)
    requires Risk.Acceptable(cfg, s.rows[id].payload, snap)
    ensures ValidRun(cfg, s, run) && OnlyWorker(run, w)
    ensures var s' := Exec(cfg, s, run);
            W(s', w) == Sent(id) && Ordered(s'.hist, id) && HasStatus(s', id, Claimed)
  {
    var claim := ClaimOldest(cfg, s, w, id, true);
    var post := ValidateAndPost(cfg, Exec(cfg, s, claim), w, id, snap);
    RunsCompose(cfg, s, claim, post);
    run := claim + post;
  }

  // ---- every acceptable pending job ----

  lemma {:induction false} UpperBound(xs: set<int>) returns (b: int)
    ensures forall x | x in xs :: x < b
  {
    if xs == {} { return 0; }
    var m := SomeMember(xs);
    b := UpperBound(xs - {m});
    if b <= m { b := m + 1; }
    assert forall x | x in xs :: x == m || x in xs - {m};
  }

  // There is always one more worker.
  lemma FreshWorker(s: State) returns (w: WorkerId)
    ensures W(s, w).Idle?
  {
    w := UpperBound(s.workers.Keys);
  }

  // Older jobs a claim would take before this one.
  ghost function Ahead(s: State, id: JobId): set<JobId>
    requires id in s.rows
  {
    set j | j in s.rows && Selectable(s.rows, j) && s.rows[j].createdAt < s.rows[id].createdAt
  }

  lemma OldestAhead(s: State, id: JobId) returns (m: JobId)
    requires Selectable(s.rows, id) && Ahead(s, id) != {}
    ensures m in Ahead(s, id) && Oldest(s.rows, m)
  {
    m := OldestExists(s, Ahead(s, id));
    forall j | j in s.rows && Selectable(s.rows, j) ensures s.rows[m].createdAt <= s.rows[j].createdAt {
      assert j in Ahead(s, id) || s.rows[id].createdAt <= s.rows[j].createdAt;
    }
  }

  lemma AheadShrinks(s: State, s': State, id: JobId, m: JobId)
    requires Selectable(s.rows, id) && m in Ahead(s, id)
    requires s'.rows == s.rows[m := s.rows[m].(status := Claimed, committed := Some(Claimed), lock := None)]
    ensures Selectable(s'.rows, id) && s'.rows[id] == s.rows[id] && Ahead(s', id) < Ahead(s, id)
  {
    assert m in Ahead(s, id) && m !in Ahead(s', id);
  }

  // The worker claims job after job until this one is the oldest.
  lemma {:induction false} ClaimAllAhead(cfg: Risk.Config, s: State, w: WorkerId, id: JobId) returns (run: seq<Step>)
    requires W(s, w).Idle? && Selectable(s.rows, id)
    ensures ValidRun(cfg, s, run) && OnlyWorker(run, w)
    ensures var s' := Exec(cfg, s, run);
            W(s', w).Idle? && Oldest(s'.rows, id) && s'.rows[id] == s.rows[id]
    decreases Ahead(s, id)
  {
    if Ahead(s, id) == {} {
      forall j | j in s.rows && Selectable(s.rows, j) ensures s.rows[id].createdAt <= s.rows[j].createdAt {
        assert j !in Ahead(s, id);
      }
      run := [];
    } else {
      var m := OldestAhead(s, id);
      var first := ClaimOldest(cfg, s, w, m, false);
      var s1 := Exec(cfg, s, first);
      AheadShrinks(s, s1, id, m);
      var rest := ClaimAllAhead(cfg, s1, w, id);
      RunsCompose(cfg, s, first, rest);
      run := first + rest;
    }
  }

  lemma ReachableRun(cfg: Risk.Config, s: State, run: seq<Step>)
    requires Reachable(cfg, s) && ValidRun(cfg, s, run)
    ensures Reachable(cfg, Exec(cfg, s, run))
  {
    LeadsOn(cfg, s, [], s, run, Exec(cfg, s, run));
  }

  lemma SelectableJobCanBePosted(cfg: Risk.Config, s: State, w: WorkerId, id: JobId, snap: Risk.Snapshot)
    returns (run: seq<Step>)
    requires W(s, w).Idle? && Selectable(s.rows, id) && Risk.Acceptable(cfg, s.rows[id].payload, snap)
    ensures ValidRun(cfg, s, run) && OnlyWorker(run, w) && Ordered(Exec(cfg, s, run).hist, id)
  {
    var clear := ClaimAllAhead(cfg, s, w, id);
    var s1 := Exec(cfg, s, clear);
    var rest := AcceptableJobCanBePosted(cfg, s1, w, id, snap);
    RunsCompose(cfg, s, clear, rest);
    run := clear + rest;
  }

  // By the steps of one worker alone.
  ghost predicate CanExecuteAlone(cfg: Risk.Config, s: State, w: WorkerId, id: JobId) {
    exists steps :: ValidRun(cfg, s, steps) && OnlyWorker(steps, w) && Ordered(Exec(cfg, s, steps).hist, id)
  }

  ghost predicate CanStillExecute(cfg: Risk.Config, s: State, id: JobId) {
    exists steps :: ValidRun(cfg, s, steps) && Ordered(Exec(cfg, s, steps).hist, id)
  }

  lemma OrderNeedsAcceptance(cfg: Risk.Config, s: State, steps: seq<Step>, id: JobId)
    requires Reachable(cfg, s) && Committed(s, id) && ValidRun(cfg, s, steps) && Ordered(Exec(cfg, s, steps).hist, id)
    ensures Risk.SomeSnapshotAccepts(cfg, s.rows[id].payload)
  {
    ReachableInv(cfg, s);
    RunExtends(cfg, s, steps);
    var s' := Exec(cfg, s, steps);
    var o :| o in s'.hist.orders && o.job == id;
    assert OrderOk(cfg, s', o);
  }

  // A pending job can be executed, by any one idle worker and however many older jobs are ahead of
  // it, exactly when its payload is sound; no help from others would change that.
  lemma PendingExecutesExactlyWhen(cfg: Risk.Config, s: State, w: WorkerId, id: JobId)
    requires Reachable(cfg, s) && W(s, w).Idle? && Selectable(s.rows, id)
    ensures CanExecuteAlone(cfg, s, w, id) <==> Risk.Sound(cfg, s.rows[id].payload) && cfg.maxPositions > 0
    ensures CanStillExecute(cfg, s, id) <==> CanExecuteAlone(cfg, s, w, id)
  {
    ReachableInv(cfg, s);
    assert LockOk(s, id);
    Risk.SomeSnapshotAcceptsExactlyWhen(cfg, s.rows[id].payload);
    if snap :| Risk.Acceptable(cfg, s.rows[id].payload, snap) {
      var run := SelectableJobCanBePosted(cfg, s, w, id, snap);
    }
    if CanStillExecute(cfg, s, id) {
      var steps :| ValidRun(cfg, s, steps) && Ordered(Exec(cfg, s, steps).hist, id);
      OrderNeedsAcceptance(cfg, s, steps, id);
    }
  }

  // cancel_job answers true before its transaction commits, and until that commit the answer binds
  // nobody: the job can still be executed exactly when its payload is sound, as any pending job can.
  lemma CancelAnsweredTrueMayStillExecute(cfg: Risk.Config, s: State, r: RequestId, id: JobId)
    requires Reachable(cfg, s) && R(s, r) == Cancelling(id)
    ensures id in s.rows
    ensures CanStillExecute(cfg, s, id) <==> Risk.Sound(cfg, s.rows[id].payload) && cfg.maxPositions > 0
  {
    ReachableInv(cfg, s);
    assert RequestOk(s, r) && LockOk(s, id);
    var s1 := Apply(cfg, s, AbortRequest(r));
    ReachableStep(cfg, s, AbortRequest(r));
    Risk.SomeSnapshotAcceptsExactlyWhen(cfg, s.rows[id].payload);
    if snap :| Risk.Acceptable(cfg, s.rows[id].payload, snap) {
      var w := FreshWorker(s1);
      var run := SelectableJobCanBePosted(cfg, s1, w, id, snap);
      Prepend(cfg, s, AbortRequest(r), run);
      assert Ordered(Exec(cfg, s, [AbortRequest(r)] + run).hist, id);
    }
    if CanStillExecute(cfg, s, id) {
      var steps :| ValidRun(cfg, s, steps) && Ordered(Exec(cfg, s, steps).hist, id);
      OrderNeedsAcceptance(cfg, s, steps, id);
    }
  }

  // ---- jobs left CLAIMED ----

  ghost predicate CanStillSettle(cfg: Risk.Config, s: State, id: JobId) {
    exists steps :: ValidRun(cfg, s, steps)
                    && (HasStatus(Exec(cfg, s, steps), id, Success) || HasStatus(Exec(cfg, s, steps), id, Failed))
  }

  // The worker that holds a claimed job can always at least fail it.
  lemma HolderCanFail(cfg: Risk.Config, s: State, w: WorkerId) returns (run: seq<Step>)
    requires Reachable(cfg, s) && PastClaim(W(s, w))
    ensures ValidRun(cfg, s, run) && HasStatus(Exec(cfg, s, run), W(s, w).job, Failed)
  {
    ReachableInv(cfg, s);
    assert WorkerOk(cfg, s, w);
    run := [WriteFailed(w, true)];
    if W(s, w).Failing? {
      OneStep(cfg, s, WriteFailed(w, true));
    } else {
      var s1 := Apply(cfg, s, Fault(w));
      OneStep(cfg, s1, WriteFailed(w, true));
      Prepend(cfg, s, Fault(w), run);
      run := [Fault(w)] + run;
    }
  }

  // A CLAIMED job can still end as SUCCESS or FAILED exactly as long as a worker holds it.
  lemma ClaimedJobSettlesExactlyWhen(cfg: Risk.Config, s: State, id: JobId)
    requires Reachable(cfg, s) && HasStatus(s, id, Claimed)
    ensures CanStillSettle(cfg, s, id) <==> exists w :: PastClaim(W(s, w)) && W(s, w).job == id
  {
    ReachableInv(cfg, s);
    if w :| PastClaim(W(s, w)) && W(s, w).job == id {
      var run := HolderCanFail(cfg, s, w);
    } else {
      forall steps | ValidRun(cfg, s, steps) ensures HasStatus(Exec(cfg, s, steps), id, Claimed) {
        UnattendedRowNeverChanges(cfg, s, steps, id);
      }
    }
  }

  lemma AbortLeavesUnattended(cfg: Risk.Config, s: State, w: WorkerId)
    requires Inv(cfg, s) && (W(s, w).Validating? || W(s, w).Ordering?)
    ensures var id, s1 := W(s, w).job, Apply(cfg, s, Abort(w));
            Unattended(s1, id) && HasStatus(s1, id, Claimed) && !Ordered(s1.hist, id)
  {
    var id, s1 := W(s, w).job, Apply(cfg, s, Abort(w));
    assert WorkerOk(cfg, s, w) && LockOk(s, id);
    forall v | PastClaim(W(s1, v)) ensures W(s1, v).job != id {
      assert v != w && W(s1, v) == W(s, v);
      HoldersDistinct(cfg, s, v, w);
    }
  }

  // A worker that dies between its claim and its order leaves the job CLAIMED and unordered in every
  // continuation.
  lemma DeadWorkerStrandsItsJob(cfg: Risk.Config, s: State, w: WorkerId)
    requires Reachable(cfg, s) && (W(s, w).Validating? || W(s, w).Ordering?)
    ensures var id, s1 := W(s, w).job, Apply(cfg, s, Abort(w));
            && Reachable(cfg, s1)
            && forall steps | ValidRun(cfg, s1, steps) ::
                 HasStatus(Exec(cfg, s1, steps), id, Claimed) && !Ordered(Exec(cfg, s1, steps).hist, id)
  {
    var id, s1 := W(s, w).job, Apply(cfg, s, Abort(w));
    ReachableInv(cfg, s);
    ReachableStep(cfg, s, Abort(w));
    ReachableInv(cfg, s1);
    AbortLeavesUnattended(cfg, s, w);
    forall steps | ValidRun(cfg, s1, steps)
      ensures HasStatus(Exec(cfg, s1, steps), id, Claimed) && !Ordered(Exec(cfg, s1, steps).hist, id)
    {
      UnattendedRowNeverChanges(cfg, s1, steps, id);
    }
  }

  // ---- a pair blocked for good ----

  lemma After(cfg: Risk.Config, s: State, step: Step) returns (s': State)
    requires Reachable(cfg, s) && Enabled(s, step)
    ensures Reachable(cfg, s') && s' == Apply(cfg, s, step)
  {
    s' := Apply(cfg, s, step);
    ReachableStep(cfg, s, step);
  }

  lemma OneJobEnqueued(cfg: Risk.Config, key: Key, p: Risk.Payload) returns (s: State)
    ensures Reachable(cfg, s) && R(s, 1).Free?
    ensures s.rows == map[0 := Row(key, 0, p, Pending, Some(Pending), None)]
  {
    assert Leads(cfg, INITIAL, [], INITIAL);
    s := After(cfg, INITIAL, Check(1, key, p));
    s := After(cfg, s, Insert(1, 0, 0));
    s := After(cfg, s, CommitRequest(1));
  }

  lemma OnlyJobCancelled(cfg: Risk.Config, key: Key, p: Risk.Payload) returns (s: State)
    ensures Reachable(cfg, s) && R(s, 1).Free?
    ensures s.rows == map[0 := Row(key, 0, p, Cancelled, Some(Cancelled), None)]
  {
    s := OneJobEnqueued(cfg, key, p);
    s := After(cfg, s, Cancel(1, 0));
    s := After(cfg, s, CommitRequest(1));
  }

  // A cancelled job's pair passes the existing-job check, and its insert is refused under every id.
  lemma CancelledPairIsBlocked(cfg: Risk.Config, key: Key, p: Risk.Payload)
    ensures exists s :: Reachable(cfg, s) && HasStatus(s, 0, Cancelled)
                        && R(s, 1) == Checked(key, p) && forall id, t :: !Enabled(s, Insert(1, id, t))
  {
    var s := OnlyJobCancelled(cfg, key, p);
    s := After(cfg, s, Check(1, key, p));
    assert s.rows[0].key == key;
  }

  // ---- jobs that end as FAILED although their order stands ----

  // A SUCCESS write that takes effect but reports an error is overwritten by the deferred FAILED
  // write.
  lemma LostAnswerEndsAsFailed(cfg: Risk.Config, s: State, w: WorkerId)
    returns (run: seq<Step>)
    requires Reachable(cfg, s) && W(s, w).Sent?
    ensures ValidRun(cfg, s, run)
    ensures var s', id := Exec(cfg, s, run), W(s, w).job;
            Ordered(s'.hist, id) && HasStatus(s', id, Failed) && id in s'.hist.lostAcks
  {
    ReachableInv(cfg, s);
    assert WorkerOk(cfg, s, w);
    var s1 := Apply(cfg, s, WriteSuccess(w, AckLost));
    run := [WriteFailed(w, true)];
    Prepend(cfg, s1, WriteFailed(w, true), []);
    Prepend(cfg, s, WriteSuccess(w, AckLost), run);
    run := [WriteSuccess(w, AckLost)] + run;
  }

  // From the empty table: a sound payload's order is posted, and the job FAILED with its answer lost.
  lemma LostAnswerIsReachable(cfg: Risk.Config, key: Key, p: Risk.Payload)
    requires Risk.Sound(cfg, p) && cfg.maxPositions > 0
    ensures exists s :: Reachable(cfg, s) && Ordered(s.hist, 0) && HasStatus(s, 0, Failed) && 0 in s.hist.lostAcks
  {
    var s := OneJobEnqueued(cfg, key, p);
    Risk.SomeSnapshotAcceptsExactlyWhen(cfg, p);
    var snap :| Risk.Acceptable(cfg, p, snap);
    var w := FreshWorker(s);
    var toPost := AcceptableJobCanBePosted(cfg, s, w, 0, snap);
    ReachableRun(cfg, s, toPost);
    var sent := Exec(cfg, s, toPost);
    var toFailed := LostAnswerEndsAsFailed(cfg, sent, w);
    ReachableRun(cfg, sent, toFailed);
  }

  ghost predicate CanFailWithOrder(cfg: Risk.Config, s: State, id: JobId) {
    exists steps :: ValidRun(cfg, s, steps)
                    && HasStatus(Exec(cfg, s, steps), id, Failed) && Ordered(Exec(cfg, s, steps).hist, id)
  }

  // A worker that holds the job and has posted its order, or still can.
  ghost predicate MayOrder(cfg: Risk.Config, s: State, w: WorkerId, id: JobId) {
    && PastClaim(W(s, w)) && W(s, w).job == id && id in s.rows
    && (Ordered(s.hist, id) || W(s, w).Ordering?
        || (W(s, w).Validating? && Risk.Sound(cfg, s.rows[id].payload) && cfg.maxPositions > 0))
  }

  lemma OrderedFails(cfg: Risk.Config, s: State, w: WorkerId, id: JobId)
    requires Reachable(cfg, s) && PastClaim(W(s, w)) && W(s, w).job == id && Ordered(s.hist, id)
    ensures CanFailWithOrder(cfg, s, id)
  {
    var run := HolderCanFail(cfg, s, w);
    ReachableInv(cfg, s);
    RunExtends(cfg, s, run);
    var o :| o in s.hist.orders && o.job == id;
    assert o in Exec(cfg, s, run).hist.orders;
  }

  lemma StepFirst(cfg: Risk.Config, s: State, step: Step, id: JobId)
    requires Enabled(s, step) && CanFailWithOrder(cfg, Apply(cfg, s, step), id)
    ensures CanFailWithOrder(cfg, s, id)
  {
    var s1 := Apply(cfg, s, step);
    var rest :| ValidRun(cfg, s1, rest) && HasStatus(Exec(cfg, s1, rest), id, Failed) && Ordered(Exec(cfg, s1, rest).hist, id);
    Prepend(cfg, s, step, rest);
  }

  lemma OrderingFails(cfg: Risk.Config, s: State, w: WorkerId, id: JobId)
    requires Reachable(cfg, s) && W(s, w).Ordering? && W(s, w).job == id
    ensures CanFailWithOrder(cfg, s, id)
  {
    var s1 := Apply(cfg, s, Post(w));
    ReachableStep(cfg, s, Post(w));
    assert Order(id, w, W(s, w).snap) in s1.hist.orders;
    OrderedFails(cfg, s1, w, id);
    StepFirst(cfg, s, Post(w), id);
  }

  lemma ValidatingFails(cfg: Risk.Config, s: State, w: WorkerId, id: JobId)
    requires Reachable(cfg, s) && W(s, w) == Validating(id) && id in s.rows
    requires Risk.Sound(cfg, s.rows[id].payload) && cfg.maxPositions > 0
    ensures CanFailWithOrder(cfg, s, id)
  {
    Risk.SomeSnapshotAcceptsExactlyWhen(cfg, s.rows[id].payload);
    var snap :| Risk.Acceptable(cfg, s.rows[id].payload, snap);
    ReachableStep(cfg, s, Validate(w, snap));
    OrderingFails(cfg, Apply(cfg, s, Validate(w, snap)), w, id);
    StepFirst(cfg, s, Validate(w, snap), id);
  }

  // Without such a worker an order never comes, or the job is never failed.
  lemma FailedWithOrderNeedsWorker(cfg: Risk.Config, s: State, steps: seq<Step>, id: JobId)
    requires Reachable(cfg, s) && HasStatus(s, id, Claimed) && ValidRun(cfg, s, steps)
    requires forall w :: !MayOrder(cfg, s, w, id)
    ensures !(HasStatus(Exec(cfg, s, steps), id, Failed) && Ordered(Exec(cfg, s, steps).hist, id))
  {
    ReachableInv(cfg, s);
    if Ordered(s.hist, id) {
      forall w | PastClaim(W(s, w)) ensures W(s, w).job != id { assert !MayOrder(cfg, s, w, id); }
      UnattendedRowNeverChanges(cfg, s, steps, id);
    } else if Ordered(Exec(cfg, s, steps).hist, id) {
      OrderNeedsAcceptance(cfg, s, steps, id);
      Risk.SomeSnapshotAcceptsExactlyWhen(cfg, s.rows[id].payload);
      forall w | PastClaim(W(s, w)) && W(s, w).job == id ensures W(s, w).Failing? {
        assert WorkerOk(cfg, s, w) && !MayOrder(cfg, s, w, id);
      }
      GivenUpIsNeverOrdered(cfg, s, steps, id);
    }
  }

  // A CLAIMED job can end as FAILED with its order standing at the bridge exactly when a worker holds
  // it that has posted the order or still can.  A lost answer to the SUCCESS write is one way there;
  // a failed or unreadable reply to the order itself is another.
  lemma FailedWithOrderExactlyWhen(cfg: Risk.Config, s: State, id: JobId)
    requires Reachable(cfg, s) && HasStatus(s, id, Claimed)
    ensures CanFailWithOrder(cfg, s, id) <==> exists w :: MayOrder(cfg, s, w, id)
  {
    if w :| MayOrder(cfg, s, w, id) {
      if Ordered(s.hist, id) {
        OrderedFails(cfg, s, w, id);
      } else if W(s, w).Ordering? {
        OrderingFails(cfg, s, w, id);
      } else {
        ValidatingFails(cfg, s, w, id);
      }
    } else if CanFailWithOrder(cfg, s, id) {
      var steps :| ValidRun(cfg, s, steps)
                   && HasStatus(Exec(cfg, s, steps), id, Failed) && Ordered(Exec(cfg, s, steps).hist, id);
      FailedWithOrderNeedsWorker(cfg, s, steps, id);
    }
  }
}
