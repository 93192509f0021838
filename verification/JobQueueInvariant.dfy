/**
  The invariant of the job queue: what every step of every request and worker keeps.
*/
module JobQueueInvariant {
  import opened Options
  import opened JobQueue
  import Risk = RiskManager

  ghost predicate UniqueKeys(t: Table) {
    forall a, b | a in t && b in t && a != b :: t[a].key != t[b].key
  }

  // A row is held by exactly the transaction whose program counter says so, and carries
  // exactly what that transaction wrote.
  ghost predicate LockOk(s: State, id: JobId) {
    id in s.rows ==>
      var row := s.rows[id];
      match row.lock
      case None => row.committed == Some(row.status)
      case Some(ByWorker(w)) =>
        row.committed == Some(Pending) &&
        ((row.status == Pending && W(s, w) == Locked(id)) || (row.status == Claimed && W(s, w) == Marked(id)))
      case Some(ByRequest(r)) =>
        || (row.status == Pending && row.committed.None? && R(s, r) == Inserting(id))
        || (row.status == Cancelled && row.committed == Some(Pending) && R(s, r) == Cancelling(id))
  }

  predicate PastClaim(pc: WorkerPc) { pc.Validating? || pc.Ordering? || pc.Sent? || pc.Failing? }

  ghost predicate Ordered(h: History, id: JobId) { exists o | o in h.orders :: o.job == id }

  // What a worker may rely on at each point of ProcessNextJob.
  ghost predicate WorkerOk(cfg: Risk.Config, s: State, w: WorkerId) {
    var pc := W(s, w);
    && (pc.Locked? || pc.Marked? ==> pc.job in s.rows && s.rows[pc.job].lock == Some(ByWorker(w)))
    && (PastClaim(pc) ==>
          && Claim(pc.job, w) in s.hist.claims && pc.job in s.rows && s.rows[pc.job].lock.None?
          && (s.rows[pc.job].status == Claimed
              || (pc.Failing? && s.rows[pc.job].status == Success && pc.job in s.hist.lostAcks)))
    && (pc.Validating? || pc.Ordering? ==> !Ordered(s.hist, pc.job))
    && (pc.Ordering? ==> Risk.Acceptable(cfg, s.rows[pc.job].payload, pc.snap))
    && (pc.Sent? ==> Ordered(s.hist, pc.job))
  }

  ghost predicate RequestOk(s: State, r: RequestId) {
    var pc := R(s, r);
    pc.Inserting? || pc.Cancelling? ==> pc.job in s.rows && s.rows[pc.job].lock == Some(ByRequest(r))
  }

  ghost predicate ClaimedEver(h: History, id: JobId) { exists c | c in h.claims :: c.job == id }

  ghost predicate OncePerJob(h: History) {
    && (forall i, j | 0 <= i < j < |h.claims| :: h.claims[i].job != h.claims[j].job)
    && (forall i, j | 0 <= i < j < |h.orders| :: h.orders[i].job != h.orders[j].job)
  }

  predicate Executing(status: Status) { status == Claimed || status == Success || status == Failed }

  // What one row's state says about the history, and the history about it.
  ghost predicate RowHistoryOk(s: State, id: JobId) {
    var settled := id in s.rows && s.rows[id].lock.None?;
    && (ClaimedEver(s.hist, id) <==> settled && Executing(s.rows[id].status))
    && (id in s.hist.cancels <==> settled && s.rows[id].status == Cancelled)
    && (settled && s.rows[id].status == Success ==> Ordered(s.hist, id))
    && (id in s.hist.lostAcks || Ordered(s.hist, id) ==> ClaimedEver(s.hist, id))
    && (id in s.hist.lostAcks ==> settled && s.rows[id].status != Claimed)
  }

  // Every order was posted by the worker that claimed the job, on a snapshot that passed validation.
  ghost predicate OrderOk(cfg: Risk.Config, s: State, o: Order) {
    && Claim(o.job, o.worker) in s.hist.claims
    && o.job in s.rows && Risk.Acceptable(cfg, s.rows[o.job].payload, o.snap)
  }

  ghost predicate Inv(cfg: Risk.Config, s: State) {
    && UniqueKeys(s.rows)
    && OncePerJob(s.hist)
    && (forall id :: LockOk(s, id))
    && (forall w :: WorkerOk(cfg, s, w))
    && (forall r :: RequestOk(s, r))
    && (forall id :: RowHistoryOk(s, id))
    && (forall o | o in s.hist.orders :: OrderOk(cfg, s, o))
  }

  // ---- every step keeps it ----

  lemma ClaimsAgree(cfg: Risk.Config, s: State, id: JobId, v: WorkerId, w: WorkerId)
    requires Inv(cfg, s) && Claim(id, v) in s.hist.claims && Claim(id, w) in s.hist.claims
    ensures v == w
  {
    var i :| 0 <= i < |s.hist.claims| && s.hist.claims[i] == Claim(id, v);
    var j :| 0 <= j < |s.hist.claims| && s.hist.claims[j] == Claim(id, w);
  }

  // Two workers past their claims never share a job.
  lemma HoldersDistinct(cfg: Risk.Config, s: State, v: WorkerId, w: WorkerId)
    requires Inv(cfg, s) && v != w && PastClaim(W(s, v)) && PastClaim(W(s, w))
    ensures W(s, v).job != W(s, w).job
  {
    assert WorkerOk(cfg, s, v) && WorkerOk(cfg, s, w);
    if W(s, v).job == W(s, w).job { ClaimsAgree(cfg, s, W(s, v).job, v, w); }
  }

  ghost predicate ActorOk(cfg: Risk.Config, s: State, h: Holder) {
    match h case ByWorker(w) => WorkerOk(cfg, s, w) case ByRequest(r) => RequestOk(s, r)
  }

  // The invariant at the places a step looks at.
  ghost predicate Local(cfg: Risk.Config, s: State, step: Step) {
    && Enabled(s, step)
    && ActorOk(cfg, s, Actor(step))
    && (Subject(s, step).Some? ==> LockOk(s, Subject(s, step).value) && RowHistoryOk(s, Subject(s, step).value))
  }

  lemma InvIsLocal(cfg: Risk.Config, s: State, step: Step)
    requires Inv(cfg, s) && Enabled(s, step)
    ensures Local(cfg, s, step)
  {
  }

  lemma StepKeepsKeys(cfg: Risk.Config, s: State, step: Step)
    requires UniqueKeys(s.rows) && Enabled(s, step)
    ensures UniqueKeys(Apply(cfg, s, step).rows)
  {
  }

  lemma StepKeepsLockOfSubject(cfg: Risk.Config, s: State, step: Step)
    requires Local(cfg, s, step) && Subject(s, step).Some?
    ensures LockOk(Apply(cfg, s, step), Subject(s, step).value)
  {
  }

  lemma StepKeepsLockElsewhere(cfg: Risk.Config, s: State, step: Step, id: JobId)
    requires Enabled(s, step) && LockOk(s, id) && Subject(s, step) != Some(id)
    ensures LockOk(Apply(cfg, s, step), id)
  {
    StepFrame(cfg, s, step);
  }

  lemma StepKeepsLock(cfg: Risk.Config, s: State, step: Step, id: JobId)
    requires Local(cfg, s, step) && LockOk(s, id)
    ensures LockOk(Apply(cfg, s, step), id)
  {
    if Subject(s, step) == Some(id) {
      StepKeepsLockOfSubject(cfg, s, step);
    } else {
      StepKeepsLockElsewhere(cfg, s, step, id);
    }
  }

  lemma StepKeepsActingWorker(cfg: Risk.Config, s: State, step: Step)
    requires Local(cfg, s, step) && Actor(step).ByWorker?
    ensures WorkerOk(cfg, Apply(cfg, s, step), Actor(step).w)
  {
  }

  // A step only adds history about its subject.
  lemma StepHistory(cfg: Risk.Config, s: State, step: Step)
    requires Enabled(s, step)
    ensures var h, h' := s.hist, Apply(cfg, s, step).hist;
            && h.claims <= h'.claims && h.orders <= h'.orders && h.cancels <= h'.cancels && h.lostAcks <= h'.lostAcks
            && forall id | Subject(s, step) != Some(id) ::
                 && (Ordered(h', id) <==> Ordered(h, id)) && (ClaimedEver(h', id) <==> ClaimedEver(h, id))
                 && (id in h'.cancels <==> id in h.cancels) && (id in h'.lostAcks <==> id in h.lostAcks)
  {
  }

  // Nobody else acts on the job a worker holds.
  lemma OthersMissHeldJob(cfg: Risk.Config, s: State, step: Step, w: WorkerId)
    requires Local(cfg, s, step) && WorkerOk(cfg, s, w) && Actor(step) != ByWorker(w)
    requires forall v | v != w && PastClaim(W(s, v)) && PastClaim(W(s, w)) :: W(s, v).job != W(s, w).job
    ensures JobOf(s, ByWorker(w)).Some? ==> Subject(s, step) != JobOf(s, ByWorker(w))
  {
  }

  lemma StepKeepsOtherWorker(cfg: Risk.Config, s: State, step: Step, w: WorkerId)
    requires Enabled(s, step) && WorkerOk(cfg, s, w) && Actor(step) != ByWorker(w)
    requires JobOf(s, ByWorker(w)).Some? ==> Subject(s, step) != JobOf(s, ByWorker(w))
    ensures WorkerOk(cfg, Apply(cfg, s, step), w)
  {
    StepFrame(cfg, s, step);
    StepHistory(cfg, s, step);
  }

  lemma StepKeepsRequest(cfg: Risk.Config, s: State, step: Step, r: RequestId)
    requires Local(cfg, s, step) && RequestOk(s, r)
    ensures RequestOk(Apply(cfg, s, step), r)
  {
    StepFrame(cfg, s, step);
  }

  lemma RequestKeepsSubjectHistory(cfg: Risk.Config, s: State, step: Step)
    requires Local(cfg, s, step) && Subject(s, step).Some? && Actor(step).ByRequest?
    ensures RowHistoryOk(Apply(cfg, s, step), Subject(s, step).value)
  {
  }

  lemma WorkerKeepsSubjectHistory(cfg: Risk.Config, s: State, step: Step)
    requires Local(cfg, s, step) && Subject(s, step).Some? && Actor(step).ByWorker?
    ensures RowHistoryOk(Apply(cfg, s, step), Subject(s, step).value)
  {
  }

  lemma StepKeepsRowHistory(cfg: Risk.Config, s: State, step: Step, id: JobId)
    requires Local(cfg, s, step) && RowHistoryOk(s, id)
    ensures RowHistoryOk(Apply(cfg, s, step), id)
  {
    if Subject(s, step) == Some(id) {
      if Actor(step).ByRequest? {
        RequestKeepsSubjectHistory(cfg, s, step);
      } else {
        WorkerKeepsSubjectHistory(cfg, s, step);
      }
    } else {
      StepFrame(cfg, s, step);
      StepHistory(cfg, s, step);
    }
  }

  lemma StepKeepsHistory(cfg: Risk.Config, s: State, step: Step)
    requires Local(cfg, s, step) && OncePerJob(s.hist)
    ensures OncePerJob(Apply(cfg, s, step).hist)
  {
  }

  lemma StepKeepsOrder(cfg: Risk.Config, s: State, step: Step, o: Order)
    requires Local(cfg, s, step) && o in Apply(cfg, s, step).hist.orders
    requires o in s.hist.orders ==> OrderOk(cfg, s, o)
    requires RowHistoryOk(s, o.job)
    ensures OrderOk(cfg, Apply(cfg, s, step), o)
  {
    StepFrame(cfg, s, step);
  }

  lemma InvStep(cfg: Risk.Config, s: State, step: Step)
    requires Inv(cfg, s) && Enabled(s, step)
    ensures Inv(cfg, Apply(cfg, s, step))
  {
    var s' := Apply(cfg, s, step);
    InvIsLocal(cfg, s, step);
    StepKeepsKeys(cfg, s, step);
    StepKeepsHistory(cfg, s, step);
    forall id ensures LockOk(s', id) && RowHistoryOk(s', id) {
      StepKeepsLock(cfg, s, step, id);
      StepKeepsRowHistory(cfg, s, step, id);
    }
    forall w ensures WorkerOk(cfg, s', w) {
      forall v | v != w && PastClaim(W(s, v)) && PastClaim(W(s, w)) ensures W(s, v).job != W(s, w).job {
        HoldersDistinct(cfg, s, v, w);
      }
      if Actor(step) == ByWorker(w) {
        StepKeepsActingWorker(cfg, s, step);
      } else {
        OthersMissHeldJob(cfg, s, step, w);
        StepKeepsOtherWorker(cfg, s, step, w);
      }
    }
    forall r ensures RequestOk(s', r) { StepKeepsRequest(cfg, s, step, r); }
    forall o | o in s'.hist.orders ensures OrderOk(cfg, s', o) {
      StepKeepsOrder(cfg, s, step, o);
    }
  }

  lemma {:induction false} InvRun(cfg: Risk.Config, s: State, steps: seq<Step>)
    requires Inv(cfg, s) && ValidRun(cfg, s, steps)
    ensures Inv(cfg, Exec(cfg, s, steps))
    decreases |steps|
  {
    if steps != [] {
      InvStep(cfg, s, steps[0]);
      InvRun(cfg, Apply(cfg, s, steps[0]), steps[1..]);
    }
  }

  lemma ReachableInv(cfg: Risk.Config, s: State)
    requires Reachable(cfg, s)
    ensures Inv(cfg, s)
  {
    var steps :| Leads(cfg, INITIAL, steps, s);
    InvRun(cfg, INITIAL, steps);
  }
}
