/**
  The code that drives the queue, statement by statement: queue_service.py and live.py on the
  API side, db.go and processor.go on the worker side.  Every statement is a step of the
  transition system; between statements `Others` lets every other request and worker run.
*/
module LiveWorker {
  import opened Options
  import opened JobQueue
  import opened JobQueueInvariant
  import opened JobQueueOrder
  import opened JobQueueSafety
  import Risk = RiskManager

  // What one poll reports: `recorded` says whether the deferred FAILED write went through.
  datatype PollResult =
    | NothingToDo
    | ClaimFailed
    | Executed(job: JobId)
    | NotExecuted(job: JobId, recorded: bool)

  // What a request answers; the last of each is a database error, which leaves the effect open.
  datatype RouteResult = JobExists | NotEnqueued | Enqueued(job: JobId) | RouteFaulted

  datatype CancelResult = NotFound | NotPending | JobCancelled | CancelFaulted

  // Which call of a request's session fails, if any.
  datatype SessionFault = Smooth | StatementFails | CommitFails | CommitAnswerLost

  // Which call of ClaimNextJob fails, if any.
  datatype ClaimFault = NoFault | BeginFails | SelectFails | UpdateFails | ClaimCommitFails | ClaimAnswerLost

  // How the bridge takes an order: it is never sent, its reply is bad or missing, or it is good.
  datatype Reply = NotSent | BadReply | GoodReply

  // What the calls of one poll come to.
  datatype Calls = Calls(
    claim: ClaimFault,
    panics: bool,          // in ValidateJob
    snap: Risk.Snapshot,   // what the risk manager's queries return
    reply: Reply,
    success: WriteOutcome, // of the SUCCESS write
    failed: bool)          // whether the deferred FAILED write goes through

  // No uncommitted row is in the way of an insert.
  predicate InsertSettled(t: Table, id: JobId, key: Key) {
    forall j | j in t && (j == id || t[j].key == key) :: t[j].committed.Some?
  }

  ghost predicate NotBy(steps: seq<Step>, h: Holder) {
    forall i | 0 <= i < |steps| :: Actor(steps[i]) != h
  }

  ghost predicate NoNewOrders(s: State, s': State, w: WorkerId) {
    forall o | o in s'.hist.orders && o.worker == w :: o in s.hist.orders
  }

  ghost predicate NewOrdersOnlyFor(s: State, s': State, w: WorkerId, id: JobId) {
    forall o | o in s'.hist.orders && o.worker == w && o !in s.hist.orders :: o.job == id
  }

  // Others' steps leave an agent's program counter alone and never post in a worker's name.
  lemma {:induction false} OthersLeaveAgent(cfg: Risk.Config, s: State, steps: seq<Step>, h: Holder)
    requires ValidRun(cfg, s, steps) && NotBy(steps, h)
    ensures var s' := Exec(cfg, s, steps);
            match h
            case ByWorker(w) => W(s', w) == W(s, w) && NoNewOrders(s, s', w)
            case ByRequest(r) => R(s', r) == R(s, r)
    decreases |steps|
  {
    if steps != [] {
      assert Actor(steps[0]) != h;
      StepFrame(cfg, s, steps[0]);
      OthersLeaveAgent(cfg, Apply(cfg, s, steps[0]), steps[1..], h);
    }
  }

  // The step was taken at or after position `from`.
  ghost predicate Since(trace: seq<Step>, from: nat, step: Step) {
    exists i | from <= i < |trace| :: trace[i] == step
  }

  lemma SinceNow(before: seq<Step>, from: nat, step: Step)
    requires from <= |before|
    ensures Since(before + [step], from, step)
  {
    assert (before + [step])[|before|] == step;
  }

  lemma SinceStays(before: seq<Step>, after: seq<Step>, from: nat, start: nat, step: Step)
    requires before <= after && Since(before, from, step) && start <= from
    ensures Since(after, start, step)
  {
    var i :| from <= i < |before| && before[i] == step;
    assert after[i] == step;
  }

  lemma OthersMissHeldRow(cfg: Risk.Config, s: State, step: Step, r: RequestId)
    requires Local(cfg, s, step) && RequestOk(s, r) && Actor(step) != ByRequest(r)
    ensures JobOf(s, ByRequest(r)).Some? ==> Subject(s, step) != JobOf(s, ByRequest(r))
  {
  }

  // Nobody else acts on the row an agent holds or works on.
  lemma OthersMissJob(cfg: Risk.Config, s: State, step: Step, h: Holder)
    requires Inv(cfg, s) && Enabled(s, step) && Actor(step) != h && JobOf(s, h).Some?
    ensures Subject(s, step) != JobOf(s, h)
  {
    InvIsLocal(cfg, s, step);
    match h
    case ByWorker(w) =>
      forall v | v != w && PastClaim(W(s, v)) && PastClaim(W(s, w)) ensures W(s, v).job != W(s, w).job {
        HoldersDistinct(cfg, s, v, w);
      }
      OthersMissHeldJob(cfg, s, step, w);
    case ByRequest(r) =>
      assert RequestOk(s, r);
      OthersMissHeldRow(cfg, s, step, r);
  }

  lemma {:induction false} OthersLeaveRow(cfg: Risk.Config, s: State, steps: seq<Step>, h: Holder)
    requires Inv(cfg, s) && ValidRun(cfg, s, steps) && NotBy(steps, h) && JobOf(s, h).Some?
    ensures SameRow(s.rows, Exec(cfg, s, steps).rows, JobOf(s, h).value)
    decreases |steps|
  {
    if steps != [] {
      var s1 := Apply(cfg, s, steps[0]);
      assert Actor(steps[0]) != h;
      OthersMissJob(cfg, s, steps[0], h);
      StepFrame(cfg, s, steps[0]);
      InvStep(cfg, s, steps[0]);
      assert JobOf(s1, h) == JobOf(s, h);
      OthersLeaveRow(cfg, s1, steps[1..], h);
    }
  }

  // What an agent may rely on after everybody else has run.
  lemma AgentFacts(cfg: Risk.Config, trace: seq<Step>, s: State, h: Holder)
    requires Leads(cfg, INITIAL, trace, s)
    ensures ActorOk(cfg, s, h)
    ensures JobOf(s, h).Some? ==> LockOk(s, JobOf(s, h).value)
  {
    ReachableInv(cfg, s);
  }

  // At this point of the trace no row was free for a claim.
  ghost predicate NothingFreeAt(cfg: Risk.Config, trace: seq<Step>, i: nat) {
    && i <= |trace| && ValidRun(cfg, INITIAL, trace[..i])
    && var rows := Exec(cfg, INITIAL, trace[..i]).rows;
       forall id | id in rows :: rows[id].status != Pending || rows[id].lock.Some?
  }

  // A moment since position `from` at which w looked for work and no row was free.
  ghost predicate FoundNothing(cfg: Risk.Config, trace: seq<Step>, from: nat, w: WorkerId) {
    exists i | from <= i < |trace| :: trace[i] == SelectNone(w) && NothingFreeAt(cfg, trace, i)
  }

  lemma NothingWasFree(cfg: Risk.Config, before: seq<Step>, s: State, from: nat, w: WorkerId)
    requires Leads(cfg, INITIAL, before, s) && (forall id :: !Selectable(s.rows, id)) && from <= |before|
    ensures FoundNothing(cfg, before + [SelectNone(w)], from, w)
  {
    var after := before + [SelectNone(w)];
    assert after[..|before|] == before && after[|before|] == SelectNone(w);
    forall id | id in s.rows ensures s.rows[id].status != Pending || s.rows[id].lock.Some? {
      assert !Selectable(s.rows, id);
    }
    assert NothingFreeAt(cfg, after, |before|);
  }

  lemma CommittedStays(cfg: Risk.Config, trace: seq<Step>, s: State, steps: seq<Step>, id: JobId)
    requires Leads(cfg, INITIAL, trace, s) && ValidRun(cfg, s, steps) && Committed(s, id)
    ensures Committed(Exec(cfg, s, steps), id)
  {
    ReachableInv(cfg, s);
    RunExtends(cfg, s, steps);
  }

  // Only one row can be in the way under its pair.
  lemma KeyReleased(cfg: Risk.Config, s: State, t: Table, id: JobId, j: JobId, key: Key)
    requires Reachable(cfg, s) && j in s.rows && s.rows[j].key == key && s.rows[j].committed.None?
    requires id in s.rows ==> s.rows[id].committed.Some?
    requires t.Keys <= s.rows.Keys && (j in t ==> t[j].committed.Some?) && forall k | k != j :: SameRow(s.rows, t, k)
    ensures InsertSettled(t, id, key)
  {
    ReachableInv(cfg, s);
    forall k | k in t && (k == id || t[k].key == key) ensures t[k].committed.Some? {
      if k != j {
        assert SameRow(s.rows, t, k);
        assert k in s.rows && s.rows[k].key != s.rows[j].key;
      }
    }
  }

  class LiveJobs {
    const cfg: Risk.Config
    var rows: Table
    ghost var workers: map<WorkerId, WorkerPc>
    ghost var requests: map<RequestId, RequestPc>
    ghost var hist: History
    ghost var trace: seq<Step>   // every step taken since the table was created

    ghost function View(): State
      reads this
    {
      State(rows, workers, requests, hist)
    }

    // The object's state is what its trace of steps produces.
    ghost predicate Valid()
      reads this
    {
      Leads(cfg, INITIAL, trace, View())
    }

    constructor (cfg: Risk.Config)
      ensures this.cfg == cfg && Valid() && View() == INITIAL
    {
      this.cfg := cfg;
      rows, workers, requests, hist, trace := map[], map[], map[], History([], [], [], {}), [];
    }

    ghost method Took(s: State, step: Step)
      requires Leads(cfg, INITIAL, trace, s) && Enabled(s, step) && View() == Apply(cfg, s, step)
      modifies this`trace
      ensures Valid() && trace == old(trace) + [step]
    {
      StepOn(cfg, INITIAL, trace, s, step);
      trace := trace + [step];
    }

    // Everyone but `me` may run here.  The body is one environment among all those the contract
    // allows; callers see the contract only.
    method Others(ghost me: Holder) returns (ghost steps: seq<Step>)
      requires Valid()
      modifies this
      ensures Valid() && trace == old(trace) + steps
      ensures Leads(cfg, old(View()), steps, View()) && NotBy(steps, me)
    {
      steps := [];
    }

    method Yield(ghost me: Holder)
      requires Valid()
      modifies this
      ensures Valid() && old(trace) <= trace
      ensures ActorOk(cfg, View(), me)
      ensures match me
              case ByWorker(w) => W(View(), w) == W(old(View()), w) && NoNewOrders(old(View()), View(), w)
              case ByRequest(r) => R(View(), r) == R(old(View()), r)
      ensures JobOf(View(), me).Some? ==> LockOk(View(), JobOf(View(), me).value)
      ensures JobOf(View(), me).Some? ==> SameRow(old(rows), rows, JobOf(View(), me).value)
    {
      ghost var s := View();
      ghost var steps := Others(me);
      OthersLeaveAgent(cfg, s, steps, me);
      ReachableInv(cfg, s);
      if JobOf(s, me).Some? { OthersLeaveRow(cfg, s, steps, me); }
      AgentFacts(cfg, trace, View(), me);
    }

    // The session's rollback, after an error or when the server drops the connection.
    method RollbackSession(r: RequestId, id: JobId)
      requires Valid() && (R(View(), r) == Inserting(id) || R(View(), r) == Cancelling(id)) && id in rows
      modifies this
      ensures Valid() && trace == old(trace) + [AbortRequest(r)]
      ensures rows == if old(rows)[id].committed.None? then old(rows) - {id}
                      else old(rows)[id := old(rows)[id].(status := old(rows)[id].committed.value, lock := None)]
      ensures R(View(), r).Free? && hist == old(hist)
    {
      ghost var s := View();
      rows := RolledBackRow(rows, id);
      requests := requests[r := Free];
      Took(s, AbortRequest(r));
    }

    // Deferred in ClaimNextJob, or done by the server when the worker dies.
    method Rollback(w: WorkerId, id: JobId)
      requires Valid() && (W(View(), w) == Locked(id) || W(View(), w) == Marked(id)) && id in rows
      modifies this
      ensures Valid() && trace == old(trace) + [Abort(w)]
      ensures rows == if old(rows)[id].committed.None? then old(rows) - {id}
                      else old(rows)[id := old(rows)[id].(status := old(rows)[id].committed.value, lock := None)]
      ensures W(View(), w).Idle? && hist == old(hist)
    {
      ghost var s := View();
      rows := RolledBackRow(rows, id);
      workers := workers[w := Idle];
      Took(s, Abort(w));
    }

    // The transaction holding a row ends, here by a rollback; nothing else moves.
    method Release(ghost me: Holder, id: JobId) returns (ghost steps: seq<Step>)
      requires Valid() && JobOf(View(), me).None?
      modifies this
      ensures Valid() && trace == old(trace) + steps
      ensures Leads(cfg, old(View()), steps, View()) && NotBy(steps, me)
      ensures Unblocked(rows, id) && (id in rows ==> rows[id].committed.Some?)
      ensures rows.Keys <= old(rows).Keys && forall j | j != id :: SameRow(old(rows), rows, j)
    {
      ghost var s := View();
      steps := [];
      ReachableInv(cfg, s);
      assert LockOk(s, id);
      if id in rows && rows[id].lock.Some? {
        match rows[id].lock.value {
          case ByWorker(v) =>
            Rollback(v, id);
            steps := [Abort(v)];
            StepOn(cfg, INITIAL, old(trace), s, Abort(v));
            OneStep(cfg, s, Abort(v));
          case ByRequest(q) =>
            RollbackSession(q, id);
            steps := [AbortRequest(q)];
            StepOn(cfg, INITIAL, old(trace), s, AbortRequest(q));
            OneStep(cfg, s, AbortRequest(q));
        }
      }
    }

    // A statement that meets a row another transaction holds waits, while others run, until nobody
    // holds it.
    method AwaitRow(ghost me: Holder, id: JobId) returns (ghost steps: seq<Step>)
      requires Valid() && JobOf(View(), me).None?
      modifies this
      ensures Valid() && trace == old(trace) + steps
      ensures Leads(cfg, old(View()), steps, View()) && NotBy(steps, me)
      ensures Unblocked(rows, id) && (id in rows ==> rows[id].committed.Some?)
    {
      ghost var s := View();
      ghost var first := Others(me);
      OthersLeaveAgent(cfg, s, first, me);
      ghost var s1 := View();
      ghost var rest := Release(me, id);
      LeadsOn(cfg, s, first, s1, rest, View());
      steps := first + rest;
    }

    // An INSERT waits for uncommitted rows with its id or its pair.
    method AwaitInsert(ghost me: Holder, id: JobId, key: Key) returns (ghost steps: seq<Step>)
      requires Valid() && JobOf(View(), me).None?
      modifies this
      ensures Valid() && trace == old(trace) + steps
      ensures Leads(cfg, old(View()), steps, View()) && NotBy(steps, me)
      ensures InsertSettled(rows, id, key)
    {
      ghost var s := View();
      steps := AwaitRow(me, id);
      if j :| j in rows && rows[j].key == key && rows[j].committed.None? {
        ghost var s1 := View();
        OthersLeaveAgent(cfg, s, steps, me);
        ghost var rest := Release(me, j);
        LeadsOn(cfg, s, steps, s1, rest, View());
        steps := steps + rest;
        KeyReleased(cfg, s1, rows, id, j, key);
      }
    }

    // ---- queue_service.py, session.py and live.py ----

    // enqueue_job, once no uncommitted row is in its way: the INSERT runs into the primary key or the
    // unique constraint, or is flushed.
    method EnqueueJob(r: RequestId, id: JobId, key: Key, payload: Risk.Payload, createdAt: int) returns (flushed: bool)
      requires Valid() && R(View(), r) == Checked(key, payload) && InsertSettled(rows, id, key)
      modifies this
      ensures Valid() && trace == old(trace) + [if flushed then Insert(r, id, createdAt) else AbortRequest(r)]
      ensures flushed <==> id !in old(rows) && forall j | j in old(rows) :: old(rows)[j].key != key
      ensures rows == if flushed then old(rows)[id := Row(key, createdAt, payload, Pending, None, Some(ByRequest(r)))]
                      else old(rows)
      ensures R(View(), r) == if flushed then Inserting(id) else Free
    {
      ghost var s := View();
      flushed := id !in rows && KeyFree(rows, key);
      if flushed {
        rows := Inserted(rows, id, key, createdAt, payload, r);
        requests := requests[r := Inserting(id)];
        Took(s, Insert(r, id, createdAt));
      } else {
        requests := requests[r := Free];
        Took(s, AbortRequest(r));
      }
    }

    // cancel_job: UPDATE ... WHERE id = :id AND status = 'PENDING', once no other transaction holds the row.
    method CancelJob(r: RequestId, id: JobId) returns (cancelled: bool)
      requires Valid() && R(View(), r).Free? && Unblocked(rows, id)
      modifies this
      ensures Valid() && trace == if cancelled then old(trace) + [Cancel(r, id)] else old(trace)
      ensures cancelled <==> id in old(rows) && old(rows)[id].status == Pending
      ensures rows == if cancelled then old(rows)[id := old(rows)[id].(status := Cancelled, lock := Some(ByRequest(r)))]
                      else old(rows)
      ensures R(View(), r) == if cancelled then Cancelling(id) else Free
    {
      cancelled := id in rows && rows[id].status == Pending;
      if cancelled {
        ghost var s := View();
        rows := Held(rows, id, Cancelled, ByRequest(r));
        requests := requests[r := Cancelling(id)];
        Took(s, Cancel(r, id));
      }
    }

    method CommitSession(r: RequestId, id: JobId)
      requires Valid() && (R(View(), r) == Inserting(id) || R(View(), r) == Cancelling(id)) && id in rows
      modifies this
      ensures Valid() && trace == old(trace) + [CommitRequest(r)]
      ensures rows == old(rows)[id := old(rows)[id].(committed := Some(old(rows)[id].status), lock := None)]
      ensures R(View(), r).Free?
      ensures old(R(View(), r)).Cancelling? ==> id in hist.cancels
    {
      ghost var s := View();
      if requests[r].Cancelling? { hist := hist.(cancels := hist.cancels + [id]); }
      rows := CommittedRow(rows, id);
      requests := requests[r := Free];
      Took(s, CommitRequest(r));
    }

    // The end of a request's session: a commit, whose answer may be lost, or a rollback.
    method EndSession(r: RequestId, id: JobId, fault: SessionFault) returns (err: bool)
      requires Valid() && (R(View(), r) == Inserting(id) || R(View(), r) == Cancelling(id)) && id in rows
      modifies this
      ensures Valid() && trace == old(trace) + [if fault.CommitFails? then AbortRequest(r) else CommitRequest(r)]
      ensures R(View(), r).Free? && (err <==> fault.CommitFails? || fault.CommitAnswerLost?)
      ensures rows == if fault.CommitFails? then RolledBackRow(old(rows), id) else CommittedRow(old(rows), id)
      ensures !fault.CommitFails? && old(R(View(), r)).Cancelling? ==> id in hist.cancels
    {
      if fault.CommitFails? {
        RollbackSession(r, id);
      } else {
        CommitSession(r, id);
      }
      err := fault.CommitFails? || fault.CommitAnswerLost?;
    }

    // route_signal_to_live behind the existing-job check.
    method EnqueueChecked(r: RequestId, id: JobId, key: Key, payload: Risk.Payload, createdAt: int, fault: SessionFault)
      returns (res: RouteResult)
      requires Valid() && R(View(), r) == Checked(key, payload)
      modifies this
      ensures Valid() && old(trace) <= trace && R(View(), r).Free? && !res.JobExists?
      ensures res.Enqueued? ==> res.job == id && HasStatus(View(), id, Pending)
      ensures res.Enqueued? ==> rows[id].key == key && rows[id].payload == payload && rows[id].createdAt == createdAt
      ensures res.NotEnqueued? ==> exists j :: Committed(View(), j) && (j == id || rows[j].key == key)
      ensures res.RouteFaulted? ==> !fault.Smooth?
    {
      ghost var s := View();
      if fault.StatementFails? { // for another reason than the constraints
        requests := requests[r := Free];
        Took(s, AbortRequest(r));
        return RouteFaulted;
      }
      ghost var steps := AwaitInsert(ByRequest(r), id, key);
      OthersLeaveAgent(cfg, s, steps, ByRequest(r));
      var flushed := EnqueueJob(r, id, key, payload, createdAt);
      if !flushed { return NotEnqueued; }
      Yield(ByRequest(r));
      var err := EndSession(r, id, fault);
      return if err then RouteFaulted else Enqueued(id);
    }

    // route_signal_to_live from the existing-job check on, interleaved with everybody else.
    method RouteSignalToLive(r: RequestId, id: JobId, key: Key, payload: Risk.Payload, createdAt: int,
                             fault: SessionFault)
      returns (res: RouteResult)
      requires Valid() && R(View(), r).Free?
      modifies this
      ensures Valid() && old(trace) <= trace && R(View(), r).Free?
      ensures res.JobExists? <==>
                exists j | j in old(rows) && old(rows)[j].key == key ::
                  old(rows)[j].committed == Some(Pending) || old(rows)[j].committed == Some(Claimed)
      ensures res.Enqueued? ==> res.job == id && HasStatus(View(), id, Pending)
      ensures res.Enqueued? ==> rows[id].key == key && rows[id].payload == payload && rows[id].createdAt == createdAt
      ensures res.NotEnqueued? ==> exists j :: Committed(View(), j) && (j == id || rows[j].key == key)
      ensures res.RouteFaulted? ==> !fault.Smooth?
    {
      if !NoLiveJob(rows, key) { return JobExists; }
      ghost var s := View();
      requests := requests[r := Checked(key, payload)];
      Took(s, Check(r, key, payload));
      res := EnqueueChecked(r, id, key, payload, createdAt, fault);
    }

    // cancel_job_endpoint but for its ownership check; the session commits once cancel_job has returned.
    method CancelJobEndpoint(r: RequestId, id: JobId, fault: SessionFault) returns (res: CancelResult)
      requires Valid() && R(View(), r).Free?
      modifies this
      ensures Valid() && old(trace) <= trace && R(View(), r).Free?
      ensures res.NotFound? <==> !Committed(old(View()), id)
      ensures res.NotPending? ==> Committed(View(), id) && !HasStatus(View(), id, Pending)
      ensures res.JobCancelled? ==> id in hist.cancels && HasStatus(View(), id, Cancelled)
      ensures res.CancelFaulted? ==> !fault.Smooth?
    {
      if id !in rows || rows[id].committed.None? { return NotFound; } // get_job_status
      if fault.StatementFails? { return CancelFaulted; }
      ghost var s := View();
      ghost var steps := AwaitRow(ByRequest(r), id);
      OthersLeaveAgent(cfg, s, steps, ByRequest(r));
      CommittedStays(cfg, old(trace), s, steps, id);
      ReachableInv(cfg, View());
      assert LockOk(View(), id);
      var cancelled := CancelJob(r, id);
      if !cancelled { return NotPending; }
      Yield(ByRequest(r));
      var err := EndSession(r, id, fault);
      return if err then CancelFaulted else JobCancelled;
    }

    // ---- db.go ----

    method BeginTx(w: WorkerId)
      requires Valid() && W(View(), w).Idle?
      modifies this
      ensures Valid() && trace == old(trace) + [Begin(w)]
      ensures W(View(), w).InTx? && hist == old(hist)
    {
      ghost var s := View();
      workers := workers[w := InTx];
      Took(s, Begin(w));
    }

    // SELECT TOP 1 ... WITH (UPDLOCK, READPAST) WHERE status = 'PENDING' ORDER BY created_at.
    method SelectForUpdate(w: WorkerId) returns (job: Option<JobId>)
      requires Valid() && W(View(), w).InTx?
      modifies this
      ensures Valid() && trace == old(trace) + [if job.Some? then Select(w, job.value) else SelectNone(w)]
      ensures job.Some? ==> Oldest(old(rows), job.value)
      ensures job.Some? ==> rows == old(rows)[job.value := old(rows)[job.value].(lock := Some(ByWorker(w)))]
      ensures job.None? ==> rows == old(rows) && forall id :: !Selectable(rows, id)
      ensures W(View(), w) == (if job.Some? then Locked(job.value) else Idle) && hist == old(hist)
    {
      ghost var s := View();
      if forall id | id in rows :: !Selectable(rows, id) {
        workers := workers[w := Idle];
        Took(s, SelectNone(w));
        return None;
      }
      ghost var candidates := set id | id in rows && Selectable(rows, id);
      ghost var some :| some in rows && Selectable(rows, some);
      assert some in candidates;
      ghost var first := OldestExists(s, candidates);
      assert Oldest(rows, first);
      var id :| id in rows && Oldest(rows, id);
      rows := Held(rows, id, Pending, ByWorker(w));
      workers := workers[w := Locked(id)];
      Took(s, Select(w, id));
      return Some(id);
    }

    method MarkClaimed(w: WorkerId, id: JobId)
      requires Valid() && W(View(), w) == Locked(id) && id in rows
      modifies this
      ensures Valid() && trace == old(trace) + [Mark(w)]
      ensures rows == old(rows)[id := old(rows)[id].(status := Claimed, lock := Some(ByWorker(w)))]
      ensures W(View(), w) == Marked(id) && hist == old(hist)
    {
      ghost var s := View();
      rows := Held(rows, id, Claimed, ByWorker(w));
      workers := workers[w := Marked(id)];
      Took(s, Mark(w));
    }

    // The commit may take effect although its answer is lost.
    method CommitClaimTx(w: WorkerId, id: JobId, acknowledged: bool)
      requires Valid() && W(View(), w) == Marked(id) && id in rows
      modifies this
      ensures Valid() && trace == old(trace) + [CommitClaim(w, acknowledged)]
      ensures rows == old(rows)[id := old(rows)[id].(committed := Some(old(rows)[id].status), lock := None)]
      ensures W(View(), w) == (if acknowledged then Validating(id) else Idle) && hist.orders == old(hist.orders)
    {
      ghost var s := View();
      rows := CommittedRow(rows, id);
      hist := hist.(claims := hist.claims + [Claim(id, w)]);
      workers := workers[w := if acknowledged then Validating(id) else Idle];
      Took(s, CommitClaim(w, acknowledged));
    }

    // The rollback of a transaction that holds nothing yet.
    method RollbackEmpty(w: WorkerId)
      requires Valid() && W(View(), w).InTx?
      modifies this
      ensures Valid() && trace == old(trace) + [Abort(w)]
      ensures rows == old(rows) && W(View(), w).Idle? && hist == old(hist)
    {
      ghost var s := View();
      workers := workers[w := Idle];
      Took(s, Abort(w));
    }

    // The UPDATE to CLAIMED and the commit of ClaimNextJob.
    method MarkAndCommit(w: WorkerId, id: JobId, fault: ClaimFault) returns (err: bool)
      requires Valid() && W(View(), w) == Locked(id) && id in rows
      modifies this
      ensures Valid() && old(trace) <= trace
      ensures NoNewOrders(old(View()), View(), w)
      ensures err <==> fault.ClaimCommitFails? || fault.ClaimAnswerLost?
      ensures Since(trace, |old(trace)|, Mark(w))
      ensures Since(trace, |old(trace)|, if fault.ClaimCommitFails? then Abort(w) else CommitClaim(w, !err))
      ensures W(View(), w) == if err then Idle else Validating(id)
    {
      MarkClaimed(w, id);
      SinceNow(old(trace), |old(trace)|, Mark(w));
      ghost var marked := trace;
      Yield(ByWorker(w));
      ghost var t := trace;
      err := fault.ClaimCommitFails? || fault.ClaimAnswerLost?;
      if fault.ClaimCommitFails? {
        Rollback(w, id);
        SinceNow(t, |old(trace)|, Abort(w));
      } else {
        CommitClaimTx(w, id, !err);
        SinceNow(t, |old(trace)|, CommitClaim(w, !err));
      }
      SinceStays(marked, trace, |old(trace)|, |old(trace)|, Mark(w));
    }

    // ClaimNextJob from the selected row on.
    method TakeSelected(w: WorkerId, id: JobId, fault: ClaimFault) returns (err: bool)
      requires Valid() && W(View(), w) == Locked(id) && id in rows && !fault.BeginFails? && !fault.SelectFails?
      modifies this
      ensures Valid() && old(trace) <= trace
      ensures NoNewOrders(old(View()), View(), w)
      ensures err <==> !fault.NoFault?
      ensures !err ==> Since(trace, |old(trace)|, Mark(w))
      ensures Since(trace, |old(trace)|,
                    if fault.NoFault? || fault.ClaimAnswerLost? then CommitClaim(w, !err) else Abort(w))
      ensures W(View(), w) == if err then Idle else Validating(id)
    {
      Yield(ByWorker(w));
      ghost var t := trace;
      if fault.UpdateFails? { // or the scan
        Rollback(w, id);
        SinceNow(t, |old(trace)|, Abort(w));
        return true;
      }
      err := MarkAndCommit(w, id, fault);
      SinceStays(trace, trace, |t|, |old(trace)|, Mark(w));
      SinceStays(trace, trace, |t|, |old(trace)|, if fault.ClaimCommitFails? then Abort(w) else CommitClaim(w, !err));
    }

    // ClaimNextJob inside its transaction.
    method ClaimInTx(w: WorkerId, fault: ClaimFault, ghost from: nat) returns (job: Option<JobId>, err: bool)
      requires Valid() && W(View(), w).InTx? && !fault.BeginFails? && from <= |trace|
      modifies this
      ensures Valid() && old(trace) <= trace
      ensures NoNewOrders(old(View()), View(), w)
      ensures W(View(), w) == if job.Some? then Validating(job.value) else Idle
      ensures job.Some? ==> Since(trace, from, Select(w, job.value)) && Since(trace, from, Mark(w))
                            && Since(trace, from, CommitClaim(w, true))
      ensures job.None? && !err ==> FoundNothing(cfg, trace, from, w)
      ensures err ==> job.None? && !fault.NoFault?
      ensures job.Some? ==> fault.NoFault?
      ensures fault.SelectFails? ==> err
      ensures err ==> Since(trace, from, if fault.ClaimAnswerLost? then CommitClaim(w, false) else Abort(w))
    {
      ghost var t, s := trace, View();
      if fault.SelectFails? {
        RollbackEmpty(w);
        SinceNow(t, from, Abort(w));
        return None, true;
      }
      job := SelectForUpdate(w);
      if job.None? {
        NothingWasFree(cfg, t, s, from, w);
        return None, false;
      }
      SinceNow(t, from, Select(w, job.value));
      t := trace;
      err := TakeSelected(w, job.value, fault);
      SinceStays(t, trace, from, from, Select(w, job.value));
      SinceStays(trace, trace, |t|, from,
                 if fault.NoFault? || fault.ClaimAnswerLost? then CommitClaim(w, !err) else Abort(w));
      if err { return None, true; }
      SinceStays(trace, trace, |t|, from, Mark(w));
    }

    // "No job" means that the SELECT found no free PENDING row, and an error that a call failed; a job
    // is selected, marked and claimed.
    method ClaimNextJob(w: WorkerId, fault: ClaimFault) returns (job: Option<JobId>, err: bool)
      requires Valid() && W(View(), w).Idle?
      modifies this
      ensures Valid() && old(trace) <= trace
      ensures NoNewOrders(old(View()), View(), w)
      ensures W(View(), w) == if job.Some? then Validating(job.value) else Idle
      ensures job.Some? ==> Since(trace, |old(trace)|, Select(w, job.value)) && Since(trace, |old(trace)|, Mark(w))
                            && Since(trace, |old(trace)|, CommitClaim(w, true))
      ensures job.None? && !err ==> FoundNothing(cfg, trace, |old(trace)|, w)
      ensures err ==> job.None? && !fault.NoFault?
      ensures job.Some? ==> fault.NoFault?
      ensures fault.SelectFails? ==> err
      ensures fault.BeginFails? ==> err && trace == old(trace)
      ensures err && !fault.BeginFails? ==>
                Since(trace, |old(trace)|, if fault.ClaimAnswerLost? then CommitClaim(w, false) else Abort(w))
    {
      if fault.BeginFails? { return None, true; }
      BeginTx(w);
      Yield(ByWorker(w));
      job, err := ClaimInTx(w, fault, |old(trace)|);
    }

    // UpdateJobStatus(id, "SUCCESS"): no status guard; the answer may be an error, with or without effect.
    method WriteSuccessStatus(w: WorkerId, id: JobId, outcome: WriteOutcome) returns (err: bool)
      requires Valid() && W(View(), w) == Sent(id) && id in rows && rows[id].lock.None?
      modifies this
      ensures Valid() && trace == old(trace) + [WriteSuccess(w, outcome)] && (err <==> !outcome.Acknowledged?)
      ensures rows == if outcome.NoEffect? then old(rows)
                      else old(rows)[id := old(rows)[id].(status := Success, committed := Some(Success))]
      ensures W(View(), w) == (if err then Failing(id) else Idle) && hist.orders == old(hist.orders)
    {
      ghost var s := View();
      err := !outcome.Acknowledged?;
      if !outcome.NoEffect? { rows := Written(rows, id, Success); }
      if outcome.AckLost? { hist := hist.(lostAcks := hist.lostAcks + {id}); }
      workers := workers[w := if err then Failing(id) else Idle];
      Took(s, WriteSuccess(w, outcome));
    }

    // The deferred UpdateJobStatus(id, "FAILED"); its error is only logged.
    method WriteFailedStatus(w: WorkerId, id: JobId, effect: bool)
      requires Valid() && W(View(), w) == Failing(id) && id in rows && rows[id].lock.None?
      modifies this
      ensures Valid() && trace == old(trace) + [WriteFailed(w, effect)]
      ensures rows == if effect then old(rows)[id := old(rows)[id].(status := Failed, committed := Some(Failed))]
                      else old(rows)
      ensures W(View(), w).Idle? && hist == old(hist)
    {
      ghost var s := View();
      if effect { rows := Written(rows, id, Failed); }
      workers := workers[w := Idle];
      Took(s, WriteFailed(w, effect));
    }

    // ---- processor.go ----

    method Validated(w: WorkerId, id: JobId, snap: Risk.Snapshot) returns (passed: bool)
      requires Valid() && W(View(), w) == Validating(id) && id in rows
      modifies this
      ensures Valid() && trace == old(trace) + [Validate(w, snap)] && hist == old(hist)
      ensures rows == old(rows) && (passed <==> Risk.Acceptable(cfg, rows[id].payload, snap))
      ensures W(View(), w) == if passed then Ordering(id, snap) else Failing(id)
    {
      ghost var s := View();
      var verdict := Risk.ValidateJob(cfg, rows[id].payload, snap);
      passed := verdict.Accepted?;
      workers := workers[w := if passed then Ordering(id, snap) else Failing(id)];
      Took(s, Validate(w, snap));
    }

    ghost method PostOrder(w: WorkerId, id: JobId, snap: Risk.Snapshot)
      requires Valid() && W(View(), w) == Ordering(id, snap)
      modifies this
      ensures Valid() && trace == old(trace) + [Post(w)] && rows == old(rows)
      ensures W(View(), w) == Sent(id) && hist.orders == old(hist.orders) + [Order(id, w, snap)]
    {
      ghost var s := View();
      hist := hist.(orders := hist.orders + [Order(id, w, snap)]);
      workers := workers[w := Sent(id)];
      Took(s, Post(w));
    }

    ghost method Fail(w: WorkerId, id: JobId)
      requires Valid() && (W(View(), w).Validating? || W(View(), w).Ordering? || W(View(), w).Sent?)
      requires W(View(), w).job == id
      modifies this
      ensures Valid() && trace == old(trace) + [Fault(w)] && rows == old(rows)
      ensures W(View(), w) == Failing(id) && hist == old(hist)
    {
      ghost var s := View();
      workers := workers[w := Failing(id)];
      Took(s, Fault(w));
    }

    // executeOrder: at most one POST; any failure sets processErr, whether or not the order stands.
    method ExecuteOrder(w: WorkerId, id: JobId, snap: Risk.Snapshot, reply: Reply) returns (err: bool)
      requires Valid() && W(View(), w) == Ordering(id, snap)
      modifies this
      ensures Valid() && old(trace) <= trace
      ensures NewOrdersOnlyFor(old(View()), View(), w, id)
      ensures err <==> !reply.GoodReply?
      ensures if reply.NotSent? then hist.orders == old(hist.orders) else Since(trace, |old(trace)|, Post(w))
      ensures W(View(), w) == if err then Failing(id) else Sent(id)
      ensures SameRow(old(rows), rows, id) && (!err ==> id in rows && rows[id].lock.None?)
    {
      if reply.NotSent? { // the request could not be built, or a panic
        Fail(w, id);
        return true;
      }
      PostOrder(w, id, snap);
      SinceNow(old(trace), |old(trace)|, Post(w));
      ghost var posted := trace;
      Yield(ByWorker(w));
      if reply.BadReply? { // transport error, bad status, unreadable or error reply, or a panic
        Fail(w, id);
      }
      SinceStays(posted, trace, |old(trace)|, |old(trace)|, Post(w));
      return reply.BadReply?;
    }

    method ExecuteAndRecord(w: WorkerId, id: JobId, calls: Calls) returns (processErr: bool)
      requires Valid() && W(View(), w) == Ordering(id, calls.snap)
      modifies this
      ensures Valid() && old(trace) <= trace
      ensures NewOrdersOnlyFor(old(View()), View(), w, id)
      ensures !processErr <==> calls.reply.GoodReply? && calls.success.Acknowledged?
      ensures id in rows <==> id in old(rows)
      ensures id in rows ==> rows[id].payload == old(rows)[id].payload
      ensures processErr ==> W(View(), w) == Failing(id)
      ensures !processErr ==> W(View(), w).Idle? && HasStatus(View(), id, Success)
    {
      processErr := ExecuteOrder(w, id, calls.snap, calls.reply);
      if processErr { return; }
      processErr := WriteSuccessStatus(w, id, calls.success);
    }

    // ProcessNextJob between the claim and its deferred handler.
    method Process(w: WorkerId, id: JobId, calls: Calls) returns (processErr: bool)
      requires Valid() && W(View(), w) == Validating(id)
      modifies this
      ensures Valid() && old(trace) <= trace
      ensures NewOrdersOnlyFor(old(View()), View(), w, id)
      ensures id in rows && (!processErr <==>
                !calls.panics && Risk.Acceptable(cfg, rows[id].payload, calls.snap)
                && calls.reply.GoodReply? && calls.success.Acknowledged?)
      ensures processErr ==> W(View(), w) == Failing(id)
      ensures !processErr ==> W(View(), w).Idle? && HasStatus(View(), id, Success)
    {
      Yield(ByWorker(w));
      if calls.panics {
        Fail(w, id);
        return true;
      }
      var passed := Validated(w, id, calls.snap);
      if !passed { return true; }
      Yield(ByWorker(w));
      processErr := ExecuteAndRecord(w, id, calls);
    }

    // A claimed job with its deferred handler.
    method ProcessClaimed(w: WorkerId, id: JobId, calls: Calls) returns (res: PollResult)
      requires Valid() && W(View(), w) == Validating(id)
      modifies this
      ensures Valid() && old(trace) <= trace && W(View(), w).Idle? && id in rows
      ensures NewOrdersOnlyFor(old(View()), View(), w, id)
      ensures res == if !calls.panics && Risk.Acceptable(cfg, rows[id].payload, calls.snap)
                        && calls.reply.GoodReply? && calls.success.Acknowledged?
                     then Executed(id) else NotExecuted(id, calls.failed)
      ensures res.Executed? ==> HasStatus(View(), id, Success)
      ensures res.NotExecuted? && res.recorded ==> HasStatus(View(), id, Failed)
    {
      var processErr := Process(w, id, calls);
      if !processErr { return Executed(id); }
      Yield(ByWorker(w));
      WriteFailedStatus(w, id, calls.failed);
      return NotExecuted(id, calls.failed);
    }

    // One poll of a live worker, with everyone else running between its statements.  Whatever they
    // do, nothing to do means that at a moment of the poll no row was free, a failed claim that a call
    // failed, and a claimed job is executed exactly when its payload is accepted, the bridge replies
    // well and the SUCCESS write is acknowledged.
    method ProcessNextJob(w: WorkerId, calls: Calls) returns (res: PollResult)
      requires Valid() && W(View(), w).Idle?
      modifies this
      ensures Valid() && old(trace) <= trace && W(View(), w).Idle?
      ensures res.NothingToDo? ==> FoundNothing(cfg, trace, |old(trace)|, w)
      ensures res.ClaimFailed? ==> !calls.claim.NoFault?
      ensures res.Executed? ==> HasStatus(View(), res.job, Success)
      ensures res.NotExecuted? ==> res.recorded == calls.failed
      ensures res.NotExecuted? && res.recorded ==> HasStatus(View(), res.job, Failed)
      ensures res.Executed? || res.NotExecuted? ==> Since(trace, |old(trace)|, Select(w, res.job)) && res.job in rows
      ensures res.Executed? || res.NotExecuted? ==> (res.Executed? <==>
                !calls.panics && Risk.Acceptable(cfg, rows[res.job].payload, calls.snap)
                && calls.reply.GoodReply? && calls.success.Acknowledged?)
      ensures if res.Executed? || res.NotExecuted? then NewOrdersOnlyFor(old(View()), View(), w, res.job)
              else NoNewOrders(old(View()), View(), w)
    {
      var job, err := ClaimNextJob(w, calls.claim);
      if err { return ClaimFailed; }
      if job.None? { return NothingToDo; }
      ghost var claimed := trace;
      res := ProcessClaimed(w, job.value, calls);
      SinceStays(claimed, trace, |old(trace)|, |old(trace)|, Select(w, job.value));
    }
  }
}
