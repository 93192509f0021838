/**
  The live job queue as a transition system.  A state holds the `live_jobs` table with its
  locks and uncommitted writes, a program counter for every Go worker and every API request,
  and the history the theorems speak about.  Each step is one database statement, one commit
  or rollback, one validation, one POST to the bridge, or a crash.
*/
module JobQueue {
  import opened Options
  import Risk = RiskManager

  type JobId = int
  type WorkerId = int
  type RequestId = int

  datatype Key = Key(signal: int, account: int)

  datatype Status = Pending | Claimed | Success | Failed | Cancelled

  // A transaction that has written or update-locked a row.
  datatype Holder = ByWorker(w: WorkerId) | ByRequest(r: RequestId)

  // `status` is the row as its holder sees it; `committed` as everyone else does (None: not yet inserted).
  datatype Row = Row(
    key: Key, createdAt: int, payload: Risk.Payload,
    status: Status, committed: Option<Status>, lock: Option<Holder>)

  type Table = map<JobId, Row>

  // ---- statements on the table ----

  // The unique constraint on (signal_id, account_id) covers rows of every status.
  predicate KeyFree(t: Table, key: Key) {
    forall id | id in t :: t[id].key != key
  }

  // The existing-job check reads committed rows and looks at live statuses only.
  predicate NoLiveJob(t: Table, key: Key) {
    forall id | id in t && t[id].key == key ::
      t[id].committed != Some(Pending) && t[id].committed != Some(Claimed)
  }

  // READPAST: rows another transaction holds are invisible to the claiming SELECT.
  predicate Selectable(t: Table, id: JobId) {
    id in t && t[id].lock.None? && t[id].status == Pending
  }

  predicate Oldest(t: Table, id: JobId) {
    Selectable(t, id) && forall j | j in t && Selectable(t, j) :: t[id].createdAt <= t[j].createdAt
  }

  function Inserted(t: Table, id: JobId, key: Key, createdAt: int, payload: Risk.Payload, r: RequestId): Table {
    t[id := Row(key, createdAt, payload, Pending, None, Some(ByRequest(r)))]
  }

  function Held(t: Table, id: JobId, status: Status, h: Holder): Table
    requires id in t
  {
    t[id := t[id].(status := status, lock := Some(h))]
  }

  function CommittedRow(t: Table, id: JobId): Table
    requires id in t
  {
    t[id := t[id].(committed := Some(t[id].status), lock := None)]
  }

  function RolledBackRow(t: Table, id: JobId): Table
    requires id in t
  {
    if t[id].committed.None? then t - {id}
    else t[id := t[id].(status := t[id].committed.value, lock := None)]
  }

  // UPDATE ... WHERE id = @p4, in its own transaction: no guard on the status.
  function Written(t: Table, id: JobId, status: Status): Table {
    if id in t then t[id := t[id].(status := status, committed := Some(status))] else t
  }

  // complete_job: the same write guarded by status = 'CLAIMED'.
  function Completed(t: Table, id: JobId, status: Status): Table {
    if id in t && t[id].status == Claimed then t[id := t[id].(status := status, committed := Some(status))] else t
  }

  // ---- agents and history ----

  datatype WorkerPc =
    | Idle
    | InTx                                       // transaction begun
    | Locked(job: JobId)                         // row selected and update-locked
    | Marked(job: JobId)                         // UPDATE to CLAIMED done, not committed
    | Validating(job: JobId)                     // claim committed
    | Ordering(job: JobId, snap: Risk.Snapshot)  // ValidateJob returned nil on this snapshot
    | Sent(job: JobId)                           // the POST left, SUCCESS write pending
    | Failing(job: JobId)                        // processErr set, deferred FAILED write pending

  datatype RequestPc =
    | Free
    | Checked(key: Key, payload: Risk.Payload)   // passed the existing-job check
    | Inserting(job: JobId)                      // INSERT flushed, not committed
    | Cancelling(job: JobId)                     // cancel_job returned true, not committed

  datatype Claim = Claim(job: JobId, worker: WorkerId)
  datatype Order = Order(job: JobId, worker: WorkerId, snap: Risk.Snapshot)

  datatype History = History(
    claims: seq<Claim>,     // in commit order
    orders: seq<Order>,     // every POST to the bridge, with the snapshot that approved it
    cancels: seq<JobId>,    // committed cancellations
    lostAcks: set<JobId>)   // SUCCESS took effect but the worker saw an error

  datatype State = State(
    rows: Table,
    workers: map<WorkerId, WorkerPc>,
    requests: map<RequestId, RequestPc>,
    hist: History)

  function W(s: State, w: WorkerId): WorkerPc { if w in s.workers then s.workers[w] else Idle }

  function R(s: State, r: RequestId): RequestPc { if r in s.requests then s.requests[r] else Free }

  const INITIAL := State(map[], map[], map[], History([], [], [], {}))

  // ---- steps ----

  datatype WriteOutcome = Acknowledged | NoEffect | AckLost

  datatype Step =
    // API requests
    | Check(r: RequestId, key: Key, payload: Risk.Payload)
    | Insert(r: RequestId, id: JobId, createdAt: int)
    | Cancel(r: RequestId, id: JobId)
    | CommitRequest(r: RequestId)
    | AbortRequest(r: RequestId)
    // Go workers
    | Begin(w: WorkerId)
    | Select(w: WorkerId, id: JobId)
    | SelectNone(w: WorkerId)
    | Mark(w: WorkerId)
    | CommitClaim(w: WorkerId, acknowledged: bool)
    | Validate(w: WorkerId, snap: Risk.Snapshot)
    | Fault(w: WorkerId)
    | Post(w: WorkerId)
    | WriteSuccess(w: WorkerId, outcome: WriteOutcome)
    | WriteFailed(w: WorkerId, effect: bool)
    | Abort(w: WorkerId)

  // An UPDATE waits while another transaction holds the row.
  predicate Unblocked(t: Table, id: JobId) { id in t ==> t[id].lock.None? }

  ghost predicate Enabled(s: State, step: Step) {
    match step
    case Check(r, key, _) => R(s, r).Free? && NoLiveJob(s.rows, key)
    case Insert(r, id, _) => R(s, r).Checked? && id !in s.rows && KeyFree(s.rows, R(s, r).key)
    case Cancel(r, id) => R(s, r).Free? && Selectable(s.rows, id)
    case CommitRequest(r) => (R(s, r).Inserting? || R(s, r).Cancelling?) && R(s, r).job in s.rows
    case AbortRequest(r) => R(s, r).Checked? ||
                            ((R(s, r).Inserting? || R(s, r).Cancelling?) && R(s, r).job in s.rows)
    case Begin(w) => W(s, w).Idle?
    case Select(w, id) => W(s, w).InTx? && Oldest(s.rows, id)
    case SelectNone(w) => W(s, w).InTx? && forall id :: !Selectable(s.rows, id)
    case Mark(w) => W(s, w).Locked? && W(s, w).job in s.rows
    case CommitClaim(w, _) => W(s, w).Marked? && W(s, w).job in s.rows
    case Validate(w, _) => W(s, w).Validating? && W(s, w).job in s.rows
    case Fault(w) => W(s, w).Validating? || W(s, w).Ordering? || W(s, w).Sent?
    case Post(w) => W(s, w).Ordering?
    case WriteSuccess(w, _) => W(s, w).Sent? && Unblocked(s.rows, W(s, w).job)
    case WriteFailed(w, _) => W(s, w).Failing? && Unblocked(s.rows, W(s, w).job)
    case Abort(w) => (W(s, w).Locked? || W(s, w).Marked?) ==> W(s, w).job in s.rows
  }

  function SetW(s: State, w: WorkerId, pc: WorkerPc): State { s.(workers := s.workers[w := pc]) }

  function SetR(s: State, r: RequestId, pc: RequestPc): State { s.(requests := s.requests[r := pc]) }

  ghost function Apply(cfg: Risk.Config, s: State, step: Step): State
    requires Enabled(s, step)
  {
    match step
    case Check(r, key, payload) => SetR(s, r, Checked(key, payload))
    case Insert(r, id, createdAt) =>
      SetR(s, r, Inserting(id)).(rows := Inserted(s.rows, id, R(s, r).key, createdAt, R(s, r).payload, r))
    case Cancel(r, id) => SetR(s, r, Cancelling(id)).(rows := Held(s.rows, id, Cancelled, ByRequest(r)))
    case CommitRequest(r) =>
      var id := R(s, r).job;
      var cancels := if R(s, r).Cancelling? then s.hist.cancels + [id] else s.hist.cancels;
      SetR(s, r, Free).(rows := CommittedRow(s.rows, id), hist := s.hist.(cancels := cancels))
    case AbortRequest(r) =>
      if R(s, r).Checked? then SetR(s, r, Free)
      else SetR(s, r, Free).(rows := RolledBackRow(s.rows, R(s, r).job))
    case Begin(w) => SetW(s, w, InTx)
    case Select(w, id) => SetW(s, w, Locked(id)).(rows := Held(s.rows, id, Pending, ByWorker(w)))
    case SelectNone(w) => SetW(s, w, Idle)
    case Mark(w) =>
      var id := W(s, w).job;
      SetW(s, w, Marked(id)).(rows := Held(s.rows, id, Claimed, ByWorker(w)))
    case CommitClaim(w, acknowledged) =>
      var id := W(s, w).job;
      SetW(s, w, if acknowledged then Validating(id) else Idle)
        .(rows := CommittedRow(s.rows, id), hist := s.hist.(claims := s.hist.claims + [Claim(id, w)]))
    case Validate(w, snap) =>
      var id := W(s, w).job;
      SetW(s, w, if Risk.Acceptable(cfg, s.rows[id].payload, snap) then Ordering(id, snap) else Failing(id))
    case Fault(w) => SetW(s, w, Failing(W(s, w).job))
    case Post(w) =>
      var id := W(s, w).job;
      SetW(s, w, Sent(id)).(hist := s.hist.(orders := s.hist.orders + [Order(id, w, W(s, w).snap)]))
    case WriteSuccess(w, outcome) =>
      var id := W(s, w).job;
      (match outcome
       case Acknowledged => SetW(s, w, Idle).(rows := Written(s.rows, id, Success))
       case NoEffect => SetW(s, w, Failing(id))
       case AckLost => SetW(s, w, Failing(id)).(rows := Written(s.rows, id, Success),
                                                hist := s.hist.(lostAcks := s.hist.lostAcks + {id})))
    case WriteFailed(w, effect) =>
      SetW(s, w, Idle).(rows := if effect then Written(s.rows, W(s, w).job, Failed) else s.rows)
    case Abort(w) =>
      // a rollback or a crash: an open transaction is undone, a claimed job is simply dropped
      SetW(s, w, Idle).(rows := if W(s, w).Locked? || W(s, w).Marked? then RolledBackRow(s.rows, W(s, w).job) else s.rows)
  }

  // Who takes a step, and the job it is about.
  function Actor(step: Step): Holder {
    match step
    case Check(r, _, _) => ByRequest(r)
    case Insert(r, _, _) => ByRequest(r)
    case Cancel(r, _) => ByRequest(r)
    case CommitRequest(r) => ByRequest(r)
    case AbortRequest(r) => ByRequest(r)
    case Begin(w) => ByWorker(w)
    case Select(w, _) => ByWorker(w)
    case SelectNone(w) => ByWorker(w)
    case Mark(w) => ByWorker(w)
    case CommitClaim(w, _) => ByWorker(w)
    case Validate(w, _) => ByWorker(w)
    case Fault(w) => ByWorker(w)
    case Post(w) => ByWorker(w)
    case WriteSuccess(w, _) => ByWorker(w)
    case WriteFailed(w, _) => ByWorker(w)
    case Abort(w) => ByWorker(w)
  }

  function JobOf(s: State, h: Holder): Option<JobId> {
    match h
    case ByWorker(w) => if W(s, w).Idle? || W(s, w).InTx? then None else Some(W(s, w).job)
    case ByRequest(r) => if R(s, r).Inserting? || R(s, r).Cancelling? then Some(R(s, r).job) else None
  }

  function Subject(s: State, step: Step): Option<JobId> {
    match step
    case Insert(_, id, _) => Some(id)
    case Cancel(_, id) => Some(id)
    case Select(_, id) => Some(id)
    case _ => JobOf(s, Actor(step))
  }

  predicate SameRow(t: Table, t': Table, id: JobId) {
    (id in t <==> id in t') && (id in t ==> t[id] == t'[id])
  }

  lemma StepFrameRows(cfg: Risk.Config, s: State, step: Step)
    requires Enabled(s, step)
    ensures forall id | Subject(s, step) != Some(id) :: SameRow(s.rows, Apply(cfg, s, step).rows, id)
  {
  }

  lemma StepFrameAgents(cfg: Risk.Config, s: State, step: Step)
    requires Enabled(s, step)
    ensures forall w | Actor(step) != ByWorker(w) :: W(Apply(cfg, s, step), w) == W(s, w)
    ensures forall r | Actor(step) != ByRequest(r) :: R(Apply(cfg, s, step), r) == R(s, r)
  {
  }

  // A step touches its actor's program counter and its subject's row, nothing else.
  lemma StepFrame(cfg: Risk.Config, s: State, step: Step)
    requires Enabled(s, step)
    ensures forall id | Subject(s, step) != Some(id) :: SameRow(s.rows, Apply(cfg, s, step).rows, id)
    ensures forall w | Actor(step) != ByWorker(w) :: W(Apply(cfg, s, step), w) == W(s, w)
    ensures forall r | Actor(step) != ByRequest(r) :: R(Apply(cfg, s, step), r) == R(s, r)
  {
    StepFrameRows(cfg, s, step);
    StepFrameAgents(cfg, s, step);
  }

  // ---- runs ----

  ghost predicate ValidRun(cfg: Risk.Config, s: State, steps: seq<Step>)
    decreases |steps|
  {
    steps == [] || (Enabled(s, steps[0]) && ValidRun(cfg, Apply(cfg, s, steps[0]), steps[1..]))
  }

  ghost function Exec(cfg: Risk.Config, s: State, steps: seq<Step>): State
    requires ValidRun(cfg, s, steps)
    decreases |steps|
  {
    if steps == [] then s else Exec(cfg, Apply(cfg, s, steps[0]), steps[1..])
  }

  // `run` leads from s to s'.
  ghost predicate Leads(cfg: Risk.Config, s: State, run: seq<Step>, s': State) {
    ValidRun(cfg, s, run) && Exec(cfg, s, run) == s'
  }

  // Every state some interleaving of requests and workers can produce.
  ghost predicate Reachable(cfg: Risk.Config, s: State) {
    exists steps :: Leads(cfg, INITIAL, steps, s)
  }

  ghost predicate HasStatus(s: State, id: JobId, status: Status) {
    id in s.rows && s.rows[id].committed == Some(status)
  }

  lemma OneStep(cfg: Risk.Config, s: State, step: Step)
    requires Enabled(s, step)
    ensures ValidRun(cfg, s, [step]) && Exec(cfg, s, [step]) == Apply(cfg, s, step)
  {
    assert [step][1..] == [];
    assert Exec(cfg, s, [step]) == Exec(cfg, Apply(cfg, s, step), []);
  }

  lemma {:induction false} RunsCompose(cfg: Risk.Config, s: State, a: seq<Step>, b: seq<Step>)
    requires ValidRun(cfg, s, a) && ValidRun(cfg, Exec(cfg, s, a), b)
    ensures ValidRun(cfg, s, a + b) && Exec(cfg, s, a + b) == Exec(cfg, Exec(cfg, s, a), b)
    decreases |a|
  {
    if a == [] {
      assert a + b == b;
    } else {
      assert (a + b)[1..] == a[1..] + b;
      RunsCompose(cfg, Apply(cfg, s, a[0]), a[1..], b);
    }
  }

  lemma LeadsOn(cfg: Risk.Config, s: State, run: seq<Step>, s1: State, more: seq<Step>, s2: State)
    requires Leads(cfg, s, run, s1) && Leads(cfg, s1, more, s2)
    ensures Leads(cfg, s, run + more, s2)
    ensures Reachable(cfg, s1) ==> Reachable(cfg, s2)
  {
    RunsCompose(cfg, s, run, more);
    if Reachable(cfg, s1) {
      var steps :| Leads(cfg, INITIAL, steps, s1);
      RunsCompose(cfg, INITIAL, steps, more);
      assert Leads(cfg, INITIAL, steps + more, s2);
    }
  }

  lemma StepOn(cfg: Risk.Config, s: State, run: seq<Step>, s1: State, step: Step)
    requires Leads(cfg, s, run, s1) && Enabled(s1, step)
    ensures Leads(cfg, s, run + [step], Apply(cfg, s1, step))
    ensures Reachable(cfg, s1) ==> Reachable(cfg, Apply(cfg, s1, step))
  {
    OneStep(cfg, s1, step);
    LeadsOn(cfg, s, run, s1, [step], Apply(cfg, s1, step));
  }

  lemma ReachableStep(cfg: Risk.Config, s: State, step: Step)
    requires Reachable(cfg, s) && Enabled(s, step)
    ensures Reachable(cfg, Apply(cfg, s, step))
  {
    assert Leads(cfg, s, [], s);
    StepOn(cfg, s, [], s, step);
  }
}
