/**
  Where the rows come from: in every reachable state each row carries the pair, the payload and the
  creation time its request gave, so the order of claims is an order of requests.
*/
module JobQueueOrigin {
  import opened JobQueue
  import opened JobQueueInvariant
  import opened JobQueueOrder
  import Risk = RiskManager

  // Position j is the last insertion of id.
  ghost predicate LastInsert(steps: seq<Step>, id: JobId, j: nat) {
    && j < |steps| && steps[j].Insert? && steps[j].id == id
    && forall k | j < k < |steps| :: !(steps[k].Insert? && steps[k].id == id)
  }

  // The request of that insertion checked this pair with this payload before.
  ghost predicate CheckedBefore(steps: seq<Step>, j: nat, r: RequestId, key: Key, payload: Risk.Payload) {
    exists i | 0 <= i < j && i < |steps| :: steps[i] == Check(r, key, payload)
  }

  ghost predicate CameFrom(steps: seq<Step>, id: JobId, row: Row) {
    exists j: nat :: LastInsert(steps, id, j) && steps[j].createdAt == row.createdAt
                && CheckedBefore(steps, j, steps[j].r, row.key, row.payload)
  }

  lemma {:induction false} LastStep(cfg: Risk.Config, s: State, init: seq<Step>, last: Step)
    requires ValidRun(cfg, s, init + [last])
    ensures ValidRun(cfg, s, init) && Enabled(Exec(cfg, s, init), last)
    ensures Exec(cfg, s, init + [last]) == Apply(cfg, Exec(cfg, s, init), last)
    decreases |init|
  {
    if init == [] {
      assert [] + [last] == [last] && [last][1..] == [];
    } else {
      assert (init + [last])[1..] == init[1..] + [last];
      LastStep(cfg, Apply(cfg, s, init[0]), init[1..], last);
    }
  }

  // Only an insertion makes a row, and nothing changes what it was made with.
  lemma StepKeepsIdentity(cfg: Risk.Config, s: State, step: Step, id: JobId)
    requires Enabled(s, step) && id in Apply(cfg, s, step).rows && !(step.Insert? && step.id == id)
    ensures var row' := Apply(cfg, s, step).rows[id];
            id in s.rows && row'.key == s.rows[id].key && row'.payload == s.rows[id].payload
            && row'.createdAt == s.rows[id].createdAt
  {
  }

  lemma StepKeepsOrigin(steps: seq<Step>, step: Step, id: JobId, row: Row)
    requires CameFrom(steps, id, row) && !(step.Insert? && step.id == id)
    ensures CameFrom(steps + [step], id, row)
  {
    var all := steps + [step];
    var j: nat :| LastInsert(steps, id, j) && steps[j].createdAt == row.createdAt
             && CheckedBefore(steps, j, steps[j].r, row.key, row.payload);
    var i :| 0 <= i < j && i < |steps| && steps[i] == Check(steps[j].r, row.key, row.payload);
    assert all[i] == steps[i] && all[j] == steps[j];
    assert LastInsert(all, id, j);
  }

  lemma InsertIsOrigin(steps: seq<Step>, r: RequestId, id: JobId, row: Row)
    requires CheckedBefore(steps, |steps|, r, row.key, row.payload)
    ensures CameFrom(steps + [Insert(r, id, row.createdAt)], id, row)
  {
    var all := steps + [Insert(r, id, row.createdAt)];
    var i :| 0 <= i < |steps| && steps[i] == Check(r, row.key, row.payload);
    assert all[i] == steps[i];
    assert LastInsert(all, id, |steps|);
  }

  lemma ChecksStay(steps: seq<Step>, step: Step, r: RequestId, key: Key, payload: Risk.Payload)
    requires CheckedBefore(steps, |steps|, r, key, payload) || step == Check(r, key, payload)
    ensures CheckedBefore(steps + [step], |steps| + 1, r, key, payload)
  {
    var all := steps + [step];
    if step == Check(r, key, payload) {
      assert all[|steps|] == step;
    } else {
      var i :| 0 <= i < |steps| && steps[i] == Check(r, key, payload);
      assert all[i] == steps[i];
    }
  }

  // A request past the check is so by a Check step of its own.
  lemma CheckedByStep(cfg: Risk.Config, s: State, step: Step, r: RequestId)
    requires Enabled(s, step) && R(Apply(cfg, s, step), r).Checked?
    ensures step == Check(r, R(Apply(cfg, s, step), r).key, R(Apply(cfg, s, step), r).payload)
            || R(s, r) == R(Apply(cfg, s, step), r)
  {
  }

  lemma {:induction false} RowsAndChecksComeFromRequests(cfg: Risk.Config, steps: seq<Step>, s: State)
    requires Leads(cfg, INITIAL, steps, s)
    ensures forall id | id in s.rows :: CameFrom(steps, id, s.rows[id])
    ensures forall r | R(s, r).Checked? :: CheckedBefore(steps, |steps|, r, R(s, r).key, R(s, r).payload)
    decreases |steps|
  {
    if steps != [] {
      var init, last := steps[..|steps| - 1], steps[|steps| - 1];
      assert steps == init + [last];
      LastStep(cfg, INITIAL, init, last);
      var s0 := Exec(cfg, INITIAL, init);
      RowsAndChecksComeFromRequests(cfg, init, s0);
      forall r | R(s, r).Checked? ensures CheckedBefore(steps, |steps|, r, R(s, r).key, R(s, r).payload) {
        CheckedByStep(cfg, s0, last, r);
        ChecksStay(init, last, r, R(s, r).key, R(s, r).payload);
      }
      forall id | id in s.rows ensures CameFrom(steps, id, s.rows[id]) {
        if last.Insert? && last.id == id {
          InsertIsOrigin(init, last.r, id, s.rows[id]);
        } else {
          StepKeepsIdentity(cfg, s0, last, id);
          StepKeepsOrigin(init, last, id, s0.rows[id]);
          assert CameFrom(steps, id, s0.rows[id]);
        }
      }
    }
  }

  // In every reachable state every row's creation time is that of its last Insert step, and its pair
  // and payload are those its request checked before.
  lemma RowsComeFromRequests(cfg: Risk.Config, steps: seq<Step>, s: State, id: JobId)
    requires Leads(cfg, INITIAL, steps, s) && id in s.rows
    ensures CameFrom(steps, id, s.rows[id])
    ensures forall j: nat | LastInsert(steps, id, j) :: s.rows[id].createdAt == steps[j].createdAt
  {
    RowsAndChecksComeFromRequests(cfg, steps, s);
    var i: nat :| LastInsert(steps, id, i) && steps[i].createdAt == s.rows[id].createdAt
             && CheckedBefore(steps, i, steps[i].r, s.rows[id].key, s.rows[id].payload);
    forall j: nat | LastInsert(steps, id, j) ensures j == i {
      assert !(i < j) && !(j < i);
    }
  }

  // The later claim's job was not inserted earlier.
  ghost predicate InsertedInOrder(steps: seq<Step>, a: JobId, b: JobId) {
    forall p: nat, q: nat | LastInsert(steps, a, p) && LastInsert(steps, b, q) ::
      steps[p].createdAt <= steps[q].createdAt
  }

  lemma RowsShowInsertOrder(cfg: Risk.Config, steps: seq<Step>, s: State, a: JobId, b: JobId)
    requires Leads(cfg, INITIAL, steps, s) && a in s.rows && b in s.rows && s.rows[a].createdAt <= s.rows[b].createdAt
    ensures InsertedInOrder(steps, a, b)
  {
    RowsComeFromRequests(cfg, steps, s, a);
    RowsComeFromRequests(cfg, steps, s, b);
  }

  // So a single worker on a closed queue claims the jobs in the order of the times their requests
  // gave them.
  lemma ClaimsFollowInsertTimes(cfg: Risk.Config, before: seq<Step>, s: State, w: WorkerId, steps: seq<Step>,
                                i: nat, j: nat)
    requires Leads(cfg, INITIAL, before, s) && ValidRun(cfg, s, steps) && OnlyWorker(steps, w) && Solo(s, w)
    requires |s.hist.claims| <= i < j < |Exec(cfg, s, steps).hist.claims|
    ensures var claims := Exec(cfg, s, steps).hist.claims;
            InsertedInOrder(before + steps, claims[i].job, claims[j].job)
  {
    var s' := Exec(cfg, s, steps);
    ReachableInv(cfg, s);
    ClosedQueueClaimsInOrder(cfg, s, w, steps, |s.hist.claims|);
    LeadsOn(cfg, INITIAL, before, s, steps, s');
    RowsShowInsertOrder(cfg, before + steps, s', s'.hist.claims[i].job, s'.hist.claims[j].job);
  }
}
