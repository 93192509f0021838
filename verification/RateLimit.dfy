/**
  The sliding-window rate limiter (rate_limit.py): take the cutoff, count, reject or insert, commit,
  with no lock in between.  Any number of requests interleave; `k` bounds how many
  requests of one client are between their count and their commit at the same time.
*/
module RateLimit {
  import opened Collections

  const WINDOW := 60000 // window_seconds, in milliseconds
  const LIMIT := 100    // requests per window and client

  type Client = string
  type RequestId = int

  datatype Entry = Entry(client: Client, createdAt: int)

  // A request before its count, with the time its cutoff was taken; past its count; and with its
  // row inserted, whose created_at is then fixed.
  datatype Flight =
    | Waiting(client: Client, at: int)
    | Counted(client: Client, at: int)
    | Stamped(client: Client, at: int)

  datatype State = State(now: int, log: seq<Entry>, flights: map<RequestId, Flight>)

  const INITIAL := State(0, [], map[])

  // SELECT COUNT(*) ... WHERE client_id = :client_id AND created_at > :cutoff, over committed rows.
  function CountAfter(log: seq<Entry>, client: Client, cutoff: int): nat {
    if log == [] then 0
    else
      var e := log[|log| - 1];
      CountAfter(log[..|log| - 1], client, cutoff) + if e.client == client && e.createdAt > cutoff then 1 else 0
  }

  // Logged requests of a client after lo, up to and including hi.
  function Between(log: seq<Entry>, client: Client, lo: int, hi: int): nat {
    if log == [] then 0
    else
      var e := log[|log| - 1];
      Between(log[..|log| - 1], client, lo, hi) + if e.client == client && lo < e.createdAt <= hi then 1 else 0
  }

  // Logged requests of a client in the window that ends at x.
  function InWindow(log: seq<Entry>, client: Client, x: int): nat { Between(log, client, x - WINDOW, x) }

  // Requests of a client between their count and their commit.
  function InFlight(s: State, client: Client): set<RequestId> {
    set id | id in s.flights && s.flights[id].client == client && !s.flights[id].Waiting?
  }

  // The count is made now, with the cutoff of the time `at`.
  predicate Admits(limit: nat, s: State, client: Client, at: int) {
    CountAfter(s.log, client, at - WINDOW) < limit
  }

  datatype Step =
    | Tick(ms: nat)
    | Start(id: RequestId, client: Client)
    | Count(id: RequestId)
    | Insert(id: RequestId)
    | Commit(id: RequestId)
    | Drop(id: RequestId) // failure or crash before the commit

  ghost predicate Enabled(k: nat, s: State, step: Step) {
    match step
    case Tick(_) => true
    case Start(id, client) => id !in s.flights
    case Count(id) => id in s.flights && s.flights[id].Waiting? && |InFlight(s, s.flights[id].client)| < k
    case Insert(id) => id in s.flights && s.flights[id].Counted?
    case Commit(id) => id in s.flights && s.flights[id].Stamped?
    case Drop(id) => id in s.flights
  }

  ghost function Apply(limit: nat, k: nat, s: State, step: Step): State
    requires Enabled(k, s, step)
  {
    match step
    case Tick(ms) => s.(now := s.now + ms)
    case Start(id, client) => s.(flights := s.flights[id := Waiting(client, s.now)])
    case Count(id) =>
      var f := s.flights[id];
      if Admits(limit, s, f.client, f.at) then s.(flights := s.flights[id := Counted(f.client, s.now)])
      else s.(flights := s.flights - {id})
    case Insert(id) => s.(flights := s.flights[id := Stamped(s.flights[id].client, s.now)])
    case Commit(id) =>
      s.(log := s.log + [Entry(s.flights[id].client, s.flights[id].at)], flights := s.flights - {id})
    case Drop(id) => s.(flights := s.flights - {id})
  }

  ghost predicate ValidRun(limit: nat, k: nat, s: State, steps: seq<Step>)
    decreases |steps|
  {
    steps == [] || (Enabled(k, s, steps[0]) && ValidRun(limit, k, Apply(limit, k, s, steps[0]), steps[1..]))
  }

  ghost function Exec(limit: nat, k: nat, s: State, steps: seq<Step>): State
    requires ValidRun(limit, k, s, steps)
    decreases |steps|
  {
    if steps == [] then s else Exec(limit, k, Apply(limit, k, s, steps[0]), steps[1..])
  }

  ghost predicate Leads(limit: nat, k: nat, s: State, steps: seq<Step>, s': State) {
    ValidRun(limit, k, s, steps) && Exec(limit, k, s, steps) == s'
  }

  ghost predicate Reachable(limit: nat, k: nat, s: State) { exists steps :: Leads(limit, k, INITIAL, steps, s) }

  // ---- the bound ----

  // Requests in flight whose row may still appear in the window that ends at x.
  predicate MayLand(f: Flight, x: int) {
    match f
    case Waiting(_, _) => false
    case Counted(_, at) => at <= x
    case Stamped(_, at) => x - WINDOW < at <= x
  }

  function Landing(s: State, client: Client, x: int): set<RequestId> {
    set id | id in s.flights && s.flights[id].client == client && MayLand(s.flights[id], x)
  }

  // Every window, past or future, has room for what is logged and what may still land in it.
  ghost predicate Bounded(limit: nat, k: nat, s: State, client: Client, x: int) {
    InWindow(s.log, client, x) + |Landing(s, client, x)| < limit + k
  }

  ghost predicate Inv(limit: nat, k: nat, s: State) {
    && (forall id | id in s.flights :: s.flights[id].at <= s.now)
    && (forall i | 0 <= i < |s.log| :: s.log[i].createdAt <= s.now)
    && (forall client, x :: Bounded(limit, k, s, client, x))
  }

  // What a window that ends no earlier than the cutoff was taken holds, the count sees.
  lemma {:induction false} LateWindowIsCounted(log: seq<Entry>, client: Client, at: int, x: int)
    requires at <= x
    ensures InWindow(log, client, x) <= CountAfter(log, client, at - WINDOW)
  {
    if log != [] { LateWindowIsCounted(log[..|log| - 1], client, at, x); }
  }

  lemma CountKeepsBound(limit: nat, k: nat, s: State, id: RequestId, client: Client, x: int)
    requires Bounded(limit, k, s, client, x) && Enabled(k, s, Count(id)) && s.flights[id].at <= s.now
    ensures Bounded(limit, k, Apply(limit, k, s, Count(id)), client, x)
  {
    var f, s' := s.flights[id], Apply(limit, k, s, Count(id));
    if Admits(limit, s, f.client, f.at) && f.client == client && s.now <= x {
      // the new request lands late: everything it can meet was in its count or is in flight
      LateWindowIsCounted(s.log, client, f.at, x);
      forall j | j in Landing(s', client, x) ensures j in InFlight(s, client) + {id} {
        assert j != id ==> s'.flights[j] == s.flights[j];
      }
      SubsetIsNoLarger(Landing(s', client, x), InFlight(s, client) + {id});
    } else {
      assert Landing(s', client, x) == Landing(s, client, x);
    }
  }

  lemma CommitKeepsBound(limit: nat, k: nat, s: State, id: RequestId, client: Client, x: int)
    requires Bounded(limit, k, s, client, x) && Enabled(k, s, Commit(id))
    ensures Bounded(limit, k, Apply(limit, k, s, Commit(id)), client, x)
  {
    var s' := Apply(limit, k, s, Commit(id));
    assert s'.log[..|s'.log| - 1] == s.log;
    assert Landing(s', client, x) == Landing(s, client, x) - {id};
  }

  lemma StepKeepsBound(limit: nat, k: nat, s: State, step: Step, client: Client, x: int)
    requires Bounded(limit, k, s, client, x) && Enabled(k, s, step)
    requires forall id | id in s.flights :: s.flights[id].at <= s.now
    ensures Bounded(limit, k, Apply(limit, k, s, step), client, x)
  {
    match step
    case Tick(_) =>
    case Count(id) => CountKeepsBound(limit, k, s, id, client, x);
    case Commit(id) => CommitKeepsBound(limit, k, s, id, client, x);
    case _ => SubsetIsNoLarger(Landing(Apply(limit, k, s, step), client, x), Landing(s, client, x));
  }

  lemma InvStep(limit: nat, k: nat, s: State, step: Step)
    requires Inv(limit, k, s) && Enabled(k, s, step)
    ensures Inv(limit, k, Apply(limit, k, s, step))
  {
    forall client, x ensures Bounded(limit, k, Apply(limit, k, s, step), client, x) {
      assert Bounded(limit, k, s, client, x);
      StepKeepsBound(limit, k, s, step, client, x);
    }
  }

  lemma {:induction false} InvRun(limit: nat, k: nat, s: State, steps: seq<Step>)
    requires Inv(limit, k, s) && ValidRun(limit, k, s, steps)
    ensures Inv(limit, k, Exec(limit, k, s, steps))
    decreases |steps|
  {
    if steps != [] {
      InvStep(limit, k, s, steps[0]);
      InvRun(limit, k, Apply(limit, k, s, steps[0]), steps[1..]);
    }
  }

  lemma ReachableInv(limit: nat, k: nat, s: State)
    requires k > 0 && Reachable(limit, k, s)
    ensures Inv(limit, k, s)
  {
    var steps :| Leads(limit, k, INITIAL, steps, s);
    assert forall client, x :: Landing(INITIAL, client, x) == {};
    InvRun(limit, k, INITIAL, steps);
  }

  // In every interleaving every 60-second window, wherever it starts, holds at most limit + k - 1
  // logged requests of a client; with one request at a time that is the limit itself.
  lemma WindowIsBounded(limit: nat, k: nat, s: State, client: Client, x: int)
    requires k > 0 && Reachable(limit, k, s)
    ensures InWindow(s.log, client, x) <= limit + k - 1
  {
    ReachableInv(limit, k, s);
    assert Bounded(limit, k, s, client, x);
  }

  lemma {:induction false} CountIsExpiredAndCurrent(log: seq<Entry>, client: Client, at: int, now: int)
    requires at <= now && forall i | 0 <= i < |log| :: log[i].createdAt <= now
    ensures CountAfter(log, client, at - WINDOW)
         == Between(log, client, at - WINDOW, now - WINDOW) + InWindow(log, client, now)
  {
    if log != [] { CountIsExpiredAndCurrent(log[..|log| - 1], client, at, now); }
  }

  lemma {:induction false} NothingBetween(log: seq<Entry>, client: Client, x: int)
    ensures Between(log, client, x, x) == 0
  {
    if log != [] { NothingBetween(log[..|log| - 1], client, x); }
  }

  // And no request is turned away without cause: a rejection happens exactly when the window that
  // ends now, with the rows that left it since the cutoff was taken, holds `limit` requests of that
  // client.  A full window always rejects; with no time in between, only a full window does.
  lemma RejectsExactlyWhenFull(limit: nat, k: nat, s: State, id: RequestId)
    requires k > 0 && Reachable(limit, k, s) && id in s.flights && s.flights[id].Waiting?
    ensures var client, at := s.flights[id].client, s.flights[id].at;
            && (!Admits(limit, s, client, at) <==>
                Between(s.log, client, at - WINDOW, s.now - WINDOW) + InWindow(s.log, client, s.now) >= limit)
            && (InWindow(s.log, client, s.now) >= limit ==> !Admits(limit, s, client, at))
            && (at == s.now ==> (!Admits(limit, s, client, at) <==> InWindow(s.log, client, s.now) >= limit))
  {
    ReachableInv(limit, k, s);
    CountIsExpiredAndCurrent(s.log, s.flights[id].client, s.flights[id].at, s.now);
    NothingBetween(s.log, s.flights[id].client, s.now - WINDOW);
  }

  // ---- the counts, as numbers of rows ----

  // The positions of a client's rows logged after lo, up to and including hi.
  ghost function Rows(log: seq<Entry>, client: Client, lo: int, hi: int): set<int> {
    set i | 0 <= i < |log| && log[i].client == client && lo < log[i].createdAt <= hi
  }

  // Those of the minute that ends at x.
  ghost function LastMinute(log: seq<Entry>, client: Client, x: int): set<int> {
    set i | 0 <= i < |log| && log[i].client == client && x - 60000 < log[i].createdAt <= x
  }

  lemma {:induction false} BetweenIsRows(log: seq<Entry>, client: Client, lo: int, hi: int)
    ensures Between(log, client, lo, hi) == |Rows(log, client, lo, hi)|
  {
    var n := |log| - 1;
    if log != [] {
      BetweenIsRows(log[..n], client, lo, hi);
      var last := if n in Rows(log, client, lo, hi) then {n} else {};
      assert Rows(log, client, lo, hi) == Rows(log[..n], client, lo, hi) + last;
    }
  }

  lemma {:induction false} CountAfterIsBetween(log: seq<Entry>, client: Client, cutoff: int, now: int)
    requires forall i | 0 <= i < |log| :: log[i].createdAt <= now
    ensures CountAfter(log, client, cutoff) == Between(log, client, cutoff, now)
  {
    if log != [] { CountAfterIsBetween(log[..|log| - 1], client, cutoff, now); }
  }

  // With the limiter's own numbers: every minute holds at most 100 rows of a client and those that
  // its other requests in flight may add, and a request is let through exactly when fewer than 100
  // rows were logged since a minute before its cutoff was taken.
  lemma HundredPerMinute(k: nat, s: State, client: Client, x: int)
    requires k > 0 && Reachable(LIMIT, k, s)
    ensures |LastMinute(s.log, client, x)| <= 100 + k - 1
  {
    WindowIsBounded(LIMIT, k, s, client, x);
    assert LastMinute(s.log, client, x) == Rows(s.log, client, x - 60000, x);
    BetweenIsRows(s.log, client, x - 60000, x);
  }

  lemma AdmitsExactlyBelowHundred(k: nat, s: State, client: Client, at: int)
    requires k > 0 && Reachable(LIMIT, k, s)
    ensures Admits(LIMIT, s, client, at) <==> |Rows(s.log, client, at - 60000, s.now)| < 100
  {
    ReachableInv(LIMIT, k, s);
    CountAfterIsBetween(s.log, client, at - 60000, s.now);
    BetweenIsRows(s.log, client, at - 60000, s.now);
  }

  // ---- the bound is attained ----

  lemma {:induction false} RunsCompose(limit: nat, k: nat, s: State, a: seq<Step>, b: seq<Step>)
    requires ValidRun(limit, k, s, a) && ValidRun(limit, k, Exec(limit, k, s, a), b)
    ensures Leads(limit, k, s, a + b, Exec(limit, k, Exec(limit, k, s, a), b))
    decreases |a|
  {
    if a == [] {
      assert a + b == b;
    } else {
      assert (a + b)[1..] == a[1..] + b;
      RunsCompose(limit, k, Apply(limit, k, s, a[0]), a[1..], b);
    }
  }

  lemma StepOn(limit: nat, k: nat, run: seq<Step>, s: State, step: Step)
    requires Leads(limit, k, INITIAL, run, s) && Enabled(k, s, step)
    ensures Leads(limit, k, INITIAL, run + [step], Apply(limit, k, s, step))
  {
    assert [step][1..] == [];
    assert Exec(limit, k, s, [step]) == Exec(limit, k, Apply(limit, k, s, step), []);
    RunsCompose(limit, k, INITIAL, run, [step]);
  }

  lemma ReachableStep(limit: nat, k: nat, s: State, step: Step)
    requires Reachable(limit, k, s) && Enabled(k, s, step)
    ensures Reachable(limit, k, Apply(limit, k, s, step))
  {
    var run :| Leads(limit, k, INITIAL, run, s);
    StepOn(limit, k, run, s, step);
  }

  function Copies(client: Client, n: nat): seq<Entry> { seq(n, _ => Entry(client, 0)) }

  function Counting(client: Client, lo: nat, hi: nat): (m: map<RequestId, Flight>)
    requires lo <= hi
    ensures |m| == hi - lo
    ensures forall i: int :: i in m <==> lo <= i < hi
    ensures forall i | i in m :: m[i] == Counted(client, 0)
  {
    if lo == hi then map[] else Counting(client, lo, hi - 1)[hi - 1 := Counted(client, 0)]
  }

  // n requests logged, requests lo..hi counted and still in flight, all at time zero.
  function Scene(client: Client, n: nat, lo: nat, hi: nat): State
    requires lo <= hi
  {
    State(0, Copies(client, n), Counting(client, lo, hi))
  }

  lemma {:induction false} CopiesCount(client: Client, n: nat)
    ensures CountAfter(Copies(client, n), client, -WINDOW) == n == InWindow(Copies(client, n), client, 0)
  {
    if n > 0 {
      assert Copies(client, n)[..n - 1] == Copies(client, n - 1);
      CopiesCount(client, n - 1);
    }
  }

  lemma CountOneMore(limit: nat, k: nat, client: Client, n: nat, hi: nat)
    requires Reachable(limit, k, Scene(client, n, 0, hi)) && n < limit && hi < k
    ensures Reachable(limit, k, Scene(client, n, 0, hi + 1))
  {
    var s := Scene(client, n, 0, hi);
    CopiesCount(client, n);
    var s1 := Apply(limit, k, s, Start(hi, client));
    ReachableStep(limit, k, s, Start(hi, client));
    assert InFlight(s1, client) == s.flights.Keys;
    ReachableStep(limit, k, s1, Count(hi));
    assert Apply(limit, k, s1, Count(hi)).flights == Scene(client, n, 0, hi + 1).flights;
  }

  lemma LandOneMore(limit: nat, k: nat, client: Client, n: nat, lo: nat, hi: nat)
    requires lo < hi && Reachable(limit, k, Scene(client, n, lo, hi))
    ensures Reachable(limit, k, Scene(client, n + 1, lo + 1, hi))
  {
    var s := Scene(client, n, lo, hi);
    var s1 := Apply(limit, k, s, Insert(lo));
    ReachableStep(limit, k, s, Insert(lo));
    ReachableStep(limit, k, s1, Commit(lo));
    var s2 := Apply(limit, k, s1, Commit(lo));
    assert s2.log == Scene(client, n + 1, lo + 1, hi).log;
    assert s2.flights == Scene(client, n + 1, lo + 1, hi).flights;
  }

  lemma {:induction false} FillUp(limit: nat, k: nat, client: Client, n: nat)
    requires n < limit && k > 0
    ensures Reachable(limit, k, Scene(client, n, 0, 0))
  {
    if n == 0 {
      assert Scene(client, 0, 0, 0) == INITIAL;
      assert Leads(limit, k, INITIAL, [], INITIAL);
    } else {
      FillUp(limit, k, client, n - 1);
      CountOneMore(limit, k, client, n - 1, 0);
      LandOneMore(limit, k, client, n - 1, 0, 1);
      assert Scene(client, n, 1, 1) == Scene(client, n, 0, 0);
    }
  }

  lemma {:induction false} CountTogether(limit: nat, k: nat, client: Client, n: nat, hi: nat)
    requires n < limit && hi <= k && k > 0
    ensures Reachable(limit, k, Scene(client, n, 0, hi))
  {
    if hi == 0 {
      FillUp(limit, k, client, n);
    } else {
      CountTogether(limit, k, client, n, hi - 1);
      CountOneMore(limit, k, client, n, hi - 1);
    }
  }

  lemma {:induction false} LandTogether(limit: nat, k: nat, client: Client, n: nat, lo: nat)
    requires n < limit && lo <= k && k > 0
    ensures Reachable(limit, k, Scene(client, n + lo, lo, k))
  {
    if lo == 0 {
      CountTogether(limit, k, client, n, k);
    } else {
      LandTogether(limit, k, client, n, lo - 1);
      LandOneMore(limit, k, client, n + lo - 1, lo - 1, k);
    }
  }

  // The bound cannot be improved: for every limit and every k some interleaving fills a window
  // with exactly limit + k - 1 requests.
  lemma BoundIsAttained(limit: nat, k: nat, client: Client)
    requires limit > 0 && k > 0
    ensures exists s :: Reachable(limit, k, s) && InWindow(s.log, client, s.now) == limit + k - 1
  {
    LandTogether(limit, k, client, limit - 1, k);
    CopiesCount(client, limit - 1 + k);
    assert Reachable(limit, k, Scene(client, limit - 1 + k, k, k));
  }

  // ---- the middleware ----

  class RateLimiter {
    ghost const k: nat
    var now: int
    var log: seq<Entry>
    ghost var flights: map<RequestId, Flight>
    ghost var trace: seq<Step>

    ghost function View(): State
      reads this
    {
      State(now, log, flights)
    }

    ghost predicate Valid()
      reads this
    {
      k > 0 && Leads(LIMIT, k, INITIAL, trace, View())
    }

    constructor (ghost k: nat)
      requires k > 0
      ensures this.k == k && Valid() && View() == INITIAL
    {
      this.k := k;
      now, log, flights, trace := 0, [], map[], [];
    }

    // Time passes and other requests run; the contract says all a request may rely on.
    method Others(ghost me: RequestId)
      modifies this
      requires Valid()
      ensures Valid() && old(trace) <= trace && old(now) <= now && old(log) <= log
      ensures me in flights <==> me in old(flights)
      ensures me in flights ==> flights[me] == old(flights)[me]
    {
    }

    ghost method Took(s: State, step: Step)
      requires k > 0 && Leads(LIMIT, k, INITIAL, trace, s) && Enabled(k, s, step) && View() == Apply(LIMIT, k, s, step)
      modifies this`trace
      ensures Valid() && trace == old(trace) + [step]
    {
      StepOn(LIMIT, k, trace, s, step);
      trace := trace + [step];
    }

    // Others run, and by the meaning of k fewer than k requests of this client are past their count
    // when the next one counts.
    method OthersBeforeCount(ghost me: RequestId, client: Client)
      modifies this
      requires Valid() && |InFlight(View(), client)| < k
      ensures Valid() && old(trace) <= trace && old(now) <= now && old(log) <= log && |InFlight(View(), client)| < k
      ensures me in flights <==> me in old(flights)
      ensures me in flights ==> flights[me] == old(flights)[me]
    {
    }

    // The INSERT, whose created_at is the database's clock, and the commit.
    method InsertAndCommit(id: RequestId, client: Client)
      requires Valid() && id in flights && flights[id] == Counted(client, now)
      modifies this
      ensures Valid() && old(trace) <= trace && id !in flights && old(log) <= log && old(now) <= now
      ensures log != [] && log[|log| - 1].client == client && old(now) <= log[|log| - 1].createdAt <= now
    {
      Others(id);
      ghost var s := View();
      var stamp := now;
      flights := flights[id := Stamped(client, stamp)];
      Took(s, Insert(id));
      Others(id);
      s := View();
      log := log + [Entry(client, stamp)];
      flights := flights - {id};
      Took(s, Commit(id));
    }

    // rate_limit_middleware up to call_next: false is the 429 answer.  `counted` is the log its count
    // saw, at the time `asOf`.
    method Middleware(id: RequestId, client: Client)
      returns (admitted: bool, ghost counted: seq<Entry>, ghost asOf: int)
      requires Valid() && id !in flights && |InFlight(View(), client)| < k
      modifies this
      ensures Valid() && old(trace) <= trace && id !in flights
      ensures old(log) <= counted <= log
      ensures old(now) <= asOf <= now && forall i | 0 <= i < |counted| :: counted[i].createdAt <= asOf
      ensures admitted <==> |Rows(counted, client, old(now) - 60000, asOf)| < 100
      ensures !admitted ==> log == counted && now == asOf
      ensures admitted ==> log != [] && log[|log| - 1].client == client && old(now) <= log[|log| - 1].createdAt <= now
      ensures forall c, x :: |LastMinute(log, c, x)| <= 100 + k - 1
    {
      ghost var s := View();
      var cutoff := now - WINDOW;
      flights := flights[id := Waiting(client, now)];
      Took(s, Start(id, client));
      assert InFlight(View(), client) == InFlight(s, client);
      OthersBeforeCount(id, client);
      var count := CountAfter(log, client, cutoff);
      counted, asOf := log, now;
      s := View();
      AdmitsExactlyBelowHundred(k, s, client, cutoff + WINDOW);
      ReachableInv(LIMIT, k, s);
      if count >= LIMIT {
        flights := flights - {id};
        Took(s, Count(id));
        admitted := false;
      } else {
        flights := flights[id := Counted(client, now)];
        Took(s, Count(id));
        InsertAndCommit(id, client);
        admitted := true;
      }
      forall c, x ensures |LastMinute(log, c, x)| <= 100 + k - 1 { HundredPerMinute(k, View(), c, x); }
    }
  }
}
