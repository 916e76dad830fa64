/**
 Renewal against the clock. A worker renews its lease while it executes a job
 (internal/worker/worker.go, `renewLoop`). When is that often enough for no sweep to take the
 job away?

 The loop is synchronous. A ticker fires every third of the lease asked for and buffers one tick;
 a request is sent when a tick is taken, and the next tick is not looked at until that request has
 been answered or has failed, at the latest when the client's timeout runs out.
 */
module LeaseTiming {
  import opened Schema
  import opened Backoff
  import opened Machine
  import opened Recovery
  import opened Calls

  /** The lease the worker asks for and the one the server grants; the longest an answered request
      takes, from being sent to its answer; the longest a failing one holds the loop; and how many
      renewals in a row may fail. */
  datatype Timing = Timing(asked: int, granted: int, latency: int, hold: int, misses: nat) {
    /** A ticker needs a positive interval. */
    predicate Ok() {
      3 <= asked && 0 < granted && 0 <= latency && 0 <= hold
    }

    /** time.NewTicker(lease / 3), of the lease asked for */
    function Interval(): int {
      asked / 3
    }

    /** How much later the next request is for each one that fails. */
    function Setback(): int {
      Max(Interval(), hold)
    }

    /** The test that decides safety. */
    predicate Safe() {
      Interval() + misses * Setback() + 2 * latency <= granted
    }
  }

  /** A renewal in flight: when it was sent, the first tick after that, and whether it has
      reached the table. */
  datatype Request = Request(sent: Time, tick: Time, landed: bool)

  /** The worker's side. `start` is when the claim was answered and the ticker started; `since` is
      when the last renewal that was answered was sent; `failed` counts those that have failed since;
      `due` is when the next is sent. */
  datatype Loop = Loop(start: Time, since: Time, failed: nat, due: Time, call: Option<Request>)

  datatype Move =
    | Send(k: nat)     // tick k has passed, tick k + 1 has not
    | Land(at: Time)   // the renewal in flight takes effect
    | Heard            // it is answered
    | Missed           // it fails
    | Other(e: Event)

  /** The job was claimed by a request answered at `start`, within the latency. */
  function Started(t: Timing, start: Time): Loop {
    Loop(start, start - t.latency, 0, start + t.Interval(), None)
  }

  /** While nothing is in flight, the next renewal is sent when it is due. One in flight ends
      within the latency if it is answered and within the hold if it fails, and it may fail only if
      fewer than `misses` have. */
  function Limit(t: Timing, m: Loop): Time {
    match m.call
    case None => m.due
    case Some(r) => r.sent + if m.failed < t.misses then Max(t.latency, t.hold) else t.latency
  }

  /** While the job is executed. The worker itself does not report yet; everyone else may do
      anything. A renewal may take effect although it is not answered. */
  predicate MoveEnabled(s: Tables, m: Loop, t: Timing, id: JobId, w: WorkerId, v: Move) {
    match v
    case Send(k) =>
      m.call.None? && s.clock == m.due && m.start + k * t.Interval() <= s.clock < m.start + k * t.Interval() + t.Interval()
    case Land(at) => m.call.Some? && !m.call.value.landed && m.call.value.sent <= at && Enabled(s, Renew(id, w, t.granted, at))
    case Heard => m.call.Some? && m.call.value.landed && s.clock <= m.call.value.sent + t.latency
    case Missed => m.call.Some? && m.failed < t.misses && s.clock <= m.call.value.sent + t.hold
    case Other(e) =>
      && Enabled(s, e)
      && (e.Tick? ==> e.to <= Limit(t, m))
      && !((e.Renew? || e.Complete? || e.Fail?) && e.id == id)
  }

  function MoveTables(c: BackoffConfig, s: Tables, m: Loop, t: Timing, id: JobId, w: WorkerId, v: Move): Tables
    requires MoveEnabled(s, m, t, id, w, v)
  {
    match v
    case Land(at) => Apply(c, s, Renew(id, w, t.granted, at))
    case Other(e) => Apply(c, s, e)
    case _ => s
  }

  /** When the request is over the loop takes the buffered tick at once, or waits for the next. */
  function MoveLoop(s: Tables, m: Loop, t: Timing, id: JobId, w: WorkerId, v: Move): Loop
    requires MoveEnabled(s, m, t, id, w, v)
  {
    match v
    case Send(k) => m.(call := Some(Request(s.clock, m.start + k * t.Interval() + t.Interval(), false)))
    case Land(_) => m.(call := Some(m.call.value.(landed := true)))
    case Heard => m.(since := m.call.value.sent, failed := 0, due := Max(s.clock, m.call.value.tick), call := None)
    case Missed => m.(failed := m.failed + 1, due := Max(s.clock, m.call.value.tick), call := None)
    case Other(_) => m
  }

  predicate MovesValid(c: BackoffConfig, s: Tables, m: Loop, t: Timing, id: JobId, w: WorkerId, vs: seq<Move>)
    decreases |vs|, 0
  {
    vs == [] ||
    (&& MovesValid(c, s, m, t, id, w, Front(vs))
     && var (p, n) := MovesExec(c, s, m, t, id, w, Front(vs));
        MoveEnabled(p, n, t, id, w, Last(vs)))
  }

  function MovesExec(c: BackoffConfig, s: Tables, m: Loop, t: Timing, id: JobId, w: WorkerId, vs: seq<Move>): (Tables, Loop)
    requires MovesValid(c, s, m, t, id, w, vs)
    decreases |vs|, 1
  {
    if vs == [] then (s, m) else
      var (p, n) := MovesExec(c, s, m, t, id, w, Front(vs));
      (MoveTables(c, p, n, t, id, w, Last(vs)), MoveLoop(p, n, t, id, w, Last(vs)))
  }

  /** The claim has just committed: its lease was stamped after it was sent, so at most the latency
      before its answer. */
  predicate JustClaimed(s: Tables, m: Loop, t: Timing, id: JobId, w: WorkerId) {
    && m == Started(t, m.start)
    && Owns(s, id, w)
    && s.jobs[id].leaseUntil.Some?
    && m.start - t.latency + t.granted <= s.jobs[id].leaseUntil.value
    && s.clock <= m.start
  }

  // ----- what the loop does, as seen from outside -----

  /** The renewals that have failed since one was last answered. */
  function FailedInRow(vs: seq<Move>): nat {
    if vs == [] || Last(vs).Heard? then 0 else FailedInRow(Front(vs)) + if Last(vs).Missed? then 1 else 0
  }

  lemma {:induction false} MovesPrefix(c: BackoffConfig, s: Tables, m: Loop, t: Timing, id: JobId, w: WorkerId, vs: seq<Move>, n: nat)
    requires MovesValid(c, s, m, t, id, w, vs) && n <= |vs|
    ensures MovesValid(c, s, m, t, id, w, vs[..n])
  {
    if n < |vs| {
      MovesPrefix(c, s, m, t, id, w, Front(vs), n);
      assert Front(vs)[..n] == vs[..n];
    } else {
      assert vs[..n] == vs;
    }
  }

  /** The tables and the loop before move n. */
  ghost function MovesAt(c: BackoffConfig, s: Tables, m: Loop, t: Timing, id: JobId, w: WorkerId, vs: seq<Move>, n: nat): (Tables, Loop)
    requires MovesValid(c, s, m, t, id, w, vs) && n <= |vs|
  {
    MovesPrefix(c, s, m, t, id, w, vs, n);
    MovesExec(c, s, m, t, id, w, vs[..n])
  }

  lemma MoveAt(c: BackoffConfig, s: Tables, m: Loop, t: Timing, id: JobId, w: WorkerId, vs: seq<Move>, n: nat)
    requires MovesValid(c, s, m, t, id, w, vs) && n < |vs|
    ensures var (p, l) := MovesAt(c, s, m, t, id, w, vs, n);
            && MoveEnabled(p, l, t, id, w, vs[n])
            && MovesAt(c, s, m, t, id, w, vs, n + 1) == (MoveTables(c, p, l, t, id, w, vs[n]), MoveLoop(p, l, t, id, w, vs[n]))
  {
    MovesPrefix(c, s, m, t, id, w, vs, n + 1);
    assert Front(vs[..n + 1]) == vs[..n] && Last(vs[..n + 1]) == vs[n];
  }

  /** At most `misses` renewals in a row fail, however often that happens: an answer starts the count
      again, and a renewal may fail exactly while the count allows it and its hold is not over. */
  lemma {:induction false} MissesInRow(c: BackoffConfig, s: Tables, m: Loop, t: Timing, id: JobId, w: WorkerId, vs: seq<Move>)
    requires m == Started(t, m.start) && MovesValid(c, s, m, t, id, w, vs)
    ensures FailedInRow(vs) <= t.misses
    ensures var (p, l) := MovesExec(c, s, m, t, id, w, vs);
            && l.start == m.start && l.failed == FailedInRow(vs)
            && (MoveEnabled(p, l, t, id, w, Missed) <==>
                 l.call.Some? && FailedInRow(vs) < t.misses && p.clock <= l.call.value.sent + t.hold)
  {
    if vs != [] {
      MissesInRow(c, s, m, t, id, w, Front(vs));
    }
  }

  predicate Quiet(v: Move) {
    v.Land? || v.Other?
  }

  lemma {:induction false} InFlight(c: BackoffConfig, s: Tables, m: Loop, t: Timing, id: JobId, w: WorkerId, vs: seq<Move>, i: nat, e: nat)
    requires m == Started(t, m.start) && MovesValid(c, s, m, t, id, w, vs) && i < e <= |vs| && vs[i].Send?
    requires forall n :: i < n < e ==> Quiet(vs[n])
    ensures var sent, l := MovesAt(c, s, m, t, id, w, vs, i).0.clock, MovesAt(c, s, m, t, id, w, vs, e).1;
            l.call.Some? && l.call.value.sent == sent && l.call.value.tick == m.start + vs[i].k * t.Interval() + t.Interval()
    decreases e
  {
    MoveAt(c, s, m, t, id, w, vs, e - 1);
    if i == e - 1 {
      MovesPrefix(c, s, m, t, id, w, vs, i);
      MissesInRow(c, s, m, t, id, w, vs[..i]);
    } else {
      InFlight(c, s, m, t, id, w, vs, i, e - 1);
    }
  }

  lemma {:induction false} Waiting(c: BackoffConfig, s: Tables, m: Loop, t: Timing, id: JobId, w: WorkerId, vs: seq<Move>, e: nat, j: nat)
    requires MovesValid(c, s, m, t, id, w, vs) && e <= j <= |vs|
    requires forall n :: e <= n < j ==> Quiet(vs[n])
    ensures MovesAt(c, s, m, t, id, w, vs, j).1.due == MovesAt(c, s, m, t, id, w, vs, e).1.due
    decreases j
  {
    if e < j {
      MoveAt(c, s, m, t, id, w, vs, j - 1);
      Waiting(c, s, m, t, id, w, vs, e, j - 1);
    }
  }

  /** When renewals are sent. The first goes out on the first tick. After one sent at move i that ended
      at move e, the next goes out on the first tick after i, or at e if that tick had passed by
      then: the ticker buffers one tick, and the loop takes it as soon as it is free. */
  lemma SendsFollowTicks(c: BackoffConfig, s: Tables, m: Loop, t: Timing, id: JobId, w: WorkerId, vs: seq<Move>, i: nat, e: nat, j: nat)
    returns (tick: Time, k: nat)
    requires m == Started(t, m.start) && MovesValid(c, s, m, t, id, w, vs) && i < e < j < |vs|
    requires vs[i].Send? && (vs[e].Heard? || vs[e].Missed?) && vs[j].Send?
    requires forall n :: i < n < j && n != e ==> Quiet(vs[n])
    ensures tick == m.start + k * t.Interval()
    ensures var sent := MovesAt(c, s, m, t, id, w, vs, i).0.clock; sent < tick <= sent + t.Interval()
    ensures MovesAt(c, s, m, t, id, w, vs, j).0.clock == Max(MovesAt(c, s, m, t, id, w, vs, e).0.clock, tick)
  {
    k := vs[i].k + 1;
    tick := m.start + k * t.Interval();
    assert tick == m.start + vs[i].k * t.Interval() + t.Interval();
    MoveAt(c, s, m, t, id, w, vs, i);
    MovesPrefix(c, s, m, t, id, w, vs, i);
    MissesInRow(c, s, m, t, id, w, vs[..i]);
    InFlight(c, s, m, t, id, w, vs, i, e);
    MoveAt(c, s, m, t, id, w, vs, e);
    Waiting(c, s, m, t, id, w, vs, e + 1, j);
    MoveAt(c, s, m, t, id, w, vs, j);
  }

  lemma FirstSend(c: BackoffConfig, s: Tables, m: Loop, t: Timing, id: JobId, w: WorkerId, vs: seq<Move>, j: nat)
    requires m == Started(t, m.start) && MovesValid(c, s, m, t, id, w, vs) && j < |vs| && vs[j].Send?
    requires forall n :: 0 <= n < j ==> Quiet(vs[n])
    ensures MovesAt(c, s, m, t, id, w, vs, j).0.clock == m.start + t.asked / 3
  {
    Waiting(c, s, m, t, id, w, vs, 0, j);
    MoveAt(c, s, m, t, id, w, vs, j);
  }

  // ----- safe timings -----

  /** The latest that the next renewal can be sent. */
  function Mark(t: Timing, m: Loop): Time {
    m.since + t.latency + t.Interval() + m.failed * t.Setback()
  }

  /** The lease outlives the sending of the last answered renewal by a full lease, and each failure
      since has cost no more than its setback. */
  predicate Covered(s: Tables, m: Loop, t: Timing, id: JobId, w: WorkerId, attempts: int) {
    && Owns(s, id, w)
    && s.jobs[id].attempts == attempts
    && s.jobs[id].leaseUntil.Some?
    && m.since + t.granted <= s.jobs[id].leaseUntil.value
    && m.failed <= t.misses
    && s.clock <= Limit(t, m)
    && match m.call
       case None => m.since <= m.due <= Mark(t, m)
       case Some(r) =>
         && m.since <= r.sent <= Mark(t, m)
         && r.sent <= s.clock
         && r.tick <= r.sent + t.Interval()
         && (r.landed ==> r.sent + t.granted <= s.jobs[id].leaseUntil.value)
  }

  lemma OneMoreSetback(t: Timing, f: nat)
    ensures (f + 1) * t.Setback() == f * t.Setback() + t.Setback()
  {
  }

  lemma CoveredNotExpired(s: Tables, m: Loop, t: Timing, id: JobId, w: WorkerId, attempts: int)
    requires t.Ok() && t.Safe() && Covered(s, m, t, id, w, attempts)
    ensures s.clock <= s.jobs[id].leaseUntil.value
  {
    Scale(t.Setback(), m.failed, t.misses);
    if m.failed < t.misses {
      Scale(t.Setback(), m.failed + 1, t.misses);
      OneMoreSetback(t, m.failed);
    }
  }

  lemma MoveKeepsCovered(c: BackoffConfig, s: Tables, m: Loop, t: Timing, id: JobId, w: WorkerId, v: Move, attempts: int)
    requires t.Ok() && t.Safe() && Covered(s, m, t, id, w, attempts) && MoveEnabled(s, m, t, id, w, v)
    ensures !ReapsJob(v, id)
    ensures Covered(MoveTables(c, s, m, t, id, w, v), MoveLoop(s, m, t, id, w, v), t, id, w, attempts)
  {
    CoveredNotExpired(s, m, t, id, w, attempts);
    OneMoreSetback(t, m.failed);
  }

  /** In a safe timing the job keeps its owner, its attempt and a lease ahead of the clock for as
      long as it is executed, whatever the others do. */
  lemma {:induction false} CoveredThroughout(c: BackoffConfig, s: Tables, m: Loop, t: Timing, id: JobId, w: WorkerId, vs: seq<Move>)
    requires t.Ok() && t.Safe() && JustClaimed(s, m, t, id, w) && MovesValid(c, s, m, t, id, w, vs)
    ensures var (s', m') := MovesExec(c, s, m, t, id, w, vs);
            && Covered(s', m', t, id, w, s.jobs[id].attempts)
            && s'.clock <= s'.jobs[id].leaseUntil.value
    ensures forall i :: 0 <= i < |vs| ==> !ReapsJob(vs[i], id)
  {
    if vs == [] {
      CoveredNotExpired(s, m, t, id, w, s.jobs[id].attempts);
    } else {
      CoveredThroughout(c, s, m, t, id, w, Front(vs));
      var (p, n) := MovesExec(c, s, m, t, id, w, Front(vs));
      MoveKeepsCovered(c, p, n, t, id, w, Last(vs), s.jobs[id].attempts);
      var (s', m') := MovesExec(c, s, m, t, id, w, vs);
      CoveredNotExpired(s', m', t, id, w, s.jobs[id].attempts);
    }
  }

  // ----- unsafe timings -----

  predicate ReapsJob(v: Move, id: JobId) {
    v.Other? && v.e.Reap? && v.e.id == id
  }

  ghost predicate Reachable(c: BackoffConfig, s: Tables) {
    exists t0, es :: Valid(c, Empty(t0), es) && Exec(c, Empty(t0), es) == s
  }

  ghost predicate TakenAway(c: BackoffConfig, s: Tables, m: Loop, t: Timing, id: JobId, w: WorkerId, vs: seq<Move>) {
    && Reachable(c, s)
    && JustClaimed(s, m, t, id, w)
    && MovesValid(c, s, m, t, id, w, vs)
    && exists i :: 0 <= i < |vs| && ReapsJob(vs[i], id)
  }

  /** The job can be taken away in some run that keeps to the timing. */
  ghost predicate CanBeReaped(c: BackoffConfig, t: Timing) {
    exists s, m, id, w, vs :: TakenAway(c, s, m, t, id, w, vs)
  }

  lemma MovesSnoc(c: BackoffConfig, s: Tables, m: Loop, t: Timing, id: JobId, w: WorkerId, vs: seq<Move>, v: Move)
    requires MovesValid(c, s, m, t, id, w, vs)
    requires var (p, n) := MovesExec(c, s, m, t, id, w, vs); MoveEnabled(p, n, t, id, w, v)
    ensures MovesValid(c, s, m, t, id, w, vs + [v])
    ensures var (p, n) := MovesExec(c, s, m, t, id, w, vs);
            MovesExec(c, s, m, t, id, w, vs + [v]) == (MoveTables(c, p, n, t, id, w, v), MoveLoop(p, n, t, id, w, v))
  {
    assert Front(vs + [v]) == vs && Last(vs + [v]) == v;
  }

  /** One job, just claimed at time 0. */
  function Claimed(w: WorkerId, lease: int): Tables {
    Tables(map[1 := ClaimRow(NewRow("shell", "true", 1, 0), w, lease, 0)], map[w := Worker("host", 0, 0, 0, Some(1))], 0)
  }

  lemma ClaimedIsReachable(c: BackoffConfig, w: WorkerId, lease: int)
    ensures Reachable(c, Claimed(w, lease))
  {
    var e0, e1, e2 := Register(w, "host", 0), Create(1, "shell", "true", 1, 0), Claim(1, w, lease, 0);
    RunSnoc(c, Empty(0), [], e0);
    RunSnoc(c, Empty(0), [] + [e0], e1);
    RunSnoc(c, Empty(0), [] + [e0] + [e1], e2);
    assert Exec(c, Empty(0), [] + [e0] + [e1] + [e2]) == Claimed(w, lease);
  }

  const WORKER: WorkerId := "w"

  /** When the request after j failures is sent, if each holds the loop as long as it can. */
  function SentAfter(t: Timing, j: nat): Time {
    t.latency + t.Interval() + j * t.Setback()
  }

  /** The worst run so far: the claim was answered as late as it can be, and j renewals have failed. */
  ghost predicate AfterMisses(c: BackoffConfig, t: Timing, j: nat, vs: seq<Move>) {
    && MovesValid(c, Claimed(WORKER, t.granted), Started(t, t.latency), t, 1, WORKER, vs)
    && MovesExec(c, Claimed(WORKER, t.granted), Started(t, t.latency), t, 1, WORKER, vs)
       == (Claimed(WORKER, t.granted).(clock := SentAfter(t, j)), Loop(t.latency, 0, j, SentAfter(t, j), None))
  }

  /** The tick before the j-th request of that run. When failures do not outlast the interval, every
      request is sent on a tick. */
  lemma TickBefore(t: Timing, j: nat) returns (k: nat)
    requires t.Ok()
    ensures t.latency + k * t.Interval() <= SentAfter(t, j) < t.latency + k * t.Interval() + t.Interval()
    ensures t.hold <= t.Interval() ==> SentAfter(t, j) == t.latency + k * t.Interval()
  {
    Scale(t.Setback(), 0, j);
    var x := t.Interval() + j * t.Setback();
    if t.hold <= t.Interval() {
      k := j + 1;
      assert (j + 1) * t.Interval() == j * t.Interval() + t.Interval();
    } else {
      k := QuotientIsNat(x, t.Interval());
    }
  }

  lemma QuotientIsNat(x: int, m: int) returns (k: nat)
    requires 0 <= x && 0 < m
    ensures k * m <= x < k * m + m
  {
    DivMod(x, m);
    var q := x / m;
    if q < 0 {
      Scale(m, q, -1);
    }
    k := q;
  }

  /** Claimed, the first tick awaited. */
  lemma NoMissYet(c: BackoffConfig, t: Timing)
    requires t.Ok()
    ensures AfterMisses(c, t, 0, [Other(Tick(SentAfter(t, 0)))])
  {
    MovesSnoc(c, Claimed(WORKER, t.granted), Started(t, t.latency), t, 1, WORKER, [], Other(Tick(SentAfter(t, 0))));
    assert [] + [Other(Tick(SentAfter(t, 0)))] == [Other(Tick(SentAfter(t, 0)))];
  }

  lemma OneMoreMiss(c: BackoffConfig, t: Timing, j: nat, vs: seq<Move>) returns (us: seq<Move>)
    requires t.Ok() && j < t.misses && AfterMisses(c, t, j, vs)
    ensures AfterMisses(c, t, j + 1, us)
  {
    var s, m := Claimed(WORKER, t.granted), Started(t, t.latency);
    var sent, next := SentAfter(t, j), SentAfter(t, j + 1);
    OneMoreSetback(t, j);
    var k := TickBefore(t, j);
    MovesSnoc(c, s, m, t, 1, WORKER, vs, Send(k));
    MovesSnoc(c, s, m, t, 1, WORKER, vs + [Send(k)], Other(Tick(sent + t.hold)));
    MovesSnoc(c, s, m, t, 1, WORKER, vs + [Send(k)] + [Other(Tick(sent + t.hold))], Missed);
    MovesSnoc(c, s, m, t, 1, WORKER, vs + [Send(k)] + [Other(Tick(sent + t.hold))] + [Missed], Other(Tick(next)));
    us := vs + [Send(k)] + [Other(Tick(sent + t.hold))] + [Missed] + [Other(Tick(next))];
  }

  lemma {:induction false} AllMisses(c: BackoffConfig, t: Timing, j: nat) returns (vs: seq<Move>)
    requires t.Ok() && j <= t.misses
    ensures AfterMisses(c, t, j, vs)
  {
    if j == 0 {
      NoMissYet(c, t);
      vs := [Other(Tick(SentAfter(t, 0)))];
    } else {
      var us := AllMisses(c, t, j - 1);
      vs := OneMoreMiss(c, t, j - 1, us);
    }
  }

  /** The renewal that should save the lease is still on its way when a sweep comes. */
  lemma ReapedInTime(c: BackoffConfig, t: Timing)
    requires t.Ok() && !t.Safe()
    ensures CanBeReaped(c, t)
  {
    var s, m := Claimed(WORKER, t.granted), Started(t, t.latency);
    ClaimedIsReachable(c, WORKER, t.granted);
    var vs := AllMisses(c, t, t.misses);
    var sent := SentAfter(t, t.misses);
    var k := TickBefore(t, t.misses);
    var v0, v1, v2 := Send(k), Other(Tick(sent + t.latency)), Other(Reap(1, sent + t.latency));
    MovesSnoc(c, s, m, t, 1, WORKER, vs, v0);
    MovesSnoc(c, s, m, t, 1, WORKER, vs + [v0], v1);
    MovesSnoc(c, s, m, t, 1, WORKER, vs + [v0] + [v1], v2);
    var us := vs + [v0] + [v1] + [v2];
    assert us[|us| - 1] == v2 && ReapsJob(us[|us| - 1], 1);
    assert TakenAway(c, s, m, t, 1, WORKER, us);
  }

  /** Exactly the safe timings protect the job: a sweep can take a job under execution if and only
      if interval + misses * max(interval, hold) + 2 * latency exceeds the lease granted. */
  lemma SafeIffNeverReaped(c: BackoffConfig, t: Timing)
    requires t.Ok()
    ensures t.Safe() <==> !CanBeReaped(c, t)
  {
    if t.Safe() {
      if CanBeReaped(c, t) {
        var s, m, id, w, vs :| TakenAway(c, s, m, t, id, w, vs);
        CoveredThroughout(c, s, m, t, id, w, vs);
      }
    } else {
      ReapedInTime(c, t);
    }
  }

  // ----- what that means for the shipped numbers -----

  /** The timing of a worker that asks a server with these bounds for a lease. */
  function TimingOf(l: LeaseConfig, asked: int, latency: int, hold: int, misses: nat): Timing {
    Timing(asked, ClampLease(l, asked as real / SECOND as real), latency, hold, misses)
  }

  /** For a lease within the server's bounds: if a failing renewal is over before the next tick, one
      failure is harmless up to a latency of a sixth of the lease. Two in a row are safe for no
      latency worth counting, however quickly they fail. And one failure that holds the loop for two
      thirds of the lease or more loses the job even at no latency at all. */
  lemma ToleratedMisses(l: LeaseConfig, asked: int, latency: int, hold: int)
    requires 3 <= asked && l.min <= asked <= l.max && 0 <= latency && 0 <= hold
    ensures TimingOf(l, asked, latency, hold, 1).granted == asked
    ensures TimingOf(l, asked, latency, hold, 1).Safe() <==> asked / 3 + Max(asked / 3, hold) + 2 * latency <= asked
    ensures 3 * hold <= asked && 6 * latency <= asked ==> TimingOf(l, asked, latency, hold, 1).Safe()
    ensures TimingOf(l, asked, latency, hold, 2).Safe() ==> 2 * latency <= asked % 3
    ensures 3 * hold > 2 * asked + 2 ==> !TimingOf(l, asked, latency, hold, 1).Safe()
  {
    GrantedAsAsked(l, asked);
  }

  /** The shipped worker: a lease of 30 s and a client that gives up after 15 s, within the server's
      bounds. It survives one failed renewal exactly if requests are answered within 2.5 s, and
      never two in a row. */
  lemma ShippedTiming(l: LeaseConfig, latency: int)
    requires l.min <= 30 * SECOND <= l.max && 0 <= latency
    ensures TimingOf(l, 30 * SECOND, latency, 15 * SECOND, 1).Safe() <==> 2 * latency <= 5 * SECOND
    ensures !TimingOf(l, 30 * SECOND, latency, 15 * SECOND, 2).Safe()
  {
    GrantedAsAsked(l, 30 * SECOND);
  }

  /** A worker may ask for more than the server grants, but it renews by what it asked for: at
      three times the longest lease or more, it loses its job even if no renewal ever fails. */
  lemma OverlongLeaseIsUnsafe(l: LeaseConfig, asked: int, latency: int, hold: int, misses: nat)
    requires 0 < l.min <= l.max && 3 * l.max <= asked && 0 < latency && 0 <= hold
    ensures !TimingOf(l, asked, latency, hold, misses).Safe()
  {
    CappedAtMax(l, asked);
    Scale(TimingOf(l, asked, latency, hold, misses).Setback(), 0, misses);
  }
}
