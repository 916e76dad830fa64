/**
 Recovery of orphaned jobs: what one sweep of the reaper does, how many sweeps an expired
 lease can survive, and how far in the future any waiting or running job can be.
 */
module Recovery {
  import opened Schema
  import opened Backoff
  import opened Machine
  import opened Invariants
  import opened Dispatch

  // ----- one sweep -----

  predicate Overdue(jobs: map<JobId, Job>, at: Time, locked: set<JobId>, id: JobId) {
    id in jobs && Expired(jobs[id], at) && id !in locked
  }

  predicate Distinct<T(==)>(xs: seq<T>) {
    forall i, k :: 0 <= i < k < |xs| ==> xs[i] != xs[k]
  }

  function BatchSize(batch: int): nat {
    if batch <= 0 then 100 else batch
  }

  /** The rows the sweep's query returns: expired, unlocked, oldest leases first, at most
      `batch` of them, and none left out while there was room for it or an older lease
      (ORDER BY lease_until FOR UPDATE SKIP LOCKED LIMIT batch). */
  predicate IsSweepPick(jobs: map<JobId, Job>, at: Time, batch: nat, locked: set<JobId>, ids: seq<JobId>) {
    && |ids| <= batch
    && Distinct(ids)
    && (forall i :: 0 <= i < |ids| ==> Overdue(jobs, at, locked, ids[i]))
    && (forall i, k :: 0 <= i < k < |ids| ==> jobs[ids[i]].leaseUntil.value <= jobs[ids[k]].leaseUntil.value)
    && (forall k :: k in jobs && Overdue(jobs, at, locked, k) && k !in ids
          ==> |ids| == batch && forall i :: 0 <= i < |ids| ==> jobs[ids[i]].leaseUntil.value <= jobs[k].leaseUntil.value)
  }

  function SweepEvents(ids: seq<JobId>, at: Time): seq<Event> {
    if ids == [] then [] else SweepEvents(Front(ids), at) + [Reap(Last(ids), at)]
  }

  function SweptJobs(c: BackoffConfig, jobs: map<JobId, Job>, ids: seq<JobId>, at: Time): map<JobId, Job> {
    map id | id in jobs ::
      if id in ids then ReapRow(jobs[id], Delay(c, jobs[id].attempts), at) else jobs[id]
  }

  function SweptWorkers(workers: map<WorkerId, Worker>, ids: seq<JobId>): map<WorkerId, Worker> {
    map w | w in workers ::
      if workers[w].current.Some? && workers[w].current.value in ids then workers[w].(current := None) else workers[w]
  }

  lemma InFront<T>(xs: seq<T>, x: T)
    requires xs != []
    ensures x in xs <==> x in Front(xs) || x == Last(xs)
  {
    assert xs == Front(xs) + [Last(xs)];
  }

  /** A sweep is a run of the machine; it rewrites exactly the picked jobs, and frees exactly
      the workers whose current job was picked. */
  lemma {:induction false} SweepEffect(c: BackoffConfig, s: Tables, ids: seq<JobId>, at: Time)
    requires Inv(s) && at <= s.clock && Distinct(ids)
    requires forall i :: 0 <= i < |ids| ==> ids[i] in s.jobs && Expired(s.jobs[ids[i]], at)
    ensures Valid(c, s, SweepEvents(ids, at))
    ensures Exec(c, s, SweepEvents(ids, at))
         == Tables(SweptJobs(c, s.jobs, ids, at), SweptWorkers(s.workers, ids), s.clock)
  {
    if ids == [] {
      assert SweptJobs(c, s.jobs, ids, at) == s.jobs;
      assert SweptWorkers(s.workers, ids) == s.workers;
    } else {
      var front, id := Front(ids), Last(ids);
      assert ids == front + [id];
      SweepEffect(c, s, front, at);
      assert id !in front;
      RunSnoc(c, s, SweepEvents(front, at), Reap(id, at));
      SweepLast(c, s, front, id, at);
      ReleaseLast(s, front, ids, id);
    }
  }

  lemma SweepLast(c: BackoffConfig, s: Tables, front: seq<JobId>, id: JobId, at: Time)
    requires id in s.jobs && id !in front
    ensures SweptJobs(c, s.jobs, front, at)[id := ReapRow(s.jobs[id], Delay(c, s.jobs[id].attempts), at)]
         == SweptJobs(c, s.jobs, front + [id], at)
  {
  }

  lemma ReleaseLast(s: Tables, front: seq<JobId>, ids: seq<JobId>, id: JobId)
    requires Inv(s) && id in s.jobs && s.jobs[id].status == Running && id !in front
    requires ids == front + [id]
    ensures ReleaseWorker(SweptWorkers(s.workers, front), s.jobs[id].worker, id) == SweptWorkers(s.workers, ids)
  {
    assert RowOk(s.jobs[id]);
    var w := s.jobs[id].worker.value;
    forall v | v in s.workers && s.workers[v].current == Some(id)
      ensures v == w
    {
      assert OwnedBy(s.jobs[id], v);
    }
    var swept := SweptWorkers(s.workers, front);
    var released := ReleaseWorker(swept, s.jobs[id].worker, id);
    forall v | v in s.workers
      ensures v in released && released[v] == SweptWorkers(s.workers, ids)[v]
    {
    }
    assert released.Keys == s.workers.Keys;
  }

  /** A pick is as large as the batch and the rows allow. */
  lemma PickSize(jobs: map<JobId, Job>, at: Time, batch: nat, locked: set<JobId>, ids: seq<JobId>)
    requires IsSweepPick(jobs, at, batch, locked, ids)
    ensures |ids| == Min(batch, |set k | k in jobs && Overdue(jobs, at, locked, k)|)
  {
    var overdue := set k | k in jobs && Overdue(jobs, at, locked, k);
    var taken := set k | k in ids;
    DistinctSize(ids);
    Subset(taken, overdue);
    if |ids| < batch {
      Subset(overdue, taken);
    }
  }

  /** One sweep takes min(batch, expired) jobs, the oldest leases, and sends each to PENDING or
      FAILED by its attempts; an unexpired lease is never touched. */
  lemma SweepExact(c: BackoffConfig, s: Tables, ids: seq<JobId>, batch: nat, at: Time)
    requires Inv(s) && at <= s.clock && IsSweepPick(s.jobs, at, batch, {}, ids)
    ensures Valid(c, s, SweepEvents(ids, at))
    ensures |ids| == Min(batch, |set k | k in s.jobs && Expired(s.jobs[k], at)|)
    ensures var s' := Exec(c, s, SweepEvents(ids, at));
            && s'.jobs.Keys == s.jobs.Keys
            && forall id :: id in s.jobs ==>
                 if id in ids
                 then && s'.jobs[id].status == (if s.jobs[id].attempts == s.jobs[id].maxAttempts then Failed else Pending)
                      && at < s'.jobs[id].availableAt <= at + EffectiveMax(c)
                      && s'.jobs[id].attempts == s.jobs[id].attempts
                 else && s'.jobs[id] == s.jobs[id]
                      && (Expired(s.jobs[id], at) ==> |ids| == batch)
    ensures forall id :: id in s.jobs && !Expired(s.jobs[id], at) ==> id !in ids
  {
    SweepEffect(c, s, ids, at);
    PickSize(s.jobs, at, batch, {}, ids);
    assert (set k | k in s.jobs && Overdue(s.jobs, at, {}, k)) == (set k | k in s.jobs && Expired(s.jobs[k], at));
    forall id | id in s.jobs
      ensures RowOk(s.jobs[id])
    {
    }
  }

  lemma {:induction false} DistinctSize<T>(xs: seq<T>)
    requires Distinct(xs)
    ensures |set x | x in xs| == |xs|
  {
    if xs != [] {
      DistinctSize(Front(xs));
      assert Last(xs) !in Front(xs);
      forall x ensures x in xs <==> x in Front(xs) || x == Last(xs) { InFront(xs, x); }
      assert (set x | x in xs) == (set x | x in Front(xs)) + {Last(xs)};
    }
  }

  /** Nothing expired is left over: any batch size would have returned these rows. */
  lemma WholePick(jobs: map<JobId, Job>, at: Time, batch: nat, locked: set<JobId>, ids: seq<JobId>)
    requires IsSweepPick(jobs, at, |ids|, locked, ids) && |ids| <= batch
    requires (set k | k in jobs && Overdue(jobs, at, locked, k) && k !in ids) == {}
    ensures IsSweepPick(jobs, at, batch, locked, ids)
  {
    forall k | k in jobs && Overdue(jobs, at, locked, k)
      ensures k in ids
    {
      var rest := set k | k in jobs && Overdue(jobs, at, locked, k) && k !in ids;
      assert k !in rest;
    }
  }

  /** The oldest of the rest extends a pick. */
  lemma LongerPick(jobs: map<JobId, Job>, at: Time, locked: set<JobId>, ids: seq<JobId>, id: JobId)
    requires IsSweepPick(jobs, at, |ids|, locked, ids) && Overdue(jobs, at, locked, id) && id !in ids
    requires forall k :: k in jobs && Overdue(jobs, at, locked, k) && k !in ids
               ==> jobs[id].leaseUntil.value <= jobs[k].leaseUntil.value
    ensures IsSweepPick(jobs, at, |ids| + 1, locked, ids + [id])
  {
  }

  /** Such a pick always exists, whatever is locked. */
  lemma {:induction false} SweepPickExists(jobs: map<JobId, Job>, at: Time, batch: nat, locked: set<JobId>)
    returns (ids: seq<JobId>)
    ensures IsSweepPick(jobs, at, batch, locked, ids)
    decreases batch
  {
    if batch == 0 {
      ids := [];
    } else {
      var front := SweepPickExists(jobs, at, batch - 1, locked);
      var rest := set k | k in jobs && Overdue(jobs, at, locked, k) && k !in front;
      if rest == {} {
        ids := front;
        forall k | k in jobs && Overdue(jobs, at, locked, k)
          ensures k in ids
        {
          assert k !in rest;
        }
      } else {
        var next := OldestOf(jobs, rest);
        ids := front + [next];
        forall k | k in jobs && Overdue(jobs, at, locked, k) && k !in ids
          ensures |ids| == batch && forall i :: 0 <= i < |ids| ==> jobs[ids[i]].leaseUntil.value <= jobs[k].leaseUntil.value
        {
          assert k in rest;
        }
      }
    }
  }

  lemma {:induction false} OldestOf(jobs: map<JobId, Job>, ids: set<JobId>) returns (oldest: JobId)
    requires ids != {} && forall k :: k in ids ==> k in jobs && jobs[k].leaseUntil.Some?
    ensures oldest in ids && forall k :: k in ids ==> jobs[oldest].leaseUntil.value <= jobs[k].leaseUntil.value
    decreases |ids|
  {
    var x := Pick(ids);
    var rest := ids - {x};
    if rest == {} {
      oldest := x;
      assert ids == {x};
    } else {
      var y := OldestOf(jobs, rest);
      oldest := if jobs[x].leaseUntil.value <= jobs[y].leaseUntil.value then x else y;
      assert ids == rest + {x};
    }
  }

  // ----- how many sweeps an expired lease can survive -----

  datatype Commit = One(event: Event) | Sweep(ids: seq<JobId>, at: Time)

  function EventsOf(k: Commit): seq<Event> {
    match k
    case One(e) => [e]
    case Sweep(ids, at) => SweepEvents(ids, at)
  }

  function Flatten(ks: seq<Commit>): seq<Event> {
    if ks == [] then [] else Flatten(Front(ks)) + EventsOf(Last(ks))
  }

  function Sweeps(ks: seq<Commit>): nat {
    if ks == [] then 0 else Sweeps(Front(ks)) + if Last(ks).Sweep? then 1 else 0
  }

  /** The running jobs whose leases lapse no later than this one's. */
  function LapsingBy(s: Tables, lease: Time): set<JobId> {
    set k | k in s.jobs && s.jobs[k].status == Running && s.jobs[k].leaseUntil.Some? && s.jobs[k].leaseUntil.value <= lease
  }

  predicate Touches(k: Commit, id: JobId) {
    match k
    case One(e) => Names(e, id)
    case Sweep(ids, _) => id in ids
  }

  /** A lease granted from now on, by a transaction begun whenever, runs out after this one. */
  predicate GrantsLater(k: Commit, lease: Time) {
    k.One? && (k.event.Claim? || k.event.Renew?) ==> lease < k.event.at + k.event.lease
  }

  /** Each sweep saw every row unlocked, after the lease had expired, with this batch size. */
  predicate SweepsAfter(c: BackoffConfig, s: Tables, ks: seq<Commit>, batch: nat, lease: Time)
    requires Valid(c, s, Flatten(ks))
    decreases |ks|
  {
    ks == [] ||
    (SplitRun(c, s, Flatten(Front(ks)), EventsOf(Last(ks)));
     && SweepsAfter(c, s, Front(ks), batch, lease)
     && (Last(ks).Sweep? ==> && lease < Last(ks).at <= Exec(c, s, Flatten(Front(ks))).clock
                             && IsSweepPick(Exec(c, s, Flatten(Front(ks))).jobs, Last(ks).at, batch, {}, Last(ks).ids)))
  }

  lemma EventShrinks(c: BackoffConfig, s: Tables, e: Event, id: JobId)
    requires Enabled(s, e) && id in s.jobs && s.jobs[id].leaseUntil.Some?
    requires GrantsLater(One(e), s.jobs[id].leaseUntil.value) && !Names(e, id)
    ensures id in Apply(c, s, e).jobs && Apply(c, s, e).jobs[id] == s.jobs[id]
    ensures |LapsingBy(Apply(c, s, e), s.jobs[id].leaseUntil.value)| <= |LapsingBy(s, s.jobs[id].leaseUntil.value)|
  {
    var lease := s.jobs[id].leaseUntil.value;
    Subset(LapsingBy(Apply(c, s, e), lease), LapsingBy(s, lease));
  }

  lemma SweepShrinks(c: BackoffConfig, s: Tables, ids: seq<JobId>, at: Time, id: JobId, batch: nat)
    requires Inv(s) && id in s.jobs && s.jobs[id].status == Running && s.jobs[id].leaseUntil.Some? && id !in ids
    requires s.jobs[id].leaseUntil.value < at <= s.clock && IsSweepPick(s.jobs, at, batch, {}, ids)
    requires Valid(c, s, SweepEvents(ids, at))
    ensures var s', lease := Exec(c, s, SweepEvents(ids, at)), s.jobs[id].leaseUntil.value;
            && id in s'.jobs && s'.jobs[id] == s.jobs[id]
            && |LapsingBy(s', lease)| + batch <= |LapsingBy(s, lease)|
  {
    var s', lease := Exec(c, s, SweepEvents(ids, at)), s.jobs[id].leaseUntil.value;
    SweepEffect(c, s, ids, at);
    DistinctSize(ids);
    var was, taken := LapsingBy(s, lease), set x | x in ids;
    assert Overdue(s.jobs, at, {}, id);
    assert |ids| == batch;
    assert taken <= was;
    Subset(LapsingBy(s', lease), was - taken);
  }

  lemma CommitShrinks(c: BackoffConfig, s: Tables, k: Commit, id: JobId, batch: nat)
    requires Inv(s) && Valid(c, s, EventsOf(k)) && id in s.jobs && s.jobs[id].status == Running
    requires s.jobs[id].leaseUntil.Some? && GrantsLater(k, s.jobs[id].leaseUntil.value) && !Touches(k, id)
    requires k.Sweep? ==> s.jobs[id].leaseUntil.value < k.at <= s.clock && IsSweepPick(s.jobs, k.at, batch, {}, k.ids)
    ensures var s', lease := Exec(c, s, EventsOf(k)), s.jobs[id].leaseUntil.value;
            && id in s'.jobs && s'.jobs[id] == s.jobs[id]
            && |LapsingBy(s', lease)| + (if k.Sweep? then batch else 0) <= |LapsingBy(s, lease)|
  {
    match k
    case One(e) =>
      assert Front([e]) == [] && Last([e]) == e;
      EventShrinks(c, s, e, id);
    case Sweep(ids, at) =>
      SweepShrinks(c, s, ids, at, id, batch);
  }

  /** Room for `batch` jobs in each sweep. */
  function Capacity(ks: seq<Commit>, batch: nat): nat {
    if ks == [] then 0 else Capacity(Front(ks), batch) + if Last(ks).Sweep? then batch else 0
  }

  lemma {:induction false} CapacityIsProduct(ks: seq<Commit>, batch: nat)
    ensures Capacity(ks, batch) == batch * Sweeps(ks)
  {
    if ks != [] {
      CapacityIsProduct(Front(ks), batch);
      assert batch * (Sweeps(Front(ks)) + 1) == batch * Sweeps(Front(ks)) + batch;
    }
  }

  lemma {:induction false} SweepsCatchUp(c: BackoffConfig, s: Tables, ks: seq<Commit>, id: JobId, batch: nat)
    requires Inv(s) && Valid(c, s, Flatten(ks)) && id in s.jobs && s.jobs[id].status == Running
    requires s.jobs[id].leaseUntil.Some? && SweepsAfter(c, s, ks, batch, s.jobs[id].leaseUntil.value)
    requires forall i :: 0 <= i < |ks| ==> GrantsLater(ks[i], s.jobs[id].leaseUntil.value) && !Touches(ks[i], id)
    ensures var s', lease := Exec(c, s, Flatten(ks)), s.jobs[id].leaseUntil.value;
            && id in s'.jobs && s'.jobs[id] == s.jobs[id]
            && id in LapsingBy(s', lease)
            && |LapsingBy(s', lease)| + Capacity(ks, batch) <= |LapsingBy(s, lease)|
    decreases |ks|
  {
    if ks != [] {
      SplitRun(c, s, Flatten(Front(ks)), EventsOf(Last(ks)));
      SweepsCatchUp(c, s, Front(ks), id, batch);
      RunKeepsInv(c, s, Flatten(Front(ks)));
      CommitShrinks(c, Exec(c, s, Flatten(Front(ks))), Last(ks), id, batch);
    }
  }

  /** Bounded recovery: let n running jobs have leases no later than this expired one. Once the
      sweeps have had room for n jobs -- ceil(n / batch) of them -- the job has been reaped,
      unless its worker came back to it first, whatever else was claimed, renewed or swept. */
  lemma BoundedRecovery(c: BackoffConfig, s: Tables, ks: seq<Commit>, id: JobId, batch: nat)
    requires Inv(s) && Valid(c, s, Flatten(ks)) && id in s.jobs && s.jobs[id].status == Running
    requires s.jobs[id].leaseUntil.Some? && SweepsAfter(c, s, ks, batch, s.jobs[id].leaseUntil.value)
    requires forall i :: 0 <= i < |ks| ==> GrantsLater(ks[i], s.jobs[id].leaseUntil.value)
    requires batch * Sweeps(ks) >= |LapsingBy(s, s.jobs[id].leaseUntil.value)|
    ensures exists i :: 0 <= i < |ks| && Touches(ks[i], id)
  {
    if forall i :: 0 <= i < |ks| ==> !Touches(ks[i], id) {
      SweepsCatchUp(c, s, ks, id, batch);
      CapacityIsProduct(ks, batch);
    }
  }

  // ----- the longest lease -----

  datatype LeaseConfig = LeaseConfig(standard: int, min: int, max: int)

  /** `clampLease` of internal/api/server.go. A request of zero or less gets the standard lease,
      which is not itself clamped. */
  function ClampLease(l: LeaseConfig, seconds: real): int {
    if seconds <= 0.0 then l.standard else
    var d := (seconds * SECOND as real).Floor;
    if d < l.min then l.min else if d > l.max then l.max else d
  }

  function LongestLease(l: LeaseConfig): int {
    Max(l.standard, Max(l.min, l.max))
  }

  /** No request obtains more than the longest lease. One above the minimum and below the maximum is
      granted as it is, one below is raised to the minimum, one above lowered to the maximum, and one
      of zero or less gets the standard lease. */
  lemma ClampedLease(l: LeaseConfig, seconds: real)
    ensures ClampLease(l, seconds) <= LongestLease(l)
    ensures 0.0 < seconds && l.min <= l.max ==>
              && l.min <= ClampLease(l, seconds) <= l.max
              && (seconds * 1_000_000_000.0 < l.min as real ==> ClampLease(l, seconds) == l.min)
              && (seconds * 1_000_000_000.0 > l.max as real ==> ClampLease(l, seconds) == l.max)
              && (l.min as real <= seconds * 1_000_000_000.0 <= l.max as real ==>
                   ClampLease(l, seconds) as real <= seconds * 1_000_000_000.0 < ClampLease(l, seconds) as real + 1.0)
    ensures seconds <= 0.0 ==> ClampLease(l, seconds) == l.standard
  {
  }

  lemma InSeconds(d: int)
    ensures (d as real / SECOND as real) * SECOND as real == d as real
  {
  }

  /** A lease within bounds, sent in seconds, is granted to the nanosecond. */
  lemma GrantedAsAsked(l: LeaseConfig, asked: int)
    requires 0 < asked && l.min <= asked <= l.max
    ensures ClampLease(l, asked as real / SECOND as real) == asked
  {
    InSeconds(asked);
  }

  lemma CappedAtMax(l: LeaseConfig, asked: int)
    requires 0 < asked && l.min <= l.max <= asked
    ensures ClampLease(l, asked as real / SECOND as real) == l.max
  {
    InSeconds(asked);
  }

  // ----- how far away a job can be -----

  ghost predicate WithinReach(c: BackoffConfig, s: Tables, maxLease: int) {
    forall id :: id in s.jobs ==>
      && (s.jobs[id].status == Pending ==> s.jobs[id].availableAt <= s.clock + EffectiveMax(c))
      && (s.jobs[id].status == Running && s.jobs[id].leaseUntil.Some? ==> s.jobs[id].leaseUntil.value <= s.clock + maxLease)
  }

  lemma StepWithinReach(c: BackoffConfig, s: Tables, e: Event, maxLease: int)
    requires Enabled(s, e) && WithinReach(c, s, maxLease)
    requires e.Claim? || e.Renew? ==> e.lease <= maxLease
    ensures WithinReach(c, Apply(c, s, e), maxLease)
  {
  }

  lemma {:induction false} RunWithinReach(c: BackoffConfig, s: Tables, es: seq<Event>, maxLease: int)
    requires Valid(c, s, es) && WithinReach(c, s, maxLease)
    requires forall i :: 0 <= i < |es| && (es[i].Claim? || es[i].Renew?) ==> es[i].lease <= maxLease
    ensures WithinReach(c, Exec(c, s, es), maxLease)
  {
    if es != [] {
      RunWithinReach(c, s, Front(es), maxLease);
      StepWithinReach(c, Exec(c, s, Front(es)), Last(es), maxLease);
    }
  }

  /** The server granted this lease to some request. */
  ghost predicate Grantable(l: LeaseConfig, lease: int) {
    exists seconds :: ClampLease(l, seconds) == lease
  }

  /** No job is out of reach for long. In every reachable state, with leases as the server grants
      them, a job that is neither finished nor touched again is claimable once the largest backoff
      has passed, or expired once the longest lease has. */
  lemma RecoveryTime(c: BackoffConfig, l: LeaseConfig, t0: Time, es: seq<Event>, id: JobId, later: Time)
    requires Valid(c, Empty(t0), es) && id in Exec(c, Empty(t0), es).jobs
    requires forall i :: 0 <= i < |es| && (es[i].Claim? || es[i].Renew?) ==> Grantable(l, es[i].lease)
    requires later > Exec(c, Empty(t0), es).clock + Max(EffectiveMax(c), LongestLease(l))
    ensures var j := Exec(c, Empty(t0), es).jobs[id];
            Terminal(j.status) || Claimable(j, later) || Expired(j, later)
  {
    forall i | 0 <= i < |es| && (es[i].Claim? || es[i].Renew?)
      ensures es[i].lease <= LongestLease(l)
    {
      var seconds :| ClampLease(l, seconds) == es[i].lease;
      ClampedLease(l, seconds);
    }
    RunWithinReach(c, Empty(t0), es, LongestLease(l));
    ReachableInv(c, t0, es);
    assert RowOk(Exec(c, Empty(t0), es).jobs[id]);
  }
}
