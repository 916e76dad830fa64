/**
 The life of one job over a whole run: which sequences of events it can go through, how
 many of them there can be, and what its row records of them.
 */
module History {
  import opened Schema
  import opened Backoff
  import opened OutputCapture
  import opened Machine
  import opened Invariants

  /** What happened to a job, as its lifecycle sees it. */
  datatype Deed = Created | Claimed | Renewed | Requeued | Finished | GaveUp | Withdrawn

  function DeedOf(s: Tables, e: Event): Deed
    requires Enabled(s, e) && !e.Tick? && !e.Register? && !e.Heartbeat?
  {
    match e
    case Create(_, _, _, _, _) => Created
    case Claim(_, _, _, _) => Claimed
    case Renew(_, _, _, _) => Renewed
    case Complete(_, _, _, _) => Finished
    case Fail(id, _, _, _, _, _) => if Exhausted(s.jobs[id]) then GaveUp else Requeued
    case Cancel(_, _) => Withdrawn
    case Reap(id, _) => if Exhausted(s.jobs[id]) then GaveUp else Requeued
  }

  function Deeds(c: BackoffConfig, s: Tables, es: seq<Event>, id: JobId): seq<Deed>
    requires Valid(c, s, es)
  {
    if es == [] then []
    else if Names(Last(es), id) then Deeds(c, s, Front(es), id) + [DeedOf(Exec(c, s, Front(es)), Last(es))]
    else Deeds(c, s, Front(es), id)
  }

  // ----- the lifecycle as a grammar -----

  /** (Claimed Renewed* Requeued)*, then nothing, Withdrawn, or one open or finished attempt. */
  predicate Waiting(h: seq<Deed>) {
    h == [] || h == [Withdrawn] || (h[0] == Claimed && Attempting(h[1..]))
  }

  predicate Attempting(h: seq<Deed>) {
    || h == []
    || h == [Finished]
    || h == [GaveUp]
    || (h[0] == Renewed && Attempting(h[1..]))
    || (h[0] == Requeued && Waiting(h[1..]))
  }

  predicate Lifecycle(h: seq<Deed>) {
    h != [] && h[0] == Created && Waiting(h[1..])
  }

  /** The status a job is left in by a history that starts in the given phase. */
  function WaitingEnd(h: seq<Deed>): Status
    requires Waiting(h)
  {
    if h == [] then Pending else if h[0] == Withdrawn then Canceled else AttemptingEnd(h[1..])
  }

  function AttemptingEnd(h: seq<Deed>): Status
    requires Attempting(h)
  {
    if h == [] then Running
    else if h[0] == Finished then Completed
    else if h[0] == GaveUp then Failed
    else if h[0] == Renewed then AttemptingEnd(h[1..])
    else WaitingEnd(h[1..])
  }

  predicate Allowed(status: Status, d: Deed) {
    match d
    case Created => false
    case Claimed => status == Pending
    case Withdrawn => status == Pending
    case _ => status == Running
  }

  function NextStatus(d: Deed): Status {
    match d
    case Created => Pending
    case Claimed => Running
    case Renewed => Running
    case Requeued => Pending
    case Finished => Completed
    case GaveUp => Failed
    case Withdrawn => Canceled
  }

  lemma {:induction false} WaitingSnoc(h: seq<Deed>, d: Deed)
    requires Waiting(h) && Allowed(WaitingEnd(h), d)
    ensures Waiting(h + [d]) && WaitingEnd(h + [d]) == NextStatus(d)
    decreases |h|
  {
    if h == [] {
      assert h + [d] == [d];
      assert [d][1..] == [];
    } else {
      assert h[0] == Claimed;
      AttemptingSnoc(h[1..], d);
      assert (h + [d])[1..] == h[1..] + [d];
    }
  }

  lemma {:induction false} AttemptingSnoc(h: seq<Deed>, d: Deed)
    requires Attempting(h) && Allowed(AttemptingEnd(h), d)
    ensures Attempting(h + [d]) && AttemptingEnd(h + [d]) == NextStatus(d)
    decreases |h|
  {
    if h == [] {
      assert h + [d] == [d];
      assert [d][1..] == [];
    } else {
      assert (h + [d])[1..] == h[1..] + [d];
      if h[0] == Renewed {
        AttemptingSnoc(h[1..], d);
      } else {
        assert h[0] == Requeued;
        WaitingSnoc(h[1..], d);
      }
    }
  }

  function Count(h: seq<Deed>, d: Deed): nat {
    if h == [] then 0 else Count(Front(h), d) + if Last(h) == d then 1 else 0
  }

  /** In every run from empty tables, a job's deeds form a lifecycle that ends in its status,
      and its attempt counter is the number of times it was claimed. */
  lemma {:induction false} JobLifecycle(c: BackoffConfig, t0: Time, es: seq<Event>, id: JobId)
    requires Valid(c, Empty(t0), es)
    ensures var s, h := Exec(c, Empty(t0), es), Deeds(c, Empty(t0), es, id);
            if id in s.jobs
            then Lifecycle(h) && WaitingEnd(h[1..]) == s.jobs[id].status && Count(h, Claimed) == s.jobs[id].attempts
            else h == []
  {
    if es != [] {
      var p, e := Exec(c, Empty(t0), Front(es)), Last(es);
      JobLifecycle(c, t0, Front(es), id);
      ReachableInv(c, t0, Front(es));
      if Names(e, id) {
        var h := Deeds(c, Empty(t0), Front(es), id);
        if e.Create? {
          CreatedSnoc();
        } else {
          assert RowOk(p.jobs[id]);
          LifecycleSnoc(h, DeedOf(p, e));
        }
      }
    }
  }

  lemma CreatedSnoc()
    ensures [] + [Created] == [Created] && Lifecycle([Created]) && WaitingEnd([Created][1..]) == Pending
    ensures Count([Created], Claimed) == 0
  {
    assert [Created][1..] == [];
    assert Front([Created]) == [];
  }

  lemma LifecycleSnoc(h: seq<Deed>, d: Deed)
    requires Lifecycle(h) && Allowed(WaitingEnd(h[1..]), d)
    ensures Lifecycle(h + [d]) && WaitingEnd((h + [d])[1..]) == NextStatus(d)
    ensures Count(h + [d], Claimed) == Count(h, Claimed) + if d == Claimed then 1 else 0
  {
    WaitingSnoc(h[1..], d);
    assert (h + [d])[1..] == h[1..] + [d];
    assert Front(h + [d]) == h;
  }

  // ----- termination -----

  /** Twice the attempts left, plus one while running; nothing once terminal. */
  function Fuel(j: Job): int {
    if Terminal(j.status) then 0
    else 2 * (j.maxAttempts - j.attempts) + if j.status == Running then 1 else 0
  }

  function StatusChanges(c: BackoffConfig, s: Tables, es: seq<Event>, id: JobId): nat
    requires Valid(c, s, es) && id in s.jobs
  {
    if es == [] then 0 else
      RowsPersist(c, s, Front(es), id);
      RowsPersist(c, s, es, id);
      StatusChanges(c, s, Front(es), id)
      + if Exec(c, s, Front(es)).jobs[id].status != Exec(c, s, es).jobs[id].status then 1 else 0
  }

  /** Every status change burns fuel and nothing adds any. */
  lemma StepBurnsFuel(c: BackoffConfig, s: Tables, e: Event, id: JobId)
    requires Inv(s) && Enabled(s, e) && id in s.jobs
    ensures id in Apply(c, s, e).jobs
    ensures var j, k := s.jobs[id], Apply(c, s, e).jobs[id];
            0 <= Fuel(k) && if j.status != k.status then Fuel(k) < Fuel(j) else Fuel(k) == Fuel(j)
  {
    assert RowOk(s.jobs[id]);
  }

  /** However a run goes on, a job's status changes at most as often as it has fuel: twice
      max_attempts times from its creation. */
  lemma {:induction false} StatusChangesBounded(c: BackoffConfig, s: Tables, es: seq<Event>, id: JobId)
    requires Inv(s) && Valid(c, s, es) && id in s.jobs
    ensures id in Exec(c, s, es).jobs
    ensures StatusChanges(c, s, es, id) + Fuel(Exec(c, s, es).jobs[id]) <= Fuel(s.jobs[id])
    ensures StatusChanges(c, s, es, id) <= Fuel(s.jobs[id]) <= 2 * s.jobs[id].maxAttempts
  {
    assert RowOk(s.jobs[id]);
    if es != [] {
      var p := Exec(c, s, Front(es));
      StatusChangesBounded(c, s, Front(es), id);
      RunKeepsInv(c, s, Front(es));
      StepBurnsFuel(c, p, Last(es), id);
    }
  }

  /** A terminal row never changes again, in any column, and no event ever names it. */
  lemma {:induction false} TerminalForever(c: BackoffConfig, s: Tables, es: seq<Event>, id: JobId)
    requires Valid(c, s, es) && id in s.jobs && Terminal(s.jobs[id].status)
    ensures id in Exec(c, s, es).jobs && Exec(c, s, es).jobs[id] == s.jobs[id]
    ensures forall i :: 0 <= i < |es| ==> !Names(es[i], id)
  {
    if es != [] {
      TerminalForever(c, s, Front(es), id);
    }
  }

  // ----- what the row records -----

  /** The last event that names a job left the row as it now stands. */
  lemma {:induction false} LastWriter(c: BackoffConfig, s: Tables, es: seq<Event>, id: JobId) returns (n: nat)
    requires Valid(c, s, es) && id !in s.jobs && id in Exec(c, s, es).jobs
    ensures n < |es| && Names(es[n], id) && (forall i :: n < i < |es| ==> !Names(es[i], id))
    ensures Valid(c, s, es[..n]) && Enabled(Exec(c, s, es[..n]), es[n])
    ensures id in Apply(c, Exec(c, s, es[..n]), es[n]).jobs
    ensures Exec(c, s, es).jobs[id] == Apply(c, Exec(c, s, es[..n]), es[n]).jobs[id]
  {
    if Names(Last(es), id) {
      n := |es| - 1;
    } else {
      n := LastWriter(c, s, Front(es), id);
      assert Front(es)[..n] == es[..n];
    }
  }

  /** Every column of a row is what the last event on the job wrote, or what stood there before it.
      `updated_at` is always that event's time; a report's texts are kept whole up to 32768 bytes. */
  lemma RowRecordsLastEvent(c: BackoffConfig, t0: Time, es: seq<Event>, id: JobId) returns (n: nat)
    requires Valid(c, Empty(t0), es) && id in Exec(c, Empty(t0), es).jobs
    ensures n < |es| && Names(es[n], id) && (forall i :: n < i < |es| ==> !Names(es[i], id))
    ensures var j, e := Exec(c, Empty(t0), es).jobs[id], es[n];
            && j.updatedAt == e.at
            && (e.Create? ==> j == Job(e.typ, e.payload, Pending, 0, e.maxAttempts, e.at, e.at, e.at, None, None, None, None))
            && (j.status == Completed <==> e.Complete?)
            && (j.status == Canceled <==> e.Cancel?)
            && (j.status == Running <==> e.Claim? || e.Renew?)
            && (j.leaseUntil == if e.Claim? || e.Renew? then Some(e.at + e.lease) else None)
            && (e.Complete? ==> j.worker == Some(e.worker) && j.lastError.None?)
            && (e.Complete? || e.Fail? ==>
                 && j.output.Some?
                 && Keeps(j.output.value.stdout, e.output.stdout) && Keeps(j.output.value.stderr, e.output.stderr)
                 && j.output.value.exitCode == e.output.exitCode && j.output.value.durationMs == e.output.durationMs)
            && (e.Fail? ==> && j.lastError.Some? && Keeps(j.lastError.value, e.error)
                            && j.availableAt == e.at + Delay(c, e.seen) && (j.status == Failed ==> j.worker == Some(e.worker)))
            && (e.Reap? ==> j.availableAt == e.at + Delay(c, j.attempts))
    ensures !es[n].Create? ==>
            && Valid(c, Empty(t0), es[..n]) && id in Exec(c, Empty(t0), es[..n]).jobs
            && var j, was, e := Exec(c, Empty(t0), es).jobs[id], Exec(c, Empty(t0), es[..n]).jobs[id], es[n];
               && SameOrder(j, was)
               && j.attempts == was.attempts + (if e.Claim? then 1 else 0)
               && (j.availableAt != was.availableAt ==> e.Fail? || e.Reap?)
               && (j.lastError != was.lastError ==> e.Complete? || e.Fail? || e.Reap?)
               && (j.output != was.output ==> e.Complete? || e.Fail?)
               && (e.Claim? || e.Renew? ==> j.worker == Some(e.worker))
               && (e.Cancel? ==> j.worker == was.worker)
               && (e.Fail? || e.Reap? ==>
                    if was.attempts == was.maxAttempts then j.status == Failed && j.worker == was.worker
                    else j.status == Pending && j.worker.None?)
               && (e.Reap? ==> && was.worker.Some?
                               && j.lastError == Some("lease expired (worker " + was.worker.value + " stopped reporting)"))
  {
    n := LastWriter(c, Empty(t0), es, id);
    ReachableInv(c, t0, es[..n]);
    assert !es[n].Create? ==> RowOk(Exec(c, Empty(t0), es[..n]).jobs[id]);
  }

  // ----- workers -----

  /** Reports by w that took effect. */
  function Reports(es: seq<Event>, w: WorkerId): nat {
    if es == [] then 0
    else Reports(Front(es), w) + if (Last(es).Complete? || Last(es).Fail?) && Last(es).worker == w then 1 else 0
  }

  predicate Beats(e: Event, w: WorkerId) {
    (e.Register? || e.Heartbeat? || e.Claim? || e.Complete? || e.Fail?) && e.worker == w
  }

  function LastBeat(es: seq<Event>, w: WorkerId): Option<Time> {
    if es == [] then None else if Beats(Last(es), w) then Some(Last(es).at) else LastBeat(Front(es), w)
  }

  function LastHost(es: seq<Event>, w: WorkerId): Option<string> {
    if es == [] then None
    else if Last(es).Register? && Last(es).worker == w then Some(Last(es).host) else LastHost(Front(es), w)
  }

  function FirstRegistered(es: seq<Event>, w: WorkerId): Option<Time> {
    if es == [] then None
    else if FirstRegistered(Front(es), w).Some? then FirstRegistered(Front(es), w)
    else if Last(es).Register? && Last(es).worker == w then Some(Last(es).at) else None
  }

  /** The job w was last handed, until it reports anything, registers again, or that job is reaped. */
  function Assignment(es: seq<Event>, w: WorkerId): Option<JobId> {
    if es == [] then None else
    var e, was := Last(es), Assignment(Front(es), w);
    if e.Claim? && e.worker == w then Some(e.id)
    else if (e.Register? || e.Complete? || e.Fail?) && e.worker == w then None
    else if e.Reap? && was == Some(e.id) then None
    else was
  }

  lemma {:induction false} StandingAssignment(c: BackoffConfig, t0: Time, es: seq<Event>, w: WorkerId)
    requires Valid(c, Empty(t0), es)
    ensures var s := Exec(c, Empty(t0), es);
            Assignment(es, w) == if w in s.workers then s.workers[w].current else None
  {
    if es != [] {
      var p := Exec(c, Empty(t0), Front(es));
      StandingAssignment(c, t0, Front(es), w);
      ReachableInv(c, t0, Front(es));
      if Last(es).Reap? && w in p.workers && p.workers[w].current == Some(Last(es).id) {
        assert OwnedBy(p.jobs[Last(es).id], w);
      }
    }
  }

  /** What one event does to a worker's own columns. */
  lemma WorkerStep(c: BackoffConfig, s: Tables, e: Event, w: WorkerId)
    requires Inv(s) && Enabled(s, e)
    ensures var s' := Apply(c, s, e);
            && (w in s'.workers <==> w in s.workers || (e.Register? && e.worker == w))
            && ((e.Complete? || e.Fail? || Beats(e, w)) && e.worker == w && !e.Register? ==> w in s.workers)
            && (w in s'.workers ==>
                  var row := s'.workers[w];
                  && row.processed == (if w in s.workers then s.workers[w].processed else 0)
                                      + (if (e.Complete? || e.Fail?) && e.worker == w then 1 else 0)
                  && (if Beats(e, w) then row.lastHeartbeat == e.at
                      else w in s.workers && row.lastHeartbeat == s.workers[w].lastHeartbeat)
                  && (if e.Register? && e.worker == w then row.host == e.host
                      else w in s.workers && row.host == s.workers[w].host)
                  && row.registeredAt == if w in s.workers then s.workers[w].registeredAt else e.at)
  {
  }

  lemma {:induction false} WorkerCounters(c: BackoffConfig, t0: Time, es: seq<Event>, w: WorkerId)
    requires Valid(c, Empty(t0), es)
    ensures var s := Exec(c, Empty(t0), es);
            if w in s.workers
            then s.workers[w].processed == Reports(es, w) && LastBeat(es, w) == Some(s.workers[w].lastHeartbeat)
            else Reports(es, w) == 0 && LastBeat(es, w).None?
  {
    if es != [] {
      WorkerCounters(c, t0, Front(es), w);
      ReachableInv(c, t0, Front(es));
      WorkerStep(c, Exec(c, Empty(t0), Front(es)), Last(es), w);
    }
  }

  lemma {:induction false} WorkerIdentity(c: BackoffConfig, t0: Time, es: seq<Event>, w: WorkerId)
    requires Valid(c, Empty(t0), es)
    ensures var s := Exec(c, Empty(t0), es);
            if w in s.workers
            then LastHost(es, w) == Some(s.workers[w].host) && FirstRegistered(es, w) == Some(s.workers[w].registeredAt)
            else LastHost(es, w).None? && FirstRegistered(es, w).None?
  {
    if es != [] {
      WorkerIdentity(c, t0, Front(es), w);
      ReachableInv(c, t0, Front(es));
      WorkerStep(c, Exec(c, Empty(t0), Front(es)), Last(es), w);
    }
  }

  /** A worker's row is a function of the events alone: jobs_processed counts its reports that
      took effect, across re-registrations; last_heartbeat is the time of the last call of its own,
      never of a reaper; current_job_id is its standing assignment. */
  lemma WorkerColumns(c: BackoffConfig, t0: Time, es: seq<Event>, w: WorkerId)
    requires Valid(c, Empty(t0), es) && w in Exec(c, Empty(t0), es).workers
    ensures var row := Exec(c, Empty(t0), es).workers[w];
            && row.processed == Reports(es, w)
            && LastBeat(es, w) == Some(row.lastHeartbeat)
            && LastHost(es, w) == Some(row.host)
            && FirstRegistered(es, w) == Some(row.registeredAt)
            && row.current == Assignment(es, w)
  {
    StandingAssignment(c, t0, es, w);
    WorkerCounters(c, t0, es, w);
    WorkerIdentity(c, t0, es, w);
  }
}
