/**
 The queue as a state machine: one event for each effect a committed transaction of
 internal/jobs/store.go has on the tables, and runs of events.

 `now()` is fixed when a transaction begins and the transaction may commit later, so every
 event carries its own time `at`, which may lag behind the clock. A sweep of the reaper commits
 one Reap event for each job it takes, all with the same time.
 */
module Machine {
  import opened Schema
  import opened Backoff
  import opened OutputCapture

  datatype Event =
    | Tick(to: Time)
    | Create(id: JobId, typ: string, payload: string, maxAttempts: int, at: Time)
    | Claim(id: JobId, worker: WorkerId, lease: int, at: Time)
    | Renew(id: JobId, worker: WorkerId, lease: int, at: Time)
    | Complete(id: JobId, worker: WorkerId, output: Output, at: Time)
      // `seen` is the attempt count that was read before the transaction began
    | Fail(id: JobId, worker: WorkerId, output: Output, error: string, seen: int, at: Time)
    | Cancel(id: JobId, at: Time)
    | Reap(id: JobId, at: Time)
    | Register(worker: WorkerId, host: string, at: Time)
    | Heartbeat(worker: WorkerId, at: Time)

  // ----- the statements, row by row -----

  function NewRow(typ: string, payload: string, maxAttempts: int, at: Time): Job {
    Job(typ, payload, Pending, 0, maxAttempts, at, at, at, None, None, None, None)
  }

  function ClaimRow(j: Job, w: WorkerId, lease: int, at: Time): Job {
    j.(status := Running, worker := Some(w), leaseUntil := Some(at + lease),
       attempts := j.attempts + 1, updatedAt := at)
  }

  function RenewRow(j: Job, lease: int, at: Time): Job {
    j.(leaseUntil := Some(at + lease), updatedAt := at)
  }

  function Truncated(o: Output): Output {
    o.(stdout := TruncateOutput(o.stdout), stderr := TruncateOutput(o.stderr))
  }

  function CompleteRow(j: Job, w: WorkerId, o: Output, at: Time): Job {
    j.(status := Completed, worker := Some(w), leaseUntil := None, updatedAt := at,
       output := Some(Truncated(o)), lastError := None)
  }

  predicate Exhausted(j: Job) {
    j.attempts >= j.maxAttempts
  }

  function FailRow(j: Job, w: WorkerId, o: Output, error: string, delay: int, at: Time): Job {
    j.(status := if Exhausted(j) then Failed else Pending,
       worker := if Exhausted(j) then Some(w) else None,
       leaseUntil := None, availableAt := at + delay, updatedAt := at,
       lastError := Some(TruncateOutput(error)), output := Some(Truncated(o)))
  }

  function CancelRow(j: Job, at: Time): Job {
    j.(status := Canceled, updatedAt := at, leaseUntil := None)
  }

  function OwnerText(j: Job): string {
    if j.worker.Some? then j.worker.value else ""
  }

  function ReapRow(j: Job, delay: int, at: Time): Job {
    j.(status := if Exhausted(j) then Failed else Pending,
       worker := if Exhausted(j) then j.worker else None,
       leaseUntil := None, availableAt := at + delay, updatedAt := at,
       lastError := Some("lease expired (worker " + OwnerText(j) + " stopped reporting)"))
  }

  function BusyWorker(w: Worker, id: JobId, at: Time): Worker {
    w.(current := Some(id), lastHeartbeat := at)
  }

  function FinishedWorker(w: Worker, at: Time): Worker {
    w.(processed := w.processed + 1, current := None, lastHeartbeat := at)
  }

  function RegisteredWorker(was: Option<Worker>, host: string, at: Time): Worker {
    match was
    case None => Worker(host, at, at, 0, None)
    case Some(w) => w.(host := host, lastHeartbeat := at, current := None)
  }

  // ----- guards -----

  /** status = 'PENDING' AND available_at <= now() */
  predicate Claimable(j: Job, at: Time) {
    j.status == Pending && j.availableAt <= at
  }

  /** status = 'RUNNING' AND worker_id = w */
  predicate OwnedBy(j: Job, w: WorkerId) {
    j.status == Running && j.worker == Some(w)
  }

  /** status = 'RUNNING' AND lease_until < now() */
  predicate Expired(j: Job, at: Time) {
    j.status == Running && j.leaseUntil.Some? && j.leaseUntil.value < at
  }

  predicate Enabled(s: Tables, e: Event) {
    match e
    case Tick(to) => s.clock <= to
    case Create(id, _, _, max, at) => at <= s.clock && id !in s.jobs && max >= 1
    case Claim(id, w, _, at) => at <= s.clock && id in s.jobs && Claimable(s.jobs[id], at) && w in s.workers
    case Renew(id, w, _, at) => at <= s.clock && id in s.jobs && OwnedBy(s.jobs[id], w)
    case Complete(id, w, _, at) => at <= s.clock && id in s.jobs && OwnedBy(s.jobs[id], w)
    case Fail(id, w, _, _, seen, at) =>
      at <= s.clock && id in s.jobs && OwnedBy(s.jobs[id], w) && seen <= s.jobs[id].attempts
    case Cancel(id, at) => at <= s.clock && id in s.jobs && s.jobs[id].status == Pending
    case Reap(id, at) => at <= s.clock && id in s.jobs && Expired(s.jobs[id], at)
    case Register(_, _, at) => at <= s.clock
    case Heartbeat(w, at) => at <= s.clock && w in s.workers
  }

  /** UPDATE workers SET jobs_processed = jobs_processed + 1, ... WHERE id = w */
  function FinishWorker(workers: map<WorkerId, Worker>, w: WorkerId, at: Time): map<WorkerId, Worker> {
    if w in workers then workers[w := FinishedWorker(workers[w], at)] else workers
  }

  /** UPDATE workers SET current_job_id = NULL WHERE id = w AND current_job_id = id */
  function ReleaseWorker(workers: map<WorkerId, Worker>, w: Option<WorkerId>, id: JobId): map<WorkerId, Worker> {
    if w.Some? && w.value in workers && workers[w.value].current == Some(id)
    then workers[w.value := workers[w.value].(current := None)] else workers
  }

  function Apply(c: BackoffConfig, s: Tables, e: Event): Tables
    requires Enabled(s, e)
  {
    match e
    case Tick(to) => s.(clock := to)
    case Create(id, typ, payload, max, at) => s.(jobs := s.jobs[id := NewRow(typ, payload, max, at)])
    case Claim(id, w, lease, at) =>
      s.(jobs := s.jobs[id := ClaimRow(s.jobs[id], w, lease, at)],
         workers := s.workers[w := BusyWorker(s.workers[w], id, at)])
    case Renew(id, _, lease, at) => s.(jobs := s.jobs[id := RenewRow(s.jobs[id], lease, at)])
    case Complete(id, w, o, at) =>
      s.(jobs := s.jobs[id := CompleteRow(s.jobs[id], w, o, at)],
         workers := FinishWorker(s.workers, w, at))
    case Fail(id, w, o, error, seen, at) =>
      s.(jobs := s.jobs[id := FailRow(s.jobs[id], w, o, error, Delay(c, seen), at)],
         workers := FinishWorker(s.workers, w, at))
    case Cancel(id, at) => s.(jobs := s.jobs[id := CancelRow(s.jobs[id], at)])
    case Reap(id, at) =>
      s.(jobs := s.jobs[id := ReapRow(s.jobs[id], Delay(c, s.jobs[id].attempts), at)],
         workers := ReleaseWorker(s.workers, s.jobs[id].worker, id))
    case Register(w, host, at) =>
      s.(workers := s.workers[w := RegisteredWorker(if w in s.workers then Some(s.workers[w]) else None, host, at)])
    case Heartbeat(w, at) => s.(workers := s.workers[w := s.workers[w].(lastHeartbeat := at)])
  }

  // ----- runs -----

  function Front<T>(xs: seq<T>): seq<T>
    requires xs != []
  {
    xs[..|xs| - 1]
  }

  function Last<T>(xs: seq<T>): T
    requires xs != []
  {
    xs[|xs| - 1]
  }

  /** Each event is enabled where it happens. */
  predicate Valid(c: BackoffConfig, s: Tables, es: seq<Event>)
    decreases |es|, 0
  {
    es == [] || (Valid(c, s, Front(es)) && Enabled(Exec(c, s, Front(es)), Last(es)))
  }

  function Exec(c: BackoffConfig, s: Tables, es: seq<Event>): Tables
    requires Valid(c, s, es)
    decreases |es|, 1
  {
    if es == [] then s else Apply(c, Exec(c, s, Front(es)), Last(es))
  }

  function Empty(t0: Time): Tables {
    Tables(map[], map[], t0)
  }

  /** The events of a run that name the job. */
  predicate Names(e: Event, id: JobId) {
    !e.Tick? && !e.Register? && !e.Heartbeat? && e.id == id
  }

  lemma RunSnoc(c: BackoffConfig, s: Tables, es: seq<Event>, e: Event)
    requires Valid(c, s, es) && Enabled(Exec(c, s, es), e)
    ensures Valid(c, s, es + [e]) && Exec(c, s, es + [e]) == Apply(c, Exec(c, s, es), e)
  {
    assert Front(es + [e]) == es && Last(es + [e]) == e;
  }

  lemma {:induction false} RunAppend(c: BackoffConfig, s: Tables, es: seq<Event>, fs: seq<Event>)
    requires Valid(c, s, es)
    ensures Valid(c, s, es + fs) <==> Valid(c, Exec(c, s, es), fs)
    ensures Valid(c, s, es + fs) ==> Exec(c, s, es + fs) == Exec(c, Exec(c, s, es), fs)
    decreases |fs|
  {
    if fs == [] {
      assert es + fs == es;
    } else {
      assert Front(es + fs) == es + Front(fs);
      assert Last(es + fs) == Last(fs);
      RunAppend(c, s, es, Front(fs));
    }
  }

  lemma {:induction false} PrefixValid(c: BackoffConfig, s: Tables, es: seq<Event>, n: nat)
    requires Valid(c, s, es) && n <= |es|
    ensures Valid(c, s, es[..n])
  {
    if n < |es| {
      PrefixValid(c, s, Front(es), n);
      assert Front(es)[..n] == es[..n];
    } else {
      assert es[..n] == es;
    }
  }

  lemma SplitRun(c: BackoffConfig, s: Tables, es: seq<Event>, fs: seq<Event>)
    requires Valid(c, s, es + fs)
    ensures Valid(c, s, es) && Valid(c, Exec(c, s, es), fs)
    ensures Exec(c, s, es + fs) == Exec(c, Exec(c, s, es), fs)
  {
    PrefixValid(c, s, es + fs, |es|);
    assert (es + fs)[..|es|] == es;
    RunAppend(c, s, es, fs);
  }
}
