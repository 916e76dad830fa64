/**
 The store's transactions as PostgreSQL interleaves them: several open at once, one statement at
 a time, with row locks held to the end, writes invisible until commit, and rollback possible at
 any point.

 Isolation is READ COMMITTED (`BeginTx(ctx, nil)`): a statement sees the tables as they were
 committed when it started. The claim and the sweep then go through the rows that matched, in order;
 a row that is locked, or no longer matches as it now stands, is passed over (SKIP LOCKED). Every
 other UPDATE that matches a row waits for its lock and then looks at the row again, and one that
 matches no row does not wait. `now()` is the time the transaction began.
 */
module Locks {
  import opened Schema
  import opened Backoff
  import opened Machine
  import opened Dispatch
  import opened Recovery

  type TxId = nat

  datatype Call =
    | CreateCall(typ: string, payload: string, maxAttempts: int)
    | ClaimCall(worker: WorkerId, lease: int)
    | RenewCall(id: JobId, worker: WorkerId, lease: int)
    | CompleteCall(id: JobId, worker: WorkerId, output: Output)
    | FailCall(id: JobId, worker: WorkerId, output: Output, error: string)
    | CancelCall(id: JobId)
    | SweepCall(batch: int)
    | RegisterCall(worker: WorkerId, host: string)
    | HeartbeatCall(worker: WorkerId)

  /** The statement a transaction is about to run. Fail reads the job before it begins; a claim and
      a sweep scan what their query saw; a sweep then works through the rows it has locked. */
  datatype Pc = Reading | Beginning | AtJob | Scanning | AtWorker | AtRow(next: nat) | AtCommit

  /** What its query saw and which of those rows it has dealt with; the job rows it has locked, in
      order; and its writes. Every worker row it has locked it has also written. */
  datatype Txn = Txn(call: Call, pc: Pc, at: Time, seen: int,
                     snapshot: map<JobId, Job>, dealt: set<JobId>,
                     jobs: seq<JobId>, jobWrites: map<JobId, Job>, workerWrites: map<WorkerId, Worker>)

  /** `log` is the record of what has been committed, in commit order; nothing reads it. */
  datatype State = State(tables: Tables, open: map<TxId, Txn>, nextId: JobId, log: seq<Event>)

  datatype Step =
    | Advance(to: Time)
    | Open(tx: TxId, call: Call)
    | Work(tx: TxId, pick: seq<JobId>)   // run the next statement, or look at the next row, `pick`
    | Commit(tx: TxId)
    | Finish(tx: TxId)                   // the statement found nothing to do; the call answers
    | Abort(tx: TxId)                    // rolled back: error, timeout, lost connection

  // ----- locks -----

  function LockedByOthers(s: State, tx: TxId): set<JobId> {
    set t, id | t in s.open && t != tx && id in s.open[t].jobs :: id
  }

  predicate WorkerFree(s: State, tx: TxId, w: WorkerId) {
    forall t :: t in s.open && t != tx ==> w !in s.open[t].workerWrites
  }

  // ----- what each call writes -----

  /** The WHERE clause of the update of the call's own job. */
  predicate JobGuard(call: Call, j: Job) {
    match call
    case CancelCall(_) => j.status == Pending
    case RenewCall(_, w, _) => OwnedBy(j, w)
    case CompleteCall(_, w, _) => OwnedBy(j, w)
    case FailCall(_, w, _, _) => OwnedBy(j, w)
    case _ => false
  }

  predicate OnOwnJob(call: Call) {
    call.RenewCall? || call.CompleteCall? || call.FailCall? || call.CancelCall?
  }

  predicate JobThenWorker(call: Call) {
    call.ClaimCall? || call.CompleteCall? || call.FailCall?
  }

  predicate WorkerOnly(call: Call) {
    call.RegisterCall? || call.HeartbeatCall?
  }

  function JobRow(c: BackoffConfig, t: Txn, j: Job): Job {
    match t.call
    case ClaimCall(w, lease) => ClaimRow(j, w, lease, t.at)
    case RenewCall(_, _, lease) => RenewRow(j, lease, t.at)
    case CompleteCall(_, w, o) => CompleteRow(j, w, o, t.at)
    case FailCall(_, w, o, error) => FailRow(j, w, o, error, Delay(c, t.seen), t.at)
    case CancelCall(_) => CancelRow(j, t.at)
    case _ => j
  }

  /** The update of the call's worker; none when the row is not there. */
  function WorkerWrites(t: Txn, workers: map<WorkerId, Worker>): map<WorkerId, Worker> {
    match t.call
    case ClaimCall(w, _) => if w in workers && t.jobs != [] then map[w := BusyWorker(workers[w], t.jobs[0], t.at)] else map[]
    case CompleteCall(_, w, _) => if w in workers then map[w := FinishedWorker(workers[w], t.at)] else map[]
    case FailCall(_, w, _, _) => if w in workers then map[w := FinishedWorker(workers[w], t.at)] else map[]
    case RegisterCall(w, host) =>
      map[w := RegisteredWorker(if w in workers then Some(workers[w]) else None, host, t.at)]
    case HeartbeatCall(w) => if w in workers then map[w := workers[w].(lastHeartbeat := t.at)] else map[]
    case _ => map[]
  }

  /** The worker whose current_job_id the sweep must clear for this job, as the sweep sees it:
      its own writes first. */
  predicate NeedsRelease(tables: Tables, t: Txn, id: JobId)
    requires id in tables.jobs
  {
    && tables.jobs[id].worker.Some?
    && var w := tables.jobs[id].worker.value;
       if w in t.workerWrites then t.workerWrites[w].current == Some(id)
       else w in tables.workers && tables.workers[w].current == Some(id)
  }

  // ----- scanning -----

  /** The next row of the sweep's query: ORDER BY lease_until. */
  predicate IsNextExpired(jobs: map<JobId, Job>, at: Time, dealt: set<JobId>, id: JobId) {
    && Overdue(jobs, at, dealt, id)
    && forall k :: k in jobs && Overdue(jobs, at, dealt, k) ==> jobs[id].leaseUntil.value <= jobs[k].leaseUntil.value
  }

  /** The row is free, and as it now stands still matches: it is locked and taken. */
  predicate Takeable(s: State, tx: TxId, id: JobId)
    requires tx in s.open
  {
    && id in s.tables.jobs
    && id !in LockedByOthers(s, tx)
    && if s.open[tx].call.ClaimCall? then Claimable(s.tables.jobs[id], s.open[tx].at)
       else Expired(s.tables.jobs[id], s.open[tx].at)
  }

  /** Nothing is left to look at, or the batch is full. */
  predicate ScanOver(t: Txn) {
    match t.call
    case ClaimCall(_, _) => forall k :: k in t.snapshot ==> !Offered(t.snapshot, t.at, t.dealt, k)
    case SweepCall(batch) =>
      |t.jobs| >= BatchSize(batch) || forall k :: k in t.snapshot ==> !Overdue(t.snapshot, t.at, t.dealt, k)
    case _ => true
  }

  function Scanned(c: BackoffConfig, s: State, tx: TxId, id: JobId): Txn
    requires tx in s.open
  {
    var t := s.open[tx];
    var t' := t.(dealt := t.dealt + {id});
    if !Takeable(s, tx, id) then t'
    else if t.call.ClaimCall? then
      t'.(jobs := [id], jobWrites := map[id := JobRow(c, t, s.tables.jobs[id])], pc := AtWorker)
    else t'.(jobs := t.jobs + [id])
  }

  // ----- one statement -----

  predicate CanWork(s: State, tx: TxId, pick: seq<JobId>)
    requires tx in s.open
  {
    var t, jobs, workers := s.open[tx], s.tables.jobs, s.tables.workers;
    match t.pc
    case Reading => t.call.FailCall? && t.call.id in jobs
    case Beginning => true
    case AtJob =>
      (match t.call
       case CreateCall(_, _, max) => max >= 1 && pick == [s.nextId]
       case ClaimCall(_, _) => pick == []
       case SweepCall(_) => pick == []
       case RegisterCall(_, _) => false
       case HeartbeatCall(_) => false
       case _ => t.call.id in jobs && JobGuard(t.call, jobs[t.call.id])
                 && t.call.id !in LockedByOthers(s, tx) && pick == [t.call.id])
    case Scanning =>
      (match t.call
       case ClaimCall(_, _) => |pick| == 1 && IsNextClaim(t.snapshot, t.at, t.dealt, pick[0])
       case SweepCall(_) =>
         if ScanOver(t) then pick == [] else |pick| == 1 && IsNextExpired(t.snapshot, t.at, t.dealt, pick[0])
       case _ => false)
    case AtWorker =>
      (match t.call
       case RegisterCall(w, _) => WorkerFree(s, tx, w)
       case HeartbeatCall(w) => w in workers && WorkerFree(s, tx, w)
       case ClaimCall(w, _) => w in workers && WorkerFree(s, tx, w)
       case CompleteCall(_, w, _) => w in workers ==> WorkerFree(s, tx, w)
       case FailCall(_, w, _, _) => w in workers ==> WorkerFree(s, tx, w)
       case _ => false)
    case AtRow(i) =>
      i < |t.jobs| && t.jobs[i] in jobs
      && (NeedsRelease(s.tables, t, t.jobs[i]) ==> WorkerFree(s, tx, jobs[t.jobs[i]].worker.value))
    case AtCommit => false
  }

  function Worked(c: BackoffConfig, s: State, tx: TxId, pick: seq<JobId>): Txn
    requires tx in s.open && CanWork(s, tx, pick)
  {
    var t, jobs, workers := s.open[tx], s.tables.jobs, s.tables.workers;
    match t.pc
    case Reading => t.(seen := jobs[t.call.id].attempts, pc := Beginning)
    case Beginning => t.(at := s.tables.clock, pc := AtJob)
    case AtJob =>
      (match t.call
       case CreateCall(typ, payload, max) =>
         t.(jobs := pick, jobWrites := map[s.nextId := NewRow(typ, payload, max, t.at)], pc := AtCommit)
       case ClaimCall(_, _) => t.(snapshot := jobs, pc := Scanning)
       case SweepCall(_) => t.(snapshot := jobs, pc := Scanning)
       case _ =>
         t.(jobs := pick, jobWrites := map[pick[0] := JobRow(c, t, jobs[pick[0]])],
            pc := if JobThenWorker(t.call) then AtWorker else AtCommit))
    case Scanning => if pick == [] then t.(pc := AtRow(0)) else Scanned(c, s, tx, pick[0])
    case AtWorker => t.(workerWrites := WorkerWrites(t, workers), pc := AtCommit)
    case AtRow(i) =>
      var id := t.jobs[i];
      var j := jobs[id];
      t.(jobWrites := t.jobWrites[id := ReapRow(j, Delay(c, j.attempts), t.at)],
         workerWrites := if NeedsRelease(s.tables, t, id) && j.worker.value in workers
                         then t.workerWrites[j.worker.value := workers[j.worker.value].(current := None)]
                         else t.workerWrites,
         pc := AtRow(i + 1))
  }

  /** The statement matched no row, and the call ends there: nothing to claim, not the owner, not
      found, not registered, or a refused insert. */
  predicate CanFinish(s: State, tx: TxId)
    requires tx in s.open
  {
    var t, jobs, workers := s.open[tx], s.tables.jobs, s.tables.workers;
    match t.pc
    case Reading => t.call.FailCall? && t.call.id !in jobs
    case AtJob =>
      (match t.call
       case CreateCall(_, _, max) => max < 1
       case ClaimCall(_, _) => false
       case SweepCall(_) => false
       case RegisterCall(_, _) => false
       case HeartbeatCall(_) => false
       case _ => t.call.id !in jobs || !JobGuard(t.call, jobs[t.call.id]))
    case Scanning => t.call.ClaimCall? && ScanOver(t)
    case AtWorker => (t.call.ClaimCall? || t.call.HeartbeatCall?) && t.call.worker !in workers
    case _ => false
  }

  predicate CanCommit(s: State, tx: TxId)
    requires tx in s.open
  {
    s.open[tx].pc == AtCommit || s.open[tx].pc == AtRow(|s.open[tx].jobs|)
  }

  function CommitEvents(t: Txn): seq<Event> {
    match t.call
    case CreateCall(typ, payload, max) => if t.jobs == [] then [] else [Create(t.jobs[0], typ, payload, max, t.at)]
    case ClaimCall(w, lease) => if t.jobs == [] then [] else [Claim(t.jobs[0], w, lease, t.at)]
    case RenewCall(id, w, lease) => [Renew(id, w, lease, t.at)]
    case CompleteCall(id, w, o) => [Complete(id, w, o, t.at)]
    case FailCall(id, w, o, error) => [Fail(id, w, o, error, t.seen, t.at)]
    case CancelCall(id) => [Cancel(id, t.at)]
    case SweepCall(_) => SweepEvents(t.jobs, t.at)
    case RegisterCall(w, host) => [Register(w, host, t.at)]
    case HeartbeatCall(w) => [Heartbeat(w, t.at)]
  }

  function Committed(tables: Tables, t: Txn): Tables {
    tables.(jobs := tables.jobs + t.jobWrites, workers := tables.workers + t.workerWrites)
  }

  function FirstPc(call: Call): Pc {
    if call.FailCall? then Reading else if WorkerOnly(call) then AtWorker else AtJob
  }

  predicate StepEnabled(s: State, p: Step) {
    match p
    case Advance(to) => s.tables.clock <= to
    case Open(tx, _) => tx !in s.open
    case Work(tx, pick) => tx in s.open && CanWork(s, tx, pick)
    case Commit(tx) => tx in s.open && CanCommit(s, tx)
    case Finish(tx) => tx in s.open && CanFinish(s, tx)
    case Abort(tx) => tx in s.open
  }

  function StepApply(c: BackoffConfig, s: State, p: Step): State
    requires StepEnabled(s, p)
  {
    match p
    case Advance(to) => s.(tables := s.tables.(clock := to), log := s.log + [Tick(to)])
    case Open(tx, call) => s.(open := s.open[tx := Txn(call, FirstPc(call), s.tables.clock, 0, map[], {}, [], map[], map[])])
    case Work(tx, pick) =>
      s.(open := s.open[tx := Worked(c, s, tx, pick)],
         // the sequence is not rolled back with the transaction
         nextId := if s.open[tx].call.CreateCall? then s.nextId + 1 else s.nextId)
    case Commit(tx) =>
      s.(tables := Committed(s.tables, s.open[tx]), open := s.open - {tx}, log := s.log + CommitEvents(s.open[tx]))
    case Finish(tx) => s.(open := s.open - {tx})
    case Abort(tx) => s.(open := s.open - {tx})
  }

  predicate StepsValid(c: BackoffConfig, s: State, ps: seq<Step>)
    decreases |ps|, 0
  {
    ps == [] || (StepsValid(c, s, Front(ps)) && StepEnabled(StepsExec(c, s, Front(ps)), Last(ps)))
  }

  function StepsExec(c: BackoffConfig, s: State, ps: seq<Step>): State
    requires StepsValid(c, s, ps)
    decreases |ps|, 1
  {
    if ps == [] then s else StepApply(c, StepsExec(c, s, Front(ps)), Last(ps))
  }

  function Initial(t0: Time): State {
    State(Empty(t0), map[], 1, [])
  }
}
