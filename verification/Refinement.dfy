/**
 Every interleaving of the row-locking transactions commits a run of the machine.
 */
module Refinement {
  import opened Schema
  import opened Backoff
  import opened Machine
  import opened Invariants
  import opened Dispatch
  import opened Recovery
  import opened Locks

  // ----- what an open transaction has done so far -----

  predicate Untouched(t: Txn) {
    t.jobs == [] && t.jobWrites == map[] && t.workerWrites == map[]
  }

  predicate SeenOk(tables: Tables, t: Txn) {
    t.call.FailCall? ==> t.call.id in tables.jobs && t.seen <= tables.jobs[t.call.id].attempts
  }

  /** It holds one job row, which still satisfies the WHERE clause, and has written exactly the
      statement's result for that row. */
  predicate HoldsJob(c: BackoffConfig, tables: Tables, t: Txn) {
    && |t.jobs| == 1
    && t.jobs[0] in tables.jobs
    && (if t.call.ClaimCall? then Claimable(tables.jobs[t.jobs[0]], t.at)
        else OnOwnJob(t.call) && t.call.id == t.jobs[0] && JobGuard(t.call, tables.jobs[t.jobs[0]]))
    && t.jobWrites == map[t.jobs[0] := JobRow(c, t, tables.jobs[t.jobs[0]])]
    && SeenOk(tables, t)
  }

  function ReapWrites(c: BackoffConfig, jobs: map<JobId, Job>, ids: seq<JobId>, at: Time): map<JobId, Job> {
    map id | id in ids && id in jobs :: ReapRow(jobs[id], Delay(c, jobs[id].attempts), at)
  }

  function Releases(workers: map<WorkerId, Worker>, ids: seq<JobId>): map<WorkerId, Worker> {
    map w | w in workers && workers[w].current.Some? && workers[w].current.value in ids :: workers[w].(current := None)
  }

  /** Everything its query saw is still there. */
  predicate SnapshotOk(tables: Tables, t: Txn) {
    forall id :: id in t.snapshot ==> id in tables.jobs
  }

  /** A sweep that is still scanning has been past every row it holds. */
  predicate DealtWith(t: Txn) {
    forall k :: 0 <= k < |t.jobs| ==> t.jobs[k] in t.dealt
  }

  /** It has rewritten the first i of the rows it selected and freed exactly their workers. */
  predicate SweepOk(c: BackoffConfig, tables: Tables, t: Txn, i: nat) {
    && i <= |t.jobs|
    && Distinct(t.jobs)
    && (forall k :: 0 <= k < |t.jobs| ==> t.jobs[k] in tables.jobs && Expired(tables.jobs[t.jobs[k]], t.at))
    && t.jobWrites == ReapWrites(c, tables.jobs, t.jobs[..i], t.at)
    && t.workerWrites == Releases(tables.workers, t.jobs[..i])
  }

  predicate HoldsNew(tables: Tables, t: Txn) {
    && t.call.CreateCall? && t.call.maxAttempts >= 1
    && |t.jobs| == 1 && t.jobs[0] !in tables.jobs
    && t.jobWrites == map[t.jobs[0] := NewRow(t.call.typ, t.call.payload, t.call.maxAttempts, t.at)]
    && t.workerWrites == map[]
  }

  predicate TxnOk(c: BackoffConfig, tables: Tables, t: Txn) {
    && t.at <= tables.clock
    && SnapshotOk(tables, t)
    && match t.pc
       case Reading => Untouched(t) && t.call.FailCall?
       case Beginning => Untouched(t) && t.call.FailCall? && SeenOk(tables, t)
       case AtJob => Untouched(t) && !WorkerOnly(t.call) && SeenOk(tables, t)
       case Scanning => if t.call.ClaimCall? then Untouched(t) else t.call.SweepCall? && SweepOk(c, tables, t, 0) && DealtWith(t)
       case AtWorker =>
         if WorkerOnly(t.call) then Untouched(t)
         else JobThenWorker(t.call) && HoldsJob(c, tables, t) && t.workerWrites == map[]
       case AtRow(i) => t.call.SweepCall? && SweepOk(c, tables, t, i)
       case AtCommit =>
         if t.call.CreateCall? then HoldsNew(tables, t)
         else if WorkerOnly(t.call) then
           && t.jobs == [] && t.jobWrites == map[]
           && (t.call.RegisterCall? || t.call.worker in tables.workers)
           && t.workerWrites == WorkerWrites(t, tables.workers)
         else
           && !t.call.SweepCall? && HoldsJob(c, tables, t)
           && (JobThenWorker(t.call) ==> t.call.worker in tables.workers)
           && t.workerWrites == WorkerWrites(t, tables.workers)
  }

  // ----- the invariant of the interleaving -----

  /** No row is locked twice. */
  ghost predicate LocksExclusive(s: State) {
    && (forall t, u, id :: t in s.open && u in s.open && t != u && id in s.open[t].jobs ==> id !in s.open[u].jobs)
    && (forall t, u, w :: t in s.open && u in s.open && t != u && w in s.open[t].workerWrites ==> w !in s.open[u].workerWrites)
  }

  /** The sequence is ahead of every id handed out. */
  ghost predicate SequenceAhead(s: State) {
    && (forall id :: id in s.tables.jobs ==> id < s.nextId)
    && (forall t, id :: t in s.open && id in s.open[t].jobs ==> id < s.nextId)
  }

  ghost predicate LogOk(c: BackoffConfig, t0: Time, s: State) {
    Valid(c, Empty(t0), s.log) && Exec(c, Empty(t0), s.log) == s.tables
  }

  ghost predicate Good(c: BackoffConfig, t0: Time, s: State) {
    && LogOk(c, t0, s)
    && LocksExclusive(s)
    && SequenceAhead(s)
    && forall t :: t in s.open ==> TxnOk(c, s.tables, s.open[t])
  }

  // ----- what other transactions may change under an open one -----

  /** The rows a transaction has locked are as they were, counters have not fallen, and nobody has
      been pointed at a job it holds. */
  ghost predicate Undisturbed(tables: Tables, tables': Tables, t: Txn) {
    && tables.clock <= tables'.clock
    && (forall id :: id in t.jobs ==> (id in tables.jobs <==> id in tables'.jobs))
    && (forall id :: id in t.jobs && id in tables.jobs ==> tables'.jobs[id] == tables.jobs[id])
    && (forall w :: w in t.workerWrites ==> (w in tables.workers <==> w in tables'.workers))
    && (forall w :: w in t.workerWrites && w in tables.workers ==> tables'.workers[w] == tables.workers[w])
    && (forall w :: w in tables.workers ==> w in tables'.workers)
    && (forall id :: id in tables.jobs ==> id in tables'.jobs && tables.jobs[id].attempts <= tables'.jobs[id].attempts)
    && (forall w :: w in tables'.workers && w !in t.workerWrites && tables'.workers[w].current.Some?
          && tables'.workers[w].current.value in t.jobs
          ==> w in tables.workers && tables.workers[w].current == tables'.workers[w].current)
  }

  lemma SameReapWrites(c: BackoffConfig, jobs: map<JobId, Job>, jobs': map<JobId, Job>, ids: seq<JobId>, at: Time)
    requires forall id :: id in ids ==> id in jobs && id in jobs' && jobs'[id] == jobs[id]
    ensures ReapWrites(c, jobs', ids, at) == ReapWrites(c, jobs, ids, at)
  {
    var m, m' := ReapWrites(c, jobs, ids, at), ReapWrites(c, jobs', ids, at);
    forall id: JobId
      ensures id in m <==> id in m'
      ensures id in m ==> m'[id] == m[id]
    {
    }
    assert m.Keys == m'.Keys;
  }

  lemma SameReleases(workers: map<WorkerId, Worker>, workers': map<WorkerId, Worker>, ids: seq<JobId>)
    requires forall w :: w in Releases(workers, ids) ==> w in workers' && workers'[w] == workers[w]
    requires forall w :: w in Releases(workers', ids) ==> w in Releases(workers, ids)
    ensures Releases(workers', ids) == Releases(workers, ids)
  {
  }

  lemma UndisturbedSweep(c: BackoffConfig, tables: Tables, tables': Tables, t: Txn, i: nat)
    requires SweepOk(c, tables, t, i) && Undisturbed(tables, tables', t)
    ensures SweepOk(c, tables', t, i)
  {
    var done := t.jobs[..i];
    forall k | 0 <= k < |t.jobs|
      ensures t.jobs[k] in tables'.jobs && tables'.jobs[t.jobs[k]] == tables.jobs[t.jobs[k]]
    {
      var id := t.jobs[k];
      assert id in t.jobs;
    }
    forall id | id in done
      ensures id in tables.jobs && id in tables'.jobs && tables'.jobs[id] == tables.jobs[id]
    {
      assert id in t.jobs;
    }
    SameReapWrites(c, tables.jobs, tables'.jobs, done, t.at);
    forall w | w in Releases(tables'.workers, done)
      ensures w in Releases(tables.workers, done)
    {
      if w !in t.workerWrites {
        var id := tables'.workers[w].current.value;
        assert id in t.jobs;
      }
    }
    SameReleases(tables.workers, tables'.workers, done);
  }

  lemma UndisturbedTxn(c: BackoffConfig, tables: Tables, tables': Tables, t: Txn)
    requires TxnOk(c, tables, t) && Undisturbed(tables, tables', t)
    ensures TxnOk(c, tables', t)
  {
    if t.pc.AtRow? {
      UndisturbedSweep(c, tables, tables', t, t.pc.next);
    } else if t.pc.Scanning? && t.call.SweepCall? {
      UndisturbedSweep(c, tables, tables', t, 0);
    } else if |t.jobs| == 1 {
      var id := t.jobs[0];
      assert id in t.jobs;
    }
  }

  // ----- a commit is a run -----

  lemma OneEvent(c: BackoffConfig, s: Tables, e: Event)
    requires Enabled(s, e)
    ensures Valid(c, s, [e]) && Exec(c, s, [e]) == Apply(c, s, e)
  {
    RunSnoc(c, s, [], e);
    assert [] + [e] == [e];
  }

  ghost predicate ReadyToCommit(c: BackoffConfig, tables: Tables, t: Txn) {
    TxnOk(c, tables, t) && (t.pc == AtCommit || t.pc == AtRow(|t.jobs|))
  }

  lemma ReapWritesSwept(c: BackoffConfig, jobs: map<JobId, Job>, ids: seq<JobId>, at: Time)
    ensures jobs + ReapWrites(c, jobs, ids, at) == SweptJobs(c, jobs, ids, at)
  {
  }

  lemma ReleasesSwept(workers: map<WorkerId, Worker>, ids: seq<JobId>)
    ensures workers + Releases(workers, ids) == SweptWorkers(workers, ids)
  {
  }

  lemma CommitSweep(c: BackoffConfig, tables: Tables, t: Txn)
    requires Inv(tables) && ReadyToCommit(c, tables, t) && t.call.SweepCall?
    ensures Valid(c, tables, CommitEvents(t)) && Exec(c, tables, CommitEvents(t)) == Committed(tables, t)
  {
    assert t.jobs[..|t.jobs|] == t.jobs;
    SweepEffect(c, tables, t.jobs, t.at);
    ReapWritesSwept(c, tables.jobs, t.jobs, t.at);
    ReleasesSwept(tables.workers, t.jobs);
  }

  lemma CommitJob(c: BackoffConfig, tables: Tables, t: Txn)
    requires ReadyToCommit(c, tables, t) && !t.call.SweepCall? && !WorkerOnly(t.call)
    ensures |CommitEvents(t)| == 1 && Enabled(tables, CommitEvents(t)[0])
    ensures Apply(c, tables, CommitEvents(t)[0]).jobs == tables.jobs + t.jobWrites
  {
  }

  lemma CommitJobsWorker(c: BackoffConfig, tables: Tables, t: Txn)
    requires ReadyToCommit(c, tables, t) && !t.call.SweepCall? && !WorkerOnly(t.call)
    requires |CommitEvents(t)| == 1 && Enabled(tables, CommitEvents(t)[0])
    ensures Apply(c, tables, CommitEvents(t)[0]).workers == tables.workers + t.workerWrites
  {
  }

  lemma CommitWorker(c: BackoffConfig, tables: Tables, t: Txn)
    requires ReadyToCommit(c, tables, t) && WorkerOnly(t.call)
    ensures |CommitEvents(t)| == 1 && Enabled(tables, CommitEvents(t)[0])
    ensures Apply(c, tables, CommitEvents(t)[0]) == Committed(tables, t)
  {
    assert tables.jobs + t.jobWrites == tables.jobs;
  }

  lemma CommitOne(c: BackoffConfig, tables: Tables, t: Txn)
    requires ReadyToCommit(c, tables, t) && !t.call.SweepCall?
    ensures |CommitEvents(t)| == 1 && Enabled(tables, CommitEvents(t)[0])
    ensures Apply(c, tables, CommitEvents(t)[0]) == Committed(tables, t)
  {
    if WorkerOnly(t.call) {
      CommitWorker(c, tables, t);
    } else {
      CommitJob(c, tables, t);
      CommitJobsWorker(c, tables, t);
    }
  }

  /** What a transaction makes visible when it commits is the effect of its events. */
  lemma CommitIsRun(c: BackoffConfig, tables: Tables, t: Txn)
    requires Inv(tables) && ReadyToCommit(c, tables, t)
    ensures Valid(c, tables, CommitEvents(t)) && Exec(c, tables, CommitEvents(t)) == Committed(tables, t)
  {
    if t.call.SweepCall? {
      CommitSweep(c, tables, t);
    } else {
      CommitOne(c, tables, t);
      OneEvent(c, tables, CommitEvents(t)[0]);
      assert CommitEvents(t) == [CommitEvents(t)[0]];
    }
  }

  // ----- a commit disturbs no other transaction -----

  ghost predicate Apart(t: Txn, u: Txn) {
    && (forall id :: id in t.jobs ==> id !in u.jobs)
    && (forall w :: w in t.workerWrites ==> w !in u.workerWrites)
  }

  lemma WritesAreLocked(c: BackoffConfig, tables: Tables, t: Txn)
    requires TxnOk(c, tables, t)
    ensures forall id :: id in t.jobWrites ==> id in t.jobs
    ensures forall w :: w in t.workerWrites ==>
              || t.workerWrites[w].current.None?
              || (t.workerWrites[w].current.value in t.jobs)
              || (w in tables.workers && t.workerWrites[w].current == tables.workers[w].current)
  {
    if t.pc.AtRow? {
      assert forall id :: id in t.jobs[..t.pc.next] ==> id in t.jobs;
    } else if t.pc.Scanning? {
      assert t.jobs[..0] == [];
    }
  }

  lemma CommitLeavesOthers(c: BackoffConfig, tables: Tables, t: Txn, u: Txn)
    requires Inv(tables) && ReadyToCommit(c, tables, t) && Apart(t, u)
    ensures Undisturbed(tables, Committed(tables, t), u)
  {
    var tables' := Committed(tables, t);
    WritesAreLocked(c, tables, t);
    CommitIsRun(c, tables, t);
    forall id | id in tables.jobs
      ensures id in tables'.jobs && tables.jobs[id].attempts <= tables'.jobs[id].attempts
    {
      RowsPersist(c, tables, CommitEvents(t), id);
    }
    forall w | w in tables'.workers && w !in u.workerWrites && tables'.workers[w].current.Some?
               && tables'.workers[w].current.value in u.jobs
      ensures w in tables.workers && tables.workers[w].current == tables'.workers[w].current
    {
      var id := tables'.workers[w].current.value;
      assert id in u.jobs && id !in t.jobs;
    }
  }

  // ----- one statement -----

  lemma SweepRow(c: BackoffConfig, s: State, tx: TxId, pick: seq<JobId>)
    requires Inv(s.tables) && tx in s.open && TxnOk(c, s.tables, s.open[tx]) && s.open[tx].pc.AtRow? && CanWork(s, tx, pick)
    ensures TxnOk(c, s.tables, Worked(c, s, tx, pick))
  {
    var t := s.open[tx];
    var i := t.pc.next;
    var id := t.jobs[i];
    var w := s.tables.jobs[id].worker.value;
    var done, done' := t.jobs[..i], t.jobs[..i + 1];
    assert done' == done + [id];
    assert id !in done;
    assert RowOk(s.tables.jobs[id]);
    forall v | v in s.tables.workers && s.tables.workers[v].current == Some(id)
      ensures v == w && v !in t.workerWrites
    {
      assert OwnedBy(s.tables.jobs[id], v);
    }
    NextReapWrites(c, s.tables.jobs, done, id, t.at);
    NextReleases(s.tables.workers, done, id, w);
  }

  lemma NextReapWrites(c: BackoffConfig, jobs: map<JobId, Job>, ids: seq<JobId>, id: JobId, at: Time)
    requires id in jobs
    ensures ReapWrites(c, jobs, ids + [id], at)
         == ReapWrites(c, jobs, ids, at)[id := ReapRow(jobs[id], Delay(c, jobs[id].attempts), at)]
  {
  }

  lemma NextReleases(workers: map<WorkerId, Worker>, ids: seq<JobId>, id: JobId, w: WorkerId)
    requires forall v :: v in workers && workers[v].current == Some(id) ==> v == w
    ensures Releases(workers, ids + [id])
         == if w in workers && workers[w].current == Some(id)
            then Releases(workers, ids)[w := workers[w].(current := None)] else Releases(workers, ids)
  {
  }

  lemma NothingReaped(c: BackoffConfig, tables: Tables, at: Time)
    ensures Releases(tables.workers, []) == map[]
    ensures ReapWrites(c, tables.jobs, [], at) == map[]
  {
  }

  /** A row the sweep locks is expired, and new to it. */
  lemma ScanRow(c: BackoffConfig, s: State, tx: TxId, id: JobId)
    requires tx in s.open && TxnOk(c, s.tables, s.open[tx]) && s.open[tx].pc.Scanning? && s.open[tx].call.SweepCall?
    requires id !in s.open[tx].dealt
    ensures SweepOk(c, s.tables, Scanned(c, s, tx, id), 0) && DealtWith(Scanned(c, s, tx, id))
  {
    var t, t' := s.open[tx], Scanned(c, s, tx, id);
    assert t.jobs[..0] == [] && t'.jobs[..0] == [];
    assert id !in t.jobs;
  }

  lemma JobStatement(c: BackoffConfig, s: State, tx: TxId, pick: seq<JobId>)
    requires SequenceAhead(s) && tx in s.open && TxnOk(c, s.tables, s.open[tx]) && s.open[tx].pc.AtJob? && CanWork(s, tx, pick)
    ensures TxnOk(c, s.tables, Worked(c, s, tx, pick))
  {
    if s.open[tx].call.SweepCall? {
      NothingReaped(c, s.tables, s.open[tx].at);
      assert s.open[tx].jobs[..0] == [];
    }
  }

  lemma ScanStatement(c: BackoffConfig, s: State, tx: TxId, pick: seq<JobId>)
    requires tx in s.open && TxnOk(c, s.tables, s.open[tx]) && s.open[tx].pc.Scanning? && CanWork(s, tx, pick)
    ensures TxnOk(c, s.tables, Worked(c, s, tx, pick))
  {
    if s.open[tx].call.SweepCall? && pick != [] {
      ScanRow(c, s, tx, pick[0]);
    }
  }

  /** After a statement the transaction is still in order. */
  lemma WorkedOk(c: BackoffConfig, s: State, tx: TxId, pick: seq<JobId>)
    requires Inv(s.tables) && SequenceAhead(s) && tx in s.open && TxnOk(c, s.tables, s.open[tx]) && CanWork(s, tx, pick)
    ensures TxnOk(c, s.tables, Worked(c, s, tx, pick))
  {
    match s.open[tx].pc
    case AtRow(_) => SweepRow(c, s, tx, pick);
    case AtJob => JobStatement(c, s, tx, pick);
    case Scanning => ScanStatement(c, s, tx, pick);
    case _ =>
  }

  /** A statement locks only rows that nobody else has locked. */
  lemma WorkedLocks(c: BackoffConfig, s: State, tx: TxId, pick: seq<JobId>)
    requires SequenceAhead(s) && tx in s.open && TxnOk(c, s.tables, s.open[tx]) && CanWork(s, tx, pick)
    ensures forall id :: id in Worked(c, s, tx, pick).jobs ==>
              id in s.open[tx].jobs || (id !in LockedByOthers(s, tx) && (id in s.tables.jobs || id == s.nextId))
    ensures forall w :: w in Worked(c, s, tx, pick).workerWrites ==>
              w in s.open[tx].workerWrites || WorkerFree(s, tx, w)
  {
  }

  lemma WorkExclusive(c: BackoffConfig, s: State, tx: TxId, pick: seq<JobId>)
    requires LocksExclusive(s) && SequenceAhead(s) && StepEnabled(s, Work(tx, pick)) && TxnOk(c, s.tables, s.open[tx])
    ensures LocksExclusive(StepApply(c, s, Work(tx, pick))) && SequenceAhead(StepApply(c, s, Work(tx, pick)))
  {
    WorkedLocks(c, s, tx, pick);
    var t' := Worked(c, s, tx, pick);
    forall u, id | u in s.open && u != tx && id in s.open[u].jobs
      ensures id !in t'.jobs
    {
      assert id in LockedByOthers(s, tx);
      assert id < s.nextId;
    }
    forall u, w | u in s.open && u != tx && w in s.open[u].workerWrites
      ensures w !in t'.workerWrites
    {
    }
  }

  lemma WorkGood(c: BackoffConfig, t0: Time, s: State, tx: TxId, pick: seq<JobId>)
    requires Good(c, t0, s) && StepEnabled(s, Work(tx, pick))
    ensures Good(c, t0, StepApply(c, s, Work(tx, pick)))
  {
    ReachableInv(c, t0, s.log);
    WorkedOk(c, s, tx, pick);
    WorkExclusive(c, s, tx, pick);
  }

  lemma CommitGood(c: BackoffConfig, t0: Time, s: State, tx: TxId)
    requires Good(c, t0, s) && StepEnabled(s, Commit(tx))
    ensures Good(c, t0, StepApply(c, s, Commit(tx)))
  {
    ReachableInv(c, t0, s.log);
    var s', t := StepApply(c, s, Commit(tx)), s.open[tx];
    CommitIsRun(c, s.tables, t);
    RunAppend(c, Empty(t0), s.log, CommitEvents(t));
    WritesAreLocked(c, s.tables, t);
    forall u | u in s'.open
      ensures TxnOk(c, s'.tables, s'.open[u])
    {
      assert Apart(t, s.open[u]);
      CommitLeavesOthers(c, s.tables, t, s.open[u]);
      UndisturbedTxn(c, s.tables, s'.tables, s.open[u]);
    }
  }

  lemma AdvanceGood(c: BackoffConfig, t0: Time, s: State, to: Time)
    requires Good(c, t0, s) && StepEnabled(s, Advance(to))
    ensures Good(c, t0, StepApply(c, s, Advance(to)))
  {
    var s' := StepApply(c, s, Advance(to));
    RunSnoc(c, Empty(t0), s.log, Tick(to));
    forall u | u in s'.open
      ensures TxnOk(c, s'.tables, s'.open[u])
    {
      UndisturbedTxn(c, s.tables, s'.tables, s.open[u]);
    }
  }

  lemma StepGood(c: BackoffConfig, t0: Time, s: State, p: Step)
    requires Good(c, t0, s) && StepEnabled(s, p)
    ensures Good(c, t0, StepApply(c, s, p))
  {
    match p
    case Advance(to) => AdvanceGood(c, t0, s, to);
    case Open(_, _) =>
    case Work(tx, pick) => WorkGood(c, t0, s, tx, pick);
    case Commit(tx) => CommitGood(c, t0, s, tx);
    case Finish(_) =>
    case Abort(_) =>
  }

  lemma {:induction false} RunGood(c: BackoffConfig, t0: Time, ps: seq<Step>)
    requires StepsValid(c, Initial(t0), ps)
    ensures Good(c, t0, StepsExec(c, Initial(t0), ps))
  {
    if ps != [] {
      RunGood(c, t0, Front(ps));
      StepGood(c, t0, StepsExec(c, Initial(t0), Front(ps)), Last(ps));
    }
  }

  // ----- the theorems -----

  /** Refinement: for every interleaving, the committed tables are those of a run of the machine,
      namely the committed events in commit order; so every theorem about runs holds of them. */
  lemma InterleavingsRefineRuns(c: BackoffConfig, t0: Time, ps: seq<Step>)
    requires StepsValid(c, Initial(t0), ps)
    ensures var s := StepsExec(c, Initial(t0), ps);
            && Valid(c, Empty(t0), s.log)
            && Exec(c, Empty(t0), s.log) == s.tables
            && Inv(s.tables)
  {
    RunGood(c, t0, ps);
    ReachableInv(c, t0, StepsExec(c, Initial(t0), ps).log);
  }

  /** Mutual exclusion: no two open transactions hold the same job, or the same worker row. */
  lemma NoRowHeldTwice(c: BackoffConfig, t0: Time, ps: seq<Step>, t: TxId, u: TxId)
    requires StepsValid(c, Initial(t0), ps)
    requires t in StepsExec(c, Initial(t0), ps).open && u in StepsExec(c, Initial(t0), ps).open && t != u
    ensures Apart(StepsExec(c, Initial(t0), ps).open[t], StepsExec(c, Initial(t0), ps).open[u])
  {
    RunGood(c, t0, ps);
  }

  /** Mutual exclusion over time: in every interleaving, a job that was handed to a worker is not
      handed out again before a failure report or a sweep has put it back. */
  lemma OneWorkerAtATime(c: BackoffConfig, t0: Time, ps: seq<Step>, i: nat, k: nat)
    requires StepsValid(c, Initial(t0), ps)
    requires var log := StepsExec(c, Initial(t0), ps).log;
             i < k < |log| && log[i].Claim? && log[k].Claim? && log[i].id == log[k].id
    ensures var log := StepsExec(c, Initial(t0), ps).log; exists m :: i < m < k && HandsBack(log[m], log[i].id)
  {
    RunGood(c, t0, ps);
    NoDoubleDispatch(c, Empty(t0), StepsExec(c, Initial(t0), ps).log, i, k);
  }

  /** The transaction holds the job and will commit it as RUNNING or CANCELED. */
  predicate BeingTaken(s: State, tx: TxId, id: JobId) {
    && tx in s.open && id in s.open[tx].jobs && id in s.open[tx].jobWrites
    && (s.open[tx].jobWrites[id].status == Running || s.open[tx].jobWrites[id].status == Canceled)
  }

  /** A claim passes over a job only if the job has left the queue since the claim's query saw it, or
      another transaction is taking it out: one that holds its row and will commit it as RUNNING or
      CANCELED. */
  lemma SkippedJobIsLeaving(c: BackoffConfig, t0: Time, ps: seq<Step>, tx: TxId, id: JobId)
    requires StepsValid(c, Initial(t0), ps)
    requires var s := StepsExec(c, Initial(t0), ps);
             && tx in s.open && s.open[tx].call.ClaimCall? && s.open[tx].pc.Scanning? && CanWork(s, tx, [id])
             && id !in Worked(c, s, tx, [id]).jobs
    ensures var s := StepsExec(c, Initial(t0), ps);
            && id in s.tables.jobs
            && (Claimable(s.tables.jobs[id], s.open[tx].at) ==>
                 exists u :: u != tx && BeingTaken(s, u, id))
  {
    RunGood(c, t0, ps);
    var s := StepsExec(c, Initial(t0), ps);
    assert TxnOk(c, s.tables, s.open[tx]);
    assert id in s.open[tx].snapshot;
    if Claimable(s.tables.jobs[id], s.open[tx].at) {
      assert !Takeable(s, tx, id);
      var u :| u in s.open && u != tx && id in s.open[u].jobs;
      PendingJobIsLeaving(c, s.tables, s.open[u], id);
      assert BeingTaken(s, u, id);
    }
  }

  lemma PendingJobIsLeaving(c: BackoffConfig, tables: Tables, t: Txn, id: JobId)
    requires TxnOk(c, tables, t) && id in t.jobs && id in tables.jobs && tables.jobs[id].status == Pending
    ensures id in t.jobWrites && (t.jobWrites[id].status == Running || t.jobWrites[id].status == Canceled)
  {
    if t.call.SweepCall? {
      assert false;
    }
  }

  /** Two-phase failure: the attempt count that sets the delay was read before the transaction, but
      in every interleaving it is at most the count of the attempt being failed; so unless the
      backoff wraps the retry never waits longer than that attempt's own delay. */
  lemma TwoPhaseFail(c: BackoffConfig, t0: Time, ps: seq<Step>, i: nat)
    requires StepsValid(c, Initial(t0), ps)
    requires i < |StepsExec(c, Initial(t0), ps).log| && StepsExec(c, Initial(t0), ps).log[i].Fail?
    ensures var log := StepsExec(c, Initial(t0), ps).log;
            && Valid(c, Empty(t0), log[..i])
            && var s, e := Exec(c, Empty(t0), log[..i]), log[i];
               && Enabled(s, e) && e.seen <= s.jobs[e.id].attempts
               && Apply(c, s, e).jobs[e.id].availableAt == e.at + Delay(c, e.seen)
               && (NoWrap(c) ==> Delay(c, e.seen) <= Delay(c, s.jobs[e.id].attempts))
  {
    RunGood(c, t0, ps);
    var log := StepsExec(c, Initial(t0), ps).log;
    PrefixValid(c, Empty(t0), log, i + 1);
    assert Front(log[..i + 1]) == log[..i] && Last(log[..i + 1]) == log[i];
    if NoWrap(c) {
      NoWrapMonotone(c, log[i].seen, Exec(c, Empty(t0), log[..i]).jobs[log[i].id].attempts);
    }
  }
}
