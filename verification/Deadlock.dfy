/**
 The transactions never deadlock: who waits for whom is ranked, and a transaction of the lowest
 rank is free to go on.
 */
module Deadlock {
  import opened Schema
  import opened Backoff
  import opened Dispatch
  import opened Recovery
  import opened Locks
  import opened Refinement

  /** The transaction's next statement, its commit, or its answer is possible now. */
  ghost predicate CanProgress(s: State, tx: TxId)
    requires tx in s.open
  {
    CanCommit(s, tx) || CanFinish(s, tx) || exists pick :: CanWork(s, tx, pick)
  }

  /** The statement matches a row that the other transaction has locked. */
  predicate WaitsFor(s: State, tx: TxId, other: TxId)
    requires tx in s.open && other in s.open
  {
    var t, u := s.open[tx], s.open[other];
    tx != other &&
    match t.pc
    case AtJob =>
      OnOwnJob(t.call) && t.call.id in s.tables.jobs && JobGuard(t.call, s.tables.jobs[t.call.id]) && t.call.id in u.jobs
    case AtWorker =>
      (WorkerOnly(t.call) || JobThenWorker(t.call))
      && (t.call.RegisterCall? || t.call.worker in s.tables.workers) && t.call.worker in u.workerWrites
    case AtRow(i) =>
      i < |t.jobs| && t.jobs[i] in s.tables.jobs && NeedsRelease(s.tables, t, t.jobs[i])
      && s.tables.jobs[t.jobs[i]].worker.value in u.workerWrites
    case _ => false
  }

  /** Job rows are locked before worker rows, and only a sweep goes on after locking a worker. */
  function Rank(t: Txn): nat {
    match t.pc
    case AtCommit => 0
    case AtRow(_) => 1
    case AtWorker => 2
    case Scanning => 2
    case _ => 3
  }

  /** Two sweeps never want the same worker row: its current job is locked by at most one. */
  lemma SweepsApart(c: BackoffConfig, s: State, tx: TxId, other: TxId)
    requires LocksExclusive(s) && tx in s.open && other in s.open && WaitsFor(s, tx, other)
    requires TxnOk(c, s.tables, s.open[tx]) && TxnOk(c, s.tables, s.open[other]) && s.open[tx].pc.AtRow?
    ensures !s.open[other].pc.AtRow?
  {
    var t, u := s.open[tx], s.open[other];
    var id: JobId := t.jobs[t.pc.next];
    var w: WorkerId := s.tables.jobs[id].worker.value;
    assert id in t.jobs && id !in u.jobs;
    assert w !in t.workerWrites && s.tables.workers[w].current == Some(id);
  }

  /** Whoever is waited for is closer to its end. */
  lemma WaitingDescends(c: BackoffConfig, t0: Time, s: State, tx: TxId, other: TxId)
    requires Good(c, t0, s) && tx in s.open && other in s.open && WaitsFor(s, tx, other)
    ensures Rank(s.open[other]) < Rank(s.open[tx])
  {
    assert TxnOk(c, s.tables, s.open[tx]) && TxnOk(c, s.tables, s.open[other]);
    if s.open[tx].pc.AtRow? {
      SweepsApart(c, s, tx, other);
    }
  }

  lemma WaitsAtJob(c: BackoffConfig, s: State, tx: TxId)
    requires tx in s.open && TxnOk(c, s.tables, s.open[tx]) && s.open[tx].pc.AtJob?
    ensures CanProgress(s, tx) || exists other :: other in s.open && WaitsFor(s, tx, other)
  {
    var t, jobs := s.open[tx], s.tables.jobs;
    var locked := LockedByOthers(s, tx);
    if t.call.CreateCall? {
      assert t.call.maxAttempts >= 1 ==> CanWork(s, tx, [s.nextId]);
    } else if t.call.ClaimCall? || t.call.SweepCall? {
      assert CanWork(s, tx, []);
    } else if t.call.id in jobs && JobGuard(t.call, jobs[t.call.id]) {
      if t.call.id in locked {
        var other :| other in s.open && other != tx && t.call.id in s.open[other].jobs;
        assert WaitsFor(s, tx, other);
      } else {
        assert CanWork(s, tx, [t.call.id]);
      }
    }
  }

  /** A scan has a next row to look at, or is over; it never waits. */
  lemma ScanGoesOn(c: BackoffConfig, s: State, tx: TxId)
    requires tx in s.open && TxnOk(c, s.tables, s.open[tx]) && s.open[tx].pc.Scanning?
    ensures CanProgress(s, tx)
  {
    var t := s.open[tx];
    if ScanOver(t) {
      assert CanFinish(s, tx) || CanWork(s, tx, []);
    } else if t.call.ClaimCall? {
      var id :| id in t.snapshot && Offered(t.snapshot, t.at, t.dealt, id);
      var next := NextClaimExists(t.snapshot, t.at, t.dealt, id);
      assert CanWork(s, tx, [next]);
    } else {
      var id :| id in t.snapshot && Overdue(t.snapshot, t.at, t.dealt, id);
      var ids := set k | k in t.snapshot && Overdue(t.snapshot, t.at, t.dealt, k);
      assert id in ids;
      var next := OldestOf(t.snapshot, ids);
      assert CanWork(s, tx, [next]);
    }
  }

  lemma WaitsAtWorker(c: BackoffConfig, s: State, tx: TxId)
    requires tx in s.open && TxnOk(c, s.tables, s.open[tx]) && (s.open[tx].pc.AtWorker? || s.open[tx].pc.AtRow?)
    ensures CanProgress(s, tx) || exists other :: other in s.open && WaitsFor(s, tx, other)
  {
    var t := s.open[tx];
    if t.pc.AtWorker? {
      if other :| other in s.open && other != tx && t.call.worker in s.open[other].workerWrites {
        assert WaitsFor(s, tx, other) || CanFinish(s, tx) || CanWork(s, tx, []);
      } else {
        assert WorkerFree(s, tx, t.call.worker);
        assert CanFinish(s, tx) || CanWork(s, tx, []);
      }
    } else if t.pc.next < |t.jobs| {
      var id := t.jobs[t.pc.next];
      if NeedsRelease(s.tables, t, id) && !WorkerFree(s, tx, s.tables.jobs[id].worker.value) {
        var other :| other in s.open && other != tx && s.tables.jobs[id].worker.value in s.open[other].workerWrites;
        assert WaitsFor(s, tx, other);
      } else {
        assert CanWork(s, tx, []);
      }
    }
  }

  /** An open transaction can go on unless it waits for a row another one has locked. */
  lemma RunsOrWaits(c: BackoffConfig, t0: Time, s: State, tx: TxId)
    requires Good(c, t0, s) && tx in s.open
    ensures CanProgress(s, tx) || exists other :: other in s.open && WaitsFor(s, tx, other)
  {
    assert TxnOk(c, s.tables, s.open[tx]);
    match s.open[tx].pc
    case Reading => assert CanFinish(s, tx) || CanWork(s, tx, []);
    case Beginning => assert CanWork(s, tx, []);
    case AtJob => WaitsAtJob(c, s, tx);
    case Scanning => ScanGoesOn(c, s, tx);
    case AtWorker => WaitsAtWorker(c, s, tx);
    case AtRow(_) => WaitsAtWorker(c, s, tx);
    case AtCommit =>
  }

  /** Following the waits from any transaction leads, in at most three hops, to one that can go on. */
  lemma {:induction false} Runner(c: BackoffConfig, t0: Time, s: State, tx: TxId) returns (runner: TxId)
    requires Good(c, t0, s) && tx in s.open
    ensures runner in s.open && CanProgress(s, runner)
    decreases Rank(s.open[tx])
  {
    RunsOrWaits(c, t0, s, tx);
    if CanProgress(s, tx) {
      runner := tx;
    } else {
      var other :| other in s.open && WaitsFor(s, tx, other);
      WaitingDescends(c, t0, s, tx, other);
      runner := Runner(c, t0, s, other);
    }
  }

  /** No deadlock: in every state that any interleaving reaches, waits-for strictly descends the
      ranks, hence has no cycle, and if a transaction is open some transaction can go on. */
  lemma NoDeadlock(c: BackoffConfig, t0: Time, ps: seq<Step>)
    requires StepsValid(c, Initial(t0), ps)
    ensures var s := StepsExec(c, Initial(t0), ps);
            && (forall t, u :: t in s.open && u in s.open && WaitsFor(s, t, u) ==> Rank(s.open[u]) < Rank(s.open[t]))
            && (s.open != map[] ==> exists t :: t in s.open && CanProgress(s, t))
  {
    RunGood(c, t0, ps);
    var s := StepsExec(c, Initial(t0), ps);
    forall t, u | t in s.open && u in s.open && WaitsFor(s, t, u)
      ensures Rank(s.open[u]) < Rank(s.open[t])
    {
      WaitingDescends(c, t0, s, t, u);
    }
    if s.open != map[] {
      var t :| t in s.open;
      var runner := Runner(c, t0, s, t);
    }
  }
}
