/**
 Why an expired lease is recovered even while others hold rows: sweeps that see it take older ones,
 and there are only so many of those.
 */
module ContendedRecovery {
  import opened Schema
  import opened Backoff
  import opened Machine
  import opened Dispatch
  import opened Recovery
  import opened Locks
  import opened Refinement
  import opened Contention

  /** A sweep that has the expired job in view. */
  predicate SweepSees(s: State, tx: TxId, id: JobId) {
    && tx in s.open && id in s.tables.jobs && s.open[tx].call.SweepCall?
    && InView(s.open[tx], id, s.tables.jobs[id]) && Expired(s.tables.jobs[id], s.open[tx].at)
  }

  /** The rows it holds that are as its query saw them. */
  function TakenFirst(s: State, tx: TxId, id: JobId): set<JobId> {
    if !SweepSees(s, tx, id) then {}
    else
      var t := s.open[tx];
      set k | k in t.jobs && k in t.snapshot && k in s.tables.jobs && t.snapshot[k] == s.tables.jobs[k]
  }

  /** How many such rows have been committed. */
  function SweptFirst(c: BackoffConfig, s: State, ps: seq<Step>, id: JobId): nat
    requires StepsValid(c, s, ps)
  {
    if ps == [] then 0
    else SweptFirst(c, s, Front(ps), id) +
         (if Last(ps).Commit? then |TakenFirst(StepsExec(c, s, Front(ps)), Last(ps).tx, id)| else 0)
  }

  /** And those still in the hands of open sweeps. */
  function BeingSwept(s: State, id: JobId): set<JobId> {
    set tx, k | tx in s.open && k in TakenFirst(s, tx, id) :: k
  }

  /** Leases granted meanwhile, by transactions begun whenever, run out after this one. */
  predicate OthersLapseLater(c: BackoffConfig, s: State, ps: seq<Step>, lease: Time)
    requires StepsValid(c, s, ps)
  {
    ps == [] ||
    (&& OthersLapseLater(c, s, Front(ps), lease)
     && (Last(ps).Commit? ==>
          var es := CommitEvents(StepsExec(c, s, Front(ps)).open[Last(ps).tx]);
          forall i :: 0 <= i < |es| ==> GrantsLater(One(es[i]), lease)))
  }

  predicate HoldsLease(s: State, id: JobId) {
    id in s.tables.jobs && s.tables.jobs[id].status == Running && s.tables.jobs[id].leaseUntil.Some?
  }

  /** What a sweep takes before this job has leases no later than its; and when its scan is over
      without this job, the batch is full. */
  lemma TakenAreOlder(c: BackoffConfig, s: State, tx: TxId, id: JobId)
    requires tx in s.open && TxnOk(c, s.tables, s.open[tx]) && Chosen(s.open[tx])
    requires HoldsLease(s, id) && id !in s.open[tx].jobs
    ensures TakenFirst(s, tx, id) <= LapsingBy(s.tables, s.tables.jobs[id].leaseUntil.value) - {id}
    ensures SweepSees(s, tx, id) && s.open[tx].pc.AtRow? ==> |s.open[tx].jobs| == BatchSize(s.open[tx].call.batch)
  {
    if SweepSees(s, tx, id) {
      var t := s.open[tx];
      assert Overdue(t.snapshot, t.at, PassedOver(t), id);
      forall k | k in TakenFirst(s, tx, id)
        ensures k in LapsingBy(s.tables, s.tables.jobs[id].leaseUntil.value) - {id}
      {
        var i :| 0 <= i < |t.jobs| && t.jobs[i] == k;
        assert Overdue(t.snapshot, t.at, PassedOver(t), t.jobs[i]);
      }
    }
  }

  /** A commit adds no earlier lease, and a sweep's removes those it took. */
  lemma CommitShortens(c: BackoffConfig, s: State, tx: TxId, id: JobId)
    requires StepEnabled(s, Commit(tx)) && TxnOk(c, s.tables, s.open[tx])
    requires HoldsLease(s, id) && id !in s.open[tx].jobs
    requires var es := CommitEvents(s.open[tx]);
             forall i :: 0 <= i < |es| ==> GrantsLater(One(es[i]), s.tables.jobs[id].leaseUntil.value)
    ensures var s', lease := StepApply(c, s, Commit(tx)), s.tables.jobs[id].leaseUntil.value;
            && id in s'.tables.jobs && s'.tables.jobs[id] == s.tables.jobs[id]
            && LapsingBy(s'.tables, lease) <= LapsingBy(s.tables, lease) - TakenFirst(s, tx, id)
  {
    var t := s.open[tx];
    WritesAreLocked(c, s.tables, t);
    if t.call.ClaimCall? || t.call.RenewCall? {
      assert GrantsLater(One(CommitEvents(t)[0]), s.tables.jobs[id].leaseUntil.value);
    } else if t.call.SweepCall? {
      SweptRowsStop(c, s.tables, t);
      var s', lease := StepApply(c, s, Commit(tx)), s.tables.jobs[id].leaseUntil.value;
      forall k: JobId | k in LapsingBy(s'.tables, lease)
        ensures k in LapsingBy(s.tables, lease) && k !in TakenFirst(s, tx, id)
      {
        assert k !in t.jobs;
        assert s'.tables.jobs[k] == s.tables.jobs[k];
      }
    }
  }

  lemma SweptRowsStop(c: BackoffConfig, tables: Tables, t: Txn)
    requires TxnOk(c, tables, t) && t.call.SweepCall? && t.pc == AtRow(|t.jobs|)
    ensures forall k: JobId :: k in t.jobs ==> k in t.jobWrites && t.jobWrites[k].status != Running
    ensures forall k: JobId :: k in t.jobWrites ==> k in t.jobs
  {
    assert t.jobs[..|t.jobs|] == t.jobs;
    forall k: JobId | k in t.jobs
      ensures k in t.jobWrites && t.jobWrites[k].status != Running
    {
      var i :| 0 <= i < |t.jobs| && t.jobs[i] == k;
      assert t.jobs[i] in tables.jobs;
      assert k in ReapWrites(c, tables.jobs, t.jobs, t.at);
    }
  }

  lemma {:induction false} LeasesShrink(c: BackoffConfig, t0: Time, s: State, ps: seq<Step>, id: JobId)
    requires Good(c, t0, s) && AllChosen(s) && StepsValid(c, s, ps)
    requires HoldsLease(s, id) && LeftAlone(c, s, ps, id)
    requires OthersLapseLater(c, s, ps, s.tables.jobs[id].leaseUntil.value)
    ensures var s', lease := StepsExec(c, s, ps), s.tables.jobs[id].leaseUntil.value;
            && id in s'.tables.jobs && s'.tables.jobs[id] == s.tables.jobs[id]
            && SweptFirst(c, s, ps, id) + |LapsingBy(s'.tables, lease)| <= |LapsingBy(s.tables, lease)|
  {
    if ps != [] {
      LeasesShrink(c, t0, s, Front(ps), id);
      RunKeepsGood(c, t0, s, Front(ps));
      var p, s', lease := StepsExec(c, s, Front(ps)), StepsExec(c, s, ps), s.tables.jobs[id].leaseUntil.value;
      if Last(ps).Commit? {
        CommitShortens(c, p, Last(ps).tx, id);
        TakenAreOlder(c, p, Last(ps).tx, id);
        Subset(LapsingBy(s'.tables, lease), LapsingBy(p.tables, lease) - TakenFirst(p, Last(ps).tx, id));
      } else {
        assert LapsingBy(s'.tables, lease) == LapsingBy(p.tables, lease);
      }
    }
  }

  /** While nobody holds a running job, the rows taken by sweeps that saw its lease expired, committed
      and in hand together, are fewer than the leases that lapse no later than its own. */
  lemma BoundedSweeping(c: BackoffConfig, t0: Time, s: State, ps: seq<Step>, id: JobId)
    requires Good(c, t0, s) && AllChosen(s) && StepsValid(c, s, ps)
    requires HoldsLease(s, id) && LeftAlone(c, s, ps, id)
    requires OthersLapseLater(c, s, ps, s.tables.jobs[id].leaseUntil.value)
    ensures SweptFirst(c, s, ps, id) + |BeingSwept(StepsExec(c, s, ps), id)|
          < |LapsingBy(s.tables, s.tables.jobs[id].leaseUntil.value)|
  {
    LeasesShrink(c, t0, s, ps, id);
    RunKeepsGood(c, t0, s, ps);
    var s', lease := StepsExec(c, s, ps), s.tables.jobs[id].leaseUntil.value;
    forall k | k in BeingSwept(s', id)
      ensures k in LapsingBy(s'.tables, lease) - {id}
    {
      var tx :| tx in s'.open && k in TakenFirst(s', tx, id);
      TakenAreOlder(c, s', tx, id);
    }
    Subset(BeingSwept(s', id), LapsingBy(s'.tables, lease) - {id});
    assert id in LapsingBy(s'.tables, lease);
  }

  /** Bounded recovery, whatever is locked: in every interleaving, once sweeps that saw this lease
      expired have taken as many rows as there are leases no later than it, someone has taken hold of
      the job itself: its worker reporting or renewing, or a sweep. */
  lemma BoundedRecoveryUnderLocks(c: BackoffConfig, t0: Time, before: seq<Step>, ps: seq<Step>, id: JobId)
    requires StepsValid(c, Initial(t0), before) && StepsValid(c, StepsExec(c, Initial(t0), before), ps)
    requires var s := StepsExec(c, Initial(t0), before);
             && HoldsLease(s, id) && OthersLapseLater(c, s, ps, s.tables.jobs[id].leaseUntil.value)
             && SweptFirst(c, s, ps, id) + |BeingSwept(StepsExec(c, s, ps), id)|
                >= |LapsingBy(s.tables, s.tables.jobs[id].leaseUntil.value)|
    ensures var s := StepsExec(c, Initial(t0), before);
            exists i :: 0 <= i <= |ps| && StepsValid(c, s, ps[..i]) && !Unlocked(StepsExec(c, s, ps[..i]), id)
  {
    var s := StepsExec(c, Initial(t0), before);
    RunKeepsGood(c, t0, Initial(t0), before);
    if LeftAlone(c, s, ps, id) {
      BoundedSweeping(c, t0, s, ps, id);
    } else {
      var i := FirstHeld(c, s, ps, id);
    }
  }
}
