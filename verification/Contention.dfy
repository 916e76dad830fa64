/**
 What claims and sweeps choose while others hold rows, and why an available job still does not
 starve.
 */
module Contention {
  import opened Schema
  import opened Backoff
  import opened Machine
  import opened Invariants
  import opened Dispatch
  import opened Recovery
  import opened Locks
  import opened Refinement

  // ----- what a scan ends up with -----

  /** The rows a scan looked at and could not have. */
  function PassedOver(t: Txn): set<JobId> {
    set k | k in t.dealt && k !in t.jobs
  }

  /** What a claim or a sweep holds is the answer of its query on what the query saw, with the rows
      it passed over taken for locked. */
  predicate Chosen(t: Txn) {
    && (t.pc.AtJob? || t.pc.Beginning? || t.pc.Reading? ==> t.dealt == {})
    && (t.call.ClaimCall? && t.jobs != [] ==> IsNextClaim(t.snapshot, t.at, PassedOver(t), t.jobs[0]))
    && (t.call.SweepCall? && t.pc.Scanning? ==>
         |t.jobs| <= BatchSize(t.call.batch) && IsSweepPick(t.snapshot, t.at, |t.jobs|, PassedOver(t), t.jobs))
    && (t.call.SweepCall? && t.pc.AtRow? ==>
         IsSweepPick(t.snapshot, t.at, BatchSize(t.call.batch), PassedOver(t), t.jobs))
  }

  ghost predicate AllChosen(s: State) {
    forall tx :: tx in s.open ==> Chosen(s.open[tx])
  }

  lemma SweepLooks(c: BackoffConfig, s: State, tx: TxId, id: JobId)
    requires tx in s.open && TxnOk(c, s.tables, s.open[tx]) && Chosen(s.open[tx])
    requires s.open[tx].call.SweepCall? && s.open[tx].pc.Scanning? && !ScanOver(s.open[tx]) && CanWork(s, tx, [id])
    ensures Chosen(Worked(c, s, tx, [id]))
  {
    var t, t' := s.open[tx], Worked(c, s, tx, [id]);
    assert id !in t.jobs;
    if Takeable(s, tx, id) {
      assert t'.jobs == t.jobs + [id];
      assert PassedOver(t') == PassedOver(t);
      LongerPick(t.snapshot, t.at, PassedOver(t), t.jobs, id);
    } else {
      assert PassedOver(t') == PassedOver(t) + {id};
    }
  }

  lemma SweepScanned(c: BackoffConfig, s: State, tx: TxId)
    requires tx in s.open && TxnOk(c, s.tables, s.open[tx]) && Chosen(s.open[tx])
    requires s.open[tx].call.SweepCall? && s.open[tx].pc.Scanning? && ScanOver(s.open[tx])
    ensures Chosen(Worked(c, s, tx, []))
  {
    var t, t' := s.open[tx], Worked(c, s, tx, []);
    assert PassedOver(t') == PassedOver(t);
    if |t.jobs| < BatchSize(t.call.batch) {
      WholePick(t.snapshot, t.at, BatchSize(t.call.batch), PassedOver(t), t.jobs);
    }
  }

  lemma ClaimLooks(c: BackoffConfig, s: State, tx: TxId, id: JobId)
    requires tx in s.open && TxnOk(c, s.tables, s.open[tx]) && Chosen(s.open[tx])
    requires s.open[tx].call.ClaimCall? && s.open[tx].pc.Scanning? && CanWork(s, tx, [id])
    ensures Chosen(Worked(c, s, tx, [id]))
  {
    var t, t' := s.open[tx], Worked(c, s, tx, [id]);
    if Takeable(s, tx, id) {
      assert PassedOver(t') == t.dealt;
    }
  }

  lemma WorkedChosen(c: BackoffConfig, s: State, tx: TxId, pick: seq<JobId>)
    requires tx in s.open && TxnOk(c, s.tables, s.open[tx]) && Chosen(s.open[tx]) && CanWork(s, tx, pick)
    ensures Chosen(Worked(c, s, tx, pick))
  {
    var t := s.open[tx];
    if t.pc.Scanning? && pick == [] {
      SweepScanned(c, s, tx);
    } else if t.pc.Scanning? {
      assert pick == [pick[0]];
      if t.call.ClaimCall? {
        ClaimLooks(c, s, tx, pick[0]);
      } else {
        SweepLooks(c, s, tx, pick[0]);
      }
    } else {
      assert PassedOver(Worked(c, s, tx, pick)) == PassedOver(t);
    }
  }

  lemma StepChosen(c: BackoffConfig, t0: Time, s: State, p: Step)
    requires Good(c, t0, s) && AllChosen(s) && StepEnabled(s, p)
    ensures AllChosen(StepApply(c, s, p))
  {
    if p.Work? {
      WorkedChosen(c, s, p.tx, p.pick);
    }
  }

  lemma {:induction false} RunKeepsGood(c: BackoffConfig, t0: Time, s: State, ps: seq<Step>)
    requires Good(c, t0, s) && AllChosen(s) && StepsValid(c, s, ps)
    ensures Good(c, t0, StepsExec(c, s, ps)) && AllChosen(StepsExec(c, s, ps))
  {
    if ps != [] {
      RunKeepsGood(c, t0, s, Front(ps));
      StepGood(c, t0, StepsExec(c, s, Front(ps)), Last(ps));
      StepChosen(c, t0, StepsExec(c, s, Front(ps)), Last(ps));
    }
  }

  /** The scan looks at this row and cannot have it. */
  predicate PassesOver(s: State, tx: TxId, id: JobId) {
    tx in s.open && s.open[tx].pc.Scanning? && CanWork(s, tx, [id]) && !Takeable(s, tx, id)
  }

  /** It did so at step i, in the same transaction. */
  ghost predicate PassedOverAt(c: BackoffConfig, s: State, ps: seq<Step>, tx: TxId, id: JobId, t: Txn, i: nat) {
    && i < |ps| && ps[i] == Work(tx, [id]) && StepsValid(c, s, ps[..i])
    && var p := StepsExec(c, s, ps[..i]);
       PassesOver(p, tx, id) && p.open[tx].call == t.call && p.open[tx].at == t.at && p.open[tx].snapshot == t.snapshot
  }

  lemma LooksOnce(c: BackoffConfig, s: State, tx: TxId, pick: seq<JobId>, id: JobId)
    requires tx in s.open && TxnOk(c, s.tables, s.open[tx]) && Chosen(s.open[tx]) && CanWork(s, tx, pick)
    requires id in PassedOver(Worked(c, s, tx, pick)) && !(pick == [id] && PassesOver(s, tx, id))
    ensures id in PassedOver(s.open[tx])
    ensures var t, t' := s.open[tx], Worked(c, s, tx, pick);
            t.call == t'.call && t.at == t'.at && t.snapshot == t'.snapshot
  {
  }

  lemma StepLooksOnce(c: BackoffConfig, t0: Time, s: State, p: Step, tx: TxId, id: JobId)
    requires Good(c, t0, s) && AllChosen(s) && StepEnabled(s, p)
    requires tx in StepApply(c, s, p).open && id in PassedOver(StepApply(c, s, p).open[tx])
    requires !(p == Work(tx, [id]) && PassesOver(s, tx, id))
    ensures tx in s.open && id in PassedOver(s.open[tx])
    ensures var t, t' := s.open[tx], StepApply(c, s, p).open[tx];
            t.call == t'.call && t.at == t'.at && t.snapshot == t'.snapshot
  {
    if p.Work? && p.tx == tx {
      LooksOnce(c, s, tx, p.pick, id);
    }
  }

  lemma {:induction false} PassedOverSometime(c: BackoffConfig, t0: Time, ps: seq<Step>, tx: TxId, id: JobId)
    returns (i: nat)
    requires StepsValid(c, Initial(t0), ps)
    requires tx in StepsExec(c, Initial(t0), ps).open && id in PassedOver(StepsExec(c, Initial(t0), ps).open[tx])
    ensures PassedOverAt(c, Initial(t0), ps, tx, id, StepsExec(c, Initial(t0), ps).open[tx], i)
    decreases |ps|
  {
    var p, last := StepsExec(c, Initial(t0), Front(ps)), Last(ps);
    RunKeepsGood(c, t0, Initial(t0), Front(ps));
    assert ps[..|ps| - 1] == Front(ps);
    if last == Work(tx, [id]) && PassesOver(p, tx, id) {
      i := |ps| - 1;
      assert ps[i] == last;
    } else {
      StepLooksOnce(c, t0, p, last, tx, id);
      i := PassedOverSometime(c, t0, Front(ps), tx, id);
      assert Front(ps)[..i] == ps[..i];
    }
  }

  /** Every claim takes the first job its query saw, and every sweep the oldest leases, but for rows
      each of which it looked at and found locked or changed; and the row the claim takes is still
      claimable, the rows the sweep takes still expired. */
  lemma ChosenInOrder(c: BackoffConfig, t0: Time, ps: seq<Step>, tx: TxId)
    requires StepsValid(c, Initial(t0), ps) && tx in StepsExec(c, Initial(t0), ps).open
    ensures var s := StepsExec(c, Initial(t0), ps); var t := s.open[tx];
            && (t.call.ClaimCall? && t.jobs != [] ==>
                 && IsNextClaim(t.snapshot, t.at, PassedOver(t), t.jobs[0])
                 && t.jobs[0] in s.tables.jobs && Claimable(s.tables.jobs[t.jobs[0]], t.at))
            && (t.call.SweepCall? && t.pc.AtRow? ==>
                 && IsSweepPick(t.snapshot, t.at, BatchSize(t.call.batch), PassedOver(t), t.jobs)
                 && forall k :: 0 <= k < |t.jobs| ==> t.jobs[k] in s.tables.jobs && Expired(s.tables.jobs[t.jobs[k]], t.at))
            && forall id :: id in PassedOver(t) ==> exists i: nat :: PassedOverAt(c, Initial(t0), ps, tx, id, t, i)
  {
    RunKeepsGood(c, t0, Initial(t0), ps);
    var s := StepsExec(c, Initial(t0), ps);
    assert TxnOk(c, s.tables, s.open[tx]) && Chosen(s.open[tx]);
    forall id | id in PassedOver(s.open[tx])
      ensures exists i: nat :: PassedOverAt(c, Initial(t0), ps, tx, id, s.open[tx], i)
    {
      var i := PassedOverSometime(c, t0, ps, tx, id);
    }
  }

  /** How many rows a sweep ends up with: the batch asked for, 100 if none was, or all that its query
      saw expired and it did not pass over, if those are fewer. */
  lemma SweepSize(c: BackoffConfig, t0: Time, ps: seq<Step>, tx: TxId)
    requires StepsValid(c, Initial(t0), ps) && tx in StepsExec(c, Initial(t0), ps).open
    requires StepsExec(c, Initial(t0), ps).open[tx].call.SweepCall? && StepsExec(c, Initial(t0), ps).open[tx].pc.AtRow?
    ensures var t := StepsExec(c, Initial(t0), ps).open[tx];
            |t.jobs| == Min(if t.call.batch <= 0 then 100 else t.call.batch,
                            |(set k | k in t.snapshot && t.snapshot[k].status == Running && t.snapshot[k].leaseUntil.Some?
                                      && t.snapshot[k].leaseUntil.value < t.at) - PassedOver(t)|)
  {
    RunKeepsGood(c, t0, Initial(t0), ps);
    var t := StepsExec(c, Initial(t0), ps).open[tx];
    assert Chosen(t);
    PickSize(t.snapshot, t.at, BatchSize(t.call.batch), PassedOver(t), t.jobs);
    assert (set k | k in t.snapshot && Overdue(t.snapshot, t.at, PassedOver(t), k))
        == (set k | k in t.snapshot && t.snapshot[k].status == Running && t.snapshot[k].leaseUntil.Some?
                    && t.snapshot[k].leaseUntil.value < t.at) - PassedOver(t);
  }

  // ----- no starvation under contention -----

  /** The claim's query saw this job as it now stands, and has not passed it over. */
  predicate InView(t: Txn, id: JobId, j: Job) {
    id in t.snapshot && t.snapshot[id] == j && id !in t.dealt
  }

  predicate Unlocked(s: State, id: JobId) {
    forall tx :: tx in s.open ==> id !in s.open[tx].jobs
  }

  /** Nobody holds the job's row at any point of the run. */
  predicate LeftAlone(c: BackoffConfig, s: State, ps: seq<Step>, id: JobId)
    requires StepsValid(c, s, ps)
  {
    Unlocked(StepsExec(c, s, ps), id) && (ps == [] || LeftAlone(c, s, Front(ps), id))
  }

  /** What is put into the queue meanwhile was begun once the job was available. */
  predicate OthersQueueBehind(c: BackoffConfig, s: State, ps: seq<Step>, id: JobId, available: Time)
    requires StepsValid(c, s, ps)
  {
    ps == [] ||
    (&& OthersQueueBehind(c, s, Front(ps), id, available)
     && (Last(ps).Commit? ==>
          var es := CommitEvents(StepsExec(c, s, Front(ps)).open[Last(ps).tx]);
          forall i :: 0 <= i < |es| ==> BegunAfter(es[i], id, available)))
  }

  /** A claim that has the job in view and holds another, which is as the claim's query saw it. */
  predicate Overtakes(s: State, tx: TxId, id: JobId) {
    && tx in s.open && id in s.tables.jobs
    && var t := s.open[tx];
       && t.call.ClaimCall? && t.jobs != []
       && InView(t, id, s.tables.jobs[id])
       && t.jobs[0] in t.snapshot && t.jobs[0] in s.tables.jobs
       && t.snapshot[t.jobs[0]] == s.tables.jobs[t.jobs[0]]
  }

  function Overtaking(s: State, id: JobId): set<TxId> {
    set tx | tx in s.open && Overtakes(s, tx, id)
  }

  /** How many have committed. */
  function Overtaken(c: BackoffConfig, s: State, ps: seq<Step>, id: JobId): nat
    requires StepsValid(c, s, ps)
  {
    if ps == [] then 0
    else Overtaken(c, s, Front(ps), id) +
         (if Last(ps).Commit? && Overtakes(StepsExec(c, s, Front(ps)), Last(ps).tx, id) then 1 else 0)
  }

  /** A job that overtakes stood ahead in the line. */
  lemma OvertakerIsAhead(c: BackoffConfig, s: State, tx: TxId, id: JobId)
    requires tx in s.open && TxnOk(c, s.tables, s.open[tx]) && Chosen(s.open[tx]) && Overtakes(s, tx, id)
    requires s.tables.jobs[id].status == Pending && id !in s.open[tx].jobs
    ensures s.open[tx].jobs[0] in Ahead(s.tables, id)
  {
  }

  lemma {:induction false} EventsCutNothing(c: BackoffConfig, s: Tables, es: seq<Event>, id: JobId)
    requires Valid(c, s, es) && id in s.jobs && s.jobs[id].status == Pending
    requires forall i :: 0 <= i < |es| ==> BegunAfter(es[i], id, s.jobs[id].availableAt) && !Leaves(es[i], id)
    ensures id in Exec(c, s, es).jobs && Exec(c, s, es).jobs[id] == s.jobs[id]
    ensures Ahead(Exec(c, s, es), id) <= Ahead(s, id)
  {
    if es != [] {
      EventsCutNothing(c, s, Front(es), id);
      NobodyCutsIn(c, Exec(c, s, Front(es)), Last(es), id);
    }
  }

  lemma CommitCutsNothing(c: BackoffConfig, t0: Time, s: State, tx: TxId, id: JobId)
    requires Good(c, t0, s) && AllChosen(s) && StepEnabled(s, Commit(tx))
    requires id in s.tables.jobs && s.tables.jobs[id].status == Pending && id !in s.open[tx].jobs
    requires var es := CommitEvents(s.open[tx]);
             forall i :: 0 <= i < |es| ==> BegunAfter(es[i], id, s.tables.jobs[id].availableAt)
    ensures var s' := StepApply(c, s, Commit(tx));
            && id in s'.tables.jobs && s'.tables.jobs[id] == s.tables.jobs[id]
            && Ahead(s'.tables, id) <= Ahead(s.tables, id)
            && (Overtakes(s, tx, id) ==> s.open[tx].jobs[0] in Ahead(s.tables, id) && s.open[tx].jobs[0] !in Ahead(s'.tables, id))
  {
    var t := s.open[tx];
    ReachableInv(c, t0, s.log);
    CommitIsRun(c, s.tables, t);
    CommitLeavesAlone(c, s.tables, t, id);
    EventsCutNothing(c, s.tables, CommitEvents(t), id);
    if Overtakes(s, tx, id) {
      OvertakerIsAhead(c, s, tx, id);
      assert t.jobs[0] in t.jobWrites && t.jobWrites[t.jobs[0]].status == Running;
    }
  }

  lemma {:induction false} SweepEventsReap(ids: seq<JobId>, at: Time)
    ensures forall i :: 0 <= i < |SweepEvents(ids, at)| ==> SweepEvents(ids, at)[i].Reap?
  {
    if ids != [] {
      SweepEventsReap(Front(ids), at);
    }
  }

  lemma CommitLeavesAlone(c: BackoffConfig, tables: Tables, t: Txn, id: JobId)
    requires ReadyToCommit(c, tables, t) && id !in t.jobs
    ensures forall i :: 0 <= i < |CommitEvents(t)| ==> !Leaves(CommitEvents(t)[i], id)
  {
    if t.call.SweepCall? {
      SweepEventsReap(t.jobs, t.at);
    } else if t.jobs != [] {
      assert t.jobs[0] in t.jobs;
    }
  }

  lemma {:induction false} DistinctImages(s: State, txs: set<TxId>, ids: set<JobId>)
    requires LocksExclusive(s)
    requires forall tx :: tx in txs ==> tx in s.open && s.open[tx].jobs != [] && s.open[tx].jobs[0] in ids
    ensures |txs| <= |ids|
    decreases |txs|
  {
    if txs != {} {
      var tx := Pick(txs);
      var id := s.open[tx].jobs[0];
      assert id in s.open[tx].jobs;
      forall u | u in txs - {tx}
        ensures s.open[u].jobs[0] in ids - {id}
      {
        var k := s.open[u].jobs[0];
        assert k in s.open[u].jobs;
      }
      DistinctImages(s, txs - {tx}, ids - {id});
    }
  }

  lemma {:induction false} LineUnderLocks(c: BackoffConfig, t0: Time, s: State, ps: seq<Step>, id: JobId)
    requires Good(c, t0, s) && AllChosen(s) && StepsValid(c, s, ps)
    requires id in s.tables.jobs && s.tables.jobs[id].status == Pending && LeftAlone(c, s, ps, id)
    requires OthersQueueBehind(c, s, ps, id, s.tables.jobs[id].availableAt)
    ensures var s' := StepsExec(c, s, ps);
            && id in s'.tables.jobs && s'.tables.jobs[id] == s.tables.jobs[id]
            && Overtaken(c, s, ps, id) + |Ahead(s'.tables, id)| <= |Ahead(s.tables, id)|
  {
    if ps != [] {
      LineUnderLocks(c, t0, s, Front(ps), id);
      RunKeepsGood(c, t0, s, Front(ps));
      var p, s' := StepsExec(c, s, Front(ps)), StepsExec(c, s, ps);
      if Last(ps).Commit? {
        CommitCutsNothing(c, t0, p, Last(ps).tx, id);
        Subset(Ahead(s'.tables, id), Ahead(p.tables, id));
        if Overtakes(p, Last(ps).tx, id) {
          Subset(Ahead(s'.tables, id), Ahead(p.tables, id) - {p.open[Last(ps).tx].jobs[0]});
        }
      } else {
        assert Ahead(s'.tables, id) == Ahead(p.tables, id);
      }
    }
  }

  /** While nobody holds a waiting job, the claims that take another although they had it in view,
      committed and still open together, are at most as many as stood ahead of it. */
  lemma BoundedOvertaking(c: BackoffConfig, t0: Time, s: State, ps: seq<Step>, id: JobId)
    requires Good(c, t0, s) && AllChosen(s) && StepsValid(c, s, ps)
    requires id in s.tables.jobs && s.tables.jobs[id].status == Pending && LeftAlone(c, s, ps, id)
    requires OthersQueueBehind(c, s, ps, id, s.tables.jobs[id].availableAt)
    ensures Overtaken(c, s, ps, id) + |Overtaking(StepsExec(c, s, ps), id)| <= |Ahead(s.tables, id)|
  {
    LineUnderLocks(c, t0, s, ps, id);
    RunKeepsGood(c, t0, s, ps);
    var s' := StepsExec(c, s, ps);
    forall tx | tx in Overtaking(s', id)
      ensures s'.open[tx].jobs[0] in Ahead(s'.tables, id)
    {
      OvertakerIsAhead(c, s', tx, id);
    }
    DistinctImages(s', Overtaking(s', id), Ahead(s'.tables, id));
  }

  /** A claim or sweep whose query runs has the job in view, and keeps it in view for as long as
      nobody holds it: it cannot look at a free job that qualifies and not take it. */
  lemma QueryKeepsInView(c: BackoffConfig, t0: Time, s: State, p: Step, tx: TxId, id: JobId)
    requires Good(c, t0, s) && AllChosen(s) && StepEnabled(s, p) && id in s.tables.jobs
    requires Unlocked(s, id) && Unlocked(StepApply(c, s, p), id)
    requires tx in s.open && tx in StepApply(c, s, p).open && (s.open[tx].call.ClaimCall? || s.open[tx].call.SweepCall?)
    requires InView(s.open[tx], id, s.tables.jobs[id]) || (s.open[tx].pc.AtJob? && p.Work? && p.tx == tx)
    ensures id in StepApply(c, s, p).tables.jobs
    ensures InView(StepApply(c, s, p).open[tx], id, StepApply(c, s, p).tables.jobs[id])
  {
    if p.Commit? {
      WritesAreLocked(c, s.tables, s.open[p.tx]);
    } else if p.Work? && p.tx == tx && s.open[tx].pc.Scanning? {
      LooksElsewhere(c, s, tx, p.pick, id);
    }
  }

  lemma LooksElsewhere(c: BackoffConfig, s: State, tx: TxId, pick: seq<JobId>, id: JobId)
    requires tx in s.open && s.open[tx].pc.Scanning? && CanWork(s, tx, pick) && id in s.tables.jobs
    requires InView(s.open[tx], id, s.tables.jobs[id]) && Unlocked(s, id) && id !in Worked(c, s, tx, pick).jobs
    ensures pick != [id] && InView(Worked(c, s, tx, pick), id, s.tables.jobs[id])
  {
  }

  lemma {:induction false} FirstHeld(c: BackoffConfig, s: State, ps: seq<Step>, id: JobId) returns (i: nat)
    requires StepsValid(c, s, ps) && !LeftAlone(c, s, ps, id)
    ensures i <= |ps| && StepsValid(c, s, ps[..i]) && !Unlocked(StepsExec(c, s, ps[..i]), id)
    ensures i > 0 ==> StepsValid(c, s, Front(ps[..i])) && LeftAlone(c, s, Front(ps[..i]), id)
    decreases |ps|
  {
    if ps != [] && !LeftAlone(c, s, Front(ps), id) {
      i := FirstHeld(c, s, Front(ps), id);
      assert Front(ps)[..i] == ps[..i];
    } else {
      i := |ps|;
      assert ps[..i] == ps;
    }
  }

  lemma {:induction false} QueueBehindBefore(c: BackoffConfig, s: State, ps: seq<Step>, id: JobId, available: Time, i: nat)
    requires StepsValid(c, s, ps) && OthersQueueBehind(c, s, ps, id, available) && i <= |ps|
    ensures StepsValid(c, s, ps[..i]) && OthersQueueBehind(c, s, ps[..i], id, available)
  {
    if i < |ps| {
      QueueBehindBefore(c, s, Front(ps), id, available, i);
      assert Front(ps)[..i] == ps[..i];
    } else {
      assert ps[..i] == ps;
    }
  }

  /** The first to hold a waiting job is taking it out of the queue. */
  lemma FirstHolderTakes(c: BackoffConfig, t0: Time, s: State, ps: seq<Step>, id: JobId, i: nat)
    returns (tx: TxId)
    requires Good(c, t0, s) && AllChosen(s) && StepsValid(c, s, ps)
    requires id in s.tables.jobs && s.tables.jobs[id].status == Pending
    requires OthersQueueBehind(c, s, ps, id, s.tables.jobs[id].availableAt)
    requires i <= |ps| && StepsValid(c, s, ps[..i]) && !Unlocked(StepsExec(c, s, ps[..i]), id)
    requires i > 0 ==> StepsValid(c, s, Front(ps[..i])) && LeftAlone(c, s, Front(ps[..i]), id)
    ensures BeingTaken(StepsExec(c, s, ps[..i]), tx, id)
  {
    var held := StepsExec(c, s, ps[..i]);
    RunKeepsGood(c, t0, s, ps[..i]);
    if i > 0 {
      QueueBehindBefore(c, s, ps, id, s.tables.jobs[id].availableAt, i);
      LineUnderLocks(c, t0, s, Front(ps[..i]), id);
    }
    tx :| tx in held.open && id in held.open[tx].jobs;
    PendingJobIsLeaving(c, held.tables, held.open[tx], id);
  }

  /** No starvation, whatever is locked: in every interleaving, once more claims have taken another
      job although they had this one in view than stood ahead of it, this one was being taken. */
  lemma NoStarvationUnderLocks(c: BackoffConfig, t0: Time, before: seq<Step>, ps: seq<Step>, id: JobId)
    requires StepsValid(c, Initial(t0), before) && StepsValid(c, StepsExec(c, Initial(t0), before), ps)
    requires var s := StepsExec(c, Initial(t0), before);
             && id in s.tables.jobs && s.tables.jobs[id].status == Pending
             && OthersQueueBehind(c, s, ps, id, s.tables.jobs[id].availableAt)
             && Overtaken(c, s, ps, id) + |Overtaking(StepsExec(c, s, ps), id)| > |Ahead(s.tables, id)|
    ensures var s := StepsExec(c, Initial(t0), before);
            exists i, tx :: 0 <= i <= |ps| && StepsValid(c, s, ps[..i]) && BeingTaken(StepsExec(c, s, ps[..i]), tx, id)
  {
    var s := StepsExec(c, Initial(t0), before);
    RunKeepsGood(c, t0, Initial(t0), before);
    if LeftAlone(c, s, ps, id) {
      BoundedOvertaking(c, t0, s, ps, id);
    } else {
      var i := FirstHeld(c, s, ps, id);
      var tx := FirstHolderTakes(c, t0, s, ps, id, i);
    }
  }
}
