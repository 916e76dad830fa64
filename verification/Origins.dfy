/**
 Where each committed event comes from: the call that was opened, the clock when its transaction
 began, the attempt count its first read returned, and why a call may end without an event.
 */
module Origins {
  import opened Schema
  import opened Backoff
  import opened Machine
  import opened Recovery
  import opened Locks
  import opened Refinement
  import opened Contention

  /** The steps at which a transaction was opened, read the job, and began. */
  datatype Origin = Origin(start: nat, read: nat, begun: nat)

  /** The state before step i. */
  ghost function StateAt(c: BackoffConfig, t0: Time, ps: seq<Step>, i: nat): State
    requires i <= |ps| && StepsValid(c, Initial(t0), ps)
  {
    StepsPrefix(c, Initial(t0), ps, i);
    StepsExec(c, Initial(t0), ps[..i])
  }

  lemma {:induction false} StepsPrefix(c: BackoffConfig, s: State, ps: seq<Step>, i: nat)
    requires StepsValid(c, s, ps) && i <= |ps|
    ensures StepsValid(c, s, ps[..i])
  {
    if i < |ps| {
      StepsPrefix(c, s, Front(ps), i);
      assert Front(ps)[..i] == ps[..i];
    } else {
      assert ps[..i] == ps;
    }
  }

  lemma StateBefore(c: BackoffConfig, t0: Time, ps: seq<Step>, i: nat)
    requires ps != [] && StepsValid(c, Initial(t0), ps) && i < |ps|
    ensures StateAt(c, t0, Front(ps), i) == StateAt(c, t0, ps, i)
  {
    assert Front(ps)[..i] == ps[..i];
  }

  /** The last step that opened this transaction. */
  predicate OpenedAt(ps: seq<Step>, tx: TxId, call: Call, o: nat) {
    && o < |ps| && ps[o] == Open(tx, call)
    && forall m :: o < m < |ps| ==> !(ps[m].Open? && ps[m].tx == tx)
  }

  /** The transaction ran the given statement at step i. */
  ghost predicate RanAt(c: BackoffConfig, t0: Time, ps: seq<Step>, tx: TxId, pc: Pc, i: nat)
    requires StepsValid(c, Initial(t0), ps)
  {
    && i < |ps| && ps[i].Work? && ps[i].tx == tx
    && tx in StateAt(c, t0, ps, i).open && StateAt(c, t0, ps, i).open[tx].pc == pc
  }

  /** The transaction's time is the clock when it began: when it was opened, or for a failure, whose
      transaction begins only after a read, when that read was over. And what the read returned is
      what the committed row held then. */
  ghost predicate ComesFrom(c: BackoffConfig, t0: Time, ps: seq<Step>, tx: TxId, t: Txn, g: Origin)
    requires StepsValid(c, Initial(t0), ps)
  {
    && OpenedAt(ps, tx, t.call, g.start)
    && (!t.call.FailCall? ==> t.at == StateAt(c, t0, ps, g.start).tables.clock)
    && (t.call.FailCall? && !t.pc.Reading? ==>
         && g.start < g.read && RanAt(c, t0, ps, tx, Reading, g.read)
         && t.call.id in StateAt(c, t0, ps, g.read).tables.jobs
         && t.seen == StateAt(c, t0, ps, g.read).tables.jobs[t.call.id].attempts)
    && (t.call.FailCall? && !t.pc.Reading? && !t.pc.Beginning? ==>
         && g.read < g.begun && RanAt(c, t0, ps, tx, Beginning, g.begun)
         && t.at == StateAt(c, t0, ps, g.begun).tables.clock)
  }

  lemma StillComesFrom(c: BackoffConfig, t0: Time, ps: seq<Step>, tx: TxId, t: Txn, g: Origin)
    requires ps != [] && StepsValid(c, Initial(t0), ps) && ComesFrom(c, t0, Front(ps), tx, t, g)
    requires !(Last(ps).Open? && Last(ps).tx == tx)
    ensures ComesFrom(c, t0, ps, tx, t, g)
  {
    forall i | 0 <= i < |Front(ps)|
      ensures StateAt(c, t0, Front(ps), i) == StateAt(c, t0, ps, i)
    {
      StateBefore(c, t0, ps, i);
    }
  }

  /** After one more statement of its own. */
  lemma WorkedComesFrom(c: BackoffConfig, t0: Time, ps: seq<Step>, tx: TxId, g: Origin) returns (g': Origin)
    requires ps != [] && StepsValid(c, Initial(t0), ps) && Last(ps).Work? && Last(ps).tx == tx
    requires tx in StepsExec(c, Initial(t0), Front(ps)).open
    requires ComesFrom(c, t0, ps, tx, StepsExec(c, Initial(t0), Front(ps)).open[tx], g)
    requires TxnOk(c, StepsExec(c, Initial(t0), Front(ps)).tables, StepsExec(c, Initial(t0), Front(ps)).open[tx])
    requires g.start < |ps| - 1 && (StepsExec(c, Initial(t0), Front(ps)).open[tx].pc.Beginning? ==> g.read < |ps| - 1)
    ensures ComesFrom(c, t0, ps, tx, StepsExec(c, Initial(t0), ps).open[tx], g')
  {
    var p := StepsExec(c, Initial(t0), Front(ps));
    assert ps[..|ps| - 1] == Front(ps);
    assert StateAt(c, t0, ps, |ps| - 1) == p;
    g' := match p.open[tx].pc
          case Reading => g.(read := |ps| - 1)
          case Beginning => g.(begun := |ps| - 1)
          case _ => g;
  }

  lemma {:induction false} OriginOf(c: BackoffConfig, t0: Time, ps: seq<Step>, tx: TxId) returns (g: Origin)
    requires StepsValid(c, Initial(t0), ps) && tx in StepsExec(c, Initial(t0), ps).open
    ensures ComesFrom(c, t0, ps, tx, StepsExec(c, Initial(t0), ps).open[tx], g)
    decreases |ps|
  {
    var p, last := StepsExec(c, Initial(t0), Front(ps)), Last(ps);
    if last.Open? && last.tx == tx {
      g := Origin(|ps| - 1, 0, 0);
      assert ps[..|ps| - 1] == Front(ps);
    } else {
      g := OriginOf(c, t0, Front(ps), tx);
      StillComesFrom(c, t0, ps, tx, p.open[tx], g);
      if last.Work? && last.tx == tx {
        RunGood(c, t0, Front(ps));
        g := WorkedComesFrom(c, t0, ps, tx, g);
      }
    }
  }

  /** The event is the effect of the call, argument by argument. */
  predicate Effects(call: Call, e: Event) {
    match call
    case CreateCall(typ, payload, max) => e.Create? && e.typ == typ && e.payload == payload && e.maxAttempts == max
    case ClaimCall(w, lease) => e.Claim? && e.worker == w && e.lease == lease
    case RenewCall(id, w, lease) => e.Renew? && e.id == id && e.worker == w && e.lease == lease
    case CompleteCall(id, w, o) => e.Complete? && e.id == id && e.worker == w && e.output == o
    case FailCall(id, w, o, error) => e.Fail? && e.id == id && e.worker == w && e.output == o && e.error == error
    case CancelCall(id) => e.Cancel? && e.id == id
    case SweepCall(_) => e.Reap?
    case RegisterCall(w, host) => e.Register? && e.worker == w && e.host == host
    case HeartbeatCall(w) => e.Heartbeat? && e.worker == w
  }

  lemma {:induction false} SweepEventsAt(ids: seq<JobId>, at: Time)
    ensures forall i :: 0 <= i < |SweepEvents(ids, at)| ==> SweepEvents(ids, at)[i].Reap? && SweepEvents(ids, at)[i].at == at
  {
    if ids != [] {
      SweepEventsAt(Front(ids), at);
    }
  }

  lemma CommittedEvent(c: BackoffConfig, tables: Tables, t: Txn, i: nat)
    requires ReadyToCommit(c, tables, t) && i < |CommitEvents(t)|
    ensures var e := CommitEvents(t)[i]; Effects(t.call, e) && e.at == t.at && (e.Fail? ==> e.seen == t.seen)
  {
    if t.call.SweepCall? {
      SweepEventsAt(t.jobs, t.at);
    }
  }

  lemma LogStep(c: BackoffConfig, s: State, p: Step)
    requires StepEnabled(s, p)
    ensures s.log <= StepApply(c, s, p).log
    ensures forall n :: |s.log| <= n < |StepApply(c, s, p).log| && !StepApply(c, s, p).log[n].Tick? ==>
              && p.Commit? && n - |s.log| < |CommitEvents(s.open[p.tx])|
              && StepApply(c, s, p).log[n] == CommitEvents(s.open[p.tx])[n - |s.log|]
  {
  }

  lemma {:induction false} LogGrows(c: BackoffConfig, t0: Time, ps: seq<Step>, i: nat)
    requires StepsValid(c, Initial(t0), ps) && i <= |ps|
    ensures StateAt(c, t0, ps, i).log <= StepsExec(c, Initial(t0), ps).log
    decreases |ps|
  {
    if i < |ps| {
      LogGrows(c, t0, Front(ps), i);
      LogStep(c, StepsExec(c, Initial(t0), Front(ps)), Last(ps));
      StateBefore(c, t0, ps, i);
    } else {
      assert ps[..i] == ps;
    }
  }

  lemma {:induction false} CommittedBy(c: BackoffConfig, t0: Time, ps: seq<Step>, n: nat) returns (k: nat)
    requires StepsValid(c, Initial(t0), ps)
    requires n < |StepsExec(c, Initial(t0), ps).log| && !StepsExec(c, Initial(t0), ps).log[n].Tick?
    ensures k < |ps| && ps[k].Commit? && ps[k].tx in StateAt(c, t0, ps, k).open
    ensures var s := StateAt(c, t0, ps, k);
            && |s.log| <= n < |s.log| + |CommitEvents(s.open[ps[k].tx])|
            && StepsExec(c, Initial(t0), ps).log[n] == CommitEvents(s.open[ps[k].tx])[n - |s.log|]
    decreases |ps|
  {
    var p := StepsExec(c, Initial(t0), Front(ps));
    assert ps[..|ps| - 1] == Front(ps);
    LogStep(c, p, Last(ps));
    if n < |p.log| {
      k := CommittedBy(c, t0, Front(ps), n);
      StateBefore(c, t0, ps, k);
    } else {
      k := |ps| - 1;
    }
  }

  lemma CommitterReady(c: BackoffConfig, t0: Time, ps: seq<Step>, k: nat)
    requires StepsValid(c, Initial(t0), ps) && k < |ps| && ps[k].Commit?
    ensures ps[k].tx in StateAt(c, t0, ps, k).open
    ensures ReadyToCommit(c, StateAt(c, t0, ps, k).tables, StateAt(c, t0, ps, k).open[ps[k].tx])
  {
    StepsPrefix(c, Initial(t0), ps, k);
    StepsPrefix(c, Initial(t0), ps, k + 1);
    assert Front(ps[..k + 1]) == ps[..k] && Last(ps[..k + 1]) == ps[k];
    RunGood(c, t0, ps[..k]);
  }

  /** A failure's transaction read the job, then began, before step k. */
  ghost predicate TwoPhases(c: BackoffConfig, t0: Time, ps: seq<Step>, tx: TxId, id: JobId, seen: int, at: Time, g: Origin, k: nat)
    requires StepsValid(c, Initial(t0), ps)
  {
    && g.start < g.read < g.begun < k <= |ps|
    && RanAt(c, t0, ps, tx, Reading, g.read) && RanAt(c, t0, ps, tx, Beginning, g.begun)
    && at == StateAt(c, t0, ps, g.begun).tables.clock
    && id in StateAt(c, t0, ps, g.read).tables.jobs
    && seen == StateAt(c, t0, ps, g.read).tables.jobs[id].attempts
  }

  lemma OriginBefore(c: BackoffConfig, t0: Time, ps: seq<Step>, k: nat, tx: TxId) returns (g: Origin)
    requires StepsValid(c, Initial(t0), ps) && k <= |ps| && tx in StateAt(c, t0, ps, k).open
    ensures var t := StateAt(c, t0, ps, k).open[tx];
            && g.start < k && ps[g.start] == Open(tx, t.call)
            && (forall m :: g.start < m < k ==> !(ps[m].Open? && ps[m].tx == tx))
            && (!t.call.FailCall? ==> t.at == StateAt(c, t0, ps, g.start).tables.clock)
            && (t.call.FailCall? && !t.pc.Reading? && !t.pc.Beginning? ==>
                 TwoPhases(c, t0, ps, tx, t.call.id, t.seen, t.at, g, k))
  {
    StepsPrefix(c, Initial(t0), ps, k);
    g := OriginOf(c, t0, ps[..k], tx);
    forall i | 0 <= i < k
      ensures StateAt(c, t0, ps[..k], i) == StateAt(c, t0, ps, i)
    {
      assert ps[..k][..i] == ps[..i];
    }
  }

  /** Every committed event has its origin: the transaction that committed it was opened by the call
      it is the effect of, `now()` in it is the clock when the transaction began, and a failure's
      `seen` is the job's attempt count as committed when it was read. */
  lemma EventOrigin(c: BackoffConfig, t0: Time, ps: seq<Step>, n: nat) returns (k: nat, g: Origin)
    requires StepsValid(c, Initial(t0), ps)
    requires n < |StepsExec(c, Initial(t0), ps).log| && !StepsExec(c, Initial(t0), ps).log[n].Tick?
    ensures g.start < k < |ps| && ps[k].Commit? && ps[g.start].Open? && ps[g.start].tx == ps[k].tx
    ensures forall m :: g.start < m < k ==> !(ps[m].Open? && ps[m].tx == ps[k].tx)
    ensures |StateAt(c, t0, ps, k).log| <= n && StateAt(c, t0, ps, k).log <= StepsExec(c, Initial(t0), ps).log
    ensures var e := StepsExec(c, Initial(t0), ps).log[n];
            && Effects(ps[g.start].call, e)
            && (!e.Fail? ==> e.at == StateAt(c, t0, ps, g.start).tables.clock)
            && (e.Fail? ==> TwoPhases(c, t0, ps, ps[k].tx, e.id, e.seen, e.at, g, k))
  {
    k := CommittedBy(c, t0, ps, n);
    CommitterReady(c, t0, ps, k);
    var s, tx := StateAt(c, t0, ps, k), ps[k].tx;
    CommittedEvent(c, s.tables, s.open[tx], n - |s.log|);
    LogGrows(c, t0, ps, k);
    g := OriginBefore(c, t0, ps, k, tx);
  }

  // ----- the attempt count of a failure -----

  /** How often the job was claimed. */
  function ClaimsOf(es: seq<Event>, id: JobId): nat {
    if es == [] then 0 else ClaimsOf(Front(es), id) + if Last(es).Claim? && Last(es).id == id then 1 else 0
  }

  lemma {:induction false} AttemptsGrow(c: BackoffConfig, s: Tables, es: seq<Event>, id: JobId)
    requires Valid(c, s, es) && id in s.jobs
    ensures id in Exec(c, s, es).jobs && Exec(c, s, es).jobs[id].attempts == s.jobs[id].attempts + ClaimsOf(es, id)
  {
    if es != [] {
      AttemptsGrow(c, s, Front(es), id);
    }
  }

  lemma DelayFromRead(c: BackoffConfig, s: Tables, es: seq<Event>, log: seq<Event>, n: nat)
    requires Valid(c, s, es) && Valid(c, s, log) && |es| <= n < |log| && es <= log && log[n].Fail?
    requires log[n].id in Exec(c, s, es).jobs && log[n].seen == Exec(c, s, es).jobs[log[n].id].attempts
    ensures Valid(c, s, log[..n]) && Enabled(Exec(c, s, log[..n]), log[n])
    ensures var was := Exec(c, s, log[..n]).jobs[log[n].id];
            && log[n].seen == was.attempts - ClaimsOf(log[|es|..n], log[n].id)
            && Apply(c, Exec(c, s, log[..n]), log[n]).jobs[log[n].id].availableAt == log[n].at + Delay(c, log[n].seen)
  {
    PrefixValid(c, s, log, n + 1);
    assert Front(log[..n + 1]) == log[..n] && Last(log[..n + 1]) == log[n];
    assert log[..n] == es + log[|es|..n];
    SplitRun(c, s, es, log[|es|..n]);
    AttemptsGrow(c, Exec(c, s, es), log[|es|..n], log[n].id);
  }

  /** The delay of a failure, exactly: it is computed from the attempts being failed less the claims of
      the job that were committed between the read and the failure. So it is that attempt's own delay
      if there were none. */
  lemma FailureDelay(c: BackoffConfig, t0: Time, ps: seq<Step>, n: nat) returns (k: nat, g: Origin)
    requires StepsValid(c, Initial(t0), ps)
    requires n < |StepsExec(c, Initial(t0), ps).log| && StepsExec(c, Initial(t0), ps).log[n].Fail?
    ensures g.start < g.read < k < |ps| && ps[k].Commit? && RanAt(c, t0, ps, ps[k].tx, Reading, g.read)
    ensures var log, m := StepsExec(c, Initial(t0), ps).log, |StateAt(c, t0, ps, g.read).log|;
            && m <= n && Valid(c, Empty(t0), log[..n]) && Enabled(Exec(c, Empty(t0), log[..n]), log[n])
            && var was := Exec(c, Empty(t0), log[..n]).jobs[log[n].id];
               && log[n].seen == was.attempts - ClaimsOf(log[m..n], log[n].id)
               && Apply(c, Exec(c, Empty(t0), log[..n]), log[n]).jobs[log[n].id].availableAt
                  == log[n].at + Delay(c, was.attempts - ClaimsOf(log[m..n], log[n].id))
  {
    k, g := EventOrigin(c, t0, ps, n);
    var p := StateAt(c, t0, ps, g.read);
    StepsPrefix(c, Initial(t0), ps, k);
    LogGrows(c, t0, ps[..k], g.read);
    assert ps[..k][..g.read] == ps[..g.read];
    InterleavingsRefineRuns(c, t0, ps);
    StepsPrefix(c, Initial(t0), ps, g.read);
    InterleavingsRefineRuns(c, t0, ps[..g.read]);
    DelayFromRead(c, Empty(t0), p.log, StepsExec(c, Initial(t0), ps).log, n);
  }

  // ----- calls that end without an event -----

  /** A call that answers without having done anything had nothing to do: its update matches no row of
      the tables as they are committed, and a claim by a registered worker has been past every job
      its query saw. */
  lemma AnsweredEmpty(c: BackoffConfig, t0: Time, ps: seq<Step>, tx: TxId, e: Event)
    requires StepsValid(c, Initial(t0), ps) && StepEnabled(StepsExec(c, Initial(t0), ps), Finish(tx))
    requires var s := StepsExec(c, Initial(t0), ps); Effects(s.open[tx].call, e) && e.at == s.open[tx].at
    ensures var s := StepsExec(c, Initial(t0), ps);
            var t := s.open[tx];
            if t.call.ClaimCall? && t.pc.Scanning?
            then forall id :: id in t.snapshot && t.snapshot[id].status == Pending && t.snapshot[id].availableAt <= t.at
                   ==> id in PassedOver(t)
            else !Enabled(s.tables, e)
  {
    RunGood(c, t0, ps);
    var s := StepsExec(c, Initial(t0), ps);
    assert TxnOk(c, s.tables, s.open[tx]);
  }
}
