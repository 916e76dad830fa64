/**
 Workers composed with the store (internal/worker/worker.go): a worker claims a job, works on
 it while renewing, reports, and only then claims again.

 The store fences by worker id, not by attempt. The theorems here say when that is enough.
 */
module Fencing {
  import opened Schema
  import opened Backoff
  import opened Machine
  import opened Invariants
  import opened Calls

  /** What a worker process believes. `seen` is the attempt count its failure report in flight
      has read, before the update of that report. */
  datatype Proc = Idle | Holding(id: JobId, attempt: int, seen: Option<int>)

  datatype System = System(tables: Tables, procs: map<WorkerId, Proc>)

  function ProcOf(y: System, w: WorkerId): Proc {
    if w in y.procs then y.procs[w] else Idle
  }

  datatype Step =
    | World(e: Event)                                            // anything no worker's loop does
    | ClaimHeard(w: WorkerId, id: JobId, lease: int, at: Time)   // the answer reached the worker
    | ClaimLost(w: WorkerId, id: JobId, lease: int, at: Time)    // it did not; the worker stays idle
    | RenewLands(w: WorkerId, lease: int, at: Time)
    | CompleteLands(w: WorkerId, o: Output, at: Time)
    | FailReads(w: WorkerId)                                     // Fail reads the attempt count ...
    | FailLands(w: WorkerId, o: Output, error: string, at: Time) // ... and updates the row
    | CallEnds(w: WorkerId)                                      // answered, refused, or timed out
    | LetGo(w: WorkerId)                                         // done with the job, or restarted

  function EventOf(y: System, p: Step): Option<Event> {
    match p
    case World(e) => Some(e)
    case ClaimHeard(w, id, lease, at) => Some(Claim(id, w, lease, at))
    case ClaimLost(w, id, lease, at) => Some(Claim(id, w, lease, at))
    case RenewLands(w, lease, at) =>
      if ProcOf(y, w).Holding? then Some(Renew(ProcOf(y, w).id, w, lease, at)) else None
    case CompleteLands(w, o, at) =>
      if ProcOf(y, w).Holding? then Some(Complete(ProcOf(y, w).id, w, o, at)) else None
    case FailLands(w, o, error, at) =>
      if ProcOf(y, w).Holding? && ProcOf(y, w).seen.Some?
      then Some(Fail(ProcOf(y, w).id, w, o, error, ProcOf(y, w).seen.value, at)) else None
    case _ => None
  }

  /** The worker's own calls happen one at a time: a claim only when it holds nothing, a renewal
      or report only for the job it holds. */
  predicate StepEnabled(y: System, p: Step) {
    && (EventOf(y, p).Some? ==> Enabled(y.tables, EventOf(y, p).value))
    && match p
       case World(e) => !e.Claim? && !e.Renew? && !e.Complete? && !e.Fail?
       case ClaimHeard(w, _, _, _) => ProcOf(y, w).Idle?
       case ClaimLost(w, _, _, _) => ProcOf(y, w).Idle?
       case FailReads(w) => ProcOf(y, w).Holding? && ProcOf(y, w).id in y.tables.jobs
       case CallEnds(w) => ProcOf(y, w).Holding?
       case LetGo(_) => true
       case _ => EventOf(y, p).Some?
  }

  function StepApply(c: BackoffConfig, y: System, p: Step): System
    requires StepEnabled(y, p)
  {
    var tables := if EventOf(y, p).Some? then Apply(c, y.tables, EventOf(y, p).value) else y.tables;
    var procs := match p
      case ClaimHeard(w, id, _, _) => y.procs[w := Holding(id, tables.jobs[id].attempts, None)]
      case FailReads(w) => y.procs[w := ProcOf(y, w).(seen := Some(y.tables.jobs[ProcOf(y, w).id].attempts))]
      case FailLands(w, _, _, _) => y.procs[w := ProcOf(y, w).(seen := None)]
      case CallEnds(w) => y.procs[w := ProcOf(y, w).(seen := None)]
      case LetGo(w) => y.procs[w := Idle]
      case _ => y.procs;
    System(tables, procs)
  }

  predicate StepsValid(c: BackoffConfig, y: System, ps: seq<Step>)
    decreases |ps|, 0
  {
    ps == [] || (StepsValid(c, y, Front(ps)) && StepEnabled(StepsExec(c, y, Front(ps)), Last(ps)))
  }

  function StepsExec(c: BackoffConfig, y: System, ps: seq<Step>): System
    requires StepsValid(c, y, ps)
    decreases |ps|, 1
  {
    if ps == [] then y else StepApply(c, StepsExec(c, y, Front(ps)), Last(ps))
  }

  /** If a worker holds a job and the store agrees that it runs under that worker, then they
      mean the same attempt; and a failure report in flight read no other count. */
  predicate HolderOk(tables: Tables, w: WorkerId, h: Proc) {
    h.Holding? ==>
      && h.id in tables.jobs
      && h.attempt <= tables.jobs[h.id].attempts
      && (OwnedBy(tables.jobs[h.id], w) ==> tables.jobs[h.id].attempts == h.attempt)
      && (h.seen.Some? ==> h.attempt <= h.seen.value <= tables.jobs[h.id].attempts)
  }

  ghost predicate InStep(y: System) {
    Inv(y.tables) && forall w :: w in y.procs ==> HolderOk(y.tables, w, y.procs[w])
  }

  /** Nothing but its own claim moves a job it holds to another attempt of its own. */
  lemma EventKeepsHolder(c: BackoffConfig, s: Tables, e: Event, w: WorkerId, h: Proc)
    requires Enabled(s, e) && HolderOk(s, w, h) && !(e.Claim? && e.worker == w)
    ensures HolderOk(Apply(c, s, e), w, h)
  {
  }

  lemma StepKeepsHolder(c: BackoffConfig, y: System, p: Step, w: WorkerId)
    requires InStep(y) && StepEnabled(y, p) && w in StepApply(c, y, p).procs
    ensures HolderOk(StepApply(c, y, p).tables, w, StepApply(c, y, p).procs[w])
  {
    var e := EventOf(y, p);
    assert HolderOk(y.tables, w, ProcOf(y, w));
    if e.Some? && !(e.value.Claim? && e.value.worker == w) {
      EventKeepsHolder(c, y.tables, e.value, w, ProcOf(y, w));
    }
  }

  lemma StepKeepsInStep(c: BackoffConfig, y: System, p: Step)
    requires InStep(y) && StepEnabled(y, p)
    ensures InStep(StepApply(c, y, p))
  {
    if EventOf(y, p).Some? {
      StepKeepsInv(c, y.tables, EventOf(y, p).value);
    }
    forall w | w in StepApply(c, y, p).procs
      ensures HolderOk(StepApply(c, y, p).tables, w, StepApply(c, y, p).procs[w])
    {
      StepKeepsHolder(c, y, p, w);
    }
  }

  lemma {:induction false} RunInStep(c: BackoffConfig, t0: Time, ps: seq<Step>)
    requires StepsValid(c, System(Empty(t0), map[]), ps)
    ensures InStep(StepsExec(c, System(Empty(t0), map[]), ps))
  {
    if ps != [] {
      RunInStep(c, t0, Front(ps));
      StepKeepsInStep(c, StepsExec(c, System(Empty(t0), map[]), Front(ps)), Last(ps));
    }
  }

  /** Attempt-level fencing: whatever other workers, reapers and clients do, a renewal or report
      that changes a row changes the attempt its worker claimed and holds. */
  lemma AttemptFencing(c: BackoffConfig, t0: Time, ps: seq<Step>)
    requires StepsValid(c, System(Empty(t0), map[]), ps) && ps != []
    requires Last(ps).RenewLands? || Last(ps).CompleteLands? || Last(ps).FailLands?
    ensures var y := StepsExec(c, System(Empty(t0), map[]), Front(ps));
            var h := ProcOf(y, Last(ps).w);
            && h.Holding? && Owns(y.tables, h.id, Last(ps).w)
            && y.tables.jobs[h.id].attempts == h.attempt
  {
    RunInStep(c, t0, Front(ps));
  }

  /** Two-phase failure: although the attempt count is read outside the transaction, the delay
      applied is that of the attempt being failed, the one the reaper would have used. */
  lemma FailDelayExact(c: BackoffConfig, t0: Time, ps: seq<Step>)
    requires StepsValid(c, System(Empty(t0), map[]), ps) && ps != [] && Last(ps).FailLands?
    ensures var y, y' := StepsExec(c, System(Empty(t0), map[]), Front(ps)), StepsExec(c, System(Empty(t0), map[]), ps);
            var h := ProcOf(y, Last(ps).w);
            && h.Holding? && h.id in y.tables.jobs && h.id in y'.tables.jobs
            && y'.tables.jobs[h.id].availableAt == Last(ps).at + Delay(c, y.tables.jobs[h.id].attempts)
            && (Exhausted(y.tables.jobs[h.id]) <==> y'.tables.jobs[h.id].status == Failed)
  {
    RunInStep(c, t0, Front(ps));
  }

  // ----- without sequential workers -----

  /** Whatever the workers do, a report sent for attempt a can only land on attempt a, or on a
      later attempt that the same worker id has claimed since. */
  lemma {:induction false} LateReport(c: BackoffConfig, s: Tables, es: seq<Event>, id: JobId, w: WorkerId)
    requires Valid(c, s, es) && Owns(s, id, w) && Owns(Exec(c, s, es), id, w)
    ensures s.jobs[id].attempts <= Exec(c, s, es).jobs[id].attempts
    ensures s.jobs[id].attempts < Exec(c, s, es).jobs[id].attempts
            <==> exists i :: 0 <= i < |es| && ClaimsJob(es[i], id, w)
  {
    RowsPersist(c, s, es, id);
    if forall i :: 0 <= i < |es| ==> !ClaimsJob(es[i], id, w) {
      NoReclaim(c, s, es, id, w);
    } else {
      var i :| 0 <= i < |es| && ClaimsJob(es[i], id, w);
      ClaimCounts(c, s, es, id, w, i);
    }
  }

  lemma {:induction false} NoReclaim(c: BackoffConfig, s: Tables, es: seq<Event>, id: JobId, w: WorkerId)
    requires Valid(c, s, es) && Owns(s, id, w)
    requires forall i :: 0 <= i < |es| ==> !ClaimsJob(es[i], id, w)
    ensures Owns(Exec(c, s, es), id, w) ==> Exec(c, s, es).jobs[id].attempts == s.jobs[id].attempts
  {
    if es != [] {
      NoReclaim(c, s, Front(es), id, w);
    }
  }

  lemma {:induction false} ClaimCounts(c: BackoffConfig, s: Tables, es: seq<Event>, id: JobId, w: WorkerId, i: nat)
    requires Valid(c, s, es) && id in s.jobs && i < |es| && ClaimsJob(es[i], id, w)
    ensures id in Exec(c, s, es).jobs && s.jobs[id].attempts < Exec(c, s, es).jobs[id].attempts
  {
    RowsPersist(c, s, Front(es), id);
    if i < |es| - 1 {
      ClaimCounts(c, s, Front(es), id, w, i);
    }
  }

  function FirstRow(w: WorkerId): Job {
    ClaimRow(NewRow("shell", "true", 2, 0), w, 1, 0)
  }

  /** Registered, one job created and claimed. */
  function FirstAttempt(w: WorkerId): Tables {
    Tables(map[1 := FirstRow(w)], map[w := Worker("host", 0, 0, 0, Some(1))], 0)
  }

  lemma FirstAttemptReached(c: BackoffConfig, w: WorkerId)
    ensures var es := [Register(w, "host", 0), Create(1, "shell", "true", 2, 0), Claim(1, w, 1, 0)];
            Valid(c, Empty(0), es) && Exec(c, Empty(0), es) == FirstAttempt(w)
  {
    var e0, e1, e2 := Register(w, "host", 0), Create(1, "shell", "true", 2, 0), Claim(1, w, 1, 0);
    RunSnoc(c, Empty(0), [], e0);
    RunSnoc(c, Empty(0), [] + [e0], e1);
    RunSnoc(c, Empty(0), [] + [e0] + [e1], e2);
    assert [] + [e0] + [e1] + [e2] == [e0, e1, e2];
  }

  /** The lease lapses, the job is reaped, waits out its delay, and goes to the same worker. */
  lemma SecondAttemptReached(c: BackoffConfig, w: WorkerId)
    ensures var fs := [Tick(2), Reap(1, 2), Tick(2 + Delay(c, 1)), Claim(1, w, 1, 2 + Delay(c, 1))];
            && Valid(c, FirstAttempt(w), fs)
            && Owns(Exec(c, FirstAttempt(w), fs), 1, w)
            && Exec(c, FirstAttempt(w), fs).jobs[1].attempts == 2
  {
    var s, d := FirstAttempt(w), Delay(c, 1);
    var f0, f1, f2, f3 := Tick(2), Reap(1, 2), Tick(2 + d), Claim(1, w, 1, 2 + d);
    RunSnoc(c, s, [], f0);
    RunSnoc(c, s, [] + [f0], f1);
    RunSnoc(c, s, [] + [f0] + [f1], f2);
    RunSnoc(c, s, [] + [f0] + [f1] + [f2], f3);
    assert [] + [f0] + [f1] + [f2] + [f3] == [f0, f1, f2, f3];
  }

  /** And that does happen: a completion sent in attempt 1 and delivered late is accepted as the
      completion of attempt 2, because the worker claimed the job again under the same id. */
  lemma LateReportLandsOnLaterAttempt(c: BackoffConfig, w: WorkerId, o: Output)
    ensures exists es, fs ::
              && Valid(c, Empty(0), es)
              && Owns(Exec(c, Empty(0), es), 1, w) && Exec(c, Empty(0), es).jobs[1].attempts == 1
              && Valid(c, Exec(c, Empty(0), es), fs)
              && var s := Exec(c, Exec(c, Empty(0), es), fs);
                 && Owns(s, 1, w) && s.jobs[1].attempts == 2
                 && AfterComplete(c, s, 1, w, o).jobs[1].status == Completed
  {
    FirstAttemptReached(c, w);
    SecondAttemptReached(c, w);
  }
}
