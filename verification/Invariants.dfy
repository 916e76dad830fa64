/**
 What every reachable pair of tables satisfies: each job row by itself, and the two
 tables together.
 */
module Invariants {
  import opened Schema
  import opened Backoff
  import opened Machine

  /** A lease is held exactly while a job runs; the owner column and the attempt counter
      agree with the status. */
  predicate RowOk(j: Job) {
    && 1 <= j.maxAttempts
    && 0 <= j.attempts
    && (j.leaseUntil.Some? <==> j.status == Running)
    && (j.status == Pending || j.status == Canceled ==> j.worker.None? && j.attempts < j.maxAttempts)
    && (j.status == Running || j.status == Completed ==> j.worker.Some? && 1 <= j.attempts <= j.maxAttempts)
    && (j.status == Failed ==> j.worker.Some? && j.attempts == j.maxAttempts)
  }

  ghost predicate RowsOk(s: Tables) {
    forall id :: id in s.jobs ==> RowOk(s.jobs[id])
  }

  /** Nobody runs a job without being registered. */
  ghost predicate OwnersRegistered(s: Tables) {
    forall id :: id in s.jobs && s.jobs[id].status == Running && s.jobs[id].worker.Some?
      ==> s.jobs[id].worker.value in s.workers
  }

  /** A worker's current job is running, under that worker. */
  ghost predicate CurrentOk(s: Tables) {
    forall w :: w in s.workers && s.workers[w].current.Some?
      ==> s.workers[w].current.value in s.jobs && OwnedBy(s.jobs[s.workers[w].current.value], w)
  }

  ghost predicate Inv(s: Tables) {
    RowsOk(s) && OwnersRegistered(s) && CurrentOk(s)
  }

  lemma StepKeepsRows(c: BackoffConfig, s: Tables, e: Event)
    requires Inv(s) && Enabled(s, e)
    ensures RowsOk(Apply(c, s, e)) && OwnersRegistered(Apply(c, s, e))
  {
    var s' := Apply(c, s, e);
    forall id | id in s'.jobs
      ensures RowOk(s'.jobs[id])
    {
      assert id in s.jobs ==> RowOk(s.jobs[id]);
    }
  }

  lemma StepKeepsCurrent(c: BackoffConfig, s: Tables, e: Event)
    requires Inv(s) && Enabled(s, e)
    ensures CurrentOk(Apply(c, s, e))
  {
    var s' := Apply(c, s, e);
    forall w | w in s'.workers && s'.workers[w].current.Some?
      ensures s'.workers[w].current.value in s'.jobs && OwnedBy(s'.jobs[s'.workers[w].current.value], w)
    {
      assert w in s.workers && s.workers[w].current.Some? ==> OwnedBy(s.jobs[s.workers[w].current.value], w);
    }
  }

  /** Every step keeps the invariant, whatever time it is stamped with. */
  lemma StepKeepsInv(c: BackoffConfig, s: Tables, e: Event)
    requires Inv(s) && Enabled(s, e)
    ensures Inv(Apply(c, s, e))
  {
    StepKeepsRows(c, s, e);
    StepKeepsCurrent(c, s, e);
  }

  lemma {:induction false} RunKeepsInv(c: BackoffConfig, s: Tables, es: seq<Event>)
    requires Inv(s) && Valid(c, s, es)
    ensures Inv(Exec(c, s, es))
  {
    if es != [] {
      RunKeepsInv(c, s, Front(es));
      StepKeepsInv(c, Exec(c, s, Front(es)), Last(es));
    }
  }

  /** Every state reachable from empty tables satisfies the invariant. */
  lemma ReachableInv(c: BackoffConfig, t0: Time, es: seq<Event>)
    requires Valid(c, Empty(t0), es)
    ensures Inv(Exec(c, Empty(t0), es))
  {
    RunKeepsInv(c, Empty(t0), es);
  }

  /** In every reachable state no job is the current job of two workers. */
  lemma OneCurrentWorkerPerJob(c: BackoffConfig, t0: Time, es: seq<Event>, v: WorkerId, w: WorkerId)
    requires Valid(c, Empty(t0), es)
    requires v in Exec(c, Empty(t0), es).workers && w in Exec(c, Empty(t0), es).workers
    requires Exec(c, Empty(t0), es).workers[v].current == Exec(c, Empty(t0), es).workers[w].current != None
    ensures v == w
  {
    ReachableInv(c, t0, es);
  }

  /** The columns fixed when a job is created are never written again. */
  predicate SameOrder(j: Job, k: Job) {
    j.typ == k.typ && j.payload == k.payload && j.maxAttempts == k.maxAttempts && j.createdAt == k.createdAt
  }

  /** Rows are never deleted, never re-ordered, and the attempt counter never falls. */
  lemma {:induction false} RowsPersist(c: BackoffConfig, s: Tables, es: seq<Event>, id: JobId)
    requires Valid(c, s, es) && id in s.jobs
    ensures id in Exec(c, s, es).jobs
    ensures SameOrder(s.jobs[id], Exec(c, s, es).jobs[id])
    ensures s.jobs[id].attempts <= Exec(c, s, es).jobs[id].attempts
    ensures s.clock <= Exec(c, s, es).clock
  {
    if es != [] {
      RowsPersist(c, s, Front(es), id);
    }
  }
}
