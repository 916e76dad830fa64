/**
 Every attempt is accounted for: it was reported by a worker, taken back by the reaper, or
 is still running.
 */
module Conservation {
  import opened Schema
  import opened Backoff
  import opened Machine
  import opened Invariants

  ghost function Total<K, V>(m: map<K, V>, f: V -> int): int {
    if m == map[] then 0 else
      var k :| k in m;
      f(m[k]) + Total(m - {k}, f)
  }

  /** The sum does not depend on the order in which rows are taken. */
  lemma {:induction false} TotalWithout<K, V>(m: map<K, V>, f: V -> int, k: K)
    requires k in m
    ensures Total(m, f) == f(m[k]) + Total(m - {k}, f)
    decreases |m|
  {
    var x :| x in m && Total(m, f) == f(m[x]) + Total(m - {x}, f);
    if x != k {
      TotalWithout(m - {x}, f, k);
      TotalWithout(m - {k}, f, x);
      assert m - {x} - {k} == m - {k} - {x};
    }
  }

  lemma TotalUpdate<K, V>(m: map<K, V>, f: V -> int, k: K, v: V)
    ensures Total(m[k := v], f) == Total(m, f) + f(v) - if k in m then f(m[k]) else 0
  {
    TotalWithout(m[k := v], f, k);
    assert m[k := v] - {k} == m - {k};
    if k in m {
      TotalWithout(m, f, k);
    } else {
      assert m - {k} == m;
    }
  }

  function AttemptsOf(j: Job): int { j.attempts }
  function RunningOf(j: Job): int { if j.status == Running then 1 else 0 }
  function ProcessedOf(w: Worker): int { w.processed }

  /** Attempts the reaper took back. */
  function Reaped(es: seq<Event>): nat {
    if es == [] then 0 else Reaped(Front(es)) + if Last(es).Reap? then 1 else 0
  }

  ghost function Balance(s: Tables): int {
    Total(s.jobs, AttemptsOf) - Total(s.jobs, RunningOf) - Total(s.workers, ProcessedOf)
  }

  lemma JobWrite(s: Tables, id: JobId, j: Job)
    ensures Total(s.jobs[id := j], AttemptsOf) - Total(s.jobs[id := j], RunningOf)
         == Total(s.jobs, AttemptsOf) - Total(s.jobs, RunningOf)
            + (j.attempts - RunningOf(j)) - if id in s.jobs then s.jobs[id].attempts - RunningOf(s.jobs[id]) else 0
  {
    TotalUpdate(s.jobs, AttemptsOf, id, j);
    TotalUpdate(s.jobs, RunningOf, id, j);
  }

  lemma StepBalance(c: BackoffConfig, s: Tables, e: Event)
    requires Inv(s) && Enabled(s, e)
    ensures Balance(Apply(c, s, e)) == Balance(s) + if e.Reap? then 1 else 0
  {
    var s' := Apply(c, s, e);
    if !e.Tick? && !e.Register? && !e.Heartbeat? {
      JobWrite(s, e.id, s'.jobs[e.id]);
    }
    if (e.Claim? || e.Complete? || e.Fail? || e.Register? || e.Heartbeat?) && e.worker in s'.workers {
      TotalUpdate(s.workers, ProcessedOf, e.worker, s'.workers[e.worker]);
    }
    if e.Reap? {
      var w := s.jobs[e.id].worker.value;
      TotalUpdate(s.workers, ProcessedOf, w, s'.workers[w]);
      assert s'.workers == s.workers[w := s'.workers[w]];
    }
  }

  /** Over every run from empty tables: attempts made = reports processed + attempts reaped +
      jobs running now. */
  lemma {:induction false} AttemptsConserved(c: BackoffConfig, t0: Time, es: seq<Event>)
    requires Valid(c, Empty(t0), es)
    ensures var s := Exec(c, Empty(t0), es);
            Total(s.jobs, AttemptsOf) == Total(s.workers, ProcessedOf) + Reaped(es) + Total(s.jobs, RunningOf)
  {
    if es != [] {
      AttemptsConserved(c, t0, Front(es));
      ReachableInv(c, t0, Front(es));
      StepBalance(c, Exec(c, Empty(t0), Front(es)), Last(es));
    }
  }
}
