/**
 The store itself, as internal/jobs/store.go runs it: an object whose methods update the two
 tables in place. One call runs at a time here; module Locks is about calls that overlap.
 */
module Store {
  import opened Schema
  import opened Backoff
  import opened OutputCapture
  import opened Machine
  import opened Invariants
  import opened Dispatch
  import opened Recovery
  import opened Calls

  /** One job the reaper rescued. */
  datatype Reaped = Reaped(id: JobId, attempts: int, status: Status, worker: string)

  /** What the sweep reports about a job it takes. */
  function ReapedOf(id: JobId, j: Job): Reaped {
    Reaped(id, j.attempts, if Exhausted(j) then Failed else Pending, OwnerText(j))
  }

  /** The row of a job whose lease ended before now, once it is taken back, and what is reported of it. */
  predicate TakenBack(c: BackoffConfig, was: Job, now: Job, out: Reaped, at: Time) {
    && was.status == Running && was.leaseUntil.Some? && was.leaseUntil.value < at
    && out.attempts == was.attempts && out.status == now.status && was.worker == Some(out.worker)
    && now == was.(status := if was.attempts >= was.maxAttempts then Failed else Pending,
                   worker := if was.attempts >= was.maxAttempts then was.worker else None,
                   leaseUntil := None, availableAt := at + Delay(c, was.attempts), updatedAt := at,
                   lastError := Some("lease expired (worker " + out.worker + " stopped reporting)"))
  }

  /** The four result columns, each from the report's own. */
  predicate StoredResult(stored: Output, sent: Output) {
    && Keeps(stored.stdout, sent.stdout) && Keeps(stored.stderr, sent.stderr)
    && stored.exitCode == sent.exitCode && stored.durationMs == sent.durationMs
  }

  class Store {
    const backoff: BackoffConfig
    var jobs: map<JobId, Job>
    var workers: map<WorkerId, Worker>
    var nextId: JobId
    var clock: Time

    ghost function View(): Tables
      reads this
    {
      Tables(jobs, workers, clock)
    }

    ghost predicate Valid()
      reads this
    {
      Inv(View()) && 1 <= nextId && forall id :: id in jobs ==> 1 <= id < nextId
    }

    constructor (backoff: BackoffConfig, now: Time)
      ensures Valid() && View() == Empty(now) && this.backoff == backoff
    {
      this.backoff := backoff;
      jobs := map[];
      workers := map[];
      nextId := 1;
      clock := now;
    }

    /** Time passes. */
    method Wait(d: nat)
      requires Valid()
      modifies this`clock
      ensures Valid() && clock == old(clock) + d
    {
      clock := clock + d;
    }

    method Create(typ: string, payload: string, maxAttempts: int) returns (r: Reply<JobId>)
      requires Valid()
      modifies this`jobs, this`nextId
      ensures Valid()
      ensures if maxAttempts < 1 then r == Err(Refused) && View() == old(View())
              else && r == Ok(old(nextId)) && nextId == old(nextId) + 1
                   && jobs == old(jobs)[old(nextId) :=
                        Job(typ, payload, Pending, 0, maxAttempts, clock, clock, clock, None, None, None, None)]
                   && Enabled(old(View()), Machine.Create(old(nextId), typ, payload, maxAttempts, clock))
                   && View() == Apply(backoff, old(View()), Machine.Create(old(nextId), typ, payload, maxAttempts, clock))
    {
      if maxAttempts < 1 {
        return Err(Refused);
      }
      ghost var e := Machine.Create(nextId, typ, payload, maxAttempts, clock);
      StepKeepsInv(backoff, View(), e);
      jobs := jobs[nextId := NewRow(typ, payload, maxAttempts, clock)];
      r := Ok(nextId);
      nextId := nextId + 1;
    }

    /** Hands the first claimable job to a registered worker. A claim by an unknown worker takes
        the job first and gives it back: the transaction is rolled back. */
    method Claim(w: WorkerId, lease: int) returns (r: Reply<JobId>)
      requires Valid()
      modifies this`jobs, this`workers
      ensures Valid()
      ensures r.Err? ==> View() == old(View())
      ensures r.Err? <==> r == Err(NoJobs) || r == Err(UnknownWorker)
      ensures r == Err(NoJobs) <==> forall k :: k in old(jobs) ==> old(jobs)[k].status != Pending || old(jobs)[k].availableAt > clock
      ensures r == Err(UnknownWorker) ==> w !in workers
      ensures r.Ok? ==> && r.value in old(jobs) && w in old(workers)
                        && old(jobs)[r.value].status == Pending && old(jobs)[r.value].availableAt <= clock
                        && (forall k :: k in old(jobs) && old(jobs)[k].status == Pending && k != r.value ==>
                             || old(jobs)[r.value].availableAt < old(jobs)[k].availableAt
                             || (old(jobs)[r.value].availableAt == old(jobs)[k].availableAt && r.value < k))
                        && jobs == old(jobs)[r.value := old(jobs)[r.value].(
                             status := Running, worker := Some(w), leaseUntil := Some(clock + lease),
                             attempts := old(jobs)[r.value].attempts + 1, updatedAt := clock)]
                        && workers == old(workers)[w := old(workers)[w].(current := Some(r.value), lastHeartbeat := clock)]
      ensures r.Ok? ==> && IsNextClaim(old(jobs), clock, {}, r.value)
                        && Enabled(old(View()), Machine.Claim(r.value, w, lease, clock))
                        && View() == Apply(backoff, old(View()), Machine.Claim(r.value, w, lease, clock))
    {
      var now := clock;
      if k :| k in jobs && Offered(jobs, now, {}, k) {
        ghost var next := NextClaimExists(jobs, now, {}, k);
        var id :| id in jobs && IsNextClaim(jobs, now, {}, id);
        assert IsNextClaim(jobs, now, {}, id);
        var before := jobs;
        jobs := jobs[id := ClaimRow(jobs[id], w, lease, now)];
        if w !in workers {
          jobs := before;
          return Err(UnknownWorker);
        }
        workers := workers[w := BusyWorker(workers[w], id, now)];
        StepKeepsInv(backoff, old(View()), Machine.Claim(id, w, lease, now));
        r := Ok(id);
      } else {
        r := Err(NoJobs);
      }
    }

    method RenewLease(id: JobId, w: WorkerId, lease: int) returns (r: Reply<Job>)
      requires Valid()
      modifies this`jobs
      ensures Valid()
      ensures View() == AfterRenew(backoff, old(View()), id, w, lease)
      ensures r == RenewReply(backoff, old(View()), id, w, lease)
      ensures if id in old(jobs) && old(jobs)[id].status == Running && old(jobs)[id].worker == Some(w)
              then && jobs == old(jobs)[id := old(jobs)[id].(leaseUntil := Some(clock + lease), updatedAt := clock)]
                   && r == Ok(jobs[id])
              else jobs == old(jobs) && r == Err(if id in old(jobs) then NotOwned else NotFound)
    {
      if id in jobs && OwnedBy(jobs[id], w) {
        StepKeepsInv(backoff, View(), Renew(id, w, lease, clock));
        jobs := jobs[id := RenewRow(jobs[id], lease, clock)];
        r := Ok(jobs[id]);
      } else if id in jobs {
        r := Err(NotOwned);
      } else {
        r := Err(NotFound);
      }
    }

    /** Why a terminal update matched no row. The report is taken for a repeat, and shown the row as it
        is, exactly when the job already has the wanted status under this worker, or is waiting again
        and a failure was reported. */
    method Resolve(id: JobId, w: WorkerId, want: Status) returns (r: Reply<Job>)
      requires Valid()
      ensures r.Ok? <==> && id in jobs
                         && (|| (jobs[id].status == want && jobs[id].worker == Some(w))
                             || (jobs[id].status == Pending && want == Failed))
      ensures r.Ok? ==> r.value == jobs[id]
      ensures r.Err? ==> r.error == if id in jobs then NotOwned else NotFound
    {
      if id !in jobs {
        return Err(NotFound);
      }
      var cur := jobs[id];
      assert RowOk(cur);
      if cur.status == want && cur.worker.Some? && cur.worker.value == w {
        return Ok(cur);
      }
      if want == Failed && cur.status == Pending && cur.worker.None? {
        return Ok(cur);
      }
      r := Err(NotOwned);
    }

    method Complete(id: JobId, w: WorkerId, o: Output) returns (r: Reply<Job>)
      requires Valid()
      modifies this`jobs, this`workers
      ensures Valid()
      ensures View() == AfterComplete(backoff, old(View()), id, w, o)
      ensures r == CompleteReply(backoff, old(View()), id, w, o)
      ensures if id in old(jobs) && old(jobs)[id].status == Running && old(jobs)[id].worker == Some(w)
              then && id in jobs && jobs[id].output.Some? && StoredResult(jobs[id].output.value, o)
                   && jobs == old(jobs)[id := old(jobs)[id].(
                        status := Completed, leaseUntil := None, updatedAt := clock, lastError := None, output := jobs[id].output)]
                   && w in old(workers) && workers == old(workers)[w := old(workers)[w].(
                        processed := old(workers)[w].processed + 1, current := None, lastHeartbeat := clock)]
                   && r == Ok(jobs[id])
              else View() == old(View())
    {
      if id in jobs && OwnedBy(jobs[id], w) {
        StepKeepsInv(backoff, View(), Machine.Complete(id, w, o, clock));
        jobs := jobs[id := CompleteRow(jobs[id], w, o, clock)];
        if w in workers {
          workers := workers[w := FinishedWorker(workers[w], clock)];
        }
        r := Ok(jobs[id]);
      } else {
        r := Resolve(id, w, Completed);
      }
    }

    method Fail(id: JobId, w: WorkerId, o: Output, error: string) returns (r: Reply<Job>)
      requires Valid()
      modifies this`jobs, this`workers
      ensures Valid()
      ensures View() == AfterFail(backoff, old(View()), id, w, o, error)
      ensures r == FailReply(backoff, old(View()), id, w, o, error)
      ensures if id in old(jobs) && old(jobs)[id].status == Running && old(jobs)[id].worker == Some(w)
              then && id in jobs && jobs[id].output.Some? && StoredResult(jobs[id].output.value, o)
                   && jobs[id].lastError.Some? && Keeps(jobs[id].lastError.value, error)
                   && var last := old(jobs)[id].attempts >= old(jobs)[id].maxAttempts;
                   && jobs == old(jobs)[id := old(jobs)[id].(
                        status := if last then Failed else Pending, worker := if last then Some(w) else None,
                        leaseUntil := None, availableAt := clock + Delay(backoff, old(jobs)[id].attempts), updatedAt := clock,
                        lastError := jobs[id].lastError, output := jobs[id].output)]
                   && w in old(workers) && workers == old(workers)[w := old(workers)[w].(
                        processed := old(workers)[w].processed + 1, current := None, lastHeartbeat := clock)]
                   && r == Ok(jobs[id])
              else View() == old(View())
    {
      if id !in jobs {
        return Err(NotFound);
      }
      var delay := Delay(backoff, jobs[id].attempts);
      if OwnedBy(jobs[id], w) {
        StepKeepsInv(backoff, View(), FailEvent(View(), id, w, o, error));
        jobs := jobs[id := FailRow(jobs[id], w, o, error, delay, clock)];
        if w in workers {
          workers := workers[w := FinishedWorker(workers[w], clock)];
        }
        r := Ok(jobs[id]);
      } else {
        r := Resolve(id, w, Failed);
      }
    }

    method Cancel(id: JobId) returns (r: Reply<Job>)
      requires Valid()
      modifies this`jobs
      ensures Valid()
      ensures View() == AfterCancel(backoff, old(View()), id)
      ensures r == CancelReply(backoff, old(View()), id)
      ensures r.Ok? <==> id in old(jobs) && (old(jobs)[id].status == Pending || old(jobs)[id].status == Canceled)
      ensures r.Ok? ==> id in jobs && r.value == jobs[id] && jobs[id].status == Canceled
      ensures r.Err? ==> r.error == if id in old(jobs) then NotCancelable else NotFound
      ensures if id in old(jobs) && old(jobs)[id].status == Pending
              then jobs == old(jobs)[id := old(jobs)[id].(status := Canceled, updatedAt := clock, leaseUntil := None)]
              else jobs == old(jobs)
    {
      if id in jobs && jobs[id].status == Pending {
        StepKeepsInv(backoff, View(), Machine.Cancel(id, clock));
        jobs := jobs[id := CancelRow(jobs[id], clock)];
        return Ok(jobs[id]);
      }
      if id !in jobs {
        return Err(NotFound);
      }
      r := if jobs[id].status == Canceled then Ok(jobs[id]) else Err(NotCancelable);
    }

    /** The rows the sweep will take, one after the other, oldest lease first. */
    method FindExpired(batch: nat) returns (found: seq<JobId>)
      ensures IsSweepPick(jobs, clock, batch, {}, found)
    {
      found := [];
      while |found| < batch
        invariant IsSweepPick(jobs, clock, |found|, {}, found)
        invariant |found| <= batch
      {
        var rest := set k | k in jobs && Overdue(jobs, clock, {}, k) && k !in found;
        if rest == {} {
          WholePick(jobs, clock, batch, {}, found);
          return;
        }
        ghost var oldest := OldestOf(jobs, rest);
        var id :| id in rest && forall k :: k in rest ==> jobs[id].leaseUntil.value <= jobs[k].leaseUntil.value;
        LongerPick(jobs, clock, {}, found, id);
        found := found + [id];
      }
    }

    /** One sweep of the reaper. It takes exactly the rows of a pick, and its effect is the run of
        one Reap for each. */
    method ReapExpiredLeases(batch: int) returns (out: seq<Reaped>, ghost ids: seq<JobId>)
      requires Valid()
      modifies this`jobs, this`workers
      ensures Valid()
      ensures IsSweepPick(old(jobs), clock, BatchSize(batch), {}, ids)
      ensures Machine.Valid(backoff, old(View()), SweepEvents(ids, clock))
      ensures View() == Exec(backoff, old(View()), SweepEvents(ids, clock))
      ensures |ids| == Min(if batch <= 0 then 100 else batch,
                           |set k | k in old(jobs) && old(jobs)[k].status == Running && old(jobs)[k].leaseUntil.Some?
                                    && old(jobs)[k].leaseUntil.value < clock|)
      ensures |out| == |ids| && forall i :: 0 <= i < |out| ==>
                && out[i].id == ids[i] && ids[i] in old(jobs) && ids[i] in jobs
                && TakenBack(backoff, old(jobs)[ids[i]], jobs[ids[i]], out[i], clock)
      ensures forall k :: k in old(jobs) && k !in ids ==> k in jobs && jobs[k] == old(jobs)[k]
    {
      var found := FindExpired(if batch <= 0 then 100 else batch);
      ids := found;
      assert forall k :: 0 <= k < |found| ==> Overdue(jobs, clock, {}, found[k]);
      out := TakeBackAll(found);
      SweepReported(backoff, old(View()), ids, if batch <= 0 then 100 else batch, clock);
    }

    /** The loop over the selected rows. */
    method TakeBackAll(found: seq<JobId>) returns (out: seq<Reaped>)
      requires Valid() && Distinct(found) && forall k :: 0 <= k < |found| ==> found[k] in jobs && Expired(jobs[found[k]], clock)
      modifies this`jobs, this`workers
      ensures Valid()
      ensures Machine.Valid(backoff, old(View()), SweepEvents(found, clock))
      ensures View() == Exec(backoff, old(View()), SweepEvents(found, clock))
      ensures |out| == |found| && forall i :: 0 <= i < |out| ==> out[i] == ReapedOf(found[i], old(jobs)[found[i]])
    {
      out := [];
      ghost var s0 := View();
      assert found[..0] == [] && SweepEvents([], clock) == [];
      for i := 0 to |found|
        invariant Machine.Valid(backoff, s0, SweepEvents(found[..i], clock))
        invariant View() == Exec(backoff, s0, SweepEvents(found[..i], clock))
        invariant |out| == i && forall k :: 0 <= k < i ==> out[k] == ReapedOf(found[k], s0.jobs[found[k]])
      {
        SweepNext(backoff, s0, found, i, clock);
        out := out + [ReapedOf(found[i], jobs[found[i]])];
        TakeBack(found[i]);
      }
      assert found[..|found|] == found;
      SweepKeepsValid(backoff, s0, found, clock);
    }

    /** The two updates for one expired job. */
    method TakeBack(id: JobId)
      requires id in jobs && Expired(jobs[id], clock)
      modifies this`jobs, this`workers
      ensures View() == Apply(backoff, old(View()), Reap(id, clock))
    {
      var e := jobs[id];
      if jobs[id].status == Running {
        jobs := jobs[id := ReapRow(e, Delay(backoff, e.attempts), clock)];
      }
      if e.worker.Some? && e.worker.value in workers && workers[e.worker.value].current == Some(id) {
        workers := workers[e.worker.value := workers[e.worker.value].(current := None)];
      }
    }

    method RegisterWorker(w: WorkerId, host: string)
      requires Valid()
      modifies this`workers
      ensures Valid()
      ensures View() == Apply(backoff, old(View()), Register(w, host, clock))
      ensures workers == old(workers)[w :=
                if w in old(workers)
                then Worker(host, old(workers)[w].registeredAt, clock, old(workers)[w].processed, None)
                else Worker(host, clock, clock, 0, None)]
    {
      StepKeepsInv(backoff, View(), Register(w, host, clock));
      if w in workers {
        workers := workers[w := workers[w].(host := host, lastHeartbeat := clock, current := None)];
      } else {
        workers := workers[w := Worker(host, clock, clock, 0, None)];
      }
    }

    method Heartbeat(w: WorkerId) returns (r: Reply<Worker>)
      requires Valid()
      modifies this`workers
      ensures Valid()
      ensures if w in old(workers)
              then && View() == Apply(backoff, old(View()), Machine.Heartbeat(w, clock))
                   && workers == old(workers)[w := old(workers)[w].(lastHeartbeat := clock)] && r == Ok(workers[w])
              else View() == old(View()) && r == Err(NotFound)
    {
      if w !in workers {
        return Err(NotFound);
      }
      StepKeepsInv(backoff, View(), Machine.Heartbeat(w, clock));
      workers := workers[w := workers[w].(lastHeartbeat := clock)];
      r := Ok(workers[w]);
    }

    /** Waiting jobs, newest first, at most `limit` of them. */
    method ListPending(limit: nat) returns (ids: seq<JobId>)
      requires Valid()
      ensures |ids| <= limit
      ensures forall i :: 0 <= i < |ids| ==> ids[i] in jobs && jobs[ids[i]].status == Pending
      ensures forall i, k :: 0 <= i < k < |ids| ==> ids[i] > ids[k]
      ensures forall id :: id in jobs && jobs[id].status == Pending && id !in ids
                ==> |ids| == limit && forall i :: 0 <= i < |ids| ==> ids[i] > id
    {
      ids := [];
      var n := nextId;
      while 1 < n && |ids| < limit
        invariant 1 <= n <= nextId && |ids| <= limit
        invariant forall i :: 0 <= i < |ids| ==> ids[i] in jobs && jobs[ids[i]].status == Pending && n <= ids[i]
        invariant forall i, k :: 0 <= i < k < |ids| ==> ids[i] > ids[k]
        invariant forall id :: id in jobs && jobs[id].status == Pending && n <= id ==> id in ids
      {
        n := n - 1;
        if n in jobs && jobs[n].status == Pending {
          ids := ids + [n];
        }
      }
    }
  }

  /** The size of a sweep, and each row it leaves behind. */
  lemma SweepReported(c: BackoffConfig, s: Tables, ids: seq<JobId>, batch: nat, at: Time)
    requires Inv(s) && at <= s.clock && IsSweepPick(s.jobs, at, batch, {}, ids)
    ensures Machine.Valid(c, s, SweepEvents(ids, at))
    ensures |ids| == Min(batch, |set k | k in s.jobs && s.jobs[k].status == Running && s.jobs[k].leaseUntil.Some?
                                         && s.jobs[k].leaseUntil.value < at|)
    ensures forall i :: 0 <= i < |ids| ==>
              && ids[i] in s.jobs && ids[i] in Exec(c, s, SweepEvents(ids, at)).jobs
              && TakenBack(c, s.jobs[ids[i]], Exec(c, s, SweepEvents(ids, at)).jobs[ids[i]], ReapedOf(ids[i], s.jobs[ids[i]]), at)
    ensures forall k :: k in s.jobs && k !in ids ==>
              k in Exec(c, s, SweepEvents(ids, at)).jobs && Exec(c, s, SweepEvents(ids, at)).jobs[k] == s.jobs[k]
  {
    PickSize(s.jobs, at, batch, {}, ids);
    assert (set k | k in s.jobs && Overdue(s.jobs, at, {}, k))
        == (set k | k in s.jobs && s.jobs[k].status == Running && s.jobs[k].leaseUntil.Some? && s.jobs[k].leaseUntil.value < at);
    forall i | 0 <= i < |ids|
      ensures ids[i] in s.jobs && Expired(s.jobs[ids[i]], at)
      ensures TakenBack(c, s.jobs[ids[i]], ReapRow(s.jobs[ids[i]], Delay(c, s.jobs[ids[i]].attempts), at),
                        ReapedOf(ids[i], s.jobs[ids[i]]), at)
    {
      assert Overdue(s.jobs, at, {}, ids[i]);
      assert RowOk(s.jobs[ids[i]]);
    }
    SweepEffect(c, s, ids, at);
  }

  /** The i-th row of a sweep is still as it was selected when its turn comes. */
  lemma SweepNext(c: BackoffConfig, s: Tables, ids: seq<JobId>, i: nat, at: Time)
    requires Inv(s) && at <= s.clock && i < |ids|
    requires Distinct(ids) && forall k :: 0 <= k < |ids| ==> ids[k] in s.jobs && Expired(s.jobs[ids[k]], at)
    ensures Machine.Valid(c, s, SweepEvents(ids[..i], at)) && Machine.Valid(c, s, SweepEvents(ids[..i + 1], at))
    ensures var p := Exec(c, s, SweepEvents(ids[..i], at));
            && ids[i] in s.jobs && ids[i] in p.jobs && p.jobs[ids[i]] == s.jobs[ids[i]]
            && Enabled(p, Reap(ids[i], at))
            && Exec(c, s, SweepEvents(ids[..i + 1], at)) == Apply(c, p, Reap(ids[i], at))
  {
    var id := ids[i];
    assert id !in ids[..i];
    assert Front(ids[..i + 1]) == ids[..i] && Last(ids[..i + 1]) == id;
    SweepEffect(c, s, ids[..i], at);
    RunSnoc(c, s, SweepEvents(ids[..i], at), Reap(id, at));
  }

  lemma SweepKeepsValid(c: BackoffConfig, s: Tables, ids: seq<JobId>, at: Time)
    requires Inv(s) && at <= s.clock
    requires Distinct(ids) && forall k :: 0 <= k < |ids| ==> ids[k] in s.jobs && Expired(s.jobs[ids[k]], at)
    ensures Machine.Valid(c, s, SweepEvents(ids, at))
    ensures Inv(Exec(c, s, SweepEvents(ids, at)))
    ensures Exec(c, s, SweepEvents(ids, at)).jobs.Keys == s.jobs.Keys
  {
    SweepEffect(c, s, ids, at);
    RunKeepsInv(c, s, SweepEvents(ids, at));
  }
}
