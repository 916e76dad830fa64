/**
 Whole-run clients of the store: the benchmark that drains the queue and checks that no job was
 handed out twice (cmd/queue-bench/claim.go), and a worker's report with its retries
 (internal/worker/worker.go).
 */
module Clients {
  import opened Schema
  import opened Backoff
  import opened Machine
  import opened Dispatch
  import opened Recovery
  import opened Calls
  import opened Store
  import Locks
  import Refinement

  // ----- draining the queue -----

  function PendingJobs(jobs: map<JobId, Job>): set<JobId> {
    set k | k in jobs && jobs[k].status == Pending
  }

  /** `out` was claimed by w, in queue order, from `was`; everything else is as it was and comes later. */
  ghost predicate Drained(was: map<JobId, Job>, now: map<JobId, Job>, w: WorkerId, out: seq<JobId>) {
    && now.Keys == was.Keys
    && (forall i :: 0 <= i < |out| ==> out[i] in was && was[out[i]].status == Pending)
    && (forall i, k :: 0 <= i < k < |out| ==> Before(was, out[i], out[k]))
    && (forall id :: id in out ==> OwnedBy(now[id], w) && now[id].attempts == was[id].attempts + 1)
    && (forall id :: id in was && id !in out ==> now[id] == was[id])
    && (forall i, id :: 0 <= i < |out| && id in was && id !in out && was[id].status == Pending ==> Before(was, out[i], id))
  }

  lemma DrainOne(was: map<JobId, Job>, now: map<JobId, Job>, w: WorkerId, out: seq<JobId>, id: JobId, lease: int, at: Time)
    requires Drained(was, now, w, out) && IsNextClaim(now, at, {}, id)
    ensures id in now && id in was && id !in out && was[id].availableAt <= at
    ensures Drained(was, now[id := ClaimRow(now[id], w, lease, at)], w, out + [id])
    ensures PendingJobs(now[id := ClaimRow(now[id], w, lease, at)]) == PendingJobs(now) - {id} && id in PendingJobs(now)
  {
    assert Offered(now, at, {}, id);
    assert id !in out;
    var now', out' := now[id := ClaimRow(now[id], w, lease, at)], out + [id];
    forall k | k in was && k !in out' && was[k].status == Pending
      ensures Before(was, id, k)
    {
      assert now[k] == was[k] && now[id] == was[id];
      if now[k].availableAt <= at {
        assert Offered(now, at, {}, k);
      }
    }
  }

  /** Some time passes, as much as may be. */
  method Sleep(store: Store)
    requires store.Valid()
    modifies store`clock
    ensures store.Valid() && old(store.clock) <= store.clock
  {
    var d: int := *;
    if d > 0 {
      store.Wait(d);
    }
  }

  /** Claims until the queue is empty, taking a second look before believing it. However much
      time passes between the claims, they return exactly the jobs that were waiting at the start
      and became available by the end, in order of (available_at, id), each once; and at the end
      nothing is claimable. */
  method ClaimUntilEmpty(store: Store, w: WorkerId, lease: int) returns (r: Reply<seq<JobId>>)
    requires store.Valid()
    modifies store
    ensures store.Valid() && old(store.clock) <= store.clock
    ensures w in old(store.workers) ==> r.Ok?
    ensures r.Ok? ==> Drained(old(store.jobs), store.jobs, w, r.value) && Distinct(r.value)
    ensures r.Ok? ==> forall id :: id in r.value <==>
              id in old(store.jobs) && Claimable(old(store.jobs)[id], store.clock)
    ensures r.Ok? ==> forall id :: id in store.jobs ==> !Claimable(store.jobs[id], store.clock)
  {
    var out := [];
    while true
      invariant store.Valid() && old(store.clock) <= store.clock
      invariant Drained(old(store.jobs), store.jobs, w, out)
      invariant forall id :: id in out ==> old(store.jobs)[id].availableAt <= store.clock
      invariant w in old(store.workers) ==> w in store.workers
      decreases PendingJobs(store.jobs)
    {
      Sleep(store);
      var got := ClaimNext(store, w, lease, old(store.jobs), out);
      if got == Err(NoJobs) {
        Sleep(store);
        got := ClaimNext(store, w, lease, old(store.jobs), out);
        if got == Err(NoJobs) {
          DrainedAll(old(store.jobs), store.jobs, w, out, store.clock);
          return Ok(out);
        }
      }
      if got.Err? {
        return Err(got.error);
      }
      out := out + [got.value];
    }
  }

  /** One claim of the drain. */
  method ClaimNext(store: Store, w: WorkerId, lease: int, ghost was: map<JobId, Job>, ghost out: seq<JobId>)
    returns (got: Reply<JobId>)
    requires store.Valid() && Drained(was, store.jobs, w, out)
    modifies store`jobs, store`workers
    ensures store.Valid() && store.workers.Keys == old(store.workers).Keys
    ensures got.Err? ==> store.jobs == old(store.jobs)
    ensures got.Err? && w in store.workers ==> got == Err(NoJobs)
    ensures got == Err(NoJobs) ==> forall k :: k in store.jobs ==> !Offered(store.jobs, store.clock, {}, k)
    ensures got.Ok? ==> && Drained(was, store.jobs, w, out + [got.value])
                        && got.value in was && was[got.value].availableAt <= store.clock
                        && PendingJobs(store.jobs) == PendingJobs(old(store.jobs)) - {got.value}
                        && got.value in PendingJobs(old(store.jobs))
  {
    got := store.Claim(w, lease);
    if got.Ok? {
      DrainOne(was, old(store.jobs), w, out, got.value, lease, store.clock);
    }
  }

  lemma DrainedAll(was: map<JobId, Job>, now: map<JobId, Job>, w: WorkerId, out: seq<JobId>, at: Time)
    requires Drained(was, now, w, out) && forall k :: k in now ==> !Offered(now, at, {}, k)
    requires forall id :: id in out ==> id in was && was[id].availableAt <= at
    ensures Distinct(out)
    ensures forall id :: id in out <==> id in was && Claimable(was[id], at)
    ensures forall id :: id in now ==> !Claimable(now[id], at)
  {
    forall id | id in now
      ensures !Claimable(now[id], at)
    {
      assert !Offered(now, at, {}, id);
    }
  }

  // ----- the benchmark's verdict -----

  datatype ClaimRecord = ClaimRecord(id: JobId, worker: WorkerId)

  function Ids(records: seq<ClaimRecord>): seq<JobId> {
    if records == [] then [] else Ids(Front(records)) + [Last(records).id]
  }

  lemma {:induction false} IdsIndexed(records: seq<ClaimRecord>)
    ensures |Ids(records)| == |records| && forall i :: 0 <= i < |records| ==> Ids(records)[i] == records[i].id
  {
    if records != [] {
      IdsIndexed(Front(records));
    }
  }

  /** The duplicate check accounts for every record: it is the first for its job, or a duplicate.
      So the verdict is clean exactly when no job was handed out twice. */
  method CountDuplicates(records: seq<ClaimRecord>) returns (seen: map<JobId, WorkerId>, dupes: nat)
    ensures seen.Keys == set id | id in Ids(records)
    ensures dupes + |seen| == |records|
    ensures dupes == 0 <==> Distinct(Ids(records))
    ensures NamesLatest(records, seen)
  {
    seen, dupes := map[], 0;
    for n := 0 to |records|
      invariant seen.Keys == set id | id in Ids(records[..n])
      invariant dupes + |seen| == n
      invariant dupes == 0 <==> Distinct(Ids(records[..n]))
      invariant NamesLatest(records[..n], seen)
    {
      var r := records[n];
      ghost var ids := Ids(records[..n]);
      assert records[..n + 1] == records[..n] + [r];
      LatestSnoc(records[..n], seen, r);
      IdsSnoc(records[..n], r);
      assert Ids(records[..n + 1]) == ids + [r.id];
      DistinctSnoc(ids, r.id);
      KeysAfter(seen, ids, r.id, r.worker);
      if r.id in seen {
        dupes := dupes + 1;
      }
      seen := seen[r.id := r.worker];
    }
    assert records[..|records|] == records;
  }

  predicate LastOfItsJob(records: seq<ClaimRecord>, i: nat)
    requires i < |records|
  {
    forall k :: i < k < |records| ==> records[k].id != records[i].id
  }

  /** For each job, the claimer recorded last. */
  ghost predicate NamesLatest(records: seq<ClaimRecord>, seen: map<JobId, WorkerId>) {
    forall i :: 0 <= i < |records| && LastOfItsJob(records, i)
      ==> records[i].id in seen && seen[records[i].id] == records[i].worker
  }

  lemma StillLast(records: seq<ClaimRecord>, r: ClaimRecord, i: nat)
    requires i < |records| && LastOfItsJob(records + [r], i)
    ensures LastOfItsJob(records, i) && records[i].id != r.id
  {
    assert (records + [r])[|records|] == r;
    forall k | i < k < |records|
      ensures records[k].id != records[i].id
    {
      assert (records + [r])[k] == records[k];
    }
  }

  lemma LatestSnoc(records: seq<ClaimRecord>, seen: map<JobId, WorkerId>, r: ClaimRecord)
    requires NamesLatest(records, seen)
    ensures NamesLatest(records + [r], seen[r.id := r.worker])
  {
    forall i | 0 <= i < |records| && LastOfItsJob(records + [r], i)
      ensures records[i].id in seen && records[i].id != r.id && seen[records[i].id] == records[i].worker
    {
      StillLast(records, r, i);
    }
  }

  lemma IdsSnoc(records: seq<ClaimRecord>, r: ClaimRecord)
    ensures Ids(records + [r]) == Ids(records) + [r.id]
  {
    assert Front(records + [r]) == records && Last(records + [r]) == r;
  }

  lemma DistinctSnoc(ids: seq<JobId>, id: JobId)
    ensures Distinct(ids + [id]) <==> Distinct(ids) && id !in ids
  {
    if id in ids {
      var i :| 0 <= i < |ids| && ids[i] == id;
      assert (ids + [id])[i] == (ids + [id])[|ids|];
    }
    if !Distinct(ids) {
      var i, k :| 0 <= i < k < |ids| && ids[i] == ids[k];
      assert (ids + [id])[i] == (ids + [id])[k];
    }
  }

  lemma KeysAfter(seen: map<JobId, WorkerId>, ids: seq<JobId>, id: JobId, w: WorkerId)
    requires seen.Keys == set x | x in ids
    ensures seen[id := w].Keys == set x | x in ids + [id]
    ensures |seen[id := w]| == |seen| + if id in seen then 0 else 1
    ensures id in seen <==> id in ids
  {
    assert seen[id := w].Keys == seen.Keys + {id};
    if id in seen {
      assert seen[id := w].Keys == seen.Keys;
    }
  }

  /** The claims of a run, as the benchmark records them. */
  function Dispatches(es: seq<Event>): seq<ClaimRecord> {
    if es == [] then []
    else if Last(es).Claim? then Dispatches(Front(es)) + [ClaimRecord(Last(es).id, Last(es).worker)]
    else Dispatches(Front(es))
  }

  lemma {:induction false} DispatchAt(es: seq<Event>, id: JobId) returns (i: nat)
    requires id in Ids(Dispatches(es))
    ensures i < |es| && es[i].Claim? && es[i].id == id
  {
    var d := Dispatches(Front(es));
    if Last(es).Claim? {
      assert Front(Dispatches(es)) == d;
    }
    if id in Ids(d) {
      i := DispatchAt(Front(es), id);
    } else {
      i := |es| - 1;
    }
  }

  lemma {:induction false} DispatchesDistinct(c: BackoffConfig, s: Tables, es: seq<Event>)
    requires Valid(c, s, es) && forall i :: 0 <= i < |es| ==> !es[i].Fail? && !es[i].Reap?
    ensures Distinct(Ids(Dispatches(es)))
  {
    if es != [] {
      DispatchesDistinct(c, s, Front(es));
      if Last(es).Claim? {
        var d, id := Dispatches(Front(es)), Last(es).id;
        assert Front(Dispatches(es)) == d;
        if id in Ids(d) {
          var i := DispatchAt(Front(es), id);
          NoDoubleDispatch(c, s, es, i, |es| - 1);
        }
        DistinctSnoc(Ids(d), id);
      }
    }
  }

  /** The benchmark's promise: however many claimers race, with every interleaving of their
      transactions, as long as no lease lapses and nothing is failed, the claims that commit are of
      different jobs, so the verdict is clean. */
  lemma CleanVerdict(c: BackoffConfig, t0: Time, ps: seq<Locks.Step>)
    requires Locks.StepsValid(c, Locks.Initial(t0), ps)
    requires var log := Locks.StepsExec(c, Locks.Initial(t0), ps).log;
             forall i :: 0 <= i < |log| ==> !log[i].Fail? && !log[i].Reap?
    ensures Distinct(Ids(Dispatches(Locks.StepsExec(c, Locks.Initial(t0), ps).log)))
  {
    Refinement.InterleavingsRefineRuns(c, t0, ps);
    DispatchesDistinct(c, Empty(t0), Locks.StepsExec(c, Locks.Initial(t0), ps).log);
  }

  // ----- cleaning up -----

  /** Every record's job is still running under its claimer, on its last attempt, and no job is
      recorded twice. */
  ghost predicate AllHeld(s: Tables, records: seq<ClaimRecord>) {
    && Distinct(Ids(records))
    && forall i :: 0 <= i < |records| ==> Owns(s, records[i].id, records[i].worker) && Exhausted(s.jobs[records[i].id])
  }

  function RunningJobs(jobs: map<JobId, Job>): set<JobId> {
    set k | k in jobs && jobs[k].status == Running
  }

  /** What happens while the claimers race: jobs of one attempt are seeded, and claimed. */
  predicate Races(e: Event) {
    e.Tick? || e.Register? || e.Heartbeat? || e.Claim? || (e.Create? && e.maxAttempts == 1)
  }

  /** Every waiting job is on its last attempt. */
  ghost predicate LastChance(jobs: map<JobId, Job>) {
    forall id :: id in jobs && jobs[id].status == Pending ==> jobs[id].attempts + 1 >= jobs[id].maxAttempts
  }

  lemma ClaimRecorded(c: BackoffConfig, s: Tables, e: Event, records: seq<ClaimRecord>)
    requires Enabled(s, e) && e.Claim? && LastChance(s.jobs) && AllHeld(s, records)
    ensures AllHeld(Apply(c, s, e), records + [ClaimRecord(e.id, e.worker)])
    ensures e.id !in Ids(records) && Ids(records + [ClaimRecord(e.id, e.worker)]) == Ids(records) + [e.id]
  {
    var records' := records + [ClaimRecord(e.id, e.worker)];
    assert Front(records') == records && Last(records') == ClaimRecord(e.id, e.worker);
    IdsIndexed(records);
    assert e.id !in Ids(records);
    DistinctSnoc(Ids(records), e.id);
  }

  /** Every job that was waiting or is new is either waiting or in exactly one record, whose claimer
      holds it; nothing else is recorded and nothing else started running. */
  ghost predicate Raced(was: map<JobId, Job>, now: Tables, records: seq<ClaimRecord>) {
    && LastChance(now.jobs) && AllHeld(now, records)
    && (forall id :: id in RunningJobs(now.jobs) <==> id in RunningJobs(was) || id in Ids(records))
    && (forall id :: id in Ids(records) ==> id !in RunningJobs(was))
    && (forall id :: id in now.jobs && (id !in was || was[id].status == Pending) ==>
         (id in PendingJobs(now.jobs) <==> id !in Ids(records)))
  }

  lemma RaceClaim(c: BackoffConfig, was: map<JobId, Job>, s: Tables, e: Event, records: seq<ClaimRecord>)
    requires Raced(was, s, records) && Enabled(s, e) && e.Claim?
    ensures Raced(was, Apply(c, s, e), records + [ClaimRecord(e.id, e.worker)])
  {
    ClaimRecorded(c, s, e, records);
    assert e.id in s.jobs && s.jobs[e.id].status == Pending;
  }

  lemma RaceOther(c: BackoffConfig, was: map<JobId, Job>, s: Tables, e: Event, records: seq<ClaimRecord>)
    requires Raced(was, s, records) && Enabled(s, e) && Races(e) && !e.Claim?
    ensures Raced(was, Apply(c, s, e), records)
  {
    forall i | 0 <= i < |records|
      ensures Owns(Apply(c, s, e), records[i].id, records[i].worker) && Apply(c, s, e).jobs[records[i].id] == s.jobs[records[i].id]
    {
      assert Owns(s, records[i].id, records[i].worker);
    }
  }

  /** However many claimers race, and whoever wins what, every waiting or seeded job is claimed at
      most once, and its one record says who holds it. */
  lemma {:induction false} RacingClaimers(c: BackoffConfig, s: Tables, es: seq<Event>)
    requires Valid(c, s, es) && LastChance(s.jobs) && forall i :: 0 <= i < |es| ==> Races(es[i])
    ensures Raced(s.jobs, Exec(c, s, es), Dispatches(es))
  {
    if es != [] {
      RacingClaimers(c, s, Front(es));
      var p, records := Exec(c, s, Front(es)), Dispatches(Front(es));
      if Last(es).Claim? {
        RaceClaim(c, s.jobs, p, Last(es), records);
      } else {
        RaceOther(c, s.jobs, p, Last(es), records);
      }
    }
  }

  // ----- cleaning up, in any order -----

  /** The failure of a recorded job under its claimer, or the passing of time. */
  predicate CleansUp(e: Event, records: seq<ClaimRecord>) {
    e.Tick? || (e.Fail? && ClaimRecord(e.id, e.worker) in records)
  }

  predicate FailedIn(es: seq<Event>, id: JobId) {
    exists i :: 0 <= i < |es| && es[i].Fail? && es[i].id == id
  }

  lemma FailedSnoc(es: seq<Event>, id: JobId)
    requires es != []
    ensures FailedIn(es, id) <==> FailedIn(Front(es), id) || (Last(es).Fail? && Last(es).id == id)
  {
  }

  /** The failures are sent by many at once and may land in any order: at every point of it each
      recorded job is FAILED if its failure has landed, and otherwise still its claimer's, so that
      its failure will land; no other job is touched. */
  lemma {:induction false} CleanupInAnyOrder(c: BackoffConfig, s: Tables, es: seq<Event>, records: seq<ClaimRecord>)
    requires Valid(c, s, es) && AllHeld(s, records)
    requires forall i :: 0 <= i < |es| ==> CleansUp(es[i], records)
    ensures var now := Exec(c, s, es);
            && now.jobs.Keys == s.jobs.Keys
            && (forall i :: 0 <= i < |records| ==>
                 if FailedIn(es, records[i].id) then now.jobs[records[i].id].status == Failed
                 else Owns(now, records[i].id, records[i].worker))
            && (forall id :: id in s.jobs && !FailedIn(es, id) ==> now.jobs[id] == s.jobs[id])
            && (forall id :: FailedIn(es, id) ==> id in Ids(records))
  {
    if es != [] {
      CleanupInAnyOrder(c, s, Front(es), records);
      forall id: JobId ensures FailedIn(es, id) <==> FailedIn(Front(es), id) || (Last(es).Fail? && Last(es).id == id) {
        FailedSnoc(es, id);
      }
      IdsIndexed(records);
      var p, e := Exec(c, s, Front(es)), Last(es);
      if e.Fail? {
        var k :| 0 <= k < |records| && records[k] == ClaimRecord(e.id, e.worker);
        assert Ids(records)[k] == e.id;
        assert !FailedIn(Front(es), records[k].id);
        assert p.jobs[e.id] == s.jobs[e.id];
      }
    }
  }

  /** Some waiting jobs have been canceled, nothing else has happened to any job. */
  ghost predicate Withdrawn(was: map<JobId, Job>, now: map<JobId, Job>) {
    && now.Keys == was.Keys
    && forall id :: id in was ==> now[id] == was[id] || (was[id].status == Pending && now[id].status == Canceled)
  }

  lemma WithdrawnTwice(a: map<JobId, Job>, b: map<JobId, Job>, c: map<JobId, Job>)
    requires Withdrawn(a, b) && Withdrawn(b, c)
    ensures Withdrawn(a, c) && PendingJobs(c) <= PendingJobs(b)
  {
    forall id | id in PendingJobs(c)
      ensures id in PendingJobs(b)
    {
      assert id in b;
    }
  }

  method CancelPage(store: Store, page: seq<JobId>)
    requires store.Valid()
    modifies store
    ensures store.Valid() && Withdrawn(old(store.jobs), store.jobs)
    ensures forall i :: 0 <= i < |page| ==> page[i] !in PendingJobs(store.jobs)
  {
    for i := 0 to |page|
      invariant store.Valid() && Withdrawn(old(store.jobs), store.jobs)
      invariant forall k :: 0 <= k < i ==> page[k] !in PendingJobs(store.jobs)
    {
      ghost var before := store.jobs;
      CancelJob(store, page[i]);
      WithdrawnTwice(old(store.jobs), before, store.jobs);
    }
  }

  method CancelJob(store: Store, id: JobId)
    requires store.Valid()
    modifies store
    ensures store.Valid() && Withdrawn(old(store.jobs), store.jobs) && id !in PendingJobs(store.jobs)
  {
    var _ := store.Cancel(id);
  }

  /** Cancels what is waiting, a page at a time, until nothing is; no other job is touched. */
  method CancelPending(store: Store)
    requires store.Valid()
    modifies store
    ensures store.Valid() && PendingJobs(store.jobs) == {} && Withdrawn(old(store.jobs), store.jobs)
  {
    while true
      invariant store.Valid() && Withdrawn(old(store.jobs), store.jobs)
      decreases PendingJobs(store.jobs)
    {
      ghost var before := store.jobs;
      var page := store.ListPending(500);
      if page == [] {
        forall id | id in store.jobs
          ensures id !in PendingJobs(store.jobs)
        {
          assert id !in page;
        }
        return;
      }
      CancelPage(store, page);
      WithdrawnTwice(old(store.jobs), before, store.jobs);
      ghost var first := page[0];
      assert first in PendingJobs(before) && first !in PendingJobs(store.jobs);
    }
  }

  /** Fails every claimed job under the worker that holds it, then cancels what is left. When the
      records are those of a clean run with one attempt per job, every call succeeds, every
      claimed job ends FAILED, nothing waits, and no other job is running that was not before. */
  method Cleanup(store: Store, claimed: seq<ClaimRecord>) returns (failed: Option<Error>)
    requires store.Valid()
    modifies store
    ensures store.Valid()
    ensures old(AllHeld(store.View(), claimed)) ==>
              && failed.None?
              && PendingJobs(store.jobs) == {}
              && RunningJobs(store.jobs) == RunningJobs(old(store.jobs)) - set id | id in Ids(claimed)
              && forall i :: 0 <= i < |claimed| ==> claimed[i].id in store.jobs && store.jobs[claimed[i].id].status == Failed
                                                    && store.jobs[claimed[i].id].lastError == Some("queue-bench cleanup")
  {
    ghost var s0 := store.View();
    failed := FailAll(store, claimed);
    if failed.Some? {
      return;
    }
    ghost var before := store.jobs;
    CancelPending(store);
    if AllHeld(s0, claimed) {
      AllCleaned(s0.jobs, before, store.jobs, claimed);
    }
  }

  method FailAll(store: Store, claimed: seq<ClaimRecord>) returns (failed: Option<Error>)
    requires store.Valid()
    modifies store
    ensures store.Valid()
    ensures old(AllHeld(store.View(), claimed)) ==> failed.None? && CleanedTo(old(store.jobs), store.jobs, claimed, |claimed|)
  {
    failed := None;
    ghost var s0 := store.View();
    ghost var held := AllHeld(s0, claimed);
    for i := 0 to |claimed|
      invariant store.Valid()
      invariant held ==> failed.None? && CleanedTo(s0.jobs, store.jobs, claimed, i)
    {
      var r := claimed[i];
      if held {
        CleanOne(s0, store.View(), store.backoff, claimed, i);
      }
      var reply := store.Fail(r.id, r.worker, Output("", "", None, None), CLEANUP_ERROR);
      if reply.Err? && failed.None? {
        failed := Some(reply.error);
      }
    }
  }

  const CLEANUP_ERROR: string := "queue-bench cleanup"

  ghost predicate CleanedTo(was: map<JobId, Job>, now: map<JobId, Job>, claimed: seq<ClaimRecord>, n: nat)
    requires n <= |claimed|
  {
    && now.Keys == was.Keys
    && (forall i :: 0 <= i < n ==> claimed[i].id in now && now[claimed[i].id].status == Failed
                                   && now[claimed[i].id].lastError == Some("queue-bench cleanup"))
    && (forall id :: id in was && id !in Ids(claimed[..n]) ==> now[id] == was[id])
  }

  lemma CleanOne(s0: Tables, s: Tables, c: BackoffConfig, claimed: seq<ClaimRecord>, n: nat)
    requires AllHeld(s0, claimed) && n < |claimed| && CleanedTo(s0.jobs, s.jobs, claimed, n)
    ensures Owns(s, claimed[n].id, claimed[n].worker)
    ensures CleanedTo(s0.jobs, AfterFail(c, s, claimed[n].id, claimed[n].worker, Output("", "", None, None), CLEANUP_ERROR).jobs, claimed, n + 1)
  {
    var id := claimed[n].id;
    IdsIndexed(claimed);
    IdsIndexed(claimed[..n]);
    assert Front(claimed[..n + 1]) == claimed[..n] && Last(claimed[..n + 1]) == claimed[n];
    assert Ids(claimed[..n + 1]) == Ids(claimed[..n]) + [id];
    assert id !in Ids(claimed[..n]) by {
      forall k | 0 <= k < n
        ensures Ids(claimed[..n])[k] != id
      {
        assert Ids(claimed)[k] != Ids(claimed)[n];
      }
    }
    assert s.jobs[id] == s0.jobs[id];
  }

  lemma AllCleaned(was: map<JobId, Job>, mid: map<JobId, Job>, now: map<JobId, Job>, claimed: seq<ClaimRecord>)
    requires CleanedTo(was, mid, claimed, |claimed|) && Withdrawn(mid, now)
    ensures RunningJobs(now) == RunningJobs(was) - set id | id in Ids(claimed)
    ensures forall i :: 0 <= i < |claimed| ==> claimed[i].id in now && now[claimed[i].id] == mid[claimed[i].id]
  {
    IdsIndexed(claimed);
    assert claimed[..|claimed|] == claimed;
    forall id | id in Ids(claimed)
      ensures id in mid && mid[id].status == Failed
    {
      var k :| 0 <= k < |Ids(claimed)| && Ids(claimed)[k] == id;
      assert claimed[k].id == id;
    }
    StillRunning(was, mid, now, Ids(claimed));
  }

  lemma StillRunning(was: map<JobId, Job>, mid: map<JobId, Job>, now: map<JobId, Job>, ids: seq<JobId>)
    requires mid.Keys == was.Keys && Withdrawn(mid, now)
    requires forall id :: id in ids ==> id in mid && mid[id].status == Failed
    requires forall id :: id in was && id !in ids ==> mid[id] == was[id]
    ensures RunningJobs(now) == RunningJobs(was) - set id | id in ids
  {
    forall id: JobId
      ensures id in RunningJobs(now) <==> id in RunningJobs(was) && id !in ids
    {
      assert id in mid ==> now[id] == mid[id] || mid[id].status == Pending;
    }
  }

  // ----- a worker's report -----

  datatype Report = Success(output: Output) | Failure(output: Output, error: string)

  /** What became of one request: it never reached the server; it ran but its answer did not come
      back, or was a server error; it ran and was answered. */
  datatype Fate = Lost | Unheard | Heard

  function AfterReport(c: BackoffConfig, s: Tables, id: JobId, w: WorkerId, report: Report): Tables {
    match report
    case Success(o) => AfterComplete(c, s, id, w, o)
    case Failure(o, error) => AfterFail(c, s, id, w, o, error)
  }

  method Deliver(store: Store, id: JobId, w: WorkerId, report: Report)
    requires store.Valid()
    modifies store
    ensures store.Valid() && store.clock == old(store.clock)
    ensures store.View() == AfterReport(store.backoff, old(store.View()), id, w, report)
  {
    match report
    case Success(o) => var _ := store.Complete(id, w, o);
    case Failure(o, error) => var _ := store.Fail(id, w, o, error);
  }

  /** The tables after the report ran once, at the given time. */
  function Once(c: BackoffConfig, s: Tables, id: JobId, w: WorkerId, report: Report, at: Time): Tables {
    AfterReport(c, s.(clock := at), id, w, report)
  }

  /** The pauses after n tries: 250 ms, doubled each time. */
  function Paused(n: nat): int {
    250_000_000 * (Pow2(n) - 1)
  }

  /** Up to four requests, stopping at the first answer. However many of them arrive, the tables
      are as if exactly one had -- the first -- and as before if none did. */
  method SendReport(store: Store, id: JobId, w: WorkerId, report: Report, fates: seq<Fate>)
    returns (answered: bool, ghost at: Time)
    requires store.Valid() && |fates| == 4
    modifies store
    ensures store.Valid()
    ensures answered <==> Heard in fates
    ensures exists n :: 0 <= n <= 4 && (forall i :: 0 <= i < n ==> fates[i] != Heard) && (n < 4 ==> fates[n] == Heard)
                        && store.clock == old(store.clock) + Paused(n)
    ensures if forall i :: 0 <= i < 4 ==> fates[i] == Lost
            then store.jobs == old(store.jobs) && store.workers == old(store.workers)
            else && old(store.clock) <= at <= store.clock
                 && store.jobs == Once(store.backoff, old(store.View()), id, w, report, at).jobs
                 && store.workers == Once(store.backoff, old(store.View()), id, w, report, at).workers
  {
    var pause := 250_000_000;
    ghost var s0 := store.View();
    ghost var arrived := false;
    at := store.clock;
    for attempt := 0 to 4
      invariant store.Valid() && s0.clock <= at <= store.clock
      invariant pause == 250_000_000 * Pow2(attempt) && store.clock == s0.clock + Paused(attempt)
      invariant forall i :: 0 <= i < attempt ==> fates[i] != Heard
      invariant arrived <==> exists i :: 0 <= i < attempt && fates[i] != Lost
      invariant if arrived
                then && store.jobs == Once(store.backoff, s0, id, w, report, at).jobs
                     && store.workers == Once(store.backoff, s0, id, w, report, at).workers
                     && !Owns(store.View(), id, w)
                else store.jobs == s0.jobs && store.workers == s0.workers
    {
      if fates[attempt] != Lost {
        Deliver(store, id, w, report);
        if !arrived {
          arrived := true;
          at := store.clock;
        }
        if fates[attempt] == Heard {
          return true, at;
        }
      }
      store.Wait(pause);
      pause := pause * 2;
    }
    answered := false;
  }

  // ----- a report while others act -----

  /** One of the report's requests runs, or something else happens. */
  datatype Turn = Delivery(report: Report) | Meanwhile(event: Event)

  predicate TurnsValid(c: BackoffConfig, s: Tables, ts: seq<Turn>, id: JobId, w: WorkerId)
    decreases |ts|, 0
  {
    ts == [] || (&& TurnsValid(c, s, Front(ts), id, w)
                 && (Last(ts).Meanwhile? ==> Enabled(TurnsExec(c, s, Front(ts), id, w), Last(ts).event)))
  }

  function TurnsExec(c: BackoffConfig, s: Tables, ts: seq<Turn>, id: JobId, w: WorkerId): Tables
    requires TurnsValid(c, s, ts, id, w)
    decreases |ts|, 1
  {
    if ts == [] then s
    else
      var p := TurnsExec(c, s, Front(ts), id, w);
      match Last(ts)
      case Delivery(report) => AfterReport(c, p, id, w, report)
      case Meanwhile(e) => Apply(c, p, e)
  }

  /** How many deliveries changed anything. */
  function Landed(c: BackoffConfig, s: Tables, ts: seq<Turn>, id: JobId, w: WorkerId): nat
    requires TurnsValid(c, s, ts, id, w)
  {
    if ts == [] then 0
    else Landed(c, s, Front(ts), id, w) +
         (if Last(ts).Delivery? && TurnsExec(c, s, ts, id, w) != TurnsExec(c, s, Front(ts), id, w) then 1 else 0)
  }

  /** However often a worker's reports on a job are delivered, and whatever happens in between except
      that the same worker claims the job again, at most one delivery changes the tables; it does so
      only if the worker held the job at the start, and then the job is no longer its own. */
  lemma {:induction false} ReportLandsOnce(c: BackoffConfig, s: Tables, ts: seq<Turn>, id: JobId, w: WorkerId)
    requires TurnsValid(c, s, ts, id, w)
    requires forall i :: 0 <= i < |ts| && ts[i].Meanwhile? ==> !ClaimsJob(ts[i].event, id, w)
    ensures Landed(c, s, ts, id, w) <= if Owns(s, id, w) then 1 else 0
    ensures Landed(c, s, ts, id, w) == 1 || !Owns(s, id, w) ==> !Owns(TurnsExec(c, s, ts, id, w), id, w)
  {
    if ts != [] {
      ReportLandsOnce(c, s, Front(ts), id, w);
    }
  }

  /** And in every interleaving of the store's transactions: between two reports of one worker on
      one job that both took effect, that worker claimed the job again. */
  lemma OneReportPerClaim(c: BackoffConfig, t0: Time, ps: seq<Locks.Step>, i: nat, k: nat, id: JobId, w: WorkerId)
    requires Locks.StepsValid(c, Locks.Initial(t0), ps)
    requires var log := Locks.StepsExec(c, Locks.Initial(t0), ps).log;
             i < k < |log| && ReportsJob(log[i], id, w) && ReportsJob(log[k], id, w)
    ensures var log := Locks.StepsExec(c, Locks.Initial(t0), ps).log;
            exists m :: i < m < k && ClaimsJob(log[m], id, w)
  {
    Refinement.InterleavingsRefineRuns(c, t0, ps);
    ClaimedBetweenReports(c, Empty(t0), Locks.StepsExec(c, Locks.Initial(t0), ps).log, i, k, id, w);
  }
}
