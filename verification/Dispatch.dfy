/**
 Which job a claim hands out, and why no available job waits forever.
 */
module Dispatch {
  import opened Schema
  import opened Backoff
  import opened Machine

  /** ORDER BY available_at, id */
  predicate Before(jobs: map<JobId, Job>, i: JobId, k: JobId)
    requires i in jobs && k in jobs
  {
    jobs[i].availableAt < jobs[k].availableAt || (jobs[i].availableAt == jobs[k].availableAt && i < k)
  }

  predicate Offered(jobs: map<JobId, Job>, at: Time, locked: set<JobId>, id: JobId) {
    id in jobs && Claimable(jobs[id], at) && id !in locked
  }

  /** The row the claim query returns: the first claimable one that nobody has locked
      (FOR UPDATE SKIP LOCKED LIMIT 1). */
  predicate IsNextClaim(jobs: map<JobId, Job>, at: Time, locked: set<JobId>, id: JobId) {
    && Offered(jobs, at, locked, id)
    && forall k :: k in jobs && Offered(jobs, at, locked, k) && k != id ==> Before(jobs, id, k)
  }

  lemma Pick<T>(xs: set<T>) returns (x: T)
    requires xs != {}
    ensures x in xs
  {
    x :| x in xs;
  }

  lemma {:induction false} FirstOf(jobs: map<JobId, Job>, ids: set<JobId>) returns (first: JobId)
    requires ids != {} && ids <= jobs.Keys
    ensures first in ids && forall k :: k in ids && k != first ==> Before(jobs, first, k)
    decreases |ids|
  {
    var x := Pick(ids);
    var rest := ids - {x};
    if rest == {} {
      first := x;
      assert ids == {x};
    } else {
      var y := FirstOf(jobs, rest);
      first := if Before(jobs, x, y) then x else y;
      assert ids == rest + {x};
    }
  }

  /** A claim comes back empty only when no unlocked job is claimable. */
  lemma NextClaimExists(jobs: map<JobId, Job>, at: Time, locked: set<JobId>, id: JobId) returns (next: JobId)
    requires Offered(jobs, at, locked, id)
    ensures IsNextClaim(jobs, at, locked, next)
  {
    var ids := set k | k in jobs && Offered(jobs, at, locked, k);
    assert id in ids;
    next := FirstOf(jobs, ids);
  }

  // ----- one worker at a time -----

  /** The job goes back to the queue, or gives up its last attempt. */
  predicate HandsBack(e: Event, id: JobId) {
    (e.Fail? || e.Reap?) && e.id == id
  }

  lemma {:induction false} KeptUntilHandedBack(c: BackoffConfig, s: Tables, es: seq<Event>, id: JobId)
    requires Valid(c, s, es) && id in s.jobs && s.jobs[id].status != Pending
    requires forall i :: 0 <= i < |es| ==> !HandsBack(es[i], id)
    ensures id in Exec(c, s, es).jobs && Exec(c, s, es).jobs[id].status != Pending
  {
    if es != [] {
      KeptUntilHandedBack(c, s, Front(es), id);
    }
  }

  /** No double dispatch: between two claims of the same job, it was failed or reaped. */
  lemma NoDoubleDispatch(c: BackoffConfig, s: Tables, es: seq<Event>, i: nat, k: nat)
    requires Valid(c, s, es) && i < k < |es| && es[i].Claim? && es[k].Claim? && es[i].id == es[k].id
    ensures exists m :: i < m < k && HandsBack(es[m], es[i].id)
  {
    var id, first, between := es[i].id, es[..i + 1], es[i + 1..k];
    PrefixValid(c, s, es, k + 1);
    assert Front(es[..k + 1]) == es[..k] && Last(es[..k + 1]) == es[k];
    assert es[..k] == first + between;
    assert Front(first) == es[..i] && Last(first) == es[i];
    SplitRun(c, s, first, between);
    if forall m :: i < m < k ==> !HandsBack(es[m], id) {
      forall n | 0 <= n < |between|
        ensures !HandsBack(between[n], id)
      {
        assert between[n] == es[i + 1 + n];
      }
      KeptUntilHandedBack(c, Exec(c, s, first), between, id);
    }
  }

  // ----- no starvation -----

  /** A transaction that puts a job into the queue, or back into it, began once this job was
      available; one that creates a job at that very time drew a later id. All others may have begun
      at any time. */
  predicate BegunAfter(e: Event, id: JobId, available: Time) {
    e.Create? || e.Fail? || e.Reap? ==> available <= e.at && (e.Create? ==> available < e.at || id < e.id)
  }

  /** Every claim takes the first claimable job: no row was locked when it looked. */
  predicate Uncontended(c: BackoffConfig, s: Tables, es: seq<Event>)
    requires Valid(c, s, es)
  {
    es == [] || (Uncontended(c, s, Front(es))
                 && (Last(es).Claim? ==> IsNextClaim(Exec(c, s, Front(es)).jobs, Last(es).at, {}, Last(es).id)))
  }

  function Ahead(s: Tables, id: JobId): set<JobId>
    requires id in s.jobs
  {
    set k | k in s.jobs && s.jobs[k].status == Pending && k != id && Before(s.jobs, k, id)
  }

  function Claims(es: seq<Event>): nat {
    if es == [] then 0 else Claims(Front(es)) + if Last(es).Claim? then 1 else 0
  }

  predicate Leaves(e: Event, id: JobId) {
    (e.Claim? || e.Cancel?) && e.id == id
  }

  /** New jobs and retries line up behind a job that is already available. */
  lemma NobodyCutsIn(c: BackoffConfig, s: Tables, e: Event, id: JobId)
    requires Enabled(s, e) && id in s.jobs && s.jobs[id].status == Pending
    requires BegunAfter(e, id, s.jobs[id].availableAt) && !Leaves(e, id)
    ensures id in Apply(c, s, e).jobs && Apply(c, s, e).jobs[id] == s.jobs[id]
    ensures Ahead(Apply(c, s, e), id) <= Ahead(s, id)
  {
  }

  /** And a claim that does not take it takes one of those ahead. */
  lemma StepKeepsPlace(c: BackoffConfig, s: Tables, e: Event, id: JobId)
    requires Enabled(s, e) && id in s.jobs && s.jobs[id].status == Pending
    requires BegunAfter(e, id, s.jobs[id].availableAt) && !Leaves(e, id)
    requires e.Claim? ==> IsNextClaim(s.jobs, e.at, {}, e.id)
    ensures id in Apply(c, s, e).jobs && Apply(c, s, e).jobs[id] == s.jobs[id]
    ensures Ahead(Apply(c, s, e), id) <= Ahead(s, id)
    ensures e.Claim? ==> e.id in Ahead(s, id) && e.id !in Ahead(Apply(c, s, e), id)
  {
    NobodyCutsIn(c, s, e, id);
  }

  /** While a job stays in the queue, each claim shortens the line ahead of it. */
  lemma {:induction false} LineShrinks(c: BackoffConfig, s: Tables, es: seq<Event>, id: JobId)
    requires Valid(c, s, es) && id in s.jobs && s.jobs[id].status == Pending && Uncontended(c, s, es)
    requires forall i :: 0 <= i < |es| ==> BegunAfter(es[i], id, s.jobs[id].availableAt) && !Leaves(es[i], id)
    ensures id in Exec(c, s, es).jobs && Exec(c, s, es).jobs[id] == s.jobs[id]
    ensures |Ahead(Exec(c, s, es), id)| + Claims(es) <= |Ahead(s, id)|
  {
    if es != [] {
      LineShrinks(c, s, Front(es), id);
      var p := Exec(c, s, Front(es));
      StepKeepsPlace(c, p, Last(es), id);
      var now, was := Ahead(Exec(c, s, es), id), Ahead(p, id);
      Subset(now, was);
      if Last(es).Claim? {
        Subset(now, was - {Last(es).id});
      }
    }
  }

  lemma {:induction false} Subset<T>(x: set<T>, y: set<T>)
    requires x <= y
    ensures |x| <= |y|
    decreases x
  {
    if x != {} {
      var a :| a in x;
      Subset(x - {a}, y - {a});
    }
  }

  /** No starvation: from the moment a job is available, |ahead| + 1 successful claims are
      enough for it to be claimed (or canceled), whatever else is created, failed, reaped or
      retried from then on, and whenever the other transactions began. */
  lemma NoStarvation(c: BackoffConfig, s: Tables, es: seq<Event>, id: JobId)
    requires Valid(c, s, es) && id in s.jobs && s.jobs[id].status == Pending && Uncontended(c, s, es)
    requires forall i :: 0 <= i < |es| ==> BegunAfter(es[i], id, s.jobs[id].availableAt)
    requires Claims(es) > |Ahead(s, id)|
    ensures exists i :: 0 <= i < |es| && Leaves(es[i], id)
  {
    if forall i :: 0 <= i < |es| ==> !Leaves(es[i], id) {
      LineShrinks(c, s, es, id);
    }
  }
}
