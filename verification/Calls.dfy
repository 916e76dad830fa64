/**
 The store's calls as one caller sees them: what each answers, and what it does to the
 tables, when it runs alone at the current time. Calls that match no row answer without
 changing anything.
 */
module Calls {
  import opened Schema
  import opened Backoff
  import opened Machine
  import opened Invariants
  import opened History

  datatype Error = NotFound | NotOwned | NotCancelable | NoJobs | UnknownWorker | Refused

  datatype Reply<+T> = Ok(value: T) | Err(error: Error)

  function Get(s: Tables, id: JobId): Reply<Job> {
    if id in s.jobs then Ok(s.jobs[id]) else Err(NotFound)
  }

  /** Why a guarded terminal update matched no row. */
  function ReplayOrConflict(s: Tables, id: JobId, w: WorkerId, want: Status): Reply<Job> {
    match Get(s, id)
    case Err(e) => Err(e)
    case Ok(j) =>
      if j.status == want && j.worker == Some(w) then Ok(j)
      else if want == Failed && j.status == Pending && j.worker.None? then Ok(j)
      else Err(NotOwned)
  }

  predicate Owns(s: Tables, id: JobId, w: WorkerId) {
    id in s.jobs && OwnedBy(s.jobs[id], w)
  }

  function CompleteEvent(s: Tables, id: JobId, w: WorkerId, o: Output): Event {
    Complete(id, w, o, s.clock)
  }

  /** The attempt count is read first; alone, nothing changes between the read and the update. */
  function FailEvent(s: Tables, id: JobId, w: WorkerId, o: Output, error: string): Event
    requires id in s.jobs
  {
    Fail(id, w, o, error, s.jobs[id].attempts, s.clock)
  }

  function AfterComplete(c: BackoffConfig, s: Tables, id: JobId, w: WorkerId, o: Output): Tables {
    if Owns(s, id, w) then Apply(c, s, CompleteEvent(s, id, w, o)) else s
  }

  function CompleteReply(c: BackoffConfig, s: Tables, id: JobId, w: WorkerId, o: Output): Reply<Job> {
    if Owns(s, id, w) then Ok(AfterComplete(c, s, id, w, o).jobs[id]) else ReplayOrConflict(s, id, w, Completed)
  }

  function AfterFail(c: BackoffConfig, s: Tables, id: JobId, w: WorkerId, o: Output, error: string): Tables {
    if Owns(s, id, w) then Apply(c, s, FailEvent(s, id, w, o, error)) else s
  }

  function FailReply(c: BackoffConfig, s: Tables, id: JobId, w: WorkerId, o: Output, error: string): Reply<Job> {
    if Owns(s, id, w) then Ok(AfterFail(c, s, id, w, o, error).jobs[id]) else ReplayOrConflict(s, id, w, Failed)
  }

  function AfterRenew(c: BackoffConfig, s: Tables, id: JobId, w: WorkerId, lease: int): Tables {
    if Owns(s, id, w) then Apply(c, s, Renew(id, w, lease, s.clock)) else s
  }

  function RenewReply(c: BackoffConfig, s: Tables, id: JobId, w: WorkerId, lease: int): Reply<Job> {
    if Owns(s, id, w) then Ok(AfterRenew(c, s, id, w, lease).jobs[id])
    else if id in s.jobs then Err(NotOwned) else Err(NotFound)
  }

  function AfterCancel(c: BackoffConfig, s: Tables, id: JobId): Tables {
    if id in s.jobs && s.jobs[id].status == Pending then Apply(c, s, Cancel(id, s.clock)) else s
  }

  function CancelReply(c: BackoffConfig, s: Tables, id: JobId): Reply<Job> {
    if id !in s.jobs then Err(NotFound)
    else if s.jobs[id].status == Pending then Ok(AfterCancel(c, s, id).jobs[id])
    else if s.jobs[id].status == Canceled then Ok(s.jobs[id])
    else Err(NotCancelable)
  }

  // ----- replays -----

  /** Once a completion by w is applied, delivering it again -- at any later point of any run,
      any number of times -- succeeds, shows the row of the first, and changes nothing; and no
      later event on that job exists, so its attempt was counted once. */
  lemma CompletionReplays(c: BackoffConfig, s: Tables, id: JobId, w: WorkerId, o: Output, at: Time,
                          es: seq<Event>, again: Output)
    requires Enabled(s, Complete(id, w, o, at)) && Valid(c, Apply(c, s, Complete(id, w, o, at)), es)
    ensures var done := Apply(c, s, Complete(id, w, o, at));
            var s' := Exec(c, done, es);
            && AfterComplete(c, s', id, w, again) == s'
            && CompleteReply(c, s', id, w, again) == Ok(done.jobs[id])
            && (forall i :: 0 <= i < |es| ==> !Names(es[i], id))
  {
    TerminalForever(c, Apply(c, s, Complete(id, w, o, at)), es, id);
  }

  /** Once a job is canceled, canceling it again -- at any later point of any run -- succeeds, shows
      the row of the first, and changes nothing. */
  lemma CancelReplays(c: BackoffConfig, s: Tables, id: JobId, at: Time, es: seq<Event>)
    requires Enabled(s, Cancel(id, at)) && Valid(c, Apply(c, s, Cancel(id, at)), es)
    ensures var gone := Apply(c, s, Cancel(id, at));
            var s' := Exec(c, gone, es);
            && gone.jobs[id].status == Canceled
            && AfterCancel(c, s', id) == s'
            && CancelReply(c, s', id) == Ok(gone.jobs[id])
  {
    TerminalForever(c, Apply(c, s, Cancel(id, at)), es, id);
  }

  predicate ClaimsJob(e: Event, id: JobId, w: WorkerId) {
    e.Claim? && e.id == id && e.worker == w
  }

  /** A worker that does not own a job cannot come to own it except by claiming it. */
  lemma {:induction false} StaysStale(c: BackoffConfig, s: Tables, es: seq<Event>, id: JobId, w: WorkerId)
    requires Valid(c, s, es) && !Owns(s, id, w)
    requires forall i :: 0 <= i < |es| ==> !ClaimsJob(es[i], id, w)
    ensures !Owns(Exec(c, s, es), id, w)
  {
    if es != [] {
      StaysStale(c, s, Front(es), id, w);
    }
  }

  predicate ReportsJob(e: Event, id: JobId, w: WorkerId) {
    (e.Complete? || e.Fail?) && e.id == id && e.worker == w
  }

  /** Between two reports of one worker on one job that both took effect, it claimed the job again. */
  lemma ClaimedBetweenReports(c: BackoffConfig, s: Tables, es: seq<Event>, i: nat, k: nat, id: JobId, w: WorkerId)
    requires Valid(c, s, es) && i < k < |es| && ReportsJob(es[i], id, w) && ReportsJob(es[k], id, w)
    ensures exists m :: i < m < k && ClaimsJob(es[m], id, w)
  {
    var first, between := es[..i + 1], es[i + 1..k];
    PrefixValid(c, s, es, k + 1);
    assert Front(es[..k + 1]) == es[..k] && Last(es[..k + 1]) == es[k];
    assert es[..k] == first + between;
    assert Front(first) == es[..i] && Last(first) == es[i];
    SplitRun(c, s, first, between);
    if forall m :: i < m < k ==> !ClaimsJob(es[m], id, w) {
      forall n | 0 <= n < |between|
        ensures !ClaimsJob(between[n], id, w)
      {
        assert between[n] == es[i + 1 + n];
      }
      ReportEndsOwnership(c, Exec(c, s, es[..i]), es[i], id, w);
      StaysStale(c, Exec(c, s, first), between, id, w);
    }
  }

  lemma ReportEndsOwnership(c: BackoffConfig, s: Tables, e: Event, id: JobId, w: WorkerId)
    requires Enabled(s, e) && ReportsJob(e, id, w)
    ensures !Owns(Apply(c, s, e), id, w)
  {
  }

  /** A stale worker is harmless. Once a job has left w's hands -- failed, reaped, completed --
      every report or renewal w still sends for it leaves both tables untouched, until w itself
      claims the job again. */
  lemma StaleWorkerHarmless(c: BackoffConfig, s: Tables, e: Event, es: seq<Event>, id: JobId, w: WorkerId,
                            o: Output, error: string, lease: int)
    requires Inv(s) && Enabled(s, e) && Owns(s, id, w) && Names(e, id) && !e.Renew?
    requires Valid(c, Apply(c, s, e), es)
    requires forall i :: 0 <= i < |es| ==> !ClaimsJob(es[i], id, w)
    ensures var s' := Exec(c, Apply(c, s, e), es);
            && AfterComplete(c, s', id, w, o) == s'
            && AfterFail(c, s', id, w, o, error) == s'
            && AfterRenew(c, s', id, w, lease) == s'
            && RenewReply(c, s', id, w, lease) == Err(NotOwned)
  {
    assert RowOk(s.jobs[id]);
    StaysStale(c, Apply(c, s, e), es, id, w);
    RowsPersist(c, Apply(c, s, e), es, id);
  }

  /** What a failure report without ownership is told: success when the job is waiting again --
      whoever asks -- or was failed for good under this worker; a conflict otherwise. */
  lemma UnownedFailReply(c: BackoffConfig, s: Tables, id: JobId, w: WorkerId, o: Output, error: string)
    requires Inv(s) && id in s.jobs && !Owns(s, id, w)
    ensures AfterFail(c, s, id, w, o, error) == s
    ensures FailReply(c, s, id, w, o, error)
         == if s.jobs[id].status == Pending || (s.jobs[id].status == Failed && s.jobs[id].worker == Some(w))
            then Ok(s.jobs[id]) else Err(NotOwned)
  {
    assert RowOk(s.jobs[id]);
  }

  /** What a completion without ownership is told: success only when this worker has completed the job
      already; a conflict when the job waits again, runs under another, or ended otherwise. */
  lemma UnownedCompleteReply(c: BackoffConfig, s: Tables, id: JobId, w: WorkerId, o: Output)
    requires Inv(s) && !Owns(s, id, w)
    ensures AfterComplete(c, s, id, w, o) == s
    ensures CompleteReply(c, s, id, w, o)
         == if id !in s.jobs then Err(NotFound)
            else if s.jobs[id].status == Completed && s.jobs[id].worker == Some(w) then Ok(s.jobs[id])
            else Err(NotOwned)
  {
  }

  /** In every run, a worker whose job went back to the queue is told of a conflict when it completes
      it, whatever has become of the job since, until it claims the job again. */
  lemma LateCompletionConflicts(c: BackoffConfig, s: Tables, e: Event, es: seq<Event>, id: JobId, w: WorkerId, o: Output)
    requires Inv(s) && Enabled(s, e) && Owns(s, id, w) && (e.Fail? || e.Reap?) && e.id == id
    requires Valid(c, Apply(c, s, e), es)
    requires forall i :: 0 <= i < |es| ==> !ClaimsJob(es[i], id, w)
    ensures CompleteReply(c, Exec(c, Apply(c, s, e), es), id, w, o) == Err(NotOwned)
  {
    assert RowOk(s.jobs[id]);
    NotCompletedBy(c, Apply(c, s, e), es, id, w);
  }

  lemma {:induction false} NotCompletedBy(c: BackoffConfig, s: Tables, es: seq<Event>, id: JobId, w: WorkerId)
    requires Valid(c, s, es) && id in s.jobs && !Owns(s, id, w)
    requires !(s.jobs[id].status == Completed && s.jobs[id].worker == Some(w))
    requires forall i :: 0 <= i < |es| ==> !ClaimsJob(es[i], id, w)
    ensures id in Exec(c, s, es).jobs && !Owns(Exec(c, s, es), id, w)
    ensures !(Exec(c, s, es).jobs[id].status == Completed && Exec(c, s, es).jobs[id].worker == Some(w))
  {
    if es != [] {
      NotCompletedBy(c, s, Front(es), id, w);
    }
  }
}
