/**
 The two tables of the queue, row by row: `jobs` and `workers`
 (migrations/001_init.sql, internal/jobs/job.go).

 Time is counted in integer ticks of one nanosecond, the unit of Go's `time.Duration`.
 Text is a sequence of bytes, one `char` each.
 */
module Schema {

  datatype Option<+T> = None | Some(value: T)

  type Time = int

  type JobId = int

  /** The API refuses a blank worker id before it reaches the store. */
  type WorkerId = w: string | w != "" witness "w"

  datatype Status = Pending | Running | Completed | Failed | Canceled

  /** The four result columns, which every statement writes together. */
  datatype Output = Output(stdout: string, stderr: string, exitCode: Option<int>, durationMs: Option<int>)

  datatype Job = Job(
    typ: string,
    payload: string,
    status: Status,
    attempts: int,
    maxAttempts: int,
    createdAt: Time,
    updatedAt: Time,
    availableAt: Time,
    worker: Option<WorkerId>,
    leaseUntil: Option<Time>,
    lastError: Option<string>,
    output: Option<Output>)

  datatype Worker = Worker(
    host: string,
    registeredAt: Time,
    lastHeartbeat: Time,
    processed: int,
    current: Option<JobId>)

  datatype Tables = Tables(jobs: map<JobId, Job>, workers: map<WorkerId, Worker>, clock: Time)

  predicate Terminal(status: Status) {
    status == Completed || status == Failed || status == Canceled
  }

  function Max(a: int, b: int): int {
    if a < b then b else a
  }

  function Min(a: int, b: int): int {
    if a < b then a else b
  }
}
