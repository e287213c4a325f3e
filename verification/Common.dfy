/**
 Rows and clocks shared by the master's kernels: a job, a bot, their statuses, and the
 errors the operations report.  Times are nanoseconds on an unbounded integer clock; a
 nullable column or a nil pointer is an Option.
 */
module Common {

  datatype Option<+T> = None | Some(value: T)

  datatype Error =
    | Invalid        // the request itself is malformed
    | NotFound       // no such row, or no job to hand out
    | Unavailable    // the bot is not idle
    | NotAssigned    // the job does not belong to the caller
    | InvalidLease   // the lease token does not match
    | StoreFailed    // the database refused the write

  datatype Result<+T> = Ok(value: T) | Err(error: Error)

  const SECOND: int := 1_000_000_000
  const HOUR: int := 3600 * SECOND

  datatype JobStatus =
    | Pending | Assigned | Starting | Running
    | Completed | Failed | TimedOut | Cancelled

  datatype Job = Job(
    status: JobStatus,
    assignedBot: Option<string>,
    fuzzer: string,
    createdAt: int,
    startedAt: Option<int>,
    completedAt: Option<int>,
    timeoutAt: int,
    leaseToken: Option<string>,
    leaseExpiresAt: Option<int>,
    lastHeartbeat: Option<int>)

  datatype BotStatus = Registering | Idle | Busy | BotTimedOut | BotFailed

  datatype Bot = Bot(
    status: BotStatus,
    currentJob: Option<string>,
    lastSeen: int,
    timeoutAt: int,
    online: bool,
    failureCount: nat,
    capabilities: seq<string>)

  /** A bot is working, or is about to work, on the job. */
  predicate Active(j: Job) {
    j.status.Assigned? || j.status.Starting? || j.status.Running?
  }

  /** The job's story is over. */
  predicate Terminal(j: Job) {
    !Active(j) && !j.status.Pending?
  }

  // ---------------------------------------------------------------- arithmetic

  function Min(a: int, b: int): int {
    if a < b then a else b
  }

  function Max(a: int, b: int): int {
    if a < b then b else a
  }

  function Pow2(k: nat): (r: nat)
    ensures r >= 1
  {
    if k == 0 then 1 else 2 * Pow2(k - 1)
  }
}
