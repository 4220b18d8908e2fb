/** The contract of the task queue: four job states, a bounded number of attempts,
    and a failed attempt that goes straight back to pending or to dead. */
module TaskQueue {
  import opened Base

  datatype JobStatus = JobPending | JobRunning | JobSucceeded | JobDead

  datatype Job<+P> = Job(payload: P, status: JobStatus, attempts: nat, maxAttempts: nat, runAt: Time, claimedAt: Option<Time>)
  {
    predicate Claimable(now: Time) { status == JobPending && runAt <= now }

    function Claimed(now: Time): Job<P> { this.(status := JobRunning, claimedAt := Some(now)) }

    /** `complete` does not look at the job's current status. */
    function Completed(): Job<P> { this.(status := JobSucceeded) }

    /** `fail` does not look at it either; `delay` is the jittered backoff. */
    function Failed(now: Time, delay: nat): Job<P> {
      if attempts + 1 >= maxAttempts then this.(status := JobDead, attempts := attempts + 1)
      else this.(status := JobPending, attempts := attempts + 1, runAt := now + delay)
    }

    predicate Stuck(claimedBefore: Time) {
      status == JobRunning && claimedAt.Some? && claimedAt.value < claimedBefore
    }
  }

  /** A failed attempt is counted. The job is dead once its attempts are used up, and otherwise due again after the
      backoff. */
  predicate CountsFailure<P(==)>(job: Job<P>, job': Job<P>, now: Time, delay: nat) {
    && job'.payload == job.payload && job'.maxAttempts == job.maxAttempts && job'.claimedAt == job.claimedAt
    && job'.attempts == job.attempts + 1
    && job'.status == (if job.attempts + 1 >= job.maxAttempts then JobDead else JobPending)
    && job'.runAt == (if job.attempts + 1 >= job.maxAttempts then job.runAt else now + delay)
  }

  const MAX_ATTEMPTS: nat := 5

  /** A worker silent for this long is taken for dead and its job is failed on its behalf. */
  const STUCK_AFTER: Time := 10 * MINUTE

  function Enqueued<P>(payload: P, now: Time): Job<P> {
    Job(payload, JobPending, 0, MAX_ATTEMPTS, now, None)
  }
}
