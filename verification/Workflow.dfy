/**
 Workflow job records: readiness, and the three pure record updates that every store applies
 when a worker claims, completes or fails a job. Times are integer milliseconds.
 */
module Workflow {
  import opened Wrappers

  type Id = int

  datatype Status = Queued | Running | Succeeded | Failed | Cancelled

  datatype Job = Job(
    id: Id,
    status: Status,
    attempts: int,
    maxAttempts: int,
    runAfter: int,
    createdAt: int,
    lockedBy: Option<Id>,
    lockedAt: Option<int>)

  /** Delay options of the retry back-off; the defaults are one second and one minute. */
  datatype Backoff = Backoff(base: int, max: int)

  const DEFAULT_BACKOFF := Backoff(1000, 60_000)

  predicate Terminal(job: Job) {
    job.status == Succeeded || job.status == Failed || job.status == Cancelled
  }

  /** A missing or zero limit means three; any other limit is at least one. */
  function EffectiveMax(maxAttempts: int): int {
    if maxAttempts == 0 then 3 else Max(1, maxAttempts)
  }

  predicate LockExpired(job: Job, now: int, lease: int) {
    job.lockedAt.None? || job.lockedAt.value + lease <= now
  }

  predicate Ready(job: Job, now: int, lease: int) {
    job.status == Queued && job.runAfter <= now && LockExpired(job, now, lease)
  }

  /** The claimed form of a job, whether or not it is ready. */
  function Claimed(job: Job, now: int, worker: Id): Job {
    job.(status := Running,
         attempts := Max(0, job.attempts) + 1,
         maxAttempts := EffectiveMax(job.maxAttempts),
         lockedBy := Some(worker),
         lockedAt := Some(now))
  }

  function ClaimRecord(job: Job, now: int, lease: int, worker: Id): Option<Job> {
    if Ready(job, now, lease) then Some(Claimed(job, now, worker)) else None
  }

  function CompleteRecord(job: Job): Job {
    job.(status := Succeeded, lockedBy := None, lockedAt := None)
  }

  function FailRecord(job: Job, now: int, retryable: bool, backoff: Backoff): Job {
    var attempts := Max(0, job.attempts);
    var again := retryable && attempts < EffectiveMax(job.maxAttempts);
    job.(status := if again then Queued else Failed,
         runAfter := if again then now + RetryDelay(attempts, backoff) else now,
         lockedBy := None,
         lockedAt := None)
  }

  function Pow2(n: nat): (p: nat)
    ensures p >= 1
  {
    if n == 0 then 1 else 2 * Pow2(n - 1)
  }

  function RetryDelay(attempts: int, backoff: Backoff): int {
    Min(backoff.max, backoff.base * Max(1, Pow2(Max(0, attempts - 1))))
  }

  /** The row update of the stores that lock by SQL or in the state file: the attempt counter grows by one. */
  function Taken(row: Job, now: int, worker: Id): Job {
    row.(status := Running, attempts := row.attempts + 1, lockedBy := Some(worker), lockedAt := Some(now))
  }

  // ---- The Go builder's file store applies its own failure rule and delay. ----

  function GoRetryDelay(attempts: int): int {
    if attempts <= 0 then 1000
    else if attempts > 6 then 32_000
    else 1000 * Pow2(attempts - 1)
  }

  function GoEffectiveMax(maxAttempts: int): int {
    if maxAttempts <= 0 then 3 else maxAttempts
  }

  function GoFailRecord(job: Job, now: int): Job {
    if job.attempts < GoEffectiveMax(job.maxAttempts)
    then job.(status := Queued, runAfter := now + GoRetryDelay(job.attempts), lockedBy := None, lockedAt := None)
    else job.(status := Failed, lockedBy := None, lockedAt := None)
  }

  lemma {:induction false} Pow2Grows(m: nat, n: nat)
    requires m <= n
    ensures Pow2(m) <= Pow2(n)
  {
    if m < n {
      Pow2Grows(m, n - 1);
    }
  }

  /** The default delays agree exactly through the sixth attempt, and Go's never exceeds TypeScript's. */
  lemma RetryDelaysAgree(attempts: int)
    ensures GoRetryDelay(attempts) <= RetryDelay(attempts, DEFAULT_BACKOFF)
    ensures GoRetryDelay(attempts) == RetryDelay(attempts, DEFAULT_BACKOFF) <==> attempts <= 6
  {
    assert Pow2(5) == 32 && Pow2(6) == 64 by {
      assert Pow2(2) == 4;
      assert Pow2(4) == 16;
    }
    if attempts > 6 {
      Pow2Grows(6, attempts - 1);
    } else if attempts > 0 {
      Pow2Grows(attempts - 1, 5);
    }
  }

  /** Each delay is twice the one before it until the longest delay is reached. */
  lemma RetryDelayDoubles(attempts: int, backoff: Backoff)
    requires 0 <= backoff.base <= backoff.max
    ensures attempts <= 1 ==> RetryDelay(attempts, backoff) == backoff.base
    ensures attempts >= 1 ==>
              RetryDelay(attempts + 1, backoff)
              == if 2 * RetryDelay(attempts, backoff) <= backoff.max then 2 * RetryDelay(attempts, backoff) else backoff.max
  {
    if attempts >= 1 {
      var p := Pow2(attempts - 1);
      assert Pow2(attempts) == 2 * p;
      assert backoff.base * (2 * p) == 2 * (backoff.base * p);
      assert backoff.base * p >= 0;
    }
  }

  /**
   A retryable failure leads to the same status in both languages, except for a negative limit:
   TypeScript reads it as one attempt, Go as three.
   */
  lemma FailureStatusesAgree(job: Job, now: int, backoff: Backoff)
    ensures FailRecord(job, now, true, backoff).status == GoFailRecord(job, now).status
        <==> (job.maxAttempts >= 0 || job.attempts <= 0 || job.attempts >= 3)
  {
  }

  /** Both languages store the same claimed record exactly for counters that TypeScript has nothing to correct in. */
  lemma ClaimRecordsAgree(job: Job, now: int, worker: Id)
    ensures Claimed(job, now, worker) == Taken(job, now, worker) <==> job.attempts >= 0 && job.maxAttempts >= 1
  {
    assert Claimed(job, now, worker).attempts == Max(0, job.attempts) + 1;
    assert Claimed(job, now, worker).maxAttempts == EffectiveMax(job.maxAttempts);
  }

  /**
   A retryable failure leaves the same record in both languages exactly when the statuses agree and, if the job is
   queued again, no more than six attempts were made, and otherwise Go's untouched due time happens to be now.
   */
  lemma FailureRecordsAgree(job: Job, now: int)
    ensures FailRecord(job, now, true, DEFAULT_BACKOFF) == GoFailRecord(job, now)
        <==> (job.maxAttempts >= 0 || job.attempts <= 0 || job.attempts >= 3)
             && if GoFailRecord(job, now).status == Queued then job.attempts <= 6 else job.runAfter == now
  {
    RetryDelaysAgree(job.attempts);
    var ts, go := FailRecord(job, now, true, DEFAULT_BACKOFF), GoFailRecord(job, now);
    assert ts == go <==> ts.status == go.status && ts.runAfter == go.runAfter;
  }
}
