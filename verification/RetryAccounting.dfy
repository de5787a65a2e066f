/** Two ways to count retries: when a job fails, or when it is claimed again. */
module RetryAccounting {
  import opened TextLines
  import opened Lifecycle

  /** The in-memory broker counts a retry at the failure; the database does so when
      the job is claimed again, and a failure only compares the count. */
  datatype Accounting = AtFail | AtClaim

  function FailedUncounted(job: Job, error: string): Job {
    if Terminal(job.state) then job
    else job.(state := if job.retryCount < job.retryLimit then Retry else Failed, error := Some(error))
  }

  function ClaimedAgain(job: Job): Job {
    match job.state
    case Created => job.(state := Active)
    case Retry => job.(state := Active, retryCount := job.retryCount + 1)
    case _ => job
  }

  function Perform(mode: Accounting, job: Job, op: Op): Job {
    if mode.AtClaim? && op.Fail? then FailedUncounted(job, op.error)
    else if mode.AtClaim? && op.Claim? then ClaimedAgain(job)
    else Apply(job, op)
  }

  function PerformAll(mode: Accounting, job: Job, ops: seq<Op>): Job {
    if ops == [] then job else Perform(mode, PerformAll(mode, job, ops[..|ops| - 1]), ops[|ops| - 1])
  }

  lemma {:induction false} PerformAtFail(job: Job, ops: seq<Op>)
    ensures PerformAll(AtFail, job, ops) == ApplyAll(job, ops)
  {
    if ops != [] {
      PerformAtFail(job, ops[..|ops| - 1]);
    }
  }

  /** A waiting retry can still be paid for. */
  predicate Affordable(mode: Accounting, job: Job) {
    job.retryCount <= job.retryLimit && (mode.AtClaim? && job.state.Retry? ==> job.retryCount < job.retryLimit)
  }

  function ClaimsBy(mode: Accounting, job: Job, ops: seq<Op>): nat {
    if ops == [] then 0
    else
      var front := ops[..|ops| - 1];
      ClaimsBy(mode, job, front) + if ops[|ops| - 1].Claim? && Waiting(PerformAll(mode, job, front).state) then 1 else 0
  }

  function ManualRetriesBy(mode: Accounting, job: Job, ops: seq<Op>): nat {
    if ops == [] then 0
    else
      var front := ops[..|ops| - 1];
      ManualRetriesBy(mode, job, front)
      + if ops[|ops| - 1].ManualRetry? && PerformAll(mode, job, front).state.Failed? then 1 else 0
  }

  /** Claims are paid for by the first attempt, counted retries and manual ones; what
      still waits is paid for too, but a retry that is counted at its claim. */
  lemma {:induction false} ClaimsArePaidForBy(mode: Accounting, job: Job, ops: seq<Op>)
    requires Fresh(job)
    ensures var now := PerformAll(mode, job, ops);
            var owed := if now.state.Created? || (now.state.Retry? && mode.AtFail?) then 1 else 0;
            && ClaimsBy(mode, job, ops) + owed <= 1 + now.retryCount + ManualRetriesBy(mode, job, ops)
            && Affordable(mode, now) && now.retryLimit == job.retryLimit
  {
    if ops != [] {
      ClaimsArePaidForBy(mode, job, ops[..|ops| - 1]);
    }
  }

  /** Either way a job is generated at most `retryLimit + 1` times, plus once a manual
      retry. */
  lemma GenerationsBoundedBy(mode: Accounting, job: Job, ops: seq<Op>)
    requires Fresh(job)
    ensures ClaimsBy(mode, job, ops) <= 1 + job.retryLimit + ManualRetriesBy(mode, job, ops)
  {
    ClaimsArePaidForBy(mode, job, ops);
  }

  // ---- When the two differ -------------------------------------------------

  /** A failure moves the job to `retry` or `failed`, or counts. */
  predicate FailingMove(before: Job, after: Job) {
    after.state in {Retry, Failed} && (after.state != before.state || after.retryCount != before.retryCount)
  }

  /** A failure delivered now would disturb the job. */
  predicate Disturbable(mode: Accounting, job: Job) {
    !Terminal(job.state) && (mode.AtClaim? ==> !job.state.Retry?)
  }

  /** Every failure disturbs a job that is not terminal if failures are counted, and
      one that is not waiting for its retry either if claims are. */
  lemma FailDisturbsIff(mode: Accounting, job: Job, error: string)
    requires Affordable(mode, job)
    ensures FailingMove(job, Perform(mode, job, Fail(error))) <==> Disturbable(mode, job)
  {
  }

  /** Failing twice in a row, before any claim: a retry is spent on each failure, or
      none on either. */
  lemma FailedTwice(mode: Accounting, job: Job, first: string, second: string)
    requires job.state.Active? && job.retryCount < job.retryLimit
    ensures var once := Perform(mode, job, Fail(first));
            var twice := Perform(mode, once, Fail(second));
            match mode
            case AtClaim =>
              && twice == once.(error := Some(second))
              && twice.state.Retry? && twice.retryCount == job.retryCount
            case AtFail =>
              && (twice.state.Failed? <==> job.retryCount + 1 == job.retryLimit)
              && (twice.state.Retry? <==> job.retryCount + 2 <= job.retryLimit)
              && (twice.state.Retry? ==> twice.retryCount == job.retryCount + 2)
  {
  }
}
