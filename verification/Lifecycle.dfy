/** A job's life: the states, the guarded transitions between them, and what any
    run of them keeps. */
module Lifecycle {
  import opened TextLines
  import opened Catalog

  datatype JobState = Created | Retry | Active | Completed | Cancelled | Failed

  /** What a create call stores besides the job's progress. */
  datatype Order = Order(jobType: string, input: Input, queueName: string)

  datatype Job = Job(order: Order, state: JobState, retryCount: nat, retryLimit: nat,
                     output: Option<string>, error: Option<string>)

  function NewJob(order: Order): Job {
    Job(order, Created, 0, RetryLimit(order.jobType), None, None)
  }

  predicate Terminal(s: JobState) {
    s.Completed? || s.Cancelled? || s.Failed?
  }

  /** Waiting for a watcher to claim it. */
  predicate Waiting(s: JobState) {
    s.Created? || s.Retry?
  }

  /** Occupying capacity: queued, waiting for a retry, or being worked on. */
  predicate InFlight(s: JobState) {
    s.Created? || s.Retry? || s.Active?
  }

  function CompletedWith(job: Job, output: string): Job {
    job.(state := Completed, output := Some(output))
  }

  function FailedOnce(job: Job, error: string): Job {
    if Terminal(job.state) then job
    else if job.retryCount < job.retryLimit then
      job.(state := Retry, retryCount := job.retryCount + 1, error := Some(error))
    else job.(state := Failed, error := Some(error))
  }

  function FailedTerminally(job: Job, error: string): Job {
    if Terminal(job.state) then job else job.(state := Failed, error := Some(error))
  }

  function StoppedByCancel(job: Job): Job {
    if Terminal(job.state) then job else job.(state := Cancelled)
  }

  /** What can happen to a job. A claim finds only waiting jobs, and a manual retry
      throws on every job that has not failed; both then change nothing. */
  datatype Op =
    | Claim
    | Heartbeat
    | Complete(output: string)
    | Fail(error: string)
    | FailTerminal(error: string)
    | Cancel
    | ManualRetry

  function Apply(job: Job, op: Op): Job {
    match op
    case Claim => if Waiting(job.state) then job.(state := Active) else job
    case Heartbeat => job
    case Complete(output) => CompletedWith(job, output)
    case Fail(error) => FailedOnce(job, error)
    case FailTerminal(error) => FailedTerminally(job, error)
    case Cancel => StoppedByCancel(job)
    case ManualRetry => if job.state.Failed? then job.(state := Created, error := None) else job
  }

  function ApplyAll(job: Job, ops: seq<Op>): Job {
    if ops == [] then job else Apply(ApplyAll(job, ops[..|ops| - 1]), ops[|ops| - 1])
  }

  // ---- Bounded generations -------------------------------------------------

  /** How many of the operations really claimed the job. */
  function Claims(job: Job, ops: seq<Op>): nat {
    if ops == [] then 0
    else
      var front := ops[..|ops| - 1];
      Claims(job, front) + if ops[|ops| - 1].Claim? && Waiting(ApplyAll(job, front).state) then 1 else 0
  }

  /** How many of them really retried it by hand. */
  function ManualRetries(job: Job, ops: seq<Op>): nat {
    if ops == [] then 0
    else
      var front := ops[..|ops| - 1];
      ManualRetries(job, front) + if ops[|ops| - 1].ManualRetry? && ApplyAll(job, front).state.Failed? then 1 else 0
  }

  predicate Fresh(job: Job) {
    job.state.Created? && job.retryCount == 0
  }

  /** Every claim is paid for by the first attempt, a counted retry or a manual one. */
  lemma {:induction false} ClaimsArePaidFor(job: Job, ops: seq<Op>)
    requires Fresh(job)
    ensures var now := ApplyAll(job, ops);
            && Claims(job, ops) + (if Waiting(now.state) then 1 else 0) <= 1 + now.retryCount + ManualRetries(job, ops)
            && now.retryCount <= now.retryLimit == job.retryLimit
  {
    if ops != [] {
      ClaimsArePaidFor(job, ops[..|ops| - 1]);
    }
  }

  /** A job is generated at most `retryLimit + 1` times, plus once a manual retry. */
  lemma GenerationsBounded(job: Job, ops: seq<Op>)
    requires Fresh(job)
    ensures Claims(job, ops) <= 1 + job.retryLimit + ManualRetries(job, ops)
  {
    ClaimsArePaidFor(job, ops);
  }

  /** What the retry budgets come to: four generations of an interactive job and
      three of any other, each job's manual retries aside; and no fewer. */
  lemma GenerationsByType(order: Order, ops: seq<Op>)
    requires IsJobType(order.jobType)
    ensures var most := if IsInteractive(order.jobType) then 4 else 3;
            && Claims(NewJob(order), ops) <= most + ManualRetries(NewJob(order), ops)
            && Claims(NewJob(order), FailingRuns(most)) == most
            && ManualRetries(NewJob(order), FailingRuns(most)) == 0
  {
    hide Claims, ManualRetries, FailingRuns, IsInteractive, IsAi, IsJobType;
    var most := if IsInteractive(order.jobType) then 4 else 3;
    if IsInteractive(order.jobType) {
      InteractiveIsAi(order.jobType);
    }
    GenerationsBounded(NewJob(order), ops);
    FailingJobReachesBound(NewJob(order), most);
  }

  function FailingRuns(n: nat): seq<Op> {
    if n == 0 then [] else FailingRuns(n - 1) + [Claim, Fail("runner failed")]
  }

  lemma ApplyTwo(job: Job, ops: seq<Op>, a: Op, b: Op)
    ensures ApplyAll(job, ops + [a, b]) == Apply(Apply(ApplyAll(job, ops), a), b)
    ensures a.Claim? && Waiting(ApplyAll(job, ops).state) && !b.Claim? ==>
              Claims(job, ops + [a, b]) == Claims(job, ops) + 1
    ensures !a.ManualRetry? && !b.ManualRetry? ==> ManualRetries(job, ops + [a, b]) == ManualRetries(job, ops)
  {
    var all := ops + [a, b];
    assert all[..|all| - 1] == ops + [a];
    assert (ops + [a])[..|ops|] == ops;
  }

  /** The bound is reached: a job that keeps failing is generated that often. */
  lemma {:induction false} FailingJobReachesBound(job: Job, n: nat)
    requires Fresh(job) && n <= job.retryLimit + 1
    ensures Claims(job, FailingRuns(n)) == n && ManualRetries(job, FailingRuns(n)) == 0
    ensures var now := ApplyAll(job, FailingRuns(n));
            && now.retryLimit == job.retryLimit
            && (n <= job.retryLimit ==> Waiting(now.state) && now.retryCount == n)
            && (n == job.retryLimit + 1 ==> now.state.Failed?)
  {
    if n > 0 {
      FailingJobReachesBound(job, n - 1);
      ApplyTwo(job, FailingRuns(n - 1), Claim, Fail("runner failed"));
    }
  }

  // ---- Terminal states -----------------------------------------------------

  /** Only a manual retry leaves `failed`, and only a completion overwrites. */
  lemma TerminalStays(job: Job, op: Op)
    requires Terminal(job.state) && Apply(job, op) != job
    ensures op.Complete? || (op.ManualRetry? && job.state.Failed?)
  {
  }

  /** A completed job keeps its output through any run without another completion. */
  lemma {:induction false} CompletedStays(job: Job, ops: seq<Op>)
    requires job.state.Completed? && forall i :: 0 <= i < |ops| ==> !ops[i].Complete?
    ensures ApplyAll(job, ops) == job
  {
    if ops != [] {
      CompletedStays(job, ops[..|ops| - 1]);
    }
  }

  /** Only a manual retry brings a job back into flight. */
  lemma OnlyRetryRevives(job: Job, op: Op)
    requires !InFlight(job.state) && InFlight(Apply(job, op).state)
    ensures op.ManualRetry? && job.state.Failed?
  {
  }

  // ---- Counting ------------------------------------------------------------

  predicate Counts(job: Job, types: set<string>) {
    job.order.jobType in types && InFlight(job.state)
  }

  /** How many jobs of some types are in flight. */
  function CountInFlight(jobs: seq<Job>, types: set<string>): nat {
    if jobs == [] then 0
    else CountInFlight(jobs[..|jobs| - 1], types) + if Counts(jobs[|jobs| - 1], types) then 1 else 0
  }

  /** The same, as the size of a set: the jobs of these types that are queued, waiting
      for a retry, or being worked on. */
  ghost function InFlightOf(jobs: seq<Job>, types: set<string>): nat {
    |set i | 0 <= i < |jobs| && jobs[i].order.jobType in types && jobs[i].state in {Created, Retry, Active}|
  }

  ghost function InFlightAt(jobs: seq<Job>, types: set<string>): set<int> {
    set i | 0 <= i < |jobs| && jobs[i].order.jobType in types && jobs[i].state in {Created, Retry, Active}
  }

  lemma InFlightLast(jobs: seq<Job>, types: set<string>)
    requires jobs != []
    ensures var n := |jobs| - 1;
            InFlightAt(jobs, types) == InFlightAt(jobs[..n], types) + if Counts(jobs[n], types) then {n} else {}
  {
    var n := |jobs| - 1;
    forall i
      ensures i in InFlightAt(jobs, types)
         <==> i in InFlightAt(jobs[..n], types) || (i == n && Counts(jobs[n], types))
    {
      if 0 <= i < n {
        assert jobs[..n][i] == jobs[i];
      }
    }
  }

  lemma {:induction false} CountIsInFlightOf(jobs: seq<Job>, types: set<string>)
    ensures CountInFlight(jobs, types) == InFlightOf(jobs, types)
  {
    assert InFlightOf(jobs, types) == |InFlightAt(jobs, types)|;
    if jobs == [] {
      assert InFlightAt(jobs, types) == {};
    } else {
      hide Counts;
      var n := |jobs| - 1;
      CountIsInFlightOf(jobs[..n], types);
      InFlightLast(jobs, types);
      assert n !in InFlightAt(jobs[..n], types);
    }
  }

  lemma CountAdded(jobs: seq<Job>, job: Job, types: set<string>)
    ensures CountInFlight(jobs + [job], types) == CountInFlight(jobs, types) + if Counts(job, types) then 1 else 0
  {
    assert (jobs + [job])[..|jobs|] == jobs;
  }

  lemma {:induction false} CountChanged(jobs: seq<Job>, i: nat, job: Job, types: set<string>)
    requires i < |jobs|
    ensures CountInFlight(jobs[i := job], types) + (if Counts(jobs[i], types) then 1 else 0)
         == CountInFlight(jobs, types) + (if Counts(job, types) then 1 else 0)
  {
    var n := |jobs| - 1;
    if i < n {
      CountChanged(jobs[..n], i, job, types);
      assert jobs[i := job][..n] == jobs[..n][i := job];
    } else {
      assert jobs[i := job][..n] == jobs[..n];
    }
  }

  lemma {:induction false} CountSplits(jobs: seq<Job>, a: set<string>, b: set<string>)
    requires a !! b
    ensures CountInFlight(jobs, a + b) == CountInFlight(jobs, a) + CountInFlight(jobs, b)
  {
    if jobs != [] {
      CountSplits(jobs[..|jobs| - 1], a, b);
    }
  }
}
