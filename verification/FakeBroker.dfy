/** The in-memory broker: a map of jobs in insertion order. */
module FakeBroker {
  import opened TextLines
  import opened Catalog
  import opened Lifecycle
  import opened Policies
  import opened Refusals

  // Every operation is one guarded lifecycle step of one job, and a job's id is its
  // position.

  datatype Admission =
    | Admitted(id: nat, inFlight: nat, reserveInFlight: Option<nat>)
    | Refused(inFlight: nat, reserveInFlight: Option<nat>)

  /** The job sits in the queue that its type and input name. */
  predicate Routed(job: Job) {
    IsJobType(job.order.jobType) && QueueNameForJob(job.order.jobType, job.order.input) == Ok(job.order.queueName)
  }

  predicate AllRouted(jobs: seq<Job>) {
    forall i :: 0 <= i < |jobs| ==> Routed(jobs[i])
  }

  function Required(job: Job): Capability
    requires Routed(job)
  {
    RequiredCapability(job.order.jobType, job.order.input).value
  }

  predicate Claimable(job: Job, queues: seq<string>) {
    Waiting(job.state) && job.order.queueName in queues
  }

  predicate IsFirst(jobs: seq<Job>, i: nat, p: Job -> bool) {
    && i < |jobs| && p(jobs[i])
    && forall k :: 0 <= k < i ==> !p(jobs[k])
  }

  predicate NoneOf(jobs: seq<Job>, p: Job -> bool) {
    forall k :: 0 <= k < |jobs| ==> !p(jobs[k])
  }

  /** What a claim may return: the oldest claimable interactive job, else the oldest
      claimable one, and nothing only when nothing is claimable. */
  predicate ClaimChoice(jobs: seq<Job>, queues: seq<string>, choice: Option<nat>) {
    var claimable := (job: Job) => Claimable(job, queues);
    var interactive := (job: Job) => Claimable(job, queues) && IsInteractive(job.order.jobType);
    match choice
    case None => NoneOf(jobs, claimable)
    case Some(i) => IsFirst(jobs, i, interactive) || (NoneOf(jobs, interactive) && IsFirst(jobs, i, claimable))
  }

  /** The watcher with these capabilities can run the job now. */
  predicate Runnable(job: Job, accepted: set<Capability>)
    requires Routed(job)
  {
    job.state in {Created, JobState.Retry} && Required(job) in accepted
  }

  /** A claimed job can run on the watcher that claimed it; a background job is handed
      out only when no interactive job is waiting for that watcher; and no older job of
      the same kind is passed over. */
  lemma ClaimedJobIsRunnable(jobs: seq<Job>, accepted: set<Capability>, choice: Option<nat>)
    requires AllRouted(jobs) && ClaimChoice(jobs, QueueNamesForCapabilities(accepted), choice)
    ensures choice.Some? ==> choice.value < |jobs| && Runnable(jobs[choice.value], accepted)
    ensures choice.None? ==> forall k :: 0 <= k < |jobs| ==> !Runnable(jobs[k], accepted)
    ensures choice.Some? && !IsInteractive(jobs[choice.value].order.jobType) ==>
              forall k :: 0 <= k < |jobs| && Runnable(jobs[k], accepted) ==> !IsInteractive(jobs[k].order.jobType)
    ensures choice.Some? ==> forall k :: 0 <= k < choice.value && Runnable(jobs[k], accepted) ==>
                               IsInteractive(jobs[choice.value].order.jobType) && !IsInteractive(jobs[k].order.jobType)
  {
    hide QueueNamesForCapabilities, RequiredCapability, IsJobType, IsInteractive, QueueNameForJob;
    forall k | 0 <= k < |jobs|
      ensures Claimable(jobs[k], QueueNamesForCapabilities(accepted)) <==> Runnable(jobs[k], accepted)
    {
      assert Routed(jobs[k]);
      ClaimableIffCapable(jobs[k].order.jobType, jobs[k].order.input, accepted);
    }
  }

  class FakeJobBroker {
    var jobs: seq<Job>

    constructor ()
      ensures jobs == []
    {
      jobs := [];
    }

    /** `input` is what the type's schema made of the caller's input, if anything. */
    method Create(jobType: string, input: Option<Input>) returns (r: Result<nat>)
      requires IsJobType(jobType)
      modifies this
      ensures r.Ok? <==> input.Some? && QueueNameForJob(jobType, input.value).Ok?
      ensures r.Ok? ==> r.value == |old(jobs)|
                        && jobs == old(jobs)
                                   + [NewJob(Order(jobType, input.value, QueueNameForJob(jobType, input.value).value))]
                        && jobs[r.value].state.Created? && jobs[r.value].retryCount == 0
                        && jobs[r.value].output.None? && jobs[r.value].error.None?
      ensures r.Err? ==> jobs == old(jobs)
      ensures AllRouted(old(jobs)) ==> AllRouted(jobs)
    {
      hide IsJobType, QueueNameForJob;
      match input {
        case None =>
          r := Err("invalid input");
        case Some(fields) =>
          match QueueNameForJob(jobType, fields) {
            case Err(m) =>
              r := Err(m);
            case Ok(queueName) =>
              r := Ok(|jobs|);
              jobs := jobs + [NewJob(Order(jobType, fields, queueName))];
          }
      }
    }

    method CountInFlightSync(types: set<string>) returns (count: nat)
      ensures count == CountInFlight(jobs, types)
    {
      count := 0;
      for i := 0 to |jobs|
        invariant count == CountInFlight(jobs[..i], types)
      {
        assert jobs[..i + 1] == jobs[..i] + [jobs[i]];
        CountAdded(jobs[..i], jobs[i], types);
        if Counts(jobs[i], types) {
          count := count + 1;
        }
      }
      assert jobs[..|jobs|] == jobs;
    }

    /** Counts, decides and creates without interleaving. */
    method CreateIfAdmitted(jobType: string, input: Option<Input>, capacity: Capacity) returns (r: Result<Admission>)
      requires IsJobType(jobType)
      modifies this
      ensures var inFlight := CountInFlight(old(jobs), capacity.types);
              var reserve :=
                if capacity.reserve.Some? then CountInFlight(old(jobs), capacity.reserve.value.types) else 0;
              var blocked := Blocked(capacity, inFlight, reserve);
              var seen := if capacity.reserve.Some? then Some(reserve) else None;
              && (r.Err? <==> !blocked && (input.None? || QueueNameForJob(jobType, input.value).Err?))
              && (r.Ok? && blocked ==> r.value == Refused(inFlight, seen))
              && (r.Ok? && !blocked ==> r.value == Admitted(|old(jobs)|, inFlight, seen))
      ensures FollowsRules(capacity, old(jobs), r.Ok? && r.value.Refused?)
      ensures r.Ok? && r.value.Admitted? ==>
                input.Some? && QueueNameForJob(jobType, input.value).Ok?
                && jobs == old(jobs)
                           + [NewJob(Order(jobType, input.value, QueueNameForJob(jobType, input.value).value))]
      ensures r.Err? || r.value.Refused? ==> jobs == old(jobs)
      ensures AllRouted(old(jobs)) ==> AllRouted(jobs)
    {
      hide IsJobType, QueueNameForJob, CountInFlight, FollowsRules, Blocked;
      BlockedFollowsRules(capacity, jobs);
      var inFlight := CountInFlightSync(capacity.types);
      var reserveInFlight := 0;
      var seen := None;
      if capacity.reserve.Some? {
        reserveInFlight := CountInFlightSync(capacity.reserve.value.types);
        seen := Some(reserveInFlight);
      }
      if Blocked(capacity, inFlight, reserveInFlight) {
        r := Ok(Refused(inFlight, seen));
      } else {
        var created := Create(jobType, input);
        match created {
          case Err(m) => r := Err(m);
          case Ok(id) => r := Ok(Admitted(id, inFlight, seen));
        }
      }
    }

    method Claim(capabilities: set<Capability>) returns (claimed: Option<nat>)
      modifies this
      ensures ClaimChoice(old(jobs), QueueNamesForCapabilities(capabilities), claimed)
      ensures claimed.Some? ==> claimed.value < |old(jobs)|
                                && jobs == old(jobs)[claimed.value := Apply(old(jobs)[claimed.value], Op.Claim)]
      ensures claimed.Some? ==>
                var job := old(jobs)[claimed.value];
                job.state in {Created, JobState.Retry} && jobs[claimed.value] == job.(state := Active)
      ensures claimed.None? ==> jobs == old(jobs)
      ensures AllRouted(old(jobs)) ==> AllRouted(jobs)
    {
      hide QueueNamesForCapabilities, IsInteractive, Routed;
      var queues := QueueNamesForCapabilities(capabilities);
      var oldest: Option<nat> := None;
      var interactive: Option<nat> := None;
      for i := 0 to |jobs|
        invariant oldest.Some? ==> oldest.value < i && IsFirst(jobs, oldest.value, job => Claimable(job, queues))
        invariant oldest.None? ==> NoneOf(jobs[..i], job => Claimable(job, queues))
        invariant interactive.Some? ==> interactive.value < i
        invariant interactive.Some? ==>
                    IsFirst(jobs, interactive.value, job => Claimable(job, queues) && IsInteractive(job.order.jobType))
        invariant interactive.None? ==>
                    NoneOf(jobs[..i], job => Claimable(job, queues) && IsInteractive(job.order.jobType))
      {
        if Claimable(jobs[i], queues) {
          if oldest.None? {
            oldest := Some(i);
          }
          if interactive.None? && IsInteractive(jobs[i].order.jobType) {
            interactive := Some(i);
          }
        }
      }
      assert jobs[..|jobs|] == jobs;
      claimed := if interactive.Some? then interactive else oldest;
      if claimed.Some? {
        RoutedAfter(jobs, claimed.value, Op.Claim);
        jobs := jobs[claimed.value := jobs[claimed.value].(state := Active)];
      }
    }

    /** Every other operation looks its job up, and changes that job alone. */
    ghost predicate Stepped(before: seq<Job>, id: nat, op: Op, r: Result<Job>)
      reads this
    {
      && (r.Err? <==> id >= |before|)
      && (r.Err? ==> jobs == before)
      && (r.Ok? ==> jobs == before[id := Apply(before[id], op)] && r.value == jobs[id])
    }

    method Heartbeat(id: nat) returns (r: Result<Job>)
      ensures Stepped(jobs, id, Op.Heartbeat, r)
    {
      r := GetExisting(id);
    }

    method Complete(id: nat, output: string) returns (r: Result<Job>)
      modifies this
      ensures Stepped(old(jobs), id, Op.Complete(output), r)
      ensures r.Ok? ==> jobs[id] == old(jobs)[id].(state := Completed, output := Some(output))
    {
      r := GetExisting(id);
      if r.Ok? {
        var completed := r.value.(state := Completed, output := Some(output));
        jobs := jobs[id := completed];
        r := Ok(completed);
      }
    }

    method Fail(id: nat, error: string) returns (r: Result<Job>)
      modifies this
      ensures Stepped(old(jobs), id, Op.Fail(error), r)
      ensures r.Ok? ==>
                var job := old(jobs)[id];
                jobs[id] == if job.state in {Completed, Cancelled, Failed} then job
                            else if job.retryCount < job.retryLimit
                            then job.(state := JobState.Retry, retryCount := job.retryCount + 1, error := Some(error))
                            else job.(state := Failed, error := Some(error))
    {
      r := GetExisting(id);
      if r.Err? || Terminal(r.value.state) {
        return;
      }
      var job := r.value;
      var updated;
      if job.retryCount < job.retryLimit {
        updated := job.(state := JobState.Retry, retryCount := job.retryCount + 1, error := Some(error));
      } else {
        updated := job.(state := Failed, error := Some(error));
      }
      jobs := jobs[id := updated];
      r := Ok(updated);
    }

    method FailTerminal(id: nat, error: string) returns (r: Result<Job>)
      modifies this
      ensures Stepped(old(jobs), id, Op.FailTerminal(error), r)
      ensures r.Ok? ==>
                var job := old(jobs)[id];
                jobs[id] == if job.state in {Completed, Cancelled, Failed} then job
                            else job.(state := Failed, error := Some(error))
    {
      r := GetExisting(id);
      if r.Err? || Terminal(r.value.state) {
        return;
      }
      var failed := r.value.(state := Failed, error := Some(error));
      jobs := jobs[id := failed];
      r := Ok(failed);
    }

    method Cancel(id: nat) returns (r: Result<Job>)
      modifies this
      ensures Stepped(old(jobs), id, Op.Cancel, r)
      ensures r.Ok? ==>
                var job := old(jobs)[id];
                jobs[id] == if job.state in {Completed, Cancelled, Failed} then job else job.(state := Cancelled)
    {
      r := GetExisting(id);
      if r.Err? || Terminal(r.value.state) {
        return;
      }
      var cancelled := r.value.(state := Cancelled);
      jobs := jobs[id := cancelled];
      r := Ok(cancelled);
    }

    /** Throws, changing nothing, unless the job has failed. */
    method Retry(id: nat) returns (r: Result<Job>)
      modifies this
      ensures r.Ok? <==> id < |old(jobs)| && old(jobs)[id].state.Failed?
      ensures r.Ok? ==> Stepped(old(jobs), id, Op.ManualRetry, r)
      ensures r.Ok? ==> jobs[id] == old(jobs)[id].(state := Created, error := None)
      ensures r.Err? ==> jobs == old(jobs)
    {
      r := GetExisting(id);
      if r.Err? {
        return;
      }
      if !r.value.state.Failed? {
        return Err("only failed jobs can be retried");
      }
      var retried := r.value.(state := Created, error := None);
      jobs := jobs[id := retried];
      r := Ok(retried);
    }

    method GetExisting(id: nat) returns (r: Result<Job>)
      ensures r.Err? <==> id >= |jobs|
      ensures r.Ok? ==> r.value == jobs[id] && jobs[id := r.value] == jobs
    {
      if id < |jobs| {
        r := Ok(jobs[id]);
      } else {
        r := Err("job not found");
      }
    }
  }

  /** No operation moves a job to another queue. */
  lemma RoutedAfter(jobs: seq<Job>, id: nat, op: Op)
    requires id < |jobs|
    ensures AllRouted(jobs) ==> AllRouted(jobs[id := Apply(jobs[id], op)])
  {
    hide IsJobType, QueueNameForJob;
    var after := jobs[id := Apply(jobs[id], op)];
    assert after[id].order == jobs[id].order;
    if AllRouted(jobs) {
      forall k | 0 <= k < |after|
        ensures Routed(after[k])
      {
        assert Routed(jobs[k]);
      }
    }
  }

  // ---- Runs of the whole broker --------------------------------------------

  /** The single-job history a broker run leaves behind for one job. */
  function History(ops: seq<(nat, Op)>, id: nat): seq<Op> {
    if ops == [] then []
    else History(ops[..|ops| - 1], id) + if ops[|ops| - 1].0 == id then [ops[|ops| - 1].1] else []
  }

  function RunAll(jobs: seq<Job>, ops: seq<(nat, Op)>): (r: seq<Job>)
    ensures |r| == |jobs|
  {
    if ops == [] then jobs
    else
      var r, last := RunAll(jobs, ops[..|ops| - 1]), ops[|ops| - 1];
      if last.0 < |r| then r[last.0 := Apply(r[last.0], last.1)] else r
  }

  /** Jobs do not interfere: each one sees only its own history. */
  lemma {:induction false} JobsAreIndependent(jobs: seq<Job>, ops: seq<(nat, Op)>, id: nat)
    requires id < |jobs|
    ensures RunAll(jobs, ops)[id] == ApplyAll(jobs[id], History(ops, id))
  {
    hide Apply;
    if ops != [] {
      var front, last := ops[..|ops| - 1], ops[|ops| - 1];
      JobsAreIndependent(jobs, front, id);
      var h := History(front, id);
      if last.0 == id {
        assert (h + [last.1])[..|h|] == h;
      } else {
        assert h + [] == h;
      }
    }
  }

  /** In every run of the broker a job created by it is claimed at most
      `retryLimit + 1` times, plus once for each manual retry. */
  lemma BrokerGenerationsBounded(jobs: seq<Job>, ops: seq<(nat, Op)>, id: nat)
    requires id < |jobs| && Fresh(jobs[id])
    ensures Claims(jobs[id], History(ops, id)) <= 1 + jobs[id].retryLimit + ManualRetries(jobs[id], History(ops, id))
    ensures RunAll(jobs, ops)[id].retryCount <= RunAll(jobs, ops)[id].retryLimit == jobs[id].retryLimit
  {
    JobsAreIndependent(jobs, ops, id);
    GenerationsBounded(jobs[id], History(ops, id));
    ClaimsArePaidFor(jobs[id], History(ops, id));
  }
}
