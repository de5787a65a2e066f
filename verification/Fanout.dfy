/** The per-tick budget in front of maintenance admission: its counters, and what
    any number of ticks that share one broker can do to it. */
module Fanout {
  import opened TextLines
  import opened Catalog
  import opened Lifecycle
  import opened RetryAccounting
  import opened Policies
  import opened Refusals
  import opened FakeBroker

  datatype Counters = Counters(budget: nat, remaining: nat, attempted: nat, enqueued: nat,
                               deferredByBudget: nat, rejectedByCapacity: nat)

  datatype Outcome = Enqueued(id: nat) | BudgetExhausted | CapacityReached

  function Open(configured: int): Counters {
    var budget: nat := if configured > 0 then configured else 0;
    Counters(budget, budget, 0, 0, 0, 0)
  }

  /** The maintenance policy refuses one more job. */
  predicate Full(jobs: seq<Job>, settings: RateLimit) {
    var capacity := NonInteractivePolicy(settings);
    capacity.Some? && Blocked(capacity.value, CountInFlight(jobs, capacity.value.types), 0)
  }

  function Outcomes(c: Counters, jobs: seq<Job>, settings: RateLimit): Outcome {
    if c.remaining == 0 then BudgetExhausted
    else if Full(jobs, settings) then CapacityReached
    else Enqueued(|jobs|)
  }

  function Tally(c: Counters, outcome: Outcome): Counters {
    match outcome
    case BudgetExhausted => c.(attempted := c.attempted + 1, deferredByBudget := c.deferredByBudget + 1)
    case CapacityReached => c.(attempted := c.attempted + 1, rejectedByCapacity := c.rejectedByCapacity + 1)
    case Enqueued(_) => c.(attempted := c.attempted + 1, enqueued := c.enqueued + 1,
                           remaining := if c.remaining > 0 then c.remaining - 1 else 0)
  }

  class FanoutBudget {
    const budget: nat
    const settings: RateLimit
    var remaining: nat
    var attempted: nat
    var enqueued: nat
    var deferredByBudget: nat
    var rejectedByCapacity: nat

    function Counts(): Counters
      reads this
    {
      Counters(budget, remaining, attempted, enqueued, deferredByBudget, rejectedByCapacity)
    }

    constructor (configured: int, settings: RateLimit)
      ensures Counts() == Open(configured) && this.settings == settings
      ensures remaining == budget == (if configured > 0 then configured else 0)
      ensures attempted == enqueued == deferredByBudget == rejectedByCapacity == 0
    {
      var most := if configured > 0 then configured else 0;
      this.budget := most;
      this.settings := settings;
      remaining := most;
      attempted := 0;
      enqueued := 0;
      deferredByBudget := 0;
      rejectedByCapacity := 0;
    }

    /** A rejected input throws after the attempt has been counted. */
    method Admit(broker: FakeJobBroker, jobType: string, input: Option<Input>) returns (r: Result<Outcome>)
      requires IsJobType(jobType)
      modifies this, broker
      ensures r.Ok? ==> r.value == Outcomes(old(Counts()), old(broker.jobs), settings)
      ensures r.Ok? ==> Counts() == Tally(old(Counts()), r.value)
      ensures r.Ok? ==> (r.value.BudgetExhausted? <==> old(remaining) == 0)
      ensures attempted == old(attempted) + 1
      ensures deferredByBudget == old(deferredByBudget) + if r == Ok(BudgetExhausted) then 1 else 0
      ensures rejectedByCapacity == old(rejectedByCapacity) + if r == Ok(CapacityReached) then 1 else 0
      ensures enqueued == old(enqueued) + if r.Ok? && r.value.Enqueued? then 1 else 0
      ensures remaining == old(remaining) - if r.Ok? && r.value.Enqueued? then 1 else 0
      ensures r.Ok? && old(remaining) > 0 && settings.enabled ==>
                MaintenanceRule(settings, old(broker.jobs), r.value.CapacityReached?)
      ensures !settings.enabled ==> r != Ok(CapacityReached)
      ensures r.Ok? && r.value.Enqueued? ==>
                input.Some? && QueueNameForJob(jobType, input.value).Ok?
                && broker.jobs == old(broker.jobs)
                                  + [NewJob(Order(jobType, input.value, QueueNameForJob(jobType, input.value).value))]
      ensures r.Ok? && !r.value.Enqueued? ==> broker.jobs == old(broker.jobs)
      ensures r.Err? <==> Outcomes(old(Counts()), old(broker.jobs), settings).Enqueued?
                          && (input.None? || QueueNameForJob(jobType, input.value).Err?)
      ensures r.Err? ==> broker.jobs == old(broker.jobs)
                         && Counts() == old(Counts()).(attempted := old(Counts()).attempted + 1)
    {
      hide IsJobType, QueueNameForJob, CountInFlight, AiTypes, InFlightOf;
      attempted := attempted + 1;
      if remaining <= 0 {
        deferredByBudget := deferredByBudget + 1;
        return Ok(BudgetExhausted);
      }
      var capacity := NonInteractivePolicy(settings);
      if capacity.None? {
        var created := broker.Create(jobType, input);
        if created.Err? {
          return Err(created.message);
        }
        remaining := remaining - 1;
        enqueued := enqueued + 1;
        return Ok(Enqueued(created.value));
      }
      var result := broker.CreateIfAdmitted(jobType, input, capacity.value);
      if result.Err? {
        return Err(result.message);
      }
      if result.value.Refused? {
        rejectedByCapacity := rejectedByCapacity + 1;
        return Ok(CapacityReached);
      }
      remaining := remaining - 1;
      enqueued := enqueued + 1;
      return Ok(Enqueued(result.value.id));
    }
  }

  // ---- Many ticks, one broker ----------------------------------------------

  datatype State = State(jobs: seq<Job>, ticks: seq<Counters>)

  /** Ticks open, any open tick tries to enqueue, and jobs move on in between. */
  datatype Event =
    | StartTick(configured: int)
    | TryEnqueue(tick: nat, order: Order)
    | Progress(job: nat, op: Op, mode: Accounting)

  function Do(s: State, e: Event, settings: RateLimit): State {
    match e
    case StartTick(configured) => s.(ticks := s.ticks + [Open(configured)])
    case TryEnqueue(k, order) =>
      if k >= |s.ticks| then s
      else
        var outcome := Outcomes(s.ticks[k], s.jobs, settings);
        State(if outcome.Enqueued? then s.jobs + [NewJob(order)] else s.jobs, s.ticks[k := Tally(s.ticks[k], outcome)])
    case Progress(j, op, mode) =>
      if j >= |s.jobs| then s else s.(jobs := s.jobs[j := Perform(mode, s.jobs[j], op)])
  }

  function Run(jobs: seq<Job>, events: seq<Event>, settings: RateLimit): State {
    if events == [] then State(jobs, [])
    else Do(Run(jobs, events[..|events| - 1], settings), events[|events| - 1], settings)
  }

  predicate Balanced(c: Counters) {
    && c.attempted == c.enqueued + c.deferredByBudget + c.rejectedByCapacity
    && c.enqueued + c.remaining == c.budget
    && (c.deferredByBudget > 0 ==> c.enqueued == c.budget)
  }

  function TotalEnqueued(ticks: seq<Counters>): nat {
    if ticks == [] then 0 else TotalEnqueued(ticks[..|ticks| - 1]) + ticks[|ticks| - 1].enqueued
  }

  lemma {:induction false} TotalChanged(ticks: seq<Counters>, k: nat, c: Counters)
    requires k < |ticks|
    ensures TotalEnqueued(ticks[k := c]) + ticks[k].enqueued == TotalEnqueued(ticks) + c.enqueued
  {
    var n := |ticks| - 1;
    if k < n {
      TotalChanged(ticks[..n], k, c);
      assert ticks[k := c][..n] == ticks[..n][k := c];
    } else {
      assert ticks[k := c][..n] == ticks[..n];
    }
  }

  predicate AllBalanced(ticks: seq<Counters>) {
    forall k :: 0 <= k < |ticks| ==> Balanced(ticks[k])
  }

  lemma TallyBalances(c: Counters, outcome: Outcome)
    requires Balanced(c) && (outcome.BudgetExhausted? <==> c.remaining == 0)
    ensures Balanced(Tally(c, outcome))
    ensures Tally(c, outcome).enqueued == c.enqueued + if outcome.Enqueued? then 1 else 0
  {
  }

  lemma EnqueueIsAccounted(s: State, k: nat, order: Order, settings: RateLimit)
    requires AllBalanced(s.ticks) && k < |s.ticks|
    ensures var t := Do(s, TryEnqueue(k, order), settings);
            AllBalanced(t.ticks) && |t.jobs| - TotalEnqueued(t.ticks) == |s.jobs| - TotalEnqueued(s.ticks)
  {
    hide Full, Balanced, Tally, TotalEnqueued;
    var outcome := Outcomes(s.ticks[k], s.jobs, settings);
    TallyBalances(s.ticks[k], outcome);
    TotalChanged(s.ticks, k, Tally(s.ticks[k], outcome));
  }

  /** Every tick's attempts split into its three outcomes, no tick exceeds its
      budget, a budget deferral means the budget is spent, and the broker has grown
      by exactly what the ticks say they enqueued. */
  lemma {:induction false} TicksAreAccounted(jobs: seq<Job>, events: seq<Event>, settings: RateLimit)
    ensures var s := Run(jobs, events, settings);
            AllBalanced(s.ticks) && |s.jobs| == |jobs| + TotalEnqueued(s.ticks)
  {
    hide Full, Apply, Outcomes, Tally;
    if events != [] {
      var e := events[|events| - 1];
      TicksAreAccounted(jobs, events[..|events| - 1], settings);
      var s := Run(jobs, events[..|events| - 1], settings);
      if e.StartTick? {
        assert (s.ticks + [Open(e.configured)])[..|s.ticks|] == s.ticks;
      } else if e.TryEnqueue? && e.tick < |s.ticks| {
        EnqueueIsAccounted(s, e.tick, e.order, settings);
      }
    }
  }

  function Max(a: int, b: int): int {
    if a > b then a else b
  }

  /** However many ticks run, fan-out leaves the metered jobs in flight at or below
      the limit less the interactive reserve, unless they started above it. */
  lemma {:induction false} FanoutLeavesReserve(jobs: seq<Job>, events: seq<Event>, settings: RateLimit)
    requires Sane(settings) && settings.enabled
    requires forall i :: 0 <= i < |events| && events[i].Progress? ==> !events[i].op.ManualRetry?
    ensures CountInFlight(Run(jobs, events, settings).jobs, AiTypes())
         <= Max(CountInFlight(jobs, AiTypes()), Limit(settings) - Reserved(settings))
  {
    hide AiTypes, CountInFlight;
    if events != [] {
      var front, e := events[..|events| - 1], events[|events| - 1];
      assert forall i :: 0 <= i < |front| ==> front[i] == events[i];
      FanoutLeavesReserve(jobs, front, settings);
      var s := Run(jobs, front, settings);
      match e {
        case StartTick(_) =>
        case TryEnqueue(_, order) =>
          CountAdded(s.jobs, NewJob(order), AiTypes());
        case Progress(j, op, mode) =>
          if j < |s.jobs| {
            CountChanged(s.jobs, j, Perform(mode, s.jobs[j], op), AiTypes());
          }
      }
    }
  }

  /** After any fan-out an interactive request is refused only when the reserve is
      taken up by interactive jobs; if nothing else runs, one that finds a free
      reserved slot also stays within the limit. */
  lemma FanoutNeverRefusesInteractive(jobs: seq<Job>, events: seq<Event>, settings: RateLimit)
    requires Sane(settings) && settings.enabled
    requires forall i :: 0 <= i < |events| && events[i].Progress? ==> !events[i].op.ManualRetry?
    requires CountInFlight(jobs, AiTypes()) <= Limit(settings) - Reserved(settings)
    ensures var after := Run(jobs, events, settings).jobs;
            var policy := InteractivePolicy(settings).value;
            && (CountInFlight(after, InteractiveTypes()) < Reserved(settings) ==>
                  !Blocked(policy, CountInFlight(after, AiTypes()), CountInFlight(after, InteractiveTypes())))
            && (Reserved(settings) > 0 ==> CountInFlight(after, AiTypes()) < Limit(settings))
  {
    hide AiTypes, InteractiveTypes, CountInFlight, Run;
    FanoutLeavesReserve(jobs, events, settings);
  }

  function Min(a: int, b: int): int {
    if a < b then a else b
  }

  lemma {:induction false} NoRejections(jobs: seq<Job>, events: seq<Event>, settings: RateLimit)
    requires !settings.enabled
    ensures forall k :: 0 <= k < |Run(jobs, events, settings).ticks| ==>
              Run(jobs, events, settings).ticks[k].rejectedByCapacity == 0
  {
    if events != [] {
      NoRejections(jobs, events[..|events| - 1], settings);
    }
  }

  /** With rate limiting off only the budget sheds work: every tick has enqueued its
      attempts, or its whole budget. */
  lemma DisabledFillsBudget(jobs: seq<Job>, events: seq<Event>, settings: RateLimit)
    requires !settings.enabled
    ensures forall k :: 0 <= k < |Run(jobs, events, settings).ticks| ==>
              var c := Run(jobs, events, settings).ticks[k];
              c.rejectedByCapacity == 0 && c.enqueued == Min(c.attempted, c.budget)
  {
    NoRejections(jobs, events, settings);
    TicksAreAccounted(jobs, events, settings);
    assert AllBalanced(Run(jobs, events, settings).ticks);
  }

  // ---- What each tick was configured with ----------------------------------

  /** The configured budgets of the ticks, in the order they start. */
  function Configured(events: seq<Event>): seq<int> {
    if events == [] then []
    else
      var front, e := Configured(events[..|events| - 1]), events[|events| - 1];
      if e.StartTick? then front + [e.configured] else front
  }

  lemma {:induction false} TickBudgets(jobs: seq<Job>, events: seq<Event>, settings: RateLimit)
    ensures var ticks, configured := Run(jobs, events, settings).ticks, Configured(events);
            |ticks| == |configured|
            && forall k :: 0 <= k < |ticks| ==> ticks[k].budget == if configured[k] > 0 then configured[k] else 0
  {
    hide Outcomes;
    if events != [] {
      TickBudgets(jobs, events[..|events| - 1], settings);
    }
  }

  /** No tick enqueues more than it is configured for, and none at all if that is
      negative; with rate limiting off it enqueues all its attempts up to that. */
  lemma TicksStayConfigured(jobs: seq<Job>, events: seq<Event>, settings: RateLimit)
    ensures var ticks, configured := Run(jobs, events, settings).ticks, Configured(events);
            |ticks| == |configured|
            && forall k :: 0 <= k < |ticks| ==>
                 && (configured[k] <= 0 ==> ticks[k].enqueued == 0)
                 && (configured[k] >= 0 ==> ticks[k].enqueued <= configured[k])
                 && (!settings.enabled && configured[k] >= 0 ==>
                       ticks[k].enqueued == if ticks[k].attempted < configured[k] then ticks[k].attempted
                                            else configured[k])
  {
    hide Run, Configured;
    TickBudgets(jobs, events, settings);
    TicksAreAccounted(jobs, events, settings);
    assert AllBalanced(Run(jobs, events, settings).ticks);
    if !settings.enabled {
      DisabledFillsBudget(jobs, events, settings);
    }
  }

  /** A tick that was turned away for capacity gets its job in as soon as one metered job
      in flight has completed. */
  lemma CompletionMakesRoom(s: State, settings: RateLimit, k: nat, order: Order, j: nat, output: string,
                            mode: Accounting)
    requires settings.enabled && Sane(settings) && k < |s.ticks| && s.ticks[k].remaining > 0
    requires j < |s.jobs| && Counts(s.jobs[j], AiTypes())
    requires CountInFlight(s.jobs, AiTypes()) == Limit(settings) - Reserved(settings)
    ensures Do(s, TryEnqueue(k, order), settings)
         == s.(ticks := s.ticks[k := s.ticks[k].(attempted := s.ticks[k].attempted + 1,
                                                 rejectedByCapacity := s.ticks[k].rejectedByCapacity + 1)])
    ensures var t := Do(Do(s, Progress(j, Op.Complete(output), mode), settings), TryEnqueue(k, order), settings);
            && t.jobs == s.jobs[j := CompletedWith(s.jobs[j], output)] + [NewJob(order)]
            && t.ticks[k].enqueued == s.ticks[k].enqueued + 1
  {
    hide AiTypes, CountInFlight;
    CountChanged(s.jobs, j, CompletedWith(s.jobs[j], output), AiTypes());
  }
}
