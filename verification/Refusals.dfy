/** When a call is refused, told on the settings and the jobs in flight. */
module Refusals {
  import opened TextLines
  import opened Catalog
  import opened Lifecycle
  import opened Policies

  /** The ceiling is reached, and so is the reserve, which counts no further than the
      ceiling. */
  ghost predicate InteractiveRule(s: RateLimit, jobs: seq<Job>, refused: bool) {
    var lane := InFlightOf(jobs, {"answer_question", "outline_flow_seed"});
    refused <==>
      && (lane >= s.aiInteractiveReservedJobs || lane >= s.aiMaxInflightJobs)
      && InFlightOf(jobs, AiTypes()) >= s.aiMaxInflightJobs
  }

  /** The ceiling is reached but for the reserve. */
  ghost predicate MaintenanceRule(s: RateLimit, jobs: seq<Job>, refused: bool) {
    refused <==> InFlightOf(jobs, AiTypes()) + s.aiInteractiveReservedJobs >= s.aiMaxInflightJobs
  }

  /** For every setting under which a capacity is one of the two policies, a refusal
      follows that policy's rule. */
  ghost predicate FollowsRules(c: Capacity, jobs: seq<Job>, refused: bool) {
    && (forall s: RateLimit :: s.enabled && Some(c) == InteractivePolicy(s) ==> InteractiveRule(s, jobs, refused))
    && (forall s: RateLimit :: s.enabled && Some(c) == NonInteractivePolicy(s) ==> MaintenanceRule(s, jobs, refused))
  }

  lemma InteractiveTypesAre()
    ensures InteractiveTypes() == {"answer_question", "outline_flow_seed"}
  {
    assert InteractiveJobTypes()[0] == "answer_question" && InteractiveJobTypes()[1] == "outline_flow_seed";
  }

  /** On the numbers: min and max come out as a disjunction and a sum. */
  lemma RefusalInNumbers(s: RateLimit, metered: nat, lane: nat)
    requires s.enabled
    ensures InteractivePolicy(s).Some? && InteractivePolicy(s).value.types == AiTypes()
    ensures var c := InteractivePolicy(s).value;
            && c.reserve.Some? && c.reserve.value.types == InteractiveTypes()
            && (Blocked(c, metered, lane)
                <==> && (lane >= s.aiInteractiveReservedJobs || lane >= s.aiMaxInflightJobs)
                     && metered >= s.aiMaxInflightJobs)
    ensures NonInteractivePolicy(s).Some? && NonInteractivePolicy(s).value.types == AiTypes()
    ensures var c := NonInteractivePolicy(s).value;
            && c.reserve.None?
            && (Blocked(c, metered, lane) <==> metered + s.aiInteractiveReservedJobs >= s.aiMaxInflightJobs)
  {
    hide AiTypes, InteractiveTypes;
  }

  /** What the block rule makes of the counts is what the rules say. */
  lemma BlockedFollowsRules(c: Capacity, jobs: seq<Job>)
    ensures var lane := if c.reserve.Some? then CountInFlight(jobs, c.reserve.value.types) else 0;
            FollowsRules(c, jobs, Blocked(c, CountInFlight(jobs, c.types), lane))
  {
    hide CountInFlight, InFlightOf, AiTypes, InteractiveTypes, InteractivePolicy, NonInteractivePolicy, Blocked;
    var lane := if c.reserve.Some? then CountInFlight(jobs, c.reserve.value.types) else 0;
    InteractiveTypesAre();
    CountIsInFlightOf(jobs, InteractiveTypes());
    CountIsInFlightOf(jobs, AiTypes());
    forall s: RateLimit | s.enabled
      ensures Some(c) == InteractivePolicy(s) ==>
                InteractiveRule(s, jobs, Blocked(c, CountInFlight(jobs, c.types), lane))
      ensures Some(c) == NonInteractivePolicy(s) ==>
                MaintenanceRule(s, jobs, Blocked(c, CountInFlight(jobs, c.types), lane))
    {
      RefusalInNumbers(s, CountInFlight(jobs, c.types), lane);
    }
  }
}
