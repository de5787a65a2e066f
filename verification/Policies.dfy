/** What admission allows: the two capacity policies and the block rule. */
module Policies {
  import opened TextLines
  import opened Catalog

  datatype Reserve = Reserve(types: set<string>, reserved: int)

  datatype Capacity = Capacity(types: set<string>, limit: int, reserve: Option<Reserve>)

  datatype RateLimit = RateLimit(enabled: bool, aiMaxInflightJobs: int, aiInteractiveReservedJobs: int)

  function AiTypes(): set<string> {
    set t | t in AiJobTypes()
  }

  function InteractiveTypes(): set<string> {
    set t | t in InteractiveJobTypes()
  }

  /** The metered types outside the interactive lane. */
  function BackgroundAiTypes(): set<string> {
    AiTypes() - InteractiveTypes()
  }

  function Limit(s: RateLimit): int {
    s.aiMaxInflightJobs
  }

  /** A reserve above the ceiling is clamped to it. */
  function Reserved(s: RateLimit): int {
    if s.aiInteractiveReservedJobs < s.aiMaxInflightJobs then s.aiInteractiveReservedJobs else s.aiMaxInflightJobs
  }

  function InteractivePolicy(s: RateLimit): Option<Capacity> {
    if !s.enabled then None
    else Some(Capacity(AiTypes(), Limit(s), Some(Reserve(InteractiveTypes(), Reserved(s)))))
  }

  function NonInteractivePolicy(s: RateLimit): Option<Capacity> {
    if !s.enabled then None
    else
      var rest := Limit(s) - Reserved(s);
      Some(Capacity(AiTypes(), if rest > 0 then rest else 0, None))
  }

  /** The rule both brokers and the pre-check share. */
  predicate Blocked(c: Capacity, inFlight: int, reserveInFlight: int) {
    match c.reserve
    case Some(r) => reserveInFlight >= r.reserved && inFlight >= c.limit
    case None => inFlight >= c.limit
  }

  /** The configuration parser accepts only these. */
  predicate Sane(s: RateLimit) {
    s.aiMaxInflightJobs >= 0 && s.aiInteractiveReservedJobs >= 0
  }

  lemma LanesPartition()
    ensures InteractiveTypes() !! BackgroundAiTypes()
    ensures InteractiveTypes() + BackgroundAiTypes() == AiTypes()
  {
    hide AiJobTypes, InteractiveJobTypes;
    forall t | t in InteractiveTypes()
      ensures t in AiTypes()
    {
      InteractiveIsAi(t);
    }
  }
}
