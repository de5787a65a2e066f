/** Concurrent admission under one advisory lock. */
module Admission {
  import opened TextLines
  import opened Catalog
  import opened Lifecycle
  import opened RetryAccounting
  import opened Policies
  import opened Refusals

  // Sessions queue for the lock, count the jobs in flight, decide, enqueue and
  // commit, while jobs progress between the steps.

  datatype Request = Request(order: Order, capacity: Capacity)

  /** Where a call of `createIfAdmitted` stands. */
  datatype Phase =
    | AwaitingLock
    | Locked
    | Counted(inFlight: nat, reserveInFlight: nat)
    | Sent
    | Finished(admitted: bool)

  datatype Session = Session(request: Request, phase: Phase)

  /** `bypasses` counts the metered jobs that came in flight outside admission,
      `backgroundBypasses` those of them that are not interactive. */
  datatype State = State(jobs: seq<Job>, sessions: seq<Session>, lock: Option<nat>,
                         bypasses: nat, backgroundBypasses: nat)

  /** A job moves on under either accounting of its retries. */
  datatype Step =
    | Begin(request: Request)
    | Lock(session: nat)
    | Count(session: nat)
    | Reject(session: nat)
    | Send(session: nat)
    | Commit(session: nat)
    | Rollback(session: nat)
    | Progress(job: nat, op: Op, mode: Accounting)
    | Create(order: Order)
    | LoseLock(session: nat)

  const START := State([], [], None, 0, 0)

  /** Inside the critical section. */
  predicate Inside(p: Phase) {
    p.Locked? || p.Counted? || p.Sent?
  }

  predicate IsBlocked(session: Session) {
    session.phase.Counted? && Blocked(session.request.capacity, session.phase.inFlight, session.phase.reserveInFlight)
  }

  predicate Enabled(s: State, step: Step) {
    match step
    case Begin(_) => true
    case Lock(i) => i < |s.sessions| && s.sessions[i].phase.AwaitingLock? && s.lock.None?
    case Count(i) => i < |s.sessions| && s.sessions[i].phase.Locked?
    case Reject(i) => i < |s.sessions| && IsBlocked(s.sessions[i])
    case Send(i) => i < |s.sessions| && s.sessions[i].phase.Counted? && !IsBlocked(s.sessions[i])
    case Commit(i) => i < |s.sessions| && s.sessions[i].phase.Sent?
    case Rollback(i) => i < |s.sessions| && !s.sessions[i].phase.Finished?
    case Progress(k, _, _) => k < |s.jobs|
    case Create(_) => true
    case LoseLock(i) => i < |s.sessions| && Inside(s.sessions[i].phase)
  }

  function Release(lock: Option<nat>, i: nat): Option<nat> {
    if lock == Some(i) then None else lock
  }

  function ReserveTypes(c: Capacity): set<string> {
    match c.reserve
    case None => {}
    case Some(r) => r.types
  }

  function Move(s: State, i: nat, p: Phase): State
    requires i < |s.sessions|
  {
    s.(sessions := s.sessions[i := s.sessions[i].(phase := p)])
  }

  function BypassCount(before: bool, job: Job, types: set<string>): nat {
    if !before && Counts(job, types) then 1 else 0
  }

  /** A step of some session, of some job, or of someone who bypasses admission. */
  function Do(s: State, step: Step): State
    requires Enabled(s, step)
  {
    match step
    case Begin(request) => s.(sessions := s.sessions + [Session(request, AwaitingLock)])
    case Lock(i) => Move(s, i, Locked).(lock := Some(i))
    case Count(i) =>
      var c := s.sessions[i].request.capacity;
      Move(s, i, Counted(CountInFlight(s.jobs, c.types), CountInFlight(s.jobs, ReserveTypes(c))))
    case Reject(i) => Move(s, i, Finished(false)).(lock := Release(s.lock, i))
    // The row is committed on the queue's own connection, before the lock is released.
    case Send(i) => Move(s, i, Sent).(jobs := s.jobs + [NewJob(s.sessions[i].request.order)])
    case Commit(i) => Move(s, i, Finished(true)).(lock := Release(s.lock, i))
    case Rollback(i) => Move(s, i, Finished(false)).(lock := Release(s.lock, i))
    case Progress(k, op, mode) =>
      var before, after := s.jobs[k], Perform(mode, s.jobs[k], op);
      s.(jobs := s.jobs[k := after],
         bypasses := s.bypasses + BypassCount(InFlight(before.state), after, AiTypes()),
         backgroundBypasses := s.backgroundBypasses + BypassCount(InFlight(before.state), after, BackgroundAiTypes()))
    case Create(order) =>
      s.(jobs := s.jobs + [NewJob(order)],
         bypasses := s.bypasses + BypassCount(false, NewJob(order), AiTypes()),
         backgroundBypasses := s.backgroundBypasses + BypassCount(false, NewJob(order), BackgroundAiTypes()))
    case LoseLock(i) => s.(lock := Release(s.lock, i))
  }

  function Exec(s: State, steps: seq<Step>): Option<State> {
    if steps == [] then Some(s)
    else
      match Exec(s, steps[..|steps| - 1])
      case None => None
      case Some(t) => if Enabled(t, steps[|steps| - 1]) then Some(Do(t, steps[|steps| - 1])) else None
  }

  /** The callers' discipline: interactive types under the interactive policy, any
      metered type under the maintenance one. */
  predicate Permitted(settings: RateLimit, r: Request) {
    || (Some(r.capacity) == InteractivePolicy(settings) && r.order.jobType in InteractiveTypes())
    || (Some(r.capacity) == NonInteractivePolicy(settings) && r.order.jobType in AiTypes())
  }

  /** A run of the protocol whose lock sessions survive their critical sections. */
  predicate Proper(settings: RateLimit, steps: seq<Step>) {
    forall i :: 0 <= i < |steps| ==> !steps[i].LoseLock? && (steps[i].Begin? ==> Permitted(settings, steps[i].request))
  }

  // ---- The invariant -------------------------------------------------------

  function AllAi(s: State): nat {
    CountInFlight(s.jobs, AiTypes())
  }

  function Background(s: State): nat {
    CountInFlight(s.jobs, BackgroundAiTypes())
  }

  function Interactive(s: State): nat {
    CountInFlight(s.jobs, InteractiveTypes())
  }

  predicate Bounded(settings: RateLimit, s: State) {
    && AllAi(s) <= Limit(settings) + s.bypasses
    && Background(s) <= Limit(settings) - Reserved(settings) + s.backgroundBypasses
    && s.backgroundBypasses <= s.bypasses
  }

  predicate LockHeld(s: State) {
    && (s.lock.Some? ==> s.lock.value < |s.sessions| && Inside(s.sessions[s.lock.value].phase))
    && forall i :: 0 <= i < |s.sessions| && Inside(s.sessions[i].phase) ==> s.lock == Some(i)
  }

  /** A session that has counted and is not blocked has room for its job. */
  predicate Room(settings: RateLimit, s: State, session: Session) {
    session.phase.Counted? && !IsBlocked(session) ==>
      && AllAi(s) + 1 <= Limit(settings) + s.bypasses
      && (session.request.order.jobType in BackgroundAiTypes() ==>
            Background(s) + 1 <= Limit(settings) - Reserved(settings) + s.backgroundBypasses)
  }

  predicate Inv(settings: RateLimit, s: State) {
    && Bounded(settings, s)
    && LockHeld(s)
    && forall i :: 0 <= i < |s.sessions| ==>
          Permitted(settings, s.sessions[i].request) && Room(settings, s, s.sessions[i])
  }

  /** No two sessions are between taking and releasing the lock. */
  predicate OneInside(s: State) {
    forall i, j :: 0 <= i < j < |s.sessions| ==> !(Inside(s.sessions[i].phase) && Inside(s.sessions[j].phase))
  }

  lemma CountGivesRoom(settings: RateLimit, s: State, i: nat)
    requires Sane(settings) && settings.enabled && Bounded(settings, s)
    requires Enabled(s, Count(i)) && Permitted(settings, s.sessions[i].request)
    ensures Room(settings, s, Do(s, Count(i)).sessions[i])
  {
    hide AiTypes, InteractiveTypes, BackgroundAiTypes, CountInFlight;
    LanesPartition();
    CountSplits(s.jobs, InteractiveTypes(), BackgroundAiTypes());
    var c := s.sessions[i].request.capacity;
    if c.reserve.Some? {
      InteractiveNotBackground(s.sessions[i].request.order.jobType);
    }
  }

  lemma InteractiveNotBackground(t: string)
    ensures t in InteractiveTypes() ==> t !in BackgroundAiTypes()
  {
  }

  lemma SendKeepsBounds(settings: RateLimit, s: State, i: nat)
    requires Inv(settings, s) && Enabled(s, Send(i))
    ensures Bounded(settings, Do(s, Send(i)))
  {
    hide AiTypes, InteractiveTypes, BackgroundAiTypes, CountInFlight;
    assert Room(settings, s, s.sessions[i]);
    CountAdded(s.jobs, NewJob(s.sessions[i].request.order), AiTypes());
    CountAdded(s.jobs, NewJob(s.sessions[i].request.order), BackgroundAiTypes());
  }

  /** Whatever happens to the jobs outside the sessions is matched by a bypass. */
  lemma JobStepsArePaidFor(settings: RateLimit, s: State, step: Step)
    requires Enabled(s, step) && (step.Progress? || step.Create?)
    ensures var t := Do(s, step);
            && AllAi(t) - t.bypasses <= AllAi(s) - s.bypasses
            && Background(t) - t.backgroundBypasses <= Background(s) - s.backgroundBypasses
            && t.sessions == s.sessions && t.lock == s.lock
            && t.backgroundBypasses - s.backgroundBypasses <= t.bypasses - s.bypasses <= 1
  {
    hide AiTypes, InteractiveTypes, CountInFlight;
    if step.Progress? {
      var after := Perform(step.mode, s.jobs[step.job], step.op);
      CountChanged(s.jobs, step.job, after, AiTypes());
      CountChanged(s.jobs, step.job, after, BackgroundAiTypes());
    } else {
      CountAdded(s.jobs, NewJob(step.order), AiTypes());
      CountAdded(s.jobs, NewJob(step.order), BackgroundAiTypes());
    }
  }

  lemma StepKeepsInv(settings: RateLimit, s: State, step: Step)
    requires Sane(settings) && settings.enabled && Inv(settings, s) && Enabled(s, step)
    requires !step.LoseLock? && (step.Begin? ==> Permitted(settings, step.request))
    ensures Inv(settings, Do(s, step))
  {
    hide AiTypes, InteractiveTypes, BackgroundAiTypes, CountInFlight, Apply, Permitted, Blocked;
    if step.Count? {
      CountGivesRoom(settings, s, step.session);
    } else if step.Send? {
      SendKeepsBounds(settings, s, step.session);
    } else if step.Progress? || step.Create? {
      JobStepsArePaidFor(settings, s, step);
      var t := Do(s, step);
      forall i | 0 <= i < |t.sessions|
        ensures Room(settings, t, t.sessions[i])
      {
        assert Room(settings, s, s.sessions[i]);
      }
    }
  }

  lemma StartInv(settings: RateLimit)
    requires Sane(settings)
    ensures Inv(settings, START)
  {
  }

  lemma {:induction false} RunKeepsInv(settings: RateLimit, steps: seq<Step>)
    requires Sane(settings) && settings.enabled && Proper(settings, steps) && Exec(START, steps).Some?
    ensures Inv(settings, Exec(START, steps).value)
  {
    if steps == [] {
      StartInv(settings);
    } else {
      var front := steps[..|steps| - 1];
      assert Proper(settings, front) by {
        assert forall i :: 0 <= i < |front| ==> front[i] == steps[i];
      }
      RunKeepsInv(settings, front);
      StepKeepsInv(settings, Exec(START, front).value, steps[|steps| - 1]);
    }
  }

  /** In every interleaving the metered jobs in flight stay within the limit and
      the background ones within the limit less the reserve, each up to the jobs
      that bypassed admission; and at most one session is inside its critical
      section. */
  lemma AdmissionIsSafe(settings: RateLimit, steps: seq<Step>)
    requires Sane(settings) && settings.enabled && Proper(settings, steps) && Exec(START, steps).Some?
    ensures var s := Exec(START, steps).value;
            && AllAi(s) <= Limit(settings) + s.bypasses
            && Background(s) <= Limit(settings) - Reserved(settings) + s.backgroundBypasses
            && s.backgroundBypasses <= s.bypasses
            && OneInside(s)
  {
    RunKeepsInv(settings, steps);
  }

  /** The step brings a job of some types in flight past admission: a plain create, or
      a manual retry of a failed job. */
  predicate BypassesWith(s: State, step: Step, types: set<string>)
    requires Enabled(s, step)
  {
    || (step.Create? && step.order.jobType in types)
    || (step.Progress? && step.op.ManualRetry? && s.jobs[step.job].state.Failed?
        && s.jobs[step.job].order.jobType in types)
  }

  /** Each such step bypasses the bound of its types once, and no other step does. */
  lemma BypassesAreCreatesAndRetries(s: State, step: Step)
    requires Enabled(s, step)
    ensures Do(s, step).bypasses == s.bypasses + if BypassesWith(s, step, AiTypes()) then 1 else 0
    ensures Do(s, step).backgroundBypasses
         == s.backgroundBypasses + if BypassesWith(s, step, BackgroundAiTypes()) then 1 else 0
  {
    hide AiTypes, BackgroundAiTypes, CountInFlight;
  }

  /** While fewer interactive jobs than the reserve are in flight, an interactive
      request is admitted, whatever maintenance fan-out has done before. */
  lemma ReserveStaysFree(settings: RateLimit, steps: seq<Step>, i: nat)
    requires Sane(settings) && settings.enabled && Proper(settings, steps) && Exec(START, steps).Some?
    requires Enabled(Exec(START, steps).value, Count(i))
    requires Some(Exec(START, steps).value.sessions[i].request.capacity) == InteractivePolicy(settings)
    requires Interactive(Exec(START, steps).value) < Reserved(settings)
    ensures var s := Exec(START, steps).value;
            && Enabled(Do(s, Count(i)), Send(i))
            && AllAi(s) < Limit(settings) + s.bypasses
  {
    hide AiTypes, InteractiveTypes, BackgroundAiTypes, CountInFlight, Exec;
    AdmissionIsSafe(settings, steps);
    LanesPartition();
    CountSplits(Exec(START, steps).value.jobs, InteractiveTypes(), BackgroundAiTypes());
  }

  /** While a call has not finished, some session can take its next step: the one that
      holds the lock, or, if nobody does, the one that waits. */
  lemma SomeSessionGoesOn(s: State, i: nat) returns (step: Step)
    requires LockHeld(s) && i < |s.sessions| && !s.sessions[i].phase.Finished?
    ensures step.Lock? || step.Count? || step.Reject? || step.Send? || step.Commit?
    ensures Enabled(s, step)
    ensures s.lock.Some? ==> !step.Lock? && step.session == s.lock.value
    ensures s.lock.None? ==> step == Lock(i)
  {
    hide Blocked;
    var j := if s.lock.Some? then s.lock.value else i;
    match s.sessions[j].phase {
      case AwaitingLock => step := Lock(j);
      case Locked => step := Count(j);
      case Counted(_, _) => step := if IsBlocked(s.sessions[j]) then Reject(j) else Send(j);
      case Sent => step := Commit(j);
    }
  }

  // ---- The bounds are reached ----------------------------------------------

  function Admit(i: nat, r: Request): seq<Step> {
    [Begin(r), Lock(i), Count(i), Send(i), Commit(i)]
  }

  lemma {:induction false} ExecConcat(s: State, a: seq<Step>, b: seq<Step>)
    requires Exec(s, a).Some?
    ensures Exec(s, a + b) == Exec(Exec(s, a).value, b)
  {
    if b == [] {
      assert a + b == a;
    } else {
      ExecConcat(s, a, b[..|b| - 1]);
      assert (a + b)[..|a + b| - 1] == a + b[..|b| - 1];
    }
  }

  lemma ExecOne(s: State, step: Step)
    requires Enabled(s, step)
    ensures Exec(s, [step]) == Some(Do(s, step))
  {
    assert [step][..0] == [];
    assert Exec(s, []) == Some(s);
  }

  lemma ExecSnoc(s: State, front: seq<Step>, t: State, step: Step)
    requires Exec(s, front) == Some(t) && Enabled(t, step)
    ensures Exec(s, front + [step]) == Some(Do(t, step))
  {
    assert (front + [step])[..|front|] == front;
  }

  lemma ExecFive(s: State, a: Step, b: Step, c: Step, d: Step, e: Step)
    requires Enabled(s, a) && Enabled(Do(s, a), b) && Enabled(Do(Do(s, a), b), c)
    requires Enabled(Do(Do(Do(s, a), b), c), d) && Enabled(Do(Do(Do(Do(s, a), b), c), d), e)
    ensures Exec(s, [a, b, c, d, e]) == Some(Do(Do(Do(Do(Do(s, a), b), c), d), e))
  {
    hide Enabled, Do, Exec;
    var s1 := Do(s, a);
    var s2 := Do(s1, b);
    var s3 := Do(s2, c);
    var s4 := Do(s3, d);
    ExecOne(s, a);
    ExecSnoc(s, [a], s1, b);
    assert [a] + [b] == [a, b];
    ExecSnoc(s, [a, b], s2, c);
    assert [a, b] + [c] == [a, b, c];
    ExecSnoc(s, [a, b, c], s3, d);
    assert [a, b, c] + [d] == [a, b, c, d];
    ExecSnoc(s, [a, b, c, d], s4, e);
    assert [a, b, c, d] + [e] == [a, b, c, d, e];
  }

  /** An undisturbed call that is not blocked adds its job and frees the lock. */
  lemma AdmitAdds(s: State, r: Request)
    requires s.lock.None?
    requires !Blocked(r.capacity, CountInFlight(s.jobs, r.capacity.types),
                      CountInFlight(s.jobs, ReserveTypes(r.capacity)))
    ensures var i := |s.sessions|;
            Exec(s, Admit(i, r)) == Some(s.(jobs := s.jobs + [NewJob(r.order)],
                                            sessions := s.sessions + [Session(r, Finished(true))]))
  {
    hide Blocked, CountInFlight, Exec;
    var i := |s.sessions|;
    var s1 := Do(s, Begin(r));
    var s2 := Do(s1, Lock(i));
    var s3 := Do(s2, Count(i));
    var s4 := Do(s3, Send(i));
    assert Enabled(s3, Send(i)) && Enabled(s4, Commit(i));
    ExecFive(s, Begin(r), Lock(i), Count(i), Send(i), Commit(i));
    var s5 := Do(s4, Commit(i));
    assert s5.sessions == s.sessions + [Session(r, Finished(true))];
  }

  /** What one call does, if nothing happens in between: the steps it takes. */
  function Trace(s: State, r: Request, enqueueFails: bool): seq<Step> {
    var i := |s.sessions|;
    if Blocked(r.capacity, CountInFlight(s.jobs, r.capacity.types), CountInFlight(s.jobs, ReserveTypes(r.capacity)))
    then [Begin(r), Lock(i), Count(i)] + [Reject(i)]
    else if enqueueFails then [Begin(r), Lock(i), Count(i)] + [Rollback(i)]
    else [Begin(r), Lock(i), Count(i)] + [Send(i)] + [Commit(i)]
  }

  lemma RequestFollowsRules(jobs: seq<Job>, c: Capacity)
    ensures FollowsRules(c, jobs, Blocked(c, CountInFlight(jobs, c.types), CountInFlight(jobs, ReserveTypes(c))))
  {
    hide CountInFlight, FollowsRules;
    BlockedFollowsRules(c, jobs);
  }

  /** The database as one admitting client sees it. */
  class Database {
    var state: State

    constructor ()
      ensures state == START
    {
      state := START;
    }

    /** Takes one more step of a call that has come from `start` by `taken`. */
    method Take(step: Step, ghost start: State, ghost taken: seq<Step>)
      requires Enabled(state, step) && Exec(start, taken) == Some(state)
      modifies this
      ensures state == Do(old(state), step)
      ensures Exec(start, taken + [step]) == Some(state)
    {
      hide Exec;
      ExecSnoc(start, taken, state, step);
      state := Do(state, step);
    }

    /** `createIfAdmitted` on a free lock: begin, lock, count, decide, and either
        commit nothing, or enqueue and commit, or roll back and throw. */
    method CreateIfAdmitted(r: Request, enqueueFails: bool) returns (admitted: Option<bool>)
      requires state.lock.None?
      modifies this
      ensures Exec(old(state), Trace(old(state), r, enqueueFails)) == Some(state)
      ensures state.lock.None?
      ensures state.sessions == old(state).sessions + [Session(r, Finished(admitted == Some(true)))]
      ensures admitted == Some(true) ==> state.jobs == old(state).jobs + [NewJob(r.order)]
      ensures admitted != Some(true) ==> state.jobs == old(state).jobs
      ensures admitted.None? ==> enqueueFails
      ensures admitted == Some(false) <==>
                Blocked(r.capacity, CountInFlight(old(state).jobs, r.capacity.types),
                        CountInFlight(old(state).jobs, ReserveTypes(r.capacity)))
      ensures FollowsRules(r.capacity, old(state).jobs, admitted == Some(false))
    {
      hide CountInFlight, Exec, Blocked, FollowsRules;
      RequestFollowsRules(state.jobs, r.capacity);
      var i := |state.sessions|;
      ghost var start := state;
      NoStepsYet(start);
      Take(Begin(r), start, []);
      Take(Lock(i), start, [] + [Begin(r)]);
      Take(Count(i), start, [] + [Begin(r)] + [Lock(i)]);
      ghost var counted := [Begin(r), Lock(i), Count(i)];
      assert [] + [Begin(r)] + [Lock(i)] + [Count(i)] == counted;
      if IsBlocked(state.sessions[i]) {
        Take(Reject(i), start, counted);
        return Some(false);
      }
      if enqueueFails {
        Take(Rollback(i), start, counted);
        return None;
      }
      Take(Send(i), start, counted);
      Take(Commit(i), start, counted + [Send(i)]);
      return Some(true);
    }
  }

  lemma NoStepsYet(s: State)
    ensures Exec(s, []) == Some(s)
  {
  }

  function SomeOrder(t: string): Order {
    Order(t, Input(Some("codex"), None), t + "__codex")
  }

  lemma OneOfEach()
    ensures "answer_question" in InteractiveTypes() && "answer_question" in AiTypes()
            && "answer_question" !in BackgroundAiTypes()
    ensures "answer_question_batch" in AiTypes() && "answer_question_batch" in BackgroundAiTypes()
  {
    assert InteractiveJobTypes()[0] == "answer_question";
    assert AiJobTypes()[0] == "answer_question" && AiJobTypes()[1] == "answer_question_batch";
  }

  /** For every setting and every number of bypasses some run reaches both bounds
      at once, so neither can be stated more tightly. */
  lemma {:induction false} BoundsAreReached(settings: RateLimit, background: nat, interactive: nat, bypasses: nat)
    returns (steps: seq<Step>, s: State)
    requires Sane(settings) && settings.enabled
    requires background <= Limit(settings) - Reserved(settings) && interactive <= Reserved(settings)
    requires interactive > 0 ==> background == Limit(settings) - Reserved(settings)
    requires bypasses > 0 ==> interactive == Reserved(settings) && background == Limit(settings) - Reserved(settings)
    ensures Proper(settings, steps) && Exec(START, steps) == Some(s) && s.lock.None?
    ensures s.bypasses == s.backgroundBypasses == bypasses
    ensures AllAi(s) == background + interactive + bypasses && Background(s) == background + bypasses
    decreases background + interactive + bypasses
  {
    hide AiTypes, InteractiveTypes, BackgroundAiTypes, CountInFlight, Exec;
    OneOfEach();
    if bypasses > 0 {
      var front, t := BoundsAreReached(settings, background, interactive, bypasses - 1);
      var step := Create(SomeOrder("answer_question_batch"));
      steps, s := front + [step], Do(t, step);
      ExecOne(t, step);
      ExecConcat(START, front, [step]);
      CountBoth(t.jobs, SomeOrder("answer_question_batch"));
    } else if interactive > 0 {
      var front, t := BoundsAreReached(settings, background, interactive - 1, 0);
      var r := Request(SomeOrder("answer_question"), InteractivePolicy(settings).value);
      LanesPartition();
      CountSplits(t.jobs, InteractiveTypes(), BackgroundAiTypes());
      steps, s := ExtendByAdmission(settings, front, t, r);
    } else if background > 0 {
      var front, t := BoundsAreReached(settings, background - 1, 0, 0);
      var r := Request(SomeOrder("answer_question_batch"), NonInteractivePolicy(settings).value);
      steps, s := ExtendByAdmission(settings, front, t, r);
    } else {
      steps, s := [], START;
      NothingInFlight();
    }
  }

  lemma NothingInFlight()
    ensures Exec(START, []) == Some(START) && AllAi(START) == 0 && Background(START) == 0
  {
  }

  lemma CountBoth(jobs: seq<Job>, o: Order)
    ensures CountInFlight(jobs + [NewJob(o)], AiTypes())
            == CountInFlight(jobs, AiTypes()) + if o.jobType in AiTypes() then 1 else 0
    ensures CountInFlight(jobs + [NewJob(o)], BackgroundAiTypes())
         == CountInFlight(jobs, BackgroundAiTypes()) + if o.jobType in BackgroundAiTypes() then 1 else 0
  {
    hide AiTypes, BackgroundAiTypes, CountInFlight;
    CountAdded(jobs, NewJob(o), AiTypes());
    CountAdded(jobs, NewJob(o), BackgroundAiTypes());
  }

  lemma ExtendByAdmission(settings: RateLimit, front: seq<Step>, t: State, r: Request)
    returns (steps: seq<Step>, s: State)
    requires Proper(settings, front) && Exec(START, front) == Some(t) && t.lock.None? && Permitted(settings, r)
    requires !Blocked(r.capacity, CountInFlight(t.jobs, r.capacity.types),
                      CountInFlight(t.jobs, ReserveTypes(r.capacity)))
    ensures Proper(settings, steps) && Exec(START, steps) == Some(s) && s.lock.None?
    ensures s.bypasses == t.bypasses && s.backgroundBypasses == t.backgroundBypasses
    ensures AllAi(s) == AllAi(t) + (if r.order.jobType in AiTypes() then 1 else 0)
    ensures Background(s) == Background(t) + (if r.order.jobType in BackgroundAiTypes() then 1 else 0)
  {
    hide AiTypes, InteractiveTypes, BackgroundAiTypes, CountInFlight, Exec, Blocked, Permitted;
    steps := front + Admit(|t.sessions|, r);
    AdmitAdds(t, r);
    ExecConcat(START, front, Admit(|t.sessions|, r));
    s := Exec(START, steps).value;
    CountBoth(t.jobs, r.order);
  }

  /** One session counts, and its lock is lost. */
  lemma CountsAndLoses(r: Request)
    ensures var s := START.(sessions := [Session(r, Counted(0, 0)), Session(r, AwaitingLock)]);
            Exec(START, [Begin(r), Begin(r), Lock(0), Count(0), LoseLock(0)]) == Some(s)
  {
    hide CountInFlight, Exec;
    var s1 := Do(START, Begin(r));
    var s2 := Do(s1, Begin(r));
    var s3 := Do(s2, Lock(0));
    var s4 := Do(s3, Count(0));
    var s5 := Do(s4, LoseLock(0));
    NoneCounted();
    ExecFive(START, Begin(r), Begin(r), Lock(0), Count(0), LoseLock(0));
    assert s5.sessions == [Session(r, Counted(0, 0)), Session(r, AwaitingLock)];
  }

  lemma NoneCounted()
    ensures forall types: set<string> :: CountInFlight([], types) == 0
  {
  }

  /** The other one goes through, and then the first sends after all. */
  lemma BothSend(r: Request)
    requires r.capacity.limit == 1 && r.capacity.reserve.None?
    ensures var s := START.(sessions := [Session(r, Counted(0, 0)), Session(r, AwaitingLock)]);
            var t := START.(sessions := [Session(r, Sent), Session(r, Finished(true))],
                            jobs := [NewJob(r.order), NewJob(r.order)]);
            Exec(s, [Lock(1), Count(1), Send(1), Commit(1), Send(0)]) == Some(t)
  {
    hide CountInFlight, Exec;
    var s := START.(sessions := [Session(r, Counted(0, 0)), Session(r, AwaitingLock)]);
    NoneCounted();
    var s1 := Do(s, Lock(1));
    var s2 := Do(s1, Count(1));
    var s3 := Do(s2, Send(1));
    var s4 := Do(s3, Commit(1));
    var s5 := Do(s4, Send(0));
    ExecFive(s, Lock(1), Count(1), Send(1), Commit(1), Send(0));
    assert s5.sessions == [Session(r, Sent), Session(r, Finished(true))];
    assert s5.jobs == [NewJob(r.order), NewJob(r.order)];
  }

  /** The lock session really must survive: with a limit of one, losing it between
      the count and the enqueue lets two sessions both admit. */
  lemma LostLockOvershoots() returns (steps: seq<Step>)
    ensures Exec(START, steps).Some?
    ensures var s := Exec(START, steps).value;
            AllAi(s) == 2 && s.bypasses == 0 && Limit(RateLimit(true, 1, 0)) == 1
    ensures forall i :: 0 <= i < |steps| && steps[i].Begin? ==> Permitted(RateLimit(true, 1, 0), steps[i].request)
  {
    hide AiTypes, InteractiveTypes, BackgroundAiTypes, CountInFlight, Exec, Do;
    OneOfEach();
    NothingInFlight();
    var settings := RateLimit(true, 1, 0);
    var r := Request(SomeOrder("answer_question_batch"), NonInteractivePolicy(settings).value);
    var first, second := [Begin(r), Begin(r), Lock(0), Count(0), LoseLock(0)],
        [Lock(1), Count(1), Send(1), Commit(1), Send(0)];
    CountsAndLoses(r);
    BothSend(r);
    steps := first + second;
    ExecConcat(START, first, second);
    CountBoth([], r.order);
    CountBoth([NewJob(r.order)], r.order);
    assert [] + [NewJob(r.order)] == [NewJob(r.order)];
    assert [NewJob(r.order)] + [NewJob(r.order)] == [NewJob(r.order), NewJob(r.order)];
  }
}
