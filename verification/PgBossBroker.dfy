/** Claiming from the partitioned queues, and counting them. */
module PgBossBroker {
  import opened TextLines
  import opened Catalog
  import opened Lifecycle
  import opened FakeBroker

  // An interactive lane is probed in order, then the background queues in a round
  // robin that a cursor carries from claim to claim.

  // ---- Lanes ---------------------------------------------------------------

  function QueueByName(qs: seq<Queue>, name: string): (r: Option<Queue>)
    ensures r.Some? ==> r.value in qs && r.value.name == name
    ensures r.None? ==> forall q :: q in qs ==> q.name != name
  {
    if qs == [] then None
    else if qs[0].name == name then Some(qs[0])
    else QueueByName(qs[1..], name)
  }

  predicate IsInteractiveQueue(name: string) {
    var queue := QueueByName(WorkQueues(JobTypes()), name);
    queue.Some? && IsInteractive(queue.value.jobType)
  }

  function Filter(names: seq<string>, keep: string -> bool): (r: seq<string>)
    ensures forall name :: name in r <==> name in names && keep(name)
  {
    if names == [] then []
    else (if keep(names[0]) then [names[0]] else []) + Filter(names[1..], keep)
  }

  /** The interactive or the background part of a list of queues, in its order. */
  function Lane(names: seq<string>, interactive: bool): seq<string> {
    Filter(names, name => IsInteractiveQueue(name) == interactive)
  }

  lemma LaneExact(names: seq<string>, interactive: bool, name: string)
    ensures name in Lane(names, interactive) <==> name in names && IsInteractiveQueue(name) == interactive
  {
    hide IsInteractiveQueue;
  }

  lemma LaneOfQueue(t: string, c: Capability)
    requires IsJobType(t) && c in Capabilities(t)
    ensures IsInteractiveQueue(QueueOf(t, c)) <==> IsInteractive(t)
  {
    hide Capabilities, QueueOf, WorkQueues, JobTypes, IsInteractive, IsJobType;
    var all := WorkQueues(JobTypes());
    JobTypesExact(t);
    assert Queue(QueueOf(t, c), t, c) in all;
    var found := QueueByName(all, QueueOf(t, c));
    JobTypesExact(found.value.jobType);
    QueueNamesInjective(t, c, found.value.jobType, found.value.capability);
  }

  /** A routed job waits in an interactive queue exactly when its type is interactive. */
  lemma LaneOfRouted(job: Job)
    requires Routed(job)
    ensures IsInteractiveQueue(job.order.queueName) <==> IsInteractive(job.order.jobType)
  {
    hide Capabilities, QueueOf, IsInteractiveQueue, IsInteractive, IsJobType, RequiredCapability;
    LaneOfQueue(job.order.jobType, Required(job));
  }

  // ---- What one claim hands out --------------------------------------------

  /** The oldest waiting job of a queue, as `fetchOne` returns it. */
  function Fetch(jobs: seq<Job>, name: string): (r: Option<nat>)
    ensures r.Some? ==> IsFirst(jobs, r.value, job => Claimable(job, [name]))
    ensures r.None? ==> NoneOf(jobs, job => Claimable(job, [name]))
  {
    FetchFrom(jobs, name, 0)
  }

  function FetchFrom(jobs: seq<Job>, name: string, i: nat): (r: Option<nat>)
    requires i <= |jobs|
    requires forall k :: 0 <= k < i ==> !Claimable(jobs[k], [name])
    ensures r.Some? ==> IsFirst(jobs, r.value, job => Claimable(job, [name]))
    ensures r.None? ==> NoneOf(jobs, job => Claimable(job, [name]))
    decreases |jobs| - i
  {
    if i == |jobs| then None
    else if Claimable(jobs[i], [name]) then Some(i)
    else FetchFrom(jobs, name, i + 1)
  }

  datatype Choice = FromInteractive(queue: nat, job: nat) | FromBackground(queue: nat, job: nat) | Nothing

  /** The queue `offset` places after the cursor. */
  function Turn(cursor: nat, offset: nat, n: nat): (i: nat)
    requires n > 0
    ensures i < n
  {
    (cursor % n + offset) % n
  }

  /** The choice probes the interactive queues in order, then the background queues
      from the cursor, and takes the oldest job of the first queue that has one. */
  ghost predicate Serves(jobs: seq<Job>, interactive: seq<string>, background: seq<string>, cursor: nat,
                         choice: Choice) {
    match choice
    case FromInteractive(q, i) =>
      && q < |interactive| && Fetch(jobs, interactive[q]) == Some(i)
      && forall k :: 0 <= k < q ==> Fetch(jobs, interactive[k]).None?
    case FromBackground(q, i) =>
      && (forall k :: 0 <= k < |interactive| ==> Fetch(jobs, interactive[k]).None?)
      && q < |background| && Fetch(jobs, background[q]) == Some(i)
      && exists offset: nat :: (offset < |background| && q == Turn(cursor, offset, |background|)
           && forall k: nat :: k < offset ==> Fetch(jobs, background[Turn(cursor, k, |background|)]).None?)
    case Nothing =>
      && (forall k :: 0 <= k < |interactive| ==> Fetch(jobs, interactive[k]).None?)
      && (forall k: nat :: k < |background| ==> Fetch(jobs, background[Turn(cursor, k, |background|)]).None?)
  }

  function CursorAfter(cursor: nat, n: nat, choice: Choice): nat {
    match choice
    case FromInteractive(_, _) => cursor
    case FromBackground(q, _) => if n == 0 then cursor else (q + 1) % n
    case Nothing => if n == 0 then cursor else (cursor % n + 1) % n
  }

  function Taken(choice: Choice): Option<nat> {
    match choice
    case FromInteractive(_, i) => Some(i)
    case FromBackground(_, i) => Some(i)
    case Nothing => None
  }

  class PgBossJobBroker {
    var jobs: seq<Job>
    var claimCursor: nat

    constructor ()
      ensures jobs == [] && claimCursor == 0
    {
      jobs := [];
      claimCursor := 0;
    }

    method Claim(capabilities: set<Capability>) returns (claimed: Option<nat>, ghost choice: Choice)
      modifies this
      ensures var queues := QueueNamesForCapabilities(capabilities);
              && Serves(old(jobs), Lane(queues, true), Lane(queues, false), old(claimCursor), choice)
              && claimCursor == CursorAfter(old(claimCursor), |Lane(queues, false)|, choice)
      ensures claimed == Taken(choice)
      ensures claimed.Some? ==> claimed.value < |old(jobs)|
                                && jobs == old(jobs)[claimed.value := Apply(old(jobs)[claimed.value], Op.Claim)]
      ensures claimed.Some? ==>
                var job := old(jobs)[claimed.value];
                job.state in {Created, JobState.Retry} && jobs[claimed.value] == job.(state := Active)
      ensures claimed.None? ==> jobs == old(jobs)
    {
      hide QueueNamesForCapabilities, Fetch, Lane;
      var queues := QueueNamesForCapabilities(capabilities);
      var interactive, background := Lane(queues, true), Lane(queues, false);
      for k := 0 to |interactive|
        invariant forall j :: 0 <= j < k ==> Fetch(jobs, interactive[j]).None?
      {
        var job := Fetch(jobs, interactive[k]);
        if job.Some? {
          choice := FromInteractive(k, job.value);
          jobs := jobs[job.value := jobs[job.value].(state := Active)];
          return job, choice;
        }
      }
      choice := Nothing;
      if |background| == 0 {
        return None, choice;
      }
      var start := claimCursor % |background|;
      for offset := 0 to |background|
        invariant jobs == old(jobs) && claimCursor == old(claimCursor)
        invariant forall k: nat :: k < offset ==> Fetch(jobs, background[Turn(claimCursor, k, |background|)]).None?
      {
        var index := (start + offset) % |background|;
        assert index == Turn(claimCursor, offset, |background|);
        var job := Fetch(jobs, background[index]);
        if job.Some? {
          choice := FromBackground(index, job.value);
          assert Serves(jobs, interactive, background, claimCursor, choice);
          claimCursor := (index + 1) % |background|;
          jobs := jobs[job.value := jobs[job.value].(state := Active)];
          return job, choice;
        }
      }
      claimCursor := (start + 1) % |background|;
      return None, choice;
    }
  }

  // ---- What a claim guarantees ---------------------------------------------

  /** How many places the cursor still has to go before it reaches a queue. */
  function Distance(cursor: nat, q: nat, n: nat): (d: nat)
    requires q < n
    ensures d < n
  {
    var start := cursor % n;
    if start <= q then q - start else q + n - start
  }

  lemma Wraps(a: nat, n: nat)
    requires 0 < n && a < 2 * n
    ensures a % n == if a < n then a else a - n
  {
    if a >= n {
      assert a == (a - n) + 1 * n;
    }
  }

  lemma TurnIs(cursor: nat, offset: nat, n: nat)
    requires offset < n
    ensures cursor % n < n
    ensures Turn(cursor, offset, n) == if cursor % n + offset < n then cursor % n + offset else cursor % n + offset - n
  {
    Wraps(cursor % n + offset, n);
  }

  lemma TurnReaches(cursor: nat, q: nat, n: nat)
    requires q < n
    ensures Turn(cursor, Distance(cursor, q, n), n) == q
  {
    TurnIs(cursor, Distance(cursor, q, n), n);
  }

  lemma MissedQueueIsEmpty(jobs: seq<Job>, interactive: seq<string>, background: seq<string>, cursor: nat, name: string)
    requires Serves(jobs, interactive, background, cursor, Nothing) && (name in interactive || name in background)
    ensures Fetch(jobs, name).None?
  {
    hide Fetch;
    if name in background {
      var q :| 0 <= q < |background| && background[q] == name;
      TurnReaches(cursor, q, |background|);
    }
  }

  /** The claimed job is waiting, the watcher can run it, no older one waits in its
      queue, a background job is never handed out ahead of an interactive one the
      watcher could run, and nothing is handed out only when the watcher can run none of
      the waiting jobs. */
  lemma ClaimIsFair(jobs: seq<Job>, accepted: set<Capability>, cursor: nat, choice: Choice)
    requires AllRouted(jobs)
    requires var queues := QueueNamesForCapabilities(accepted);
             Serves(jobs, Lane(queues, true), Lane(queues, false), cursor, choice)
    ensures Taken(choice).Some? ==>
              var i := Taken(choice).value;
              && i < |jobs| && Runnable(jobs[i], accepted)
              && (choice.FromInteractive? <==> IsInteractive(jobs[i].order.jobType))
              && (forall k :: 0 <= k < i && jobs[k].order.queueName == jobs[i].order.queueName ==>
                    !Runnable(jobs[k], accepted))
    ensures !choice.FromInteractive? ==>
              forall k :: 0 <= k < |jobs| && Runnable(jobs[k], accepted) ==> !IsInteractive(jobs[k].order.jobType)
    ensures choice.Nothing? ==> forall k :: 0 <= k < |jobs| ==> !Runnable(jobs[k], accepted)
  {
    hide QueueNamesForCapabilities, IsInteractiveQueue, IsInteractive, RequiredCapability, QueueNameForJob, IsJobType,
         Lane, Fetch;
    var queues := QueueNamesForCapabilities(accepted);
    if Taken(choice).Some? {
      var i := Taken(choice).value;
      LaneExact(queues, choice.FromInteractive?, Lane(queues, choice.FromInteractive?)[choice.queue]);
      assert Routed(jobs[i]);
      LaneOfRouted(jobs[i]);
      ClaimableIffCapable(jobs[i].order.jobType, jobs[i].order.input, accepted);
      assert forall k :: 0 <= k < i ==> !Claimable(jobs[k], [jobs[i].order.queueName]);
    }
    forall k | 0 <= k < |jobs| && Runnable(jobs[k], accepted)
      ensures choice.FromInteractive? || (!IsInteractive(jobs[k].order.jobType) && !choice.Nothing?)
    {
      assert Routed(jobs[k]);
      LaneOfRouted(jobs[k]);
      ClaimableIffCapable(jobs[k].order.jobType, jobs[k].order.input, accepted);
      var name := jobs[k].order.queueName;
      assert Claimable(jobs[k], [name]);
      assert Fetch(jobs, name).Some?;
      LaneExact(queues, IsInteractive(jobs[k].order.jobType), name);
      if choice.Nothing? {
        MissedQueueIsEmpty(jobs, Lane(queues, true), Lane(queues, false), cursor, name);
      }
    }
  }

  lemma TurnFirst(cursor: nat, n: nat)
    requires n > 0
    ensures Turn(cursor, 0, n) == cursor % n
  {
    TurnIs(cursor, 0, n);
  }

  lemma CursorTurns(cursor: nat, n: nat, choice: Choice)
    requires n > 0 && (choice.FromBackground? ==> choice.queue < n)
    ensures CursorAfter(cursor, n, choice) % n
         == var last := match choice case FromBackground(q, _) => q case _ => cursor % n;
            if choice.FromInteractive? then last else if last == n - 1 then 0 else last + 1
  {
    SmallMod(cursor % n, n);
    match choice
    case FromInteractive(_, _) =>
    case FromBackground(q, _) =>
      Wraps(q + 1, n);
      SmallMod((q + 1) % n, n);
    case Nothing =>
      Wraps(cursor % n + 1, n);
      SmallMod((cursor % n + 1) % n, n);
  }

  lemma SmallMod(a: nat, n: nat)
    requires a < n
    ensures a % n == a
  {
  }

  /** What the next claim of the same list tries first among its background queues: the
      one after the last it served, or, when there was nothing to serve, the one after
      the first it tried; and it takes that one's oldest job if it has one. */
  lemma NextTriesFirst(interactive: seq<string>, background: seq<string>, cursor: nat, choice: Choice, first: nat,
                       jobs: seq<Job>, next: Choice)
    requires background != [] && (choice.FromBackground? ==> choice.queue < |background|)
    requires var last := match choice case FromBackground(q, _) => q case _ => cursor % |background|;
             first == if choice.FromInteractive? then last else if last == |background| - 1 then 0 else last + 1
    requires Serves(jobs, interactive, background, CursorAfter(cursor, |background|, choice), next)
    requires forall k :: 0 <= k < |interactive| ==> Fetch(jobs, interactive[k]).None?
    requires first < |background| && Fetch(jobs, background[first]).Some?
    ensures next == FromBackground(first, Fetch(jobs, background[first]).value)
  {
    hide Fetch, CursorAfter;
    var n, now := |background|, CursorAfter(cursor, |background|, choice);
    CursorTurns(cursor, n, choice);
    TurnFirst(now, n);
    assert Turn(now, 0, n) == first;
  }

  // ---- Starvation ----------------------------------------------------------

  /** What successive claims of one watcher list find and choose. Between them the
      jobs may change in any way. */
  datatype Look = Look(jobs: seq<Job>, choice: Choice)

  ghost predicate Claims(interactive: seq<string>, background: seq<string>, cursor: nat, looks: seq<Look>)
    decreases |looks|
  {
    looks == [] ||
      (Serves(looks[0].jobs, interactive, background, cursor, looks[0].choice)
       && Claims(interactive, background, CursorAfter(cursor, |background|, looks[0].choice), looks[1..]))
  }

  function BackgroundServings(looks: seq<Look>): nat {
    if looks == [] then 0 else (if looks[0].choice.FromBackground? then 1 else 0) + BackgroundServings(looks[1..])
  }

  predicate StaysWaiting(looks: seq<Look>, name: string) {
    forall k :: 0 <= k < |looks| ==> Fetch(looks[k].jobs, name).Some?
  }

  predicate Served(looks: seq<Look>, q: nat) {
    exists k :: 0 <= k < |looks| && looks[k].choice.FromBackground? && looks[k].choice.queue == q
  }

  /** Serving another queue brings the cursor nearer to one that stays non-empty. */
  lemma ServingComesNearer(jobs: seq<Job>, interactive: seq<string>, background: seq<string>, cursor: nat,
                           choice: Choice, q: nat)
    requires Serves(jobs, interactive, background, cursor, choice)
    requires q < |background| && Fetch(jobs, background[q]).Some?
    ensures !choice.Nothing?
    ensures choice.FromBackground? && choice.queue != q ==>
              Distance(CursorAfter(cursor, |background|, choice), q, |background|) < Distance(cursor, q, |background|)
  {
    hide Fetch;
    var n := |background|;
    var offset := Distance(cursor, q, n);
    TurnReaches(cursor, q, n);
    if choice.FromBackground? {
      var o: nat :| o < n && choice.queue == Turn(cursor, o, n)
                    && forall k: nat :: k < o ==> Fetch(jobs, background[Turn(cursor, k, n)]).None?;
      assert o <= offset;
      if choice.queue != q {
        NextDistance(cursor, o, offset, n);
      }
    }
  }

  lemma NextDistance(cursor: nat, o: nat, offset: nat, n: nat)
    requires o < offset < n
    ensures Distance((Turn(cursor, o, n) + 1) % n, Turn(cursor, offset, n), n) == offset - o - 1
  {
    hide Turn;
    TurnIs(cursor, o, n);
    TurnIs(cursor, offset, n);
    Wraps(Turn(cursor, o, n) + 1, n);
    Wraps((Turn(cursor, o, n) + 1) % n, n);
  }

  lemma {:induction false} ServedWithin(interactive: seq<string>, background: seq<string>, cursor: nat,
                                        looks: seq<Look>, q: nat)
    requires q < |background| && Claims(interactive, background, cursor, looks) && StaysWaiting(looks, background[q])
    requires BackgroundServings(looks) > Distance(cursor, q, |background|)
    ensures Served(looks, q)
    decreases |looks|
  {
    hide Fetch, Serves;
    var head, rest := looks[0], looks[1..];
    assert Fetch(head.jobs, background[q]).Some?;
    ServingComesNearer(head.jobs, interactive, background, cursor, head.choice, q);
    assert forall k :: 0 <= k < |rest| ==> rest[k] == looks[k + 1];
    if !(head.choice.FromBackground? && head.choice.queue == q) {
      ServedWithin(interactive, background, CursorAfter(cursor, |background|, head.choice), rest, q);
      var k :| 0 <= k < |rest| && rest[k].choice.FromBackground? && rest[k].choice.queue == q;
      assert looks[k + 1].choice.queue == q;
    }
  }

  /** With one capability list, a background queue that stays non-empty is served
      within as many background-serving claims as there are background queues,
      whatever the cursor was and whatever happens between the claims. */
  lemma NoStarvation(accepted: set<Capability>, cursor: nat, looks: seq<Look>, q: nat)
    requires var queues := QueueNamesForCapabilities(accepted);
             var background := Lane(queues, false);
             && q < |background| && Claims(Lane(queues, true), background, cursor, looks)
             && StaysWaiting(looks, background[q]) && BackgroundServings(looks) >= |background|
    ensures Served(looks, q)
  {
    hide QueueNamesForCapabilities, Lane, Fetch, Serves, Claims;
    var queues := QueueNamesForCapabilities(accepted);
    ServedWithin(Lane(queues, true), Lane(queues, false), cursor, looks, q);
  }

  // ---- Failing for good ----------------------------------------------------

  /** `failTerminal` zeroes the row's retry limit and then fails it. */
  function ZeroRetriesThenFail(job: Job, error: string): Job {
    FailedOnce(job.(retryLimit := 0), error)
  }

  /** The two steps have the effect of the in-memory broker's one, whatever retries
      were left and whatever state the job was in, but for the limit they zero. */
  lemma FailTerminalAgrees(job: Job, error: string)
    ensures ZeroRetriesThenFail(job, error).(retryLimit := job.retryLimit) == FailedTerminally(job, error)
    ensures !Terminal(job.state) ==> ZeroRetriesThenFail(job, error).state.Failed?
    ensures ZeroRetriesThenFail(job, error).retryLimit == 0
  {
  }

  // ---- Counting by queue name ----------------------------------------------

  function InFlightQueueNames(types: seq<string>): seq<string> {
    Names(WorkQueues(types))
  }

  /** `count(*) WHERE state = ANY(in flight) AND name = ANY(names)`. */
  function CountByName(jobs: seq<Job>, names: seq<string>): nat {
    if jobs == [] then 0
    else
      var last := jobs[|jobs| - 1];
      CountByName(jobs[..|jobs| - 1], names) + if InFlight(last.state) && last.order.queueName in names then 1 else 0
  }

  lemma NamedIffTyped(job: Job, types: seq<string>)
    requires Routed(job) && forall t :: t in types ==> IsJobType(t)
    ensures job.order.queueName in InFlightQueueNames(types) <==> job.order.jobType in types
  {
    hide Capabilities, QueueOf, WorkQueues, IsJobType, RequiredCapability;
    var t, c := job.order.jobType, Required(job);
    var qs := WorkQueues(types);
    if t in types {
      var q := Queue(QueueOf(t, c), t, c);
      assert q in qs;
      var i :| 0 <= i < |qs| && qs[i] == q;
      assert Names(qs)[i] == job.order.queueName;
    }
    if job.order.queueName in Names(qs) {
      var i :| 0 <= i < |qs| && Names(qs)[i] == job.order.queueName;
      assert qs[i] in qs;
      QueueNamesInjective(t, c, qs[i].jobType, qs[i].capability);
    }
  }

  /** Both brokers count the same jobs: by queue name in the database, by job type
      in memory. */
  lemma {:induction false} CountsAgree(jobs: seq<Job>, types: seq<string>)
    requires AllRouted(jobs) && forall t :: t in types ==> IsJobType(t)
    ensures CountByName(jobs, InFlightQueueNames(types)) == CountInFlight(jobs, set t | t in types)
  {
    hide InFlightQueueNames, IsJobType, Routed;
    if jobs != [] {
      var last := jobs[|jobs| - 1];
      assert Routed(last);
      CountsAgree(jobs[..|jobs| - 1], types);
      NamedIffTyped(last, types);
    }
  }
}
