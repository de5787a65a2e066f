/** Any number of watchers, each with its own queues, on the broker's one claim cursor. */
module SharedCursor {
  import opened TextLines
  import opened Catalog
  import opened Lifecycle
  import opened FakeBroker
  import opened PgBossBroker

  datatype Lists = Lists(interactive: seq<string>, background: seq<string>)

  function ListsOf(accepted: set<Capability>): Lists {
    var queues := QueueNamesForCapabilities(accepted);
    Lists(Lane(queues, true), Lane(queues, false))
  }

  /** One claim: whose it is, and what it finds and chooses. */
  datatype Go = Go(who: nat, look: Look)

  /** A run of claims in any interleaving. Between them the jobs may change in any way. */
  ghost predicate Shared(ws: seq<Lists>, cursor: nat, run: seq<Go>)
    decreases |run|
  {
    run == [] ||
      (run[0].who < |ws| &&
       var l, look := ws[run[0].who], run[0].look;
       && Serves(look.jobs, l.interactive, l.background, cursor, look.choice)
       && Shared(ws, CursorAfter(cursor, |l.background|, look.choice), run[1..]))
  }

  /** The claim hands out a background job to a watcher that accepts the queue. */
  predicate Counts(ws: seq<Lists>, go: Go, name: string) {
    go.who < |ws| && name in ws[go.who].background && go.look.choice.FromBackground?
  }

  function Servings(ws: seq<Lists>, run: seq<Go>, name: string): nat {
    if run == [] then 0 else (if Counts(ws, run[0], name) then 1 else 0) + Servings(ws, run[1..], name)
  }

  predicate Waits(run: seq<Go>, name: string) {
    forall k :: 0 <= k < |run| ==> Fetch(run[k].look.jobs, name).Some?
  }

  predicate RoutedRun(run: seq<Go>) {
    forall k :: 0 <= k < |run| ==> AllRouted(run[k].look.jobs)
  }

  predicate ServesFrom(ws: seq<Lists>, go: Go, name: string) {
    && go.who < |ws| && go.look.choice.FromBackground?
    && var background := ws[go.who].background;
       go.look.choice.queue < |background| && background[go.look.choice.queue] == name
  }

  predicate GetsServed(ws: seq<Lists>, run: seq<Go>, name: string) {
    exists k :: 0 <= k < |run| && ServesFrom(ws, run[k], name)
  }

  /** The queue is served within this many background-serving claims of the watchers
      that accept it, whatever happens; in all runs, or in those of routed jobs only. */
  ghost predicate ServedAfter(ws: seq<Lists>, name: string, bound: nat, routed: bool) {
    forall cursor: nat, run: seq<Go> ::
      Shared(ws, cursor, run) && Waits(run, name) && (routed ==> RoutedRun(run)) && Servings(ws, run, name) > bound
      ==> GetsServed(ws, run, name)
  }

  // ---- On the cursor alone -------------------------------------------------

  /** A claim on `n` background queues that serves another than the one at `p` can
      move the cursor from `c` to `d`. */
  predicate Misses(n: nat, p: nat, c: nat, d: nat)
    requires p < n
  {
    d < n && Distance(d, p, n) < Distance(c, p, n)
  }

  function Min(m: nat, n: nat): nat {
    if m <= n then m else n
  }

  function Max(m: nat, n: nat): nat {
    if m <= n then n else m
  }

  /** The places of a queue in two lists at which no interleaving can starve it: one
      list holds nothing else; or the places are the same, and the shorter list has
      too few queues after it, or the longer one too few more. */
  predicate SafePlaces(m: nat, a: nat, n: nat, b: nat) {
    var short, long := Min(m, n), Max(m, n);
    short == 1 || (a == b && (short <= a + 2 || long <= short + a + 1))
  }

  /** A watcher that does not accept the queue, and has `n` background queues, cannot put
      the cursor off its place. */
  predicate SafeAlone(m: nat, a: nat, n: nat) {
    m == 1 || n == 0 || (n == 1 && a == 0)
  }

  function PlaceOf(names: seq<string>, name: string): (i: Option<nat>)
    ensures i.Some? ==> i.value < |names| && names[i.value] == name
    ensures i.None? ==> name !in names
  {
    if names == [] then None
    else if names[0] == name then Some(0)
    else
      match PlaceOf(names[1..], name)
      case None => None
      case Some(i) => Some(i + 1)
  }

  /** Two watchers cannot starve the queue between them. */
  predicate SafeTogether(k: Lists, l: Lists, name: string) {
    match (PlaceOf(k.background, name), PlaceOf(l.background, name))
    case (Some(i), Some(j)) => SafePlaces(|k.background|, i, |l.background|, j)
    case (Some(i), None) => SafeAlone(|k.background|, i, |l.background|)
    case (None, Some(j)) => SafeAlone(|l.background|, j, |k.background|)
    case (None, None) => true
  }

  predicate SafeFamily(ws: seq<Lists>, name: string) {
    forall x, y :: 0 <= x < |ws| && 0 <= y < |ws| ==> SafeTogether(ws[x], ws[y], name)
  }

  lemma SmallModIs(c: nat, n: nat)
    requires 0 < n
    ensures c < n ==> c % n == c
    ensures n <= c < 2 * n ==> c % n == c - n
    ensures c % n < n
  {
    if c < 2 * n {
      Wraps(c, n);
    }
  }

  /** What every missing claim brings down, with the queue at `a` and no list longer
      than `n`; nothing if no claim can miss. */
  function Rank(single: bool, a: nat, n: nat, c: nat): nat {
    if single then 0
    else if c <= a then a - c
    else if c < n then a + n - c
    else a + n
  }

  lemma RankFalls(m: nat, a: nat, n: nat, c: nat, d: nat)
    requires a < m <= n && (m <= a + 2 || n <= m + a + 1) && Misses(m, a, c, d)
    ensures Rank(false, a, n, d) < Rank(false, a, n, c)
  {
    SmallModIs(c, m);
    SmallModIs(d, m);
  }

  /** At any other places the cursor can go to and fro for ever: up by a miss of the
      longer list and down by one of the shorter. */
  lemma UnsafeCycle(m: nat, a: nat, n: nat, b: nat) returns (low: nat, high: nat)
    requires a < m <= n && b < n && !SafePlaces(m, a, n, b)
    ensures Misses(n, b, low, high) && Misses(m, a, high, low)
  {
    if a == b {
      low, high := a + 2, m + a + 1;
    } else if b % m == a {
      low, high := a, a + 1;
      NextMod(a, m, b);
    } else {
      low, high := a, b;
    }
    SmallModIs(low, m);
    SmallModIs(high, m);
    SmallModIs(low, n);
    SmallModIs(high, n);
  }

  lemma NextMod(a: nat, m: nat, b: nat)
    requires a < m && b % m == a && a != b && m >= 2
    ensures a < b
  {
    SmallModIs(b, m);
  }

  // ---- Safe families -------------------------------------------------------

  /** What a safe family comes to: no watcher can miss the queue, or those that can have
      it at one place, in lists up to `n` long that are long enough or near enough to
      that, and the others leave the cursor at 0 or alone. */
  predicate Settled(l: Lists, name: string, single: bool, a: nat, n: nat) {
    var m := |l.background|;
    match PlaceOf(l.background, name)
    case Some(i) => m == 1 || (!single && i == a && m <= n && (m <= a + 2 || n <= m + a + 1))
    case None => single || m == 0 || (m == 1 && a == 0)
  }

  lemma MissOrServe(l: Lists, p: nat, name: string, cursor: nat, look: Look)
    requires p < |l.background| && l.background[p] == name && Fetch(look.jobs, name).Some?
    requires Serves(look.jobs, l.interactive, l.background, cursor, look.choice)
    ensures var next := CursorAfter(cursor, |l.background|, look.choice);
            if !look.choice.FromBackground? then next == cursor
            else look.choice.queue < |l.background|
                 && (l.background[look.choice.queue] != name ==> Misses(|l.background|, p, cursor, next))
  {
    hide Fetch, Serves, Distance;
    ServingComesNearer(look.jobs, l.interactive, l.background, cursor, look.choice, p);
    if look.choice.FromBackground? {
      QueueInRange(look.jobs, l.interactive, l.background, cursor, look.choice);
    }
  }

  lemma QueueInRange(jobs: seq<Job>, interactive: seq<string>, background: seq<string>, cursor: nat, choice: Choice)
    requires Serves(jobs, interactive, background, cursor, choice) && choice.FromBackground?
    ensures choice.queue < |background|
  {
    hide Fetch;
  }

  lemma OthersKeepRank(single: bool, a: nat, n: nat, m: nat, c: nat, choice: Choice)
    requires single || m == 0 || (m == 1 && a == 0)
    requires choice.FromBackground? ==> choice.queue < m
    ensures Rank(single, a, n, CursorAfter(c, m, choice)) <= Rank(single, a, n, c)
  {
    if m == 1 {
      SmallModIs(0, 1);
      assert forall q: nat :: q % 1 == 0;
    }
  }

  lemma OnlyPlace(c: nat, d: nat)
    ensures !Misses(1, 0, c, d)
  {
  }

  /** One claim of a settled watcher: it serves the queue, or counts and brings the rank
      down, or does not count and does not raise it. */
  lemma SettledClaim(l: Lists, name: string, single: bool, a: nat, n: nat, cursor: nat, look: Look)
    requires Settled(l, name, single, a, n) && Fetch(look.jobs, name).Some?
    requires Serves(look.jobs, l.interactive, l.background, cursor, look.choice)
    ensures var next := CursorAfter(cursor, |l.background|, look.choice);
            && (look.choice.FromBackground? ==> look.choice.queue < |l.background|)
            && if look.choice.FromBackground? && l.background[look.choice.queue] == name then true
               else if look.choice.FromBackground? && name in l.background
               then Rank(single, a, n, next) < Rank(single, a, n, cursor)
               else Rank(single, a, n, next) <= Rank(single, a, n, cursor)
  {
    hide Fetch, Serves, Rank, CursorAfter, Misses;
    var m := |l.background|;
    if look.choice.FromBackground? {
      QueueInRange(look.jobs, l.interactive, l.background, cursor, look.choice);
    }
    match PlaceOf(l.background, name)
    case None =>
      OthersKeepRank(single, a, n, m, cursor, look.choice);
    case Some(i) =>
      var next := CursorAfter(cursor, m, look.choice);
      MissOrServe(l, i, name, cursor, look);
      if look.choice.FromBackground? && l.background[look.choice.queue] != name {
        if m == 1 {
          OnlyPlace(cursor, next);
        } else {
          RankFalls(m, a, n, cursor, next);
        }
      }
  }

  lemma {:induction false} SettledServes(ws: seq<Lists>, name: string, single: bool, a: nat, n: nat, cursor: nat,
                                         run: seq<Go>)
    requires forall x :: 0 <= x < |ws| ==> Settled(ws[x], name, single, a, n)
    requires Shared(ws, cursor, run) && Waits(run, name) && Servings(ws, run, name) > Rank(single, a, n, cursor)
    ensures GetsServed(ws, run, name)
    decreases |run|
  {
    hide Fetch, Serves, Rank, CursorAfter, Settled;
    var go, rest := run[0], run[1..];
    var l := ws[go.who];
    assert Fetch(run[0].look.jobs, name).Some?;
    SettledClaim(l, name, single, a, n, cursor, go.look);
    if ServesFrom(ws, go, name) {
      assert ServesFrom(ws, run[0], name);
    } else {
      assert forall k :: 0 <= k < |rest| ==> rest[k] == run[k + 1];
      SettledServes(ws, name, single, a, n, CursorAfter(cursor, |l.background|, go.look.choice), rest);
      var k :| 0 <= k < |rest| && ServesFrom(ws, rest[k], name);
      assert ServesFrom(ws, run[k + 1], name);
    }
  }

  /** The watcher can miss the queue: it accepts it, and another one. */
  predicate CanMiss(l: Lists, name: string) {
    name in l.background && |l.background| != 1
  }

  /** A longest list among those that can miss the queue. */
  lemma {:induction false} LongestOf(ws: seq<Lists>, name: string, x: nat) returns (y: nat)
    requires x < |ws| && CanMiss(ws[x], name)
    ensures y < |ws| && CanMiss(ws[y], name)
    ensures forall z :: 0 <= z < |ws| && CanMiss(ws[z], name) ==> |ws[z].background| <= |ws[y].background|
  {
    hide CanMiss;
    y := x;
    for k := 0 to |ws|
      invariant y < |ws| && CanMiss(ws[y], name)
      invariant forall z :: 0 <= z < k && CanMiss(ws[z], name) ==> |ws[z].background| <= |ws[y].background|
    {
      if CanMiss(ws[k], name) && |ws[k].background| > |ws[y].background| {
        y := k;
      }
    }
  }

  lemma SafeIsSettled(ws: seq<Lists>, name: string) returns (single: bool, a: nat, n: nat)
    requires SafeFamily(ws, name)
    ensures forall x :: 0 <= x < |ws| ==> Settled(ws[x], name, single, a, n)
    ensures single || (a < n && exists y :: 0 <= y < |ws| && |ws[y].background| == n)
  {
    single := forall x :: 0 <= x < |ws| ==> !CanMiss(ws[x], name);
    if single {
      a, n := 0, 0;
    } else {
      var x :| 0 <= x < |ws| && CanMiss(ws[x], name);
      var y := LongestOf(ws, name, x);
      a, n := PlaceOf(ws[y].background, name).value, |ws[y].background|;
      forall z | 0 <= z < |ws|
        ensures Settled(ws[z], name, single, a, n)
      {
        assert SafeTogether(ws[z], ws[y], name);
        assert CanMiss(ws[z], name) ==> |ws[z].background| <= n;
      }
    }
  }

  // ---- Unsafe families -----------------------------------------------------

  predicate Distinct(names: seq<string>) {
    forall i, j :: 0 <= i < j < |names| ==> names[i] != names[j]
  }

  predicate Apart(l: Lists) {
    Distinct(l.background) && forall name :: name in l.background ==> name !in l.interactive
  }

  /** A queue of the catalog. */
  predicate IsWorkQueue(name: string) {
    QueueByName(WorkQueues(JobTypes()), name).Some?
  }

  predicate AllWorkQueues(ws: seq<Lists>) {
    forall x, name :: 0 <= x < |ws| && name in ws[x].background ==> IsWorkQueue(name)
  }

  /** A job waiting in a queue: of the queue's type, with an input that names its
      capability, if the catalog has the queue. */
  function JobIn(name: string): Job {
    match QueueByName(WorkQueues(JobTypes()), name)
    case None => NewJob(Order(name, Input(None, None), name))
    case Some(q) => NewJob(Order(q.jobType, Input(Some(Name(q.capability)), Some(Name(q.capability))), name))
  }

  lemma JobInWaits(name: string)
    ensures JobIn(name).order.queueName == name && JobIn(name).state.Created?
  {
    hide QueueByName, WorkQueues, JobTypes, RetryLimit, Name;
  }

  lemma JobInIsRouted(name: string)
    requires IsWorkQueue(name)
    ensures Routed(JobIn(name))
  {
    hide IsJobType, JobTypes, RequiredCapability, QueueOf, RetryLimit, WorkQueues, Capabilities, Name;
    var q := QueueByName(WorkQueues(JobTypes()), name).value;
    JobTypesExact(q.jobType);
    NamedInputRoutes(q.jobType, q.capability);
  }

  /** An input that names a capability of the type in every field is routed there. */
  lemma NamedInputRoutes(t: string, c: Capability)
    requires IsJobType(t) && c in Capabilities(t)
    ensures RequiredCapability(t, Input(Some(Name(c)), Some(Name(c)))) == Ok(c)
  {
    hide IsJobType, IsAi, Name, Capabilities;
    NamedExact(Capabilities(t), Name(c), c);
  }

  lemma FetchTwo(x: string, y: string, name: string)
    requires x != y
    ensures Fetch([JobIn(x), JobIn(y)], name) == if name == x then Some(0) else if name == y then Some(1) else None
  {
    hide JobIn;
    JobInWaits(x);
    JobInWaits(y);
    var jobs := [JobIn(x), JobIn(y)];
    assert Waiting(jobs[0].state) && Waiting(jobs[1].state);
    assert jobs[0].order.queueName == x && jobs[1].order.queueName == y;
    assert Claimable(jobs[0], [name]) <==> x == name;
    assert Claimable(jobs[1], [name]) <==> y == name;
  }

  lemma TurnDistance(cursor: nat, k: nat, n: nat)
    requires k < n
    ensures Distance(cursor, Turn(cursor, k, n), n) == k
  {
    TurnIs(cursor, k, n);
  }

  /** The queue whose service leaves the cursor at `d`. */
  function Before(d: nat, n: nat): (i: nat)
    requires d < n
    ensures i < n
  {
    if d == 0 then n - 1 else d - 1
  }

  lemma BeforeMissed(n: nat, p: nat, c: nat, d: nat)
    requires p < n && Misses(n, p, c, d)
    ensures Before(d, n) != p && Distance(c, Before(d, n), n) < Distance(c, p, n) && (Before(d, n) + 1) % n == d
  {
    SmallModIs(Before(d, n) + 1, n);
    SmallModIs(d, n);
    SmallModIs(c, n);
  }

  /** Such a claim: two jobs wait, one of them where it is missed. */
  function MissingLook(l: Lists, name: string, d: nat): Look
    requires d < |l.background|
  {
    var i := Before(d, |l.background|);
    Look([JobIn(name), JobIn(l.background[i])], FromBackground(i, 1))
  }

  lemma MissingClaim(l: Lists, p: nat, name: string, c: nat, d: nat)
    requires Apart(l) && p < |l.background| && l.background[p] == name && Misses(|l.background|, p, c, d)
    ensures var look := MissingLook(l, name, d);
            && Serves(look.jobs, l.interactive, l.background, c, look.choice)
            && Fetch(look.jobs, name).Some?
            && CursorAfter(c, |l.background|, look.choice) == d
            && look.choice.FromBackground? && look.choice.queue < |l.background|
            && l.background[look.choice.queue] != name
  {
    hide Fetch, JobIn, Distance, Turn;
    var n, look := |l.background|, MissingLook(l, name, d);
    var i := Before(d, n);
    BeforeMissed(n, p, c, d);
    var other := l.background[i];
    assert other != name;
    FetchTwo(name, other, name);
    FetchTwo(name, other, other);
    forall k | 0 <= k < |l.interactive|
      ensures Fetch(look.jobs, l.interactive[k]).None?
    {
      assert l.interactive[k] in l.interactive;
      FetchTwo(name, other, l.interactive[k]);
    }
    var offset := Distance(c, i, n);
    TurnReaches(c, i, n);
    forall k: nat | k < offset
      ensures Fetch(look.jobs, l.background[Turn(c, k, n)]).None?
    {
      TurnDistance(c, k, n);
      FetchTwo(name, other, l.background[Turn(c, k, n)]);
    }
  }

  lemma MissingRouted(l: Lists, name: string, d: nat)
    requires d < |l.background| && IsWorkQueue(name) && forall other :: other in l.background ==> IsWorkQueue(other)
    ensures AllRouted(MissingLook(l, name, d).jobs)
  {
    hide JobIn, Routed, IsWorkQueue;
    JobInIsRouted(name);
    JobInIsRouted(l.background[Before(d, |l.background|)]);
  }

  /** A claim of a list without the queue can leave the cursor anywhere. */
  lemma ForeignClaim(l: Lists, name: string, c: nat, d: nat)
    requires Apart(l) && name !in l.background && name !in l.interactive && d < |l.background|
    ensures var look := MissingLook(l, name, d);
            && Serves(look.jobs, l.interactive, l.background, c, look.choice)
            && Fetch(look.jobs, name).Some?
            && CursorAfter(c, |l.background|, look.choice) == d
            && look.choice.FromBackground? && look.choice.queue < |l.background|
            && l.background[look.choice.queue] != name
  {
    hide Fetch, JobIn, Distance, Turn;
    var n, look := |l.background|, MissingLook(l, name, d);
    var i := Before(d, n);
    var other := l.background[i];
    FetchTwo(name, other, name);
    FetchTwo(name, other, other);
    forall k | 0 <= k < |l.interactive|
      ensures Fetch(look.jobs, l.interactive[k]).None?
    {
      assert l.interactive[k] in l.interactive;
      FetchTwo(name, other, l.interactive[k]);
    }
    var offset := Distance(c, i, n);
    TurnReaches(c, i, n);
    forall k: nat | k < offset
      ensures Fetch(look.jobs, l.background[Turn(c, k, n)]).None?
    {
      TurnDistance(c, k, n);
      FetchTwo(name, other, l.background[Turn(c, k, n)]);
    }
    SmallModIs(i + 1, n);
  }

  function Swings(up: Go, down: Go, n: nat): seq<Go> {
    if n == 0 then [] else [up, down] + Swings(up, down, n - 1)
  }

  /** The claim moves the cursor from `c` to `d` and leaves the queue waiting. */
  ghost predicate Passes(ws: seq<Lists>, go: Go, name: string, c: nat, d: nat) {
    && go.who < |ws| && go.look.choice.FromBackground?
    && var l := ws[go.who];
       && Serves(go.look.jobs, l.interactive, l.background, c, go.look.choice)
       && CursorAfter(c, |l.background|, go.look.choice) == d
       && Fetch(go.look.jobs, name).Some? && !ServesFrom(ws, go, name)
  }

  lemma {:induction false} SwingsStarve(ws: seq<Lists>, name: string, low: nat, up: Go, high: nat, down: Go, n: nat)
    requires Passes(ws, up, name, low, high) && Passes(ws, down, name, high, low) && Counts(ws, down, name)
    ensures var run := Swings(up, down, n);
            && Shared(ws, low, run) && Waits(run, name) && !GetsServed(ws, run, name)
            && Servings(ws, run, name) == if Counts(ws, up, name) then 2 * n else n
    ensures AllRouted(up.look.jobs) && AllRouted(down.look.jobs) ==> RoutedRun(Swings(up, down, n))
  {
    hide Fetch, Serves, CursorAfter, ServesFrom, AllRouted, Counts;
    if n > 0 {
      SwingsStarve(ws, name, low, up, high, down, n - 1);
      var rest, run := Swings(up, down, n - 1), Swings(up, down, n);
      assert run == [up, down] + rest;
      assert run[1..] == [down] + rest && run[1..][1..] == rest;
      assert Shared(ws, high, [down] + rest);
      assert Servings(ws, [down] + rest, name) == 1 + Servings(ws, rest, name);
    }
  }

  lemma MissInRange(n: nat, p: nat, c: nat, d: nat)
    requires p < n && Misses(n, p, c, d)
    ensures d < n
  {
  }

  lemma MissingPasses(ws: seq<Lists>, x: nat, p: nat, name: string, c: nat, d: nat)
    requires x < |ws| && Apart(ws[x]) && p < |ws[x].background| && ws[x].background[p] == name
    requires Misses(|ws[x].background|, p, c, d)
    ensures d < |ws[x].background|
    ensures var go := Go(x, MissingLook(ws[x], name, d)); Passes(ws, go, name, c, d) && Counts(ws, go, name)
  {
    hide Fetch, Serves, CursorAfter, Apart, MissingLook, Misses;
    MissInRange(|ws[x].background|, p, c, d);
    MissingClaim(ws[x], p, name, c, d);
  }

  lemma ForeignPasses(ws: seq<Lists>, x: nat, name: string, c: nat, d: nat)
    requires x < |ws| && Apart(ws[x]) && name !in ws[x].background && name !in ws[x].interactive
    requires d < |ws[x].background|
    ensures Passes(ws, Go(x, MissingLook(ws[x], name, d)), name, c, d)
  {
    hide Fetch, Serves, CursorAfter, Apart, MissingLook;
    ForeignClaim(ws[x], name, c, d);
  }

  /** Two claims of two watchers that can starve the queue for ever: each leaves the
      cursor where the other misses it. */
  ghost predicate Starves(ws: seq<Lists>, name: string, low: nat, up: Go, high: nat, down: Go) {
    && Passes(ws, up, name, low, high) && Passes(ws, down, name, high, low) && Counts(ws, down, name)
    && (AllWorkQueues(ws) ==> AllRouted(up.look.jobs) && AllRouted(down.look.jobs))
  }

  lemma SwingIsRouted(ws: seq<Lists>, x: nat, name: string, d: nat)
    requires x < |ws| && d < |ws[x].background| && IsWorkQueue(name)
    ensures AllWorkQueues(ws) ==> AllRouted(MissingLook(ws[x], name, d).jobs)
  {
    hide MissingLook, IsWorkQueue, AllRouted;
    if AllWorkQueues(ws) {
      MissingRouted(ws[x], name, d);
    }
  }

  /** Both accept it, at unsafe places. */
  lemma PairStarves(ws: seq<Lists>, x: nat, y: nat, name: string)
    returns (low: nat, up: Go, high: nat, down: Go)
    requires x < |ws| && y < |ws| && Apart(ws[x]) && Apart(ws[y]) && |ws[x].background| <= |ws[y].background|
    requires PlaceOf(ws[x].background, name).Some? && PlaceOf(ws[y].background, name).Some?
    requires !SafeTogether(ws[x], ws[y], name)
    ensures Starves(ws, name, low, up, high, down)
  {
    hide Passes, Counts, Apart, MissingLook, Misses, IsWorkQueue, SafePlaces, AllRouted;
    var i, j := PlaceOf(ws[x].background, name).value, PlaceOf(ws[y].background, name).value;
    low, high := UnsafeCycle(|ws[x].background|, i, |ws[y].background|, j);
    MissingPasses(ws, y, j, name, low, high);
    MissingPasses(ws, x, i, name, high, low);
    up, down := Go(y, MissingLook(ws[y], name, high)), Go(x, MissingLook(ws[x], name, low));
    if AllWorkQueues(ws) {
      assert name in ws[x].background;
      SwingIsRouted(ws, y, name, high);
      SwingIsRouted(ws, x, name, low);
    }
  }

  /** One accepts it, and the other can put the cursor off its place. */
  lemma AloneStarves(ws: seq<Lists>, x: nat, y: nat, name: string)
    returns (low: nat, up: Go, high: nat, down: Go)
    requires x < |ws| && y < |ws| && Apart(ws[x]) && Apart(ws[y]) && name !in ws[y].interactive
    requires PlaceOf(ws[x].background, name).Some? && PlaceOf(ws[y].background, name).None?
    requires !SafeTogether(ws[x], ws[y], name)
    ensures Starves(ws, name, low, up, high, down)
  {
    hide Passes, Counts, Apart, MissingLook, IsWorkQueue, AllRouted;
    var i := PlaceOf(ws[x].background, name).value;
    low, high := i, if i == 0 then 1 else 0;
    SmallModIs(low, |ws[x].background|);
    SmallModIs(high, |ws[x].background|);
    ForeignPasses(ws, y, name, low, high);
    MissingPasses(ws, x, i, name, high, low);
    up, down := Go(y, MissingLook(ws[y], name, high)), Go(x, MissingLook(ws[x], name, low));
    if AllWorkQueues(ws) {
      assert name in ws[x].background;
      SwingIsRouted(ws, y, name, high);
      SwingIsRouted(ws, x, name, low);
    }
  }

  lemma SafeSymmetric(k: Lists, l: Lists, name: string)
    ensures SafeTogether(k, l, name) <==> SafeTogether(l, k, name)
  {
  }

  /** The watchers keep their lanes apart, and the queue is a background queue. */
  predicate Proper(ws: seq<Lists>, name: string) {
    forall x :: 0 <= x < |ws| ==> Apart(ws[x]) && name !in ws[x].interactive
  }

  lemma UnsafeStarves(ws: seq<Lists>, name: string) returns (low: nat, up: Go, high: nat, down: Go)
    requires Proper(ws, name) && !SafeFamily(ws, name)
    ensures Starves(ws, name, low, up, high, down)
  {
    hide Starves, Apart, SafeTogether;
    var x, y :| 0 <= x < |ws| && 0 <= y < |ws| && !SafeTogether(ws[x], ws[y], name);
    SafeSymmetric(ws[x], ws[y], name);
    if PlaceOf(ws[x].background, name).None? {
      NeitherIsSafe(ws[x], ws[y], name);
      low, up, high, down := AloneStarves(ws, y, x, name);
    } else if PlaceOf(ws[y].background, name).None? {
      low, up, high, down := AloneStarves(ws, x, y, name);
    } else if |ws[x].background| <= |ws[y].background| {
      low, up, high, down := PairStarves(ws, x, y, name);
    } else {
      low, up, high, down := PairStarves(ws, y, x, name);
    }
  }

  lemma NeitherIsSafe(k: Lists, l: Lists, name: string)
    ensures name !in k.background && name !in l.background ==> SafeTogether(k, l, name)
  {
  }

  // ---- Exactly the safe families -------------------------------------------

  function Longest(ws: seq<Lists>): (n: nat)
    ensures forall x :: 0 <= x < |ws| ==> |ws[x].background| <= n
  {
    if ws == [] then 0
    else
      var front := Longest(ws[..|ws| - 1]);
      assert forall x :: 0 <= x < |ws| - 1 ==> ws[x] == ws[..|ws| - 1][x];
      Max(front, |ws[|ws| - 1].background|)
  }

  lemma SafeServes(ws: seq<Lists>, name: string)
    requires SafeFamily(ws, name)
    ensures ServedAfter(ws, name, 2 * Longest(ws), false)
  {
    hide Shared, Waits, GetsServed, Servings, SafeFamily, Settled;
    var single, a, n := SafeIsSettled(ws, name);
    forall cursor: nat, run: seq<Go>
      | Shared(ws, cursor, run) && Waits(run, name) && Servings(ws, run, name) > 2 * Longest(ws)
      ensures GetsServed(ws, run, name)
    {
      SettledServes(ws, name, single, a, n, cursor, run);
    }
  }

  lemma UnsafeUnbounded(ws: seq<Lists>, name: string, bound: nat)
    requires Proper(ws, name) && !SafeFamily(ws, name)
    ensures !ServedAfter(ws, name, bound, false)
    ensures AllWorkQueues(ws) ==> !ServedAfter(ws, name, bound, true)
  {
    hide Shared, Waits, GetsServed, Servings, SafeFamily, Proper, Passes, Counts, RoutedRun, AllRouted, AllWorkQueues;
    var low, up, high, down := UnsafeStarves(ws, name);
    SwingsStarve(ws, name, low, up, high, down, bound + 1);
  }

  /** A background queue is served within a bounded number of claims of the watchers that
      accept it, in whatever order all of them come, whatever else waits and wherever the
      cursor starts, exactly when no two of the watchers are unsafe together; and if all
      queues are the catalog's this stays so when only routed jobs wait. */
  lemma SafeFamiliesExactly(ws: seq<Lists>, name: string, routed: bool)
    requires Proper(ws, name) && (routed ==> AllWorkQueues(ws))
    ensures (exists bound: nat :: ServedAfter(ws, name, bound, routed)) <==> SafeFamily(ws, name)
    ensures SafeFamily(ws, name) ==> ServedAfter(ws, name, 2 * Longest(ws), routed)
  {
    hide Proper, SafeFamily, AllWorkQueues;
    if SafeFamily(ws, name) {
      SafeServes(ws, name);
      FewerRuns(ws, name, 2 * Longest(ws), routed);
    } else {
      forall bound: nat
        ensures !ServedAfter(ws, name, bound, routed)
      {
        UnsafeUnbounded(ws, name, bound);
      }
    }
  }

  lemma FewerRuns(ws: seq<Lists>, name: string, bound: nat, routed: bool)
    requires ServedAfter(ws, name, bound, false)
    ensures ServedAfter(ws, name, bound, routed)
  {
    hide Shared, Waits, GetsServed, Servings, RoutedRun;
  }

  lemma {:induction false} PlaceIs(names: seq<string>, name: string, i: nat)
    requires Distinct(names) && i < |names| && names[i] == name
    ensures PlaceOf(names, name) == Some(i)
  {
    if i > 0 {
      assert forall k :: 0 <= k < |names[1..]| ==> names[1..][k] == names[k + 1];
      PlaceIs(names[1..], name, i - 1);
    }
  }

  lemma TwoAreSafe(k: Lists, l: Lists, name: string)
    ensures SafeFamily([k, l], name) <==> SafeTogether(k, l, name)
  {
    hide SafeTogether;
    SafeSymmetric(k, l, name);
    SafeWithItself(k, name);
    SafeWithItself(l, name);
    var ws := [k, l];
    assert ws[0] == k && ws[1] == l;
  }

  lemma SafeWithItself(l: Lists, name: string)
    ensures SafeTogether(l, l, name)
  {
  }
}
