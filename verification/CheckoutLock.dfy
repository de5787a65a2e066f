/** The promise-chain mutex: one chain of calls a checkout key. */
module CheckoutLock {
  import opened TextLines

  // A map holds the tail of each key's chain and loses the entry when the chain
  // drains. A promise is named by the call that made it.

  /** From the call to the callback that may drop the map entry. */
  datatype Phase = Waiting | Running | Settled(ok: bool) | TailSettled | Cleaned

  /** `previous` is the chain the call waits for; without one it starts at once. */
  datatype Call = Call(key: string, previous: Option<nat>, phase: Phase)

  /** `starts` lists the calls in the order their sections began. */
  datatype State = State(tails: map<string, nat>, calls: seq<Call>, starts: seq<nat>)

  datatype Step =
    | Enter(key: string)
    | Begin(call: nat)
    | Settle(call: nat, ok: bool)
    | SettleTail(call: nat)
    | Cleanup(call: nat)

  const START := State(map[], [], [])

  predicate Done(p: Phase) {
    p.TailSettled? || p.Cleaned?
  }

  predicate Enabled(s: State, step: Step) {
    match step
    case Enter(_) => true
    case Begin(c) =>
      && c < |s.calls| && s.calls[c].phase.Waiting?
      && (s.calls[c].previous.Some? ==>
            s.calls[c].previous.value < |s.calls| && Done(s.calls[s.calls[c].previous.value].phase))
    case Settle(c, _) => c < |s.calls| && s.calls[c].phase.Running?
    case SettleTail(c) => c < |s.calls| && s.calls[c].phase.Settled?
    case Cleanup(c) => c < |s.calls| && s.calls[c].phase.TailSettled?
  }

  function Move(s: State, c: nat, p: Phase): State
    requires c < |s.calls|
  {
    s.(calls := s.calls[c := s.calls[c].(phase := p)])
  }

  function Entering(s: State, key: string): Call {
    Call(key, if key in s.tails then Some(s.tails[key]) else None, Waiting)
  }

  function Do(s: State, step: Step): State
    requires Enabled(s, step)
  {
    match step
    case Enter(key) => s.(calls := s.calls + [Entering(s, key)], tails := s.tails[key := |s.calls|])
    case Begin(c) => Move(s, c, Running).(starts := s.starts + [c])
    case Settle(c, ok) => Move(s, c, Settled(ok))
    case SettleTail(c) => Move(s, c, TailSettled)
    case Cleanup(c) =>
      var key := s.calls[c].key;
      Move(s, c, Cleaned).(tails := if key in s.tails && s.tails[key] == c then s.tails - {key} else s.tails)
  }

  // ---- The invariant -------------------------------------------------------

  ghost predicate SameKey(s: State, c: nat, d: nat) {
    c < |s.calls| && d < |s.calls| && s.calls[c].key == s.calls[d].key
  }

  /** A call waits for the call before it on its key, or all of those are done. */
  ghost predicate Chained(s: State, c: nat)
    requires c < |s.calls|
  {
    match s.calls[c].previous
    case Some(p) => p < c && SameKey(s, p, c) && forall d: nat :: p < d < c ==> !SameKey(s, d, c)
    case None => forall d: nat :: d < c && SameKey(s, d, c) ==> Done(s.calls[d].phase)
  }

  /** No section has begun before every earlier one of its key was done. */
  ghost predicate InOrder(s: State) {
    forall d: nat, c: nat :: d < c && SameKey(s, d, c) && !s.calls[c].phase.Waiting? ==> Done(s.calls[d].phase)
  }

  /** The map names the last call of each key that has not been cleaned up. */
  ghost predicate TailsExact(s: State) {
    && (forall k :: k in s.tails ==>
          s.tails[k] < |s.calls| && s.calls[s.tails[k]].key == k && !s.calls[s.tails[k]].phase.Cleaned?)
    && (forall k, c: nat :: k in s.tails && c < |s.calls| && s.calls[c].key == k ==> c <= s.tails[k])
    && (forall c: nat :: c < |s.calls| && s.calls[c].key !in s.tails ==> Done(s.calls[c].phase))
  }

  ghost predicate StartsInOrder(s: State) {
    && (forall i :: 0 <= i < |s.starts| ==> s.starts[i] < |s.calls| && !s.calls[s.starts[i]].phase.Waiting?)
    && (forall i, j :: 0 <= i < j < |s.starts| && SameKey(s, s.starts[i], s.starts[j]) ==> s.starts[i] < s.starts[j])
  }

  ghost predicate Inv(s: State) {
    && (forall c: nat :: c < |s.calls| ==> Chained(s, c))
    && InOrder(s) && TailsExact(s) && StartsInOrder(s)
  }

  lemma StepKeepsChained(s: State, step: Step, c: nat)
    requires Inv(s) && Enabled(s, step) && c < |Do(s, step).calls|
    ensures Chained(Do(s, step), c)
  {
    var t := Do(s, step);
    assert forall d: nat :: d < |s.calls| ==>
             t.calls[d].key == s.calls[d].key && (Done(s.calls[d].phase) ==> Done(t.calls[d].phase));
    if c < |s.calls| {
      assert Chained(s, c);
      assert t.calls[c].previous == s.calls[c].previous;
      forall d: nat | d < c && SameKey(t, d, c)
        ensures SameKey(s, d, c)
      {
      }
    }
  }

  lemma BeginKeepsOrder(s: State, c: nat)
    requires Inv(s) && Enabled(s, Begin(c))
    ensures forall d: nat :: d < c && SameKey(s, d, c) ==> Done(s.calls[d].phase)
  {
    assert Chained(s, c);
    if s.calls[c].previous.Some? {
      var p := s.calls[c].previous.value;
      forall d: nat | d < c && SameKey(s, d, c)
        ensures Done(s.calls[d].phase)
      {
        assert d <= p;
        if d < p {
          assert SameKey(s, d, p);
        }
      }
    }
  }

  /** A waiting section may begin exactly when the tail of every earlier call of its key
      has settled, whether or not its entry has been dropped yet. */
  lemma BeginsIff(s: State, c: nat)
    requires Inv(s) && c < |s.calls|
    ensures Enabled(s, Begin(c)) <==>
              && s.calls[c].phase.Waiting?
              && forall d: nat :: d < c && s.calls[d].key == s.calls[c].key ==>
                   s.calls[d].phase.TailSettled? || s.calls[d].phase.Cleaned?
  {
    hide InOrder, TailsExact, StartsInOrder;
    assert Chained(s, c);
    if Enabled(s, Begin(c)) {
      BeginKeepsOrder(s, c);
      forall d: nat | d < c && s.calls[d].key == s.calls[c].key
        ensures Done(s.calls[d].phase)
      {
        assert SameKey(s, d, c);
      }
    }
  }

  lemma StepKeepsOrder(s: State, step: Step)
    requires Inv(s) && Enabled(s, step)
    ensures InOrder(Do(s, step))
  {
    hide Chained, TailsExact, StartsInOrder;
    var t := Do(s, step);
    if step.Begin? {
      BeginKeepsOrder(s, step.call);
    }
    forall d: nat, c: nat | d < c && SameKey(t, d, c) && !t.calls[c].phase.Waiting?
      ensures Done(t.calls[d].phase)
    {
      assert SameKey(s, d, c);
    }
  }

  lemma EnterKeepsTails(s: State, key: string)
    requires TailsExact(s)
    ensures TailsExact(Do(s, Enter(key)))
  {
  }

  lemma CleanupKeepsTails(s: State, c: nat)
    requires TailsExact(s) && InOrder(s) && Enabled(s, Cleanup(c))
    ensures TailsExact(Do(s, Cleanup(c)))
  {
    var t := Do(s, Cleanup(c));
    forall d: nat | d < |t.calls| && t.calls[d].key !in t.tails
      ensures Done(t.calls[d].phase)
    {
      if t.calls[d].key in s.tails {
        assert s.tails[t.calls[d].key] == c && d <= c;
        if d < c {
          assert SameKey(s, d, c);
        }
      }
    }
  }

  lemma MoveKeepsTails(s: State, c: nat, p: Phase)
    requires TailsExact(s) && c < |s.calls| && !p.Cleaned? && (Done(s.calls[c].phase) ==> Done(p))
    ensures TailsExact(Move(s, c, p))
  {
  }

  lemma StepKeepsTails(s: State, step: Step)
    requires TailsExact(s) && InOrder(s) && Enabled(s, step)
    ensures TailsExact(Do(s, step))
  {
    hide TailsExact, InOrder, Move;
    match step {
      case Enter(key) => EnterKeepsTails(s, key);
      case Begin(c) =>
        MoveKeepsTails(s, c, Running);
        TailsOnly(Move(s, c, Running), s.starts + [c]);
      case Settle(c, ok) => MoveKeepsTails(s, c, Settled(ok));
      case SettleTail(c) => MoveKeepsTails(s, c, TailSettled);
      case Cleanup(c) => CleanupKeepsTails(s, c);
    }
  }

  lemma TailsOnly(s: State, starts: seq<nat>)
    requires TailsExact(s)
    ensures TailsExact(s.(starts := starts))
  {
  }

  lemma StepKeepsStarts(s: State, step: Step)
    requires Inv(s) && Enabled(s, step)
    ensures StartsInOrder(Do(s, step))
  {
    hide Chained, TailsExact;
    var t := Do(s, step);
    assert forall c: nat :: c < |s.calls| ==> t.calls[c].key == s.calls[c].key;
    if step.Begin? {
      forall i | 0 <= i < |s.starts| && SameKey(s, step.call, s.starts[i])
        ensures s.starts[i] < step.call
      {
      }
    }
    forall i, j | 0 <= i < j < |t.starts| && SameKey(t, t.starts[i], t.starts[j])
      ensures t.starts[i] < t.starts[j]
    {
      assert t.starts[i] == s.starts[i];
      assert SameKey(s, t.starts[i], t.starts[j]) && SameKey(s, t.starts[j], t.starts[i]);
    }
  }

  lemma StepKeepsInv(s: State, step: Step)
    requires Inv(s) && Enabled(s, step)
    ensures Inv(Do(s, step))
  {
    hide Chained, InOrder, TailsExact, StartsInOrder, Do, Enabled;
    forall c: nat | c < |Do(s, step).calls|
      ensures Chained(Do(s, step), c)
    {
      StepKeepsChained(s, step, c);
    }
    StepKeepsOrder(s, step);
    StepKeepsTails(s, step);
    StepKeepsStarts(s, step);
  }

  function Exec(s: State, steps: seq<Step>): Option<State>
    decreases |steps|
  {
    if steps == [] then Some(s)
    else if Enabled(s, steps[0]) then Exec(Do(s, steps[0]), steps[1..])
    else None
  }

  lemma {:induction false} RunKeepsInv(s: State, steps: seq<Step>)
    requires Inv(s) && Exec(s, steps).Some?
    ensures Inv(Exec(s, steps).value)
    decreases |steps|
  {
    hide Inv, Do, Enabled;
    if steps != [] {
      StepKeepsInv(s, steps[0]);
      RunKeepsInv(Do(s, steps[0]), steps[1..]);
    }
  }

  // ---- Safety over whole runs ----------------------------------------------

  /** In every interleaving of calls, settlements and cleanups, at most one section
      of a key is running, the sections of a key begin in call order, none before
      every earlier call of its key has settled, and a key whose calls are all
      cleaned up has left no entry in the map. */
  lemma MutexIsSafe(steps: seq<Step>)
    requires Exec(START, steps).Some?
    ensures var s := Exec(START, steps).value;
            && (forall c: nat, d: nat :: c < d && SameKey(s, c, d) ==>
                  !(s.calls[c].phase.Running? && s.calls[d].phase.Running?))
            && InOrder(s)
            && StartsInOrder(s)
            && (forall k :: k in s.tails ==>
                  exists c: nat :: c < |s.calls| && s.calls[c].key == k && !s.calls[c].phase.Cleaned?)
  {
    hide Exec, Chained;
    assert Inv(START);
    RunKeepsInv(START, steps);
  }

  // ---- Progress ------------------------------------------------------------

  function StagesLeft(p: Phase): nat {
    match p
    case Waiting => 4
    case Running => 3
    case Settled(_) => 2
    case TailSettled => 1
    case Cleaned => 0
  }

  /** The work that stands before a call, its own included: what the calls of its
      key up to it still have to go through. */
  function Rank(calls: seq<Call>, key: string, upTo: nat): nat
    requires upTo <= |calls|
  {
    if upTo == 0 then 0
    else Rank(calls, key, upTo - 1) + if calls[upTo - 1].key == key then StagesLeft(calls[upTo - 1].phase) else 0
  }

  lemma {:induction false} RankChanged(calls: seq<Call>, key: string, upTo: nat, c: nat, p: Phase)
    requires upTo <= |calls| && c < |calls|
    ensures Rank(calls[c := calls[c].(phase := p)], key, upTo)
         == Rank(calls, key, upTo)
            + if c < upTo && calls[c].key == key then StagesLeft(p) - StagesLeft(calls[c].phase) else 0
  {
    if upTo > 0 {
      RankChanged(calls, key, upTo - 1, c, p);
    }
  }

  lemma {:induction false} RankAppended(calls: seq<Call>, key: string, upTo: nat, call: Call)
    requires upTo <= |calls|
    ensures Rank(calls + [call], key, upTo) == Rank(calls, key, upTo)
  {
    if upTo > 0 {
      RankAppended(calls, key, upTo - 1, call);
    }
  }

  ghost predicate Concerns(s: State, step: Step, c: nat)
    requires c < |s.calls|
  {
    !step.Enter? && step.call <= c && SameKey(s, step.call, c)
  }

  /** No step, and in particular no later call and no other key, adds to the work
      before a call; each step of its key up to it takes one stage away. */
  lemma RankDecreases(s: State, step: Step, c: nat)
    requires c < |s.calls| && Enabled(s, step)
    ensures var key := s.calls[c].key;
            Rank(Do(s, step).calls, key, c + 1) == Rank(s.calls, key, c + 1) - if Concerns(s, step, c) then 1 else 0
  {
    var key := s.calls[c].key;
    match step {
      case Enter(k) => RankAppended(s.calls, key, c + 1, Entering(s, k));
      case Begin(d) => RankChanged(s.calls, key, c + 1, d, Running);
      case Settle(d, ok) => RankChanged(s.calls, key, c + 1, d, Settled(ok));
      case SettleTail(d) => RankChanged(s.calls, key, c + 1, d, TailSettled);
      case Cleanup(d) => RankChanged(s.calls, key, c + 1, d, Cleaned);
    }
  }

  /** While a call has not been cleaned up, one of the calls of its key up to it can
      take a step: the runtime can move it, or its section can settle either way. */
  lemma NeverStuck(s: State, c: nat) returns (step: Step)
    requires Inv(s) && c < |s.calls| && !s.calls[c].phase.Cleaned?
    ensures Enabled(s, step) && Concerns(s, step, c)
  {
    hide InOrder, TailsExact, StartsInOrder;
    var d := FirstUndone(s, c, c);
    match s.calls[d].phase {
      case Waiting =>
        assert Chained(s, d);
        step := Begin(d);
      case Running => step := Settle(d, true);
      case Settled(_) => step := SettleTail(d);
      case TailSettled => step := Cleanup(d);
    }
  }

  /** The earliest call of a key that is not done, or the call itself. */
  lemma {:induction false} FirstUndone(s: State, c: nat, from: nat) returns (d: nat)
    requires c < |s.calls| && !s.calls[c].phase.Cleaned?
    requires from <= c && SameKey(s, from, c) && (from == c || !Done(s.calls[from].phase))
    ensures d <= c && SameKey(s, d, c) && !s.calls[d].phase.Cleaned?
    ensures forall e: nat :: e < d && SameKey(s, e, d) ==> Done(s.calls[e].phase)
    decreases from
  {
    if e: nat :| e < from && SameKey(s, e, from) && !Done(s.calls[e].phase) {
      d := FirstUndone(s, c, e);
    } else {
      d := from;
    }
  }

  /** From every reachable state some continuation, in which nothing but the calls
      already made moves, completes every one of them and empties the map. */
  lemma {:induction false} CanDrain(s: State, n: nat) returns (steps: seq<Step>)
    requires Inv(s) && n == Pending(s.calls, |s.calls|)
    ensures Exec(s, steps).Some?
    ensures var t := Exec(s, steps).value;
            && t.tails == map[] && |t.calls| == |s.calls|
            && forall c: nat :: c < |t.calls| ==> t.calls[c].phase.Cleaned?
    decreases n
  {
    hide Inv, Do, Enabled;
    if c: nat :| c < |s.calls| && !s.calls[c].phase.Cleaned? {
      var step := NeverStuck(s, c);
      StepKeepsInv(s, step);
      PendingDecreases(s, step);
      var rest := CanDrain(Do(s, step), n - 1);
      steps := [step] + rest;
      assert steps[1..] == rest;
    } else {
      steps := [];
      DrainedIsEmpty(s);
    }
  }

  lemma DrainedIsEmpty(s: State)
    requires Inv(s) && forall c: nat :: c < |s.calls| ==> s.calls[c].phase.Cleaned?
    ensures s.tails == map[]
  {
    forall k | k in s.tails
      ensures false
    {
    }
  }

  function Pending(calls: seq<Call>, upTo: nat): nat
    requires upTo <= |calls|
  {
    if upTo == 0 then 0 else Pending(calls, upTo - 1) + StagesLeft(calls[upTo - 1].phase)
  }

  lemma {:induction false} PendingChanged(calls: seq<Call>, upTo: nat, c: nat, p: Phase)
    requires upTo <= |calls| && c < |calls|
    ensures Pending(calls[c := calls[c].(phase := p)], upTo)
         == Pending(calls, upTo) + if c < upTo then StagesLeft(p) - StagesLeft(calls[c].phase) else 0
  {
    if upTo > 0 {
      PendingChanged(calls, upTo - 1, c, p);
    }
  }

  lemma PendingDecreases(s: State, step: Step)
    requires Enabled(s, step) && !step.Enter?
    ensures |Do(s, step).calls| == |s.calls|
    ensures Pending(Do(s, step).calls, |s.calls|) == Pending(s.calls, |s.calls|) - 1
  {
    PendingChanged(s.calls, |s.calls|, step.call, Do(s, step).calls[step.call].phase);
  }

  // ---- The code ------------------------------------------------------------

  class CheckoutLocks {
    var tails: map<string, nat>
    var calls: seq<Call>
    ghost var starts: seq<nat>

    ghost function Now(): State
      reads this
    {
      State(tails, calls, starts)
    }

    constructor ()
      ensures Now() == START
    {
      tails := map[];
      calls := [];
      starts := [];
    }

    method WithCheckoutLock(key: string) returns (run: nat)
      modifies this
      ensures Now() == Do(old(Now()), Enter(key)) && run == |old(calls)|
      ensures calls == old(calls) + [Call(key, if key in old(tails) then Some(old(tails)[key]) else None, Waiting)]
      ensures tails == old(tails)[key := run] && starts == old(starts)
    {
      var previous := if key in tails then Some(tails[key]) else None;
      run := |calls|;
      calls := calls + [Call(key, previous, Waiting)];
      tails := tails[key := run];
    }

    /** The reaction to the previous holder's tail, however that holder settled. */
    method Proceed(run: nat)
      requires Enabled(Now(), Begin(run))
      modifies this
      ensures Now() == Do(old(Now()), Begin(run))
      ensures calls == old(calls)[run := old(calls)[run].(phase := Running)]
      ensures tails == old(tails) && starts == old(starts) + [run]
    {
      calls := calls[run := calls[run].(phase := Running)];
      starts := starts + [run];
    }

    method SectionSettled(run: nat, ok: bool)
      requires Enabled(Now(), Settle(run, ok))
      modifies this
      ensures Now() == Do(old(Now()), Settle(run, ok))
      ensures calls == old(calls)[run := old(calls)[run].(phase := Settled(ok))]
      ensures tails == old(tails) && starts == old(starts)
    {
      calls := calls[run := calls[run].(phase := Settled(ok))];
    }

    method ResolveTail(run: nat)
      requires Enabled(Now(), SettleTail(run))
      modifies this
      ensures Now() == Do(old(Now()), SettleTail(run))
      ensures calls == old(calls)[run := old(calls)[run].(phase := TailSettled)]
      ensures tails == old(tails) && starts == old(starts)
    {
      calls := calls[run := calls[run].(phase := TailSettled)];
    }

    method DropIfLast(run: nat)
      requires Enabled(Now(), Cleanup(run))
      modifies this
      ensures Now() == Do(old(Now()), Cleanup(run))
      ensures calls == old(calls)[run := old(calls)[run].(phase := Cleaned)] && starts == old(starts)
      ensures var key := old(calls)[run].key;
              tails == if key in old(tails) && old(tails)[key] == run then old(tails) - {key} else old(tails)
    {
      var key := calls[run].key;
      if key in tails && tails[key] == run {
        tails := tails - {key};
      }
      calls := calls[run := calls[run].(phase := Cleaned)];
    }
  }
}
