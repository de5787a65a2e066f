/** The background embedder: one pass at a time, and a flag that folds every trigger
    during a pass into one further pass. */
module Embedder {
  import opened TextLines

  datatype Event = Triggered | PassStarted | PassEnded | PassThrew

  /** The log keeps what happened, in order. */
  datatype State = State(inFlight: bool, rerunRequested: bool, log: seq<Event>)

  datatype Step = Trigger | EndPass | ThrowPass

  const START := State(false, false, [])

  predicate Enabled(s: State, step: Step) {
    step.Trigger? || s.inFlight
  }

  /** The code between two awaits runs without interruption. */
  function Do(s: State, step: Step): State
    requires Enabled(s, step)
  {
    match step
    case Trigger =>
      if s.inFlight then State(true, true, s.log + [Triggered])
      else State(true, false, s.log + [Triggered, PassStarted])
    case EndPass =>
      if s.rerunRequested then State(true, false, s.log + [PassEnded, PassStarted])
      else State(false, false, s.log + [PassEnded])
    case ThrowPass => State(false, s.rerunRequested, s.log + [PassThrew])
  }

  function Exec(s: State, steps: seq<Step>): Option<State>
    decreases |steps|
  {
    if steps == [] then Some(s)
    else if Enabled(s, steps[0]) then Exec(Do(s, steps[0]), steps[1..])
    else None
  }

  // ---- One pass at a time --------------------------------------------------

  predicate Ends(e: Event) {
    e.PassEnded? || e.PassThrew?
  }

  /** Passes underway after a log. */
  function Underway(log: seq<Event>): int {
    if log == [] then 0
    else
      var last := log[|log| - 1];
      Underway(log[..|log| - 1]) + if last.PassStarted? then 1 else if Ends(last) then -1 else 0
  }

  /** At no point of the log are two passes underway. */
  predicate OneAtATime(log: seq<Event>) {
    forall n :: 0 <= n <= |log| ==> 0 <= Underway(log[..n]) <= 1
  }

  lemma UnderwaySnoc(log: seq<Event>, e: Event)
    ensures Underway(log + [e]) == Underway(log) + if e.PassStarted? then 1 else if Ends(e) then -1 else 0
  {
    assert (log + [e])[..|log|] == log;
  }

  lemma OneAtATimeSnoc(log: seq<Event>, e: Event)
    requires OneAtATime(log) && 0 <= Underway(log + [e]) <= 1
    ensures OneAtATime(log + [e])
  {
    var all := log + [e];
    forall n | 0 <= n <= |all|
      ensures 0 <= Underway(all[..n]) <= 1
    {
      if n <= |log| {
        assert all[..n] == log[..n];
      } else {
        assert all[..n] == all;
      }
    }
  }

  // ---- Every trigger is followed by a pass ---------------------------------

  /** Some trigger has no pass that started after it. */
  predicate Unserved(log: seq<Event>) {
    exists i :: 0 <= i < |log| && log[i].Triggered? && forall j :: i < j < |log| ==> !log[j].PassStarted?
  }

  lemma UnservedSnoc(log: seq<Event>, e: Event)
    ensures Unserved(log + [e]) <==> e.Triggered? || (Unserved(log) && !e.PassStarted?)
  {
    var all := log + [e];
    assert all[|log|] == e;
    if Unserved(log) && !e.PassStarted? {
      var i :| 0 <= i < |log| && log[i].Triggered? && forall j :: i < j < |log| ==> !log[j].PassStarted?;
      assert all[i].Triggered? && forall j :: i < j < |all| ==> !all[j].PassStarted?;
    }
    if Unserved(all) && !e.Triggered? {
      var i :| 0 <= i < |all| && all[i].Triggered? && forall j :: i < j < |all| ==> !all[j].PassStarted?;
      assert log[i].Triggered? && forall j :: i < j < |log| ==> log[j] == all[j];
    }
  }

  /** The rerun flag says exactly whether a trigger is still unserved. */
  predicate Inv(s: State) {
    && Underway(s.log) == (if s.inFlight then 1 else 0)
    && OneAtATime(s.log)
    && (Unserved(s.log) <==> s.rerunRequested)
  }

  lemma TwoEvents(log: seq<Event>, a: Event, b: Event)
    ensures log + [a, b] == (log + [a]) + [b]
  {
  }

  lemma StepKeepsInv(s: State, step: Step)
    requires Inv(s) && Enabled(s, step)
    ensures Inv(Do(s, step))
  {
    hide Underway, OneAtATime, Unserved;
    var first := match step case Trigger => Triggered case EndPass => PassEnded case ThrowPass => PassThrew;
    UnderwaySnoc(s.log, first);
    OneAtATimeSnoc(s.log, first);
    UnservedSnoc(s.log, first);
    if (step.Trigger? && !s.inFlight) || (step.EndPass? && s.rerunRequested) {
      TwoEvents(s.log, first, PassStarted);
      UnderwaySnoc(s.log + [first], PassStarted);
      OneAtATimeSnoc(s.log + [first], PassStarted);
      UnservedSnoc(s.log + [first], PassStarted);
    }
  }

  lemma {:induction false} RunKeepsInv(s: State, steps: seq<Step>)
    requires Inv(s) && Exec(s, steps).Some?
    ensures Inv(Exec(s, steps).value)
    decreases |steps|
  {
    hide Inv, Do, Enabled;
    if steps != [] {
      StepKeepsInv(s, steps[0]);
      RunKeepsInv(Do(s, steps[0]), steps[1..]);
    }
  }

  lemma {:induction false} RunWithoutThrow(s: State, steps: seq<Step>)
    requires (s.rerunRequested ==> s.inFlight) && ThrowPass !in steps && Exec(s, steps).Some?
    ensures Exec(s, steps).value.rerunRequested ==> Exec(s, steps).value.inFlight
    decreases |steps|
  {
    if steps != [] {
      assert steps[0] in steps && forall e :: e in steps[1..] ==> e in steps;
      RunWithoutThrow(Do(s, steps[0]), steps[1..]);
    }
  }

  /** In every interleaving of triggers and pass endings one pass runs at a time;
      if none throws, every trigger has been followed by a pass that started after
      it, except while a pass is underway whose end will start that pass. */
  lemma EveryTriggerIsServed(steps: seq<Step>)
    requires Exec(START, steps).Some?
    ensures OneAtATime(Exec(START, steps).value.log)
    ensures ThrowPass !in steps && Unserved(Exec(START, steps).value.log) ==>
              var s := Exec(START, steps).value;
              s.inFlight && !Unserved(Do(s, EndPass).log) && Do(s, EndPass).inFlight
  {
    hide Exec, OneAtATime, Unserved;
    StartInv();
    RunKeepsInv(START, steps);
    var s := Exec(START, steps).value;
    if ThrowPass !in steps {
      RunWithoutThrow(START, steps);
    }
    if s.inFlight {
      StepKeepsInv(s, EndPass);
    }
  }

  lemma StartInv()
    ensures Inv(START)
  {
    assert forall n :: 0 <= n <= |START.log| ==> START.log[..n] == [];
  }

  /** With throws too: once no pass is underway, some trigger has gone unserved
      exactly when the rerun flag was left set, which takes a pass that threw after
      being triggered again; the next trigger serves them all. */
  lemma ThrowLosesTriggersIff(steps: seq<Step>)
    requires Exec(START, steps).Some? && !Exec(START, steps).value.inFlight
    ensures Unserved(Exec(START, steps).value.log) <==> Exec(START, steps).value.rerunRequested
    ensures Unserved(Exec(START, steps).value.log) ==> ThrowPass in steps
    ensures !Unserved(Do(Exec(START, steps).value, Trigger).log)
  {
    hide Exec, Unserved;
    StartInv();
    RunKeepsInv(START, steps);
    StepKeepsInv(Exec(START, steps).value, Trigger);
    if ThrowPass !in steps {
      RunWithoutThrow(START, steps);
    }
  }

  function Repeat(e: Event, n: nat): seq<Event> {
    seq(n, _ => e)
  }

  function Triggers(n: nat): seq<Step> {
    seq(n, _ => Trigger)
  }

  lemma {:induction false} TriggersOnly(s: State, n: nat)
    requires s.inFlight
    ensures Exec(s, Triggers(n)) == Some(State(true, s.rerunRequested || n > 0, s.log + Repeat(Triggered, n)))
    decreases n
  {
    if n == 0 {
      assert s.log + Repeat(Triggered, 0) == s.log;
    } else {
      assert Triggers(n)[1..] == Triggers(n - 1);
      TriggersOnly(Do(s, Trigger), n - 1);
      assert (s.log + [Triggered]) + Repeat(Triggered, n - 1) == s.log + Repeat(Triggered, n);
    }
  }

  lemma {:induction false} ExecSnoc(s: State, steps: seq<Step>, step: Step)
    requires Exec(s, steps).Some? && Enabled(Exec(s, steps).value, step)
    ensures Exec(s, steps + [step]) == Some(Do(Exec(s, steps).value, step))
    decreases |steps|
  {
    if steps == [] {
      assert [step][1..] == [];
    } else {
      assert (steps + [step])[1..] == steps[1..] + [step];
      ExecSnoc(Do(s, steps[0]), steps[1..], step);
    }
  }

  /** However many triggers arrive during one pass, they make exactly one further
      pass start when it ends, and without a trigger none starts. */
  lemma TriggersCoalesce(s: State, n: nat)
    requires s.inFlight && !s.rerunRequested
    ensures Exec(s, Triggers(n) + [EndPass])
         == Some(if n == 0 then State(false, false, s.log + [PassEnded])
                 else State(true, false, s.log + Repeat(Triggered, n) + [PassEnded, PassStarted]))
  {
    hide Exec;
    TriggersOnly(s, n);
    ExecSnoc(s, Triggers(n), EndPass);
    assert s.log + Repeat(Triggered, 0) == s.log;
  }

  // ---- The code ------------------------------------------------------------

  class BackgroundEmbedder {
    var inFlight: bool
    var rerunRequested: bool
    const configured: bool
    ghost var log: seq<Event>

    ghost function Now(): State
      reads this
    {
      State(inFlight, rerunRequested, log)
    }

    /** Without a store and a provider a trigger does nothing. */
    constructor (configured: bool)
      ensures Now() == START && this.configured == configured
    {
      this.configured := configured;
      inFlight := false;
      rerunRequested := false;
      log := [];
    }

    method OnTrigger() returns (startsPass: bool)
      modifies this
      ensures Now() == if configured then Do(old(Now()), Trigger) else old(Now())
      ensures startsPass <==> configured && !old(inFlight)
      ensures configured ==> inFlight && (rerunRequested <==> old(inFlight))
    {
      if !configured {
        return false;
      }
      log := log + [Triggered];
      if inFlight {
        rerunRequested := true;
        return false;
      }
      inFlight := true;
      rerunRequested := false;
      log := log + [PassStarted];
      return true;
    }

    /** The rest of the loop body and its condition, after the awaited pass. */
    method OnPassEnd() returns (startsPass: bool)
      requires inFlight
      modifies this
      ensures Now() == Do(old(Now()), EndPass)
      ensures startsPass <==> old(rerunRequested)
      ensures inFlight == old(rerunRequested) && !rerunRequested
    {
      log := log + [PassEnded];
      if rerunRequested {
        rerunRequested := false;
        log := log + [PassStarted];
        return true;
      }
      inFlight := false;
      return false;
    }

    method OnPassThrow()
      requires inFlight
      modifies this
      ensures Now() == Do(old(Now()), ThrowPass)
      ensures !inFlight && rerunRequested == old(rerunRequested)
    {
      log := log + [PassThrew];
      inFlight := false;
    }
  }
}
