/** Completing a job over a network that loses requests and replies. */
module Completion {
  import opened TextLines
  import opened Lifecycle
  import opened RetryAccounting
  import opened Watcher

  // One client POSTs until it is answered, gives up or fails the job; the server
  // reads the job before it persists the output; everyone else may act meanwhile.

  /** How far the server is with one completion POST. A POST that has not been read
      may never be; one whose client has given up may still be worked on. */
  datatype Stage =
    | Sent
    | Seen
    | Persisted
    | Replaying
    | Answered(reply: Reply)

  datatype Handler = Handler(output: string, stage: Stage)

  datatype Client =
    | Generating
    | ReadyToPost
    | Awaiting(handler: nat)
    | ReadyToFail
    | AwaitingFail
    | Ended(acknowledged: bool)

  /** `posts` and `fails` count what this claim's client sent; `mode` is how the
      server's broker counts retries. */
  datatype State = State(mode: Accounting, job: Job, output: string, client: Client, handlers: seq<Handler>,
                         posts: nat, fails: nat, failsUnderway: nat)

  datatype Step =
    | RunnerReturns
    | RunnerThrows
    | Abort
    | Post
    | OtherPost(output: string)
    | Read(h: nat)
    | Persist(h: nat)
    | Reject(h: nat, terminal: bool)
    | SideEffects(h: nat, succeed: bool)
    | Crash(h: nat)
    | GetReply
    | LoseReply
    | PostFail
    | DeliverFail
    | EndFail
    | Else(op: Op)

  function Start(mode: Accounting, job: Job, output: string): State {
    State(mode, job, output, Generating, [], 0, 0, 0)
  }

  predicate InStage(s: State, h: nat, stage: Stage) {
    h < |s.handlers| && s.handlers[h].stage == stage
  }

  predicate Enabled(s: State, step: Step) {
    match step
    case RunnerReturns => s.client.Generating?
    case RunnerThrows => s.client.Generating?
    case Abort => s.client.Generating? || s.client.ReadyToFail?
    case Post => s.client.ReadyToPost?
    case OtherPost(_) => true
    case Read(h) => InStage(s, h, Sent)
    case Persist(h) => InStage(s, h, Seen)
    case Reject(h, _) => InStage(s, h, Seen)
    case SideEffects(h, _) => InStage(s, h, Persisted) || InStage(s, h, Replaying)
    case Crash(h) => h < |s.handlers| && !s.handlers[h].stage.Answered?
    case GetReply =>
      && s.client.Awaiting? && s.client.handler < |s.handlers|
      && s.handlers[s.client.handler].stage.Answered?
    case LoseReply => s.client.Awaiting?
    case PostFail => s.client.ReadyToFail?
    case DeliverFail => s.failsUnderway > 0
    case EndFail => s.client.AwaitingFail?
    // Completions arrive only as POSTs.
    case Else(op) => !op.Complete?
  }

  function SetStage(s: State, h: nat, stage: Stage): State
    requires h < |s.handlers|
  {
    s.(handlers := s.handlers[h := s.handlers[h].(stage := stage)])
  }

  /** A cancelled job is refused, a completed one only has its side effects
      replayed, and every other one goes on to validation. */
  function StageAfterRead(state: JobState): Stage {
    if state.Cancelled? then Answered(Refused(409))
    else if state.Completed? then Replaying
    else Seen
  }

  function ClientAfter(posts: nat, reply: Reply): Client {
    match NextMove(posts, reply)
    case Finish => Ended(true)
    case Again => ReadyToPost
    case GiveUp => ReadyToFail
  }

  function Do(s: State, step: Step): State
    requires Enabled(s, step)
  {
    match step
    case RunnerReturns => s.(client := ReadyToPost)
    case RunnerThrows => s.(client := ReadyToFail)
    case Abort => s.(client := Ended(false))
    case Post =>
      s.(client := Awaiting(|s.handlers|), handlers := s.handlers + [Handler(s.output, Sent)], posts := s.posts + 1)
    case OtherPost(output) => s.(handlers := s.handlers + [Handler(output, Sent)])
    case Read(h) => SetStage(s, h, StageAfterRead(s.job.state))
    case Persist(h) => SetStage(s, h, Persisted).(job := Perform(s.mode, s.job, Op.Complete(s.handlers[h].output)))
    case Reject(h, terminal) =>
      SetStage(s, h, Answered(Refused(400)))
        .(job := Perform(s.mode, s.job,
                         if terminal then FailTerminal("invalid_output") else Fail("invalid_output_repairable")))
    case SideEffects(h, succeed) => SetStage(s, h, Answered(if succeed then Accepted else Refused(500)))
    case Crash(h) => SetStage(s, h, Answered(Refused(500)))
    case GetReply => s.(client := ClientAfter(s.posts, s.handlers[s.client.handler].stage.reply))
    case LoseReply => s.(client := ClientAfter(s.posts, NetworkError))
    case PostFail => s.(client := AwaitingFail, fails := s.fails + 1, failsUnderway := s.failsUnderway + 1)
    case DeliverFail => s.(job := Perform(s.mode, s.job, Fail("runner_failed")), failsUnderway := s.failsUnderway - 1)
    case EndFail => s.(client := Ended(false))
    case Else(op) => s.(job := Perform(s.mode, s.job, op))
  }

  /** The state after some steps, if each of them can be taken. */
  function Exec(s: State, steps: seq<Step>): Option<State>
    decreases |steps|
  {
    if steps == [] then Some(s)
    else if Enabled(s, steps[0]) then Exec(Do(s, steps[0]), steps[1..])
    else None
  }

  // ---- Once persisted, always completed ------------------------------------

  /** A POST with another output was read before the job was completed. */
  predicate Stale(s: State, output: string) {
    exists h :: 0 <= h < |s.handlers| && s.handlers[h].stage.Seen? && s.handlers[h].output != output
  }

  predicate HasOutput(s: State, output: string) {
    s.job.state.Completed? && s.job.output == Some(output)
  }

  lemma StepKeepsOutput(s: State, step: Step, output: string)
    requires HasOutput(s, output) && !Stale(s, output) && Enabled(s, step)
    ensures HasOutput(Do(s, step), output) && !Stale(Do(s, step), output)
  {
    hide NextMove;
    var t := Do(s, step);
    forall h | 0 <= h < |t.handlers| && t.handlers[h].stage.Seen?
      ensures t.handlers[h].output == output
    {
      assert h < |s.handlers| && s.handlers[h] == t.handlers[h];
    }
  }

  lemma {:induction false} CompletionIsDurable(s: State, steps: seq<Step>, output: string)
    requires HasOutput(s, output) && !Stale(s, output) && Exec(s, steps).Some?
    ensures HasOutput(Exec(s, steps).value, output)
    decreases |steps|
  {
    hide Do, Stale, HasOutput, Enabled;
    if steps != [] {
      StepKeepsOutput(s, steps[0], output);
      CompletionIsDurable(Do(s, steps[0]), steps[1..], output);
    }
  }

  /** A completed job keeps its output through every continuation exactly when no
      POST that was read before the completion carries another output. */
  lemma DurableIff(s: State, output: string)
    requires HasOutput(s, output)
    ensures (forall steps :: Exec(s, steps).Some? ==> HasOutput(Exec(s, steps).value, output)) <==> !Stale(s, output)
  {
    hide HasOutput, Stale, Exec;
    if Stale(s, output) {
      var h := StaleOverwrites(s, output);
      assert Exec(s, [Persist(h)]).Some? && !HasOutput(Exec(s, [Persist(h)]).value, output);
    } else {
      forall steps | Exec(s, steps).Some?
        ensures HasOutput(Exec(s, steps).value, output)
      {
        CompletionIsDurable(s, steps, output);
      }
    }
  }

  lemma StaleOverwrites(s: State, output: string) returns (h: nat)
    requires HasOutput(s, output) && Stale(s, output)
    ensures Exec(s, [Persist(h)]).Some? && !HasOutput(Exec(s, [Persist(h)]).value, output)
  {
    var k :| 0 <= k < |s.handlers| && s.handlers[k].stage.Seen? && s.handlers[k].output != output;
    h := k;
    var t := Do(s, Persist(h));
    assert [Persist(h)][1..] == [];
    assert Exec(t, []) == Some(t);
  }

  // ---- A cancelled job -----------------------------------------------------

  /** Some POST was read before the job was cancelled. */
  predicate SomeSeen(s: State) {
    exists h :: 0 <= h < |s.handlers| && s.handlers[h].stage.Seen?
  }

  lemma StepKeepsCancelled(s: State, step: Step)
    requires s.job.state.Cancelled? && !SomeSeen(s) && Enabled(s, step)
    ensures Do(s, step).job.state.Cancelled? && !SomeSeen(Do(s, step))
  {
    hide NextMove;
    var t := Do(s, step);
    forall h | 0 <= h < |t.handlers|
      ensures !t.handlers[h].stage.Seen?
    {
      assert h < |s.handlers| ==> !s.handlers[h].stage.Seen?;
    }
  }

  lemma {:induction false} CancelledFrom(s: State, steps: seq<Step>)
    requires s.job.state.Cancelled? && !SomeSeen(s) && Exec(s, steps).Some?
    ensures Exec(s, steps).value.job.state.Cancelled?
    decreases |steps|
  {
    hide Do, SomeSeen, Enabled;
    if steps != [] {
      StepKeepsCancelled(s, steps[0]);
      CancelledFrom(Do(s, steps[0]), steps[1..]);
    }
  }

  /** A cancelled job stays cancelled through every continuation exactly when no POST
      was read before the cancellation and is still to be persisted. */
  lemma CancelledStaysIff(s: State)
    requires s.job.state.Cancelled?
    ensures (forall steps :: Exec(s, steps).Some? ==> Exec(s, steps).value.job.state.Cancelled?) <==> !SomeSeen(s)
  {
    if SomeSeen(s) {
      var h :| 0 <= h < |s.handlers| && s.handlers[h].stage.Seen?;
      PersistOne(s, h);
      assert Exec(s, [Persist(h)]).Some? && !Exec(s, [Persist(h)]).value.job.state.Cancelled?;
    } else {
      hide Exec, SomeSeen;
      forall steps | Exec(s, steps).Some?
        ensures Exec(s, steps).value.job.state.Cancelled?
      {
        CancelledFrom(s, steps);
      }
    }
  }

  lemma PersistOne(s: State, h: nat)
    requires InStage(s, h, Seen)
    ensures Exec(s, [Persist(h)]).Some?
    ensures HasOutput(Exec(s, [Persist(h)]).value, s.handlers[h].output)
  {
    var t := Do(s, Persist(h));
    assert [Persist(h)][1..] == [];
    assert Exec(t, []) == Some(t);
  }

  // ---- What one claim sends, and what an acknowledgement means --------------

  predicate Confirms(stage: Stage) {
    stage.Persisted? || stage.Replaying? || stage == Answered(Accepted)
  }

  /** A POST that has been persisted, replayed or accepted has a completed job. */
  predicate Settled(s: State) {
    forall h :: 0 <= h < |s.handlers| && Confirms(s.handlers[h].stage) ==> s.job.state.Completed?
  }

  predicate ClientBounds(s: State) {
    && (s.client.Generating? ==> s.posts == 0)
    && (s.client.ReadyToPost? ==> s.posts <= COMPLETE_RETRY_ATTEMPTS)
    && s.posts <= COMPLETE_RETRY_ATTEMPTS + 1
    && (s.client.AwaitingFail? || (s.client.Ended? && !s.client.acknowledged) || s.fails == 0)
    && s.failsUnderway <= s.fails <= 1
    && (s.client.Awaiting? ==> 1 <= s.posts)
    && (s.client.Ended? && s.client.acknowledged ==> s.job.state.Completed?)
  }

  lemma StepKeepsBounds(s: State, step: Step)
    requires ClientBounds(s) && Settled(s) && Enabled(s, step)
    ensures ClientBounds(Do(s, step))
  {
    hide StageAfterRead;
  }

  lemma StepKeepsSettled(s: State, step: Step)
    requires Settled(s) && Enabled(s, step)
    ensures Settled(Do(s, step))
  {
    hide NextMove, ClientAfter;
    var t := Do(s, step);
    forall h | 0 <= h < |t.handlers| && Confirms(t.handlers[h].stage)
      ensures t.job.state.Completed?
    {
    }
  }

  lemma {:induction false} BoundsFrom(s: State, steps: seq<Step>)
    requires ClientBounds(s) && Settled(s) && Exec(s, steps).Some?
    ensures ClientBounds(Exec(s, steps).value) && Settled(Exec(s, steps).value)
    decreases |steps|
  {
    hide Do, ClientBounds, Settled, Enabled;
    if steps != [] {
      StepKeepsBounds(s, steps[0]);
      StepKeepsSettled(s, steps[0]);
      BoundsFrom(Do(s, steps[0]), steps[1..]);
    }
  }

  /** In every run one claim sends at most four completions and one failure, an
      acknowledged completion means the job is completed, and no failure is ever
      sent by a client that was acknowledged. */
  lemma OneClaimIsBounded(mode: Accounting, job: Job, output: string, steps: seq<Step>)
    requires Exec(Start(mode, job, output), steps).Some?
    ensures var s := Exec(Start(mode, job, output), steps).value;
            && s.posts <= 4
            && s.fails <= 1
            && (s.client == Ended(true) ==> s.fails == 0 && s.failsUnderway == 0 && s.job.state.Completed?)
  {
    BoundsFrom(Start(mode, job, output), steps);
  }

  // ---- A single generation -------------------------------------------------

  /** Every completion POST carries this claim's output. */
  predicate OneGeneration(steps: seq<Step>, output: string) {
    forall i :: 0 <= i < |steps| && steps[i].OtherPost? ==> steps[i].output == output
  }

  predicate OwnOutput(s: State) {
    && (forall h :: 0 <= h < |s.handlers| ==> s.handlers[h].output == s.output)
    && (s.job.state.Completed? ==> s.job.output == Some(s.output))
  }

  lemma StepKeepsOwnOutput(s: State, step: Step)
    requires OwnOutput(s) && Enabled(s, step) && (step.OtherPost? ==> step.output == s.output)
    ensures OwnOutput(Do(s, step)) && Do(s, step).output == s.output
  {
    hide NextMove;
    var t := Do(s, step);
    forall h | 0 <= h < |t.handlers|
      ensures t.handlers[h].output == s.output
    {
      if h < |s.handlers| {
        assert s.handlers[h].output == s.output;
      }
    }
  }

  lemma {:induction false} OwnOutputFrom(s: State, steps: seq<Step>)
    requires OwnOutput(s) && OneGeneration(steps, s.output) && Exec(s, steps).Some?
    ensures OwnOutput(Exec(s, steps).value) && Exec(s, steps).value.output == s.output
    decreases |steps|
  {
    hide Do, OwnOutput, Enabled;
    if steps != [] {
      StepKeepsOwnOutput(s, steps[0]);
      assert forall i :: 0 <= i < |steps[1..]| ==> steps[1..][i] == steps[i + 1];
      OwnOutputFrom(Do(s, steps[0]), steps[1..]);
    }
  }

  lemma {:induction false} ExecConcat(s: State, a: seq<Step>, b: seq<Step>)
    ensures Exec(s, a + b) == if Exec(s, a).Some? then Exec(Exec(s, a).value, b) else None
    decreases |a|
  {
    hide Do, Enabled;
    if a == [] {
      assert a + b == b;
    } else {
      assert (a + b)[0] == a[0] && (a + b)[1..] == a[1..] + b;
      if Enabled(s, a[0]) {
        ExecConcat(Do(s, a[0]), a[1..], b);
      }
    }
  }

  /** The generation that is paid for is kept: once any completion POST of a claim
      has been persisted, the job stays completed with that output, whatever replies
      are lost, whatever side effects fail, whatever is re-sent, failed, cancelled,
      terminally failed or retried afterwards; and an acknowledged client finds its
      own output stored. */
  lemma OutputIsNeverLost(mode: Accounting, job: Job, output: string, before: seq<Step>, after: seq<Step>)
    requires !job.state.Completed? && OneGeneration(before + after, output)
    requires Exec(Start(mode, job, output), before + after).Some?
    ensures Exec(Start(mode, job, output), before).Some?
    ensures Exec(Start(mode, job, output), before).value.job.state.Completed? ==>
              HasOutput(Exec(Start(mode, job, output), before + after).value, output)
    ensures Exec(Start(mode, job, output), before + after).value.client == Ended(true) ==>
              HasOutput(Exec(Start(mode, job, output), before + after).value, output)
  {
    hide Exec;
    var s0 := Start(mode, job, output);
    ExecConcat(s0, before, after);
    var s := Exec(s0, before).value;
    assert forall i :: 0 <= i < |before| ==> (before + after)[i] == before[i];
    OwnOutputFrom(s0, before);
    OwnOutputFrom(s0, before + after);
    OneClaimIsBounded(mode, job, output, before + after);
    if s.job.state.Completed? {
      CompletionIsDurable(s, after, output);
    }
  }

  /** The watcher's fallback can follow a persisted completion whose replies were
      lost: it is sent, and changes nothing. */
  lemma FallbackAfterLostReplies(mode: Accounting, job: Job, output: string) returns (steps: seq<Step>)
    requires job.state.Active?
    ensures Exec(Start(mode, job, output), steps).Some?
    ensures var s := Exec(Start(mode, job, output), steps).value;
            s.posts == 4 && s.fails == 1 && s.failsUnderway == 0 && HasOutput(s, output)
  {
    hide Exec;
    var s0 := Start(mode, job, output);
    var first := [RunnerReturns, Post, Read(0), Persist(0), LoseReply];
    var s1 := s0.(client := ReadyToPost, posts := 1, handlers := [Handler(output, Persisted)],
                  job := CompletedWith(job, output));
    FirstLost(mode, job, output);
    var rest := [Post, LoseReply, Post, LoseReply, Post, LoseReply, PostFail, DeliverFail];
    RestLost(s1);
    ExecConcat(s0, first, rest);
    steps := first + rest;
  }

  lemma TakeOne(s: State, step: Step, rest: seq<Step>)
    requires Enabled(s, step)
    ensures Exec(s, [step] + rest) == Exec(Do(s, step), rest)
  {
    assert ([step] + rest)[1..] == rest;
  }

  /** The first POST is read and persisted. */
  lemma FirstPersisted(mode: Accounting, job: Job, output: string, rest: seq<Step>)
    requires job.state.Active?
    ensures Exec(Start(mode, job, output), [RunnerReturns] + ([Post] + ([Read(0)] + ([Persist(0)] + rest))))
         == Exec(Start(mode, job, output).(client := Awaiting(0), posts := 1, handlers := [Handler(output, Persisted)],
                                           job := CompletedWith(job, output)), rest)
  {
    hide Exec;
    var s0 := Start(mode, job, output);
    var s1 := Do(s0, RunnerReturns);
    var s2 := Do(s1, Post);
    var s3 := Do(s2, Read(0));
    var s4 := Do(s3, Persist(0));
    assert s4.handlers == [Handler(output, Persisted)];
    TakeOne(s0, RunnerReturns, [Post] + ([Read(0)] + ([Persist(0)] + rest)));
    TakeOne(s1, Post, [Read(0)] + ([Persist(0)] + rest));
    TakeOne(s2, Read(0), [Persist(0)] + rest);
    TakeOne(s3, Persist(0), rest);
  }

  lemma FirstLost(mode: Accounting, job: Job, output: string)
    requires job.state.Active?
    ensures Exec(Start(mode, job, output), [RunnerReturns, Post, Read(0), Persist(0), LoseReply])
         == Some(Start(mode, job, output).(client := ReadyToPost, posts := 1, handlers := [Handler(output, Persisted)],
                                     job := CompletedWith(job, output)))
  {
    hide Exec, Perform;
    var s := Start(mode, job, output).(client := Awaiting(0), posts := 1, handlers := [Handler(output, Persisted)],
                                       job := CompletedWith(job, output));
    FirstPersisted(mode, job, output, [LoseReply]);
    TakeOne(s, LoseReply, []);
    NoSteps(Do(s, LoseReply));
    assert [LoseReply] + [] == [LoseReply];
    assert [RunnerReturns] + ([Post] + ([Read(0)] + ([Persist(0)] + [LoseReply])))
           == [RunnerReturns, Post, Read(0), Persist(0), LoseReply];
  }

  lemma LostPost(s: State, rest: seq<Step>)
    requires s.client.ReadyToPost?
    ensures Exec(s, [Post, LoseReply] + rest)
         == Exec(s.(client := if s.posts < 3 then ReadyToPost else ReadyToFail, posts := s.posts + 1,
                    handlers := s.handlers + [Handler(s.output, Sent)]), rest)
  {
    var s1 := Do(s, Post);
    TakeOne(s, Post, [LoseReply] + rest);
    TakeOne(s1, LoseReply, rest);
    assert [Post, LoseReply] + rest == [Post] + ([LoseReply] + rest);
  }

  lemma RestLost(s: State)
    requires s.client.ReadyToPost? && s.posts == 1 && s.fails == 0 && s.failsUnderway == 0 && s.job.state.Completed?
    ensures var t := Exec(s, [Post, LoseReply, Post, LoseReply, Post, LoseReply, PostFail, DeliverFail]);
            t.Some? && t.value.posts == 4 && t.value.fails == 1 && t.value.failsUnderway == 0 && t.value.job == s.job
  {
    hide Exec;
    var s2 := s.(posts := 2, handlers := s.handlers + [Handler(s.output, Sent)]);
    var s3 := s2.(posts := 3, handlers := s2.handlers + [Handler(s.output, Sent)]);
    var s4 := s3.(client := ReadyToFail, posts := 4, handlers := s3.handlers + [Handler(s.output, Sent)]);
    var c := [PostFail, DeliverFail];
    var b := [Post, LoseReply] + c;
    var a := [Post, LoseReply] + b;
    LostPost(s, a);
    LostPost(s2, b);
    LostPost(s3, c);
    var s5 := Do(s4, PostFail);
    var s6 := Do(s5, DeliverFail);
    TakeOne(s4, PostFail, [DeliverFail]);
    TakeOne(s5, DeliverFail, []);
    assert [PostFail] + [DeliverFail] == c && [DeliverFail] + [] == [DeliverFail];
    NoSteps(s6);
    assert [Post, LoseReply] + a == [Post, LoseReply, Post, LoseReply, Post, LoseReply, PostFail, DeliverFail];
  }

  lemma NoSteps(s: State)
    ensures Exec(s, []) == Some(s)
  {
  }

  /** The client waits for a POST that the server has not read yet. */
  predicate Waits(s: State, h: nat) {
    s.client == Awaiting(h) && InStage(s, h, Sent)
  }

  /** A POST for a cancelled job is refused for good: the client goes on to fail the
      job, and the job is left alone. */
  lemma CancelledIsRefused(s: State, h: nat)
    requires Waits(s, h) && s.job.state.Cancelled?
    ensures Exec(s, [Read(h), GetReply])
         == Some(s.(client := ReadyToFail, handlers := s.handlers[h := Handler(s.handlers[h].output,
                                                                               Answered(Refused(409)))]))
  {
    hide Exec;
    var s1 := Do(s, Read(h));
    TakeOne(s, Read(h), [GetReply]);
    TakeOne(s1, GetReply, []);
    NoSteps(Do(s1, GetReply));
    assert [Read(h)] + [GetReply] == [Read(h), GetReply] && [GetReply] + [] == [GetReply];
  }

  /** What the client does once the side effects of its POST went well or not. */
  lemma SideEffectsAnswered(s: State, h: nat, succeed: bool)
    requires s.client == Awaiting(h) && (InStage(s, h, Persisted) || InStage(s, h, Replaying))
    ensures var t := Exec(s, [SideEffects(h, succeed)] + [GetReply]);
            && t.Some? && t.value.job == s.job && t.value.posts == s.posts
            && InStage(t.value, h, Answered(if succeed then Accepted else Refused(500)))
            && t.value.client == if succeed then Ended(true) else if s.posts <= 3 then ReadyToPost else ReadyToFail
  {
    hide Exec;
    var s1 := Do(s, SideEffects(h, succeed));
    TakeOne(s, SideEffects(h, succeed), [GetReply]);
    TakeOne(s1, GetReply, []);
    NoSteps(Do(s1, GetReply));
    assert [GetReply] + [] == [GetReply];
  }

  /** A POST for a completed job has its side effects replayed, and the client is told
      what became of them: accepted, it ends; failed, it POSTs again up to three times
      more. Either way the job, with the output stored in it, is left alone. */
  lemma CompletedIsReplayed(s: State, h: nat, succeed: bool)
    requires Waits(s, h) && s.job.state.Completed?
    ensures var t := Exec(s, [Read(h), SideEffects(h, succeed), GetReply]);
            && t.Some? && t.value.job == s.job && t.value.posts == s.posts
            && t.value.client == if succeed then Ended(true) else if s.posts <= 3 then ReadyToPost else ReadyToFail
  {
    hide Exec;
    var rest := [SideEffects(h, succeed)] + [GetReply];
    ReadTaken(s, h, rest);
    SideEffectsAnswered(Do(s, Read(h)), h, succeed);
    assert [Read(h)] + rest == [Read(h), SideEffects(h, succeed), GetReply];
  }

  /** A POST for any other job can be persisted, which completes the job with its output
      whatever state it has been moved to since; what becomes of the side effects is
      told to the client as before. */
  lemma PersistedIsAnswered(s: State, h: nat, between: Op, succeed: bool)
    requires Waits(s, h) && !s.job.state.Cancelled? && !s.job.state.Completed? && !between.Complete?
    ensures var t := Exec(s, [Read(h), Else(between), Persist(h), SideEffects(h, succeed), GetReply]);
            && t.Some? && t.value.posts == s.posts
            && HasOutput(t.value, s.handlers[h].output)
            && t.value.client == if succeed then Ended(true) else if s.posts <= 3 then ReadyToPost else ReadyToFail
  {
    hide Exec, Do, Perform;
    var c := [SideEffects(h, succeed)] + [GetReply];
    var b := [Persist(h)] + c;
    var a := [Else(between)] + b;
    ReadSees(s, h);
    var s1 := s.(handlers := s.handlers[h := Handler(s.handlers[h].output, Seen)]);
    var s2 := s1.(job := Perform(s.mode, s.job, between));
    ReadTaken(s, h, a);
    ElseTaken(s1, between, b);
    PersistTaken(s2, h, c);
    SideEffectsAnswered(Do(s2, Persist(h)), h, succeed);
    assert [Read(h)] + a == [Read(h), Else(between), Persist(h), SideEffects(h, succeed), GetReply];
  }

  lemma ReadTaken(s: State, h: nat, rest: seq<Step>)
    requires InStage(s, h, Sent)
    ensures Exec(s, [Read(h)] + rest) == Exec(Do(s, Read(h)), rest)
  {
    hide Exec;
    TakeOne(s, Read(h), rest);
  }

  lemma ElseTaken(s: State, op: Op, rest: seq<Step>)
    requires !op.Complete?
    ensures Exec(s, [Else(op)] + rest) == Exec(s.(job := Perform(s.mode, s.job, op)), rest)
  {
    hide Perform, Exec;
    TakeOne(s, Else(op), rest);
  }

  lemma PersistTaken(s: State, h: nat, rest: seq<Step>)
    requires InStage(s, h, Seen)
    ensures Exec(s, [Persist(h)] + rest) == Exec(Do(s, Persist(h)), rest)
    ensures HasOutput(Do(s, Persist(h)), s.handlers[h].output) && InStage(Do(s, Persist(h)), h, Persisted)
    ensures Do(s, Persist(h)).client == s.client && Do(s, Persist(h)).posts == s.posts
  {
    hide Exec;
    TakeOne(s, Persist(h), rest);
  }

  lemma ReadSees(s: State, h: nat)
    requires InStage(s, h, Sent) && !s.job.state.Cancelled? && !s.job.state.Completed?
    ensures Do(s, Read(h)) == s.(handlers := s.handlers[h := Handler(s.handlers[h].output, Seen)])
  {
  }

  /** A server that crashes at any point before it has answered is asked again while the
      client has POSTs left, and what the crash had already stored stays. */
  lemma CrashIsRetried(s: State, h: nat)
    requires s.client == Awaiting(h) && h < |s.handlers| && !s.handlers[h].stage.Answered?
    ensures var t := Exec(s, [Crash(h)] + [GetReply]);
            && t.Some? && t.value.job == s.job && t.value.posts == s.posts
            && InStage(t.value, h, Answered(Refused(500)))
            && t.value.client == if s.posts <= 3 then ReadyToPost else ReadyToFail
  {
    hide Exec;
    var s1 := Do(s, Crash(h));
    TakeOne(s, Crash(h), [GetReply]);
    TakeOne(s1, GetReply, []);
    NoSteps(Do(s1, GetReply));
    assert [GetReply] + [] == [GetReply];
  }

  /** A POST whose client has lost its reply may still complete the job. */
  lemma LateCompletion(s: State, h: nat)
    requires Waits(s, h) && !s.job.state.Cancelled? && !s.job.state.Completed?
    ensures var t := Exec(s, [LoseReply] + ([Read(h)] + ([Persist(h)] + [])));
            && t.Some? && HasOutput(t.value, s.handlers[h].output) && t.value.posts == s.posts
            && t.value.client == if s.posts <= 3 then ReadyToPost else ReadyToFail
  {
    hide Exec, Perform;
    var s1 := Do(s, LoseReply);
    var s2 := s1.(handlers := s.handlers[h := Handler(s.handlers[h].output, Seen)]);
    TakeOne(s, LoseReply, [Read(h)] + ([Persist(h)] + []));
    ReadTaken(s1, h, [Persist(h)] + []);
    ReadSees(s1, h);
    PersistTaken(s2, h, []);
    NoSteps(Do(s2, Persist(h)));
  }

  /** An abort while the runner works, or before the failure is sent, ends the claim
      without another word to the server. */
  lemma AbortEndsQuietly(s: State)
    requires s.client.Generating? || s.client.ReadyToFail?
    ensures Exec(s, [Abort]) == Some(s.(client := Ended(false)))
  {
    hide Exec;
    TakeOne(s, Abort, []);
    NoSteps(Do(s, Abort));
    assert [Abort] + [] == [Abort];
  }

  /** When the runner throws, nothing is completed: the claim sends one failure, which
      reaches the job, and ends. */
  lemma ThrowIsFailed(mode: Accounting, job: Job, output: string)
    ensures Exec(Start(mode, job, output), [RunnerThrows, PostFail, DeliverFail, EndFail])
         == Some(Start(mode, job, output).(client := Ended(false), fails := 1,
                                           job := Perform(mode, job, Fail("runner_failed"))))
  {
    hide Exec, Perform;
    var s0 := Start(mode, job, output);
    var s1 := Do(s0, RunnerThrows);
    var s2 := Do(s1, PostFail);
    var s3 := Do(s2, DeliverFail);
    var c := [EndFail] + [];
    var b := [DeliverFail] + c;
    TakeOne(s0, RunnerThrows, [PostFail] + b);
    TakeOne(s1, PostFail, b);
    TakeOne(s2, DeliverFail, c);
    TakeOne(s3, EndFail, []);
    NoSteps(Do(s3, EndFail));
    assert [RunnerThrows] + ([PostFail] + b) == [RunnerThrows, PostFail, DeliverFail, EndFail];
  }

  /** A second generation can overwrite the first, even one that was acknowledged: with
      another output read before the completion, one generation is needed above. */
  lemma OtherGenerationOverwrites(mode: Accounting, job: Job, output: string, other: string) returns (steps: seq<Step>)
    requires job.state.Active?
    ensures Exec(Start(mode, job, output), steps).Some?
    ensures var s := Exec(Start(mode, job, output), steps).value;
            s.client == Ended(true) && HasOutput(s, other)
  {
    hide Exec, Do, Perform;
    var first, last := [RunnerReturns, Post, OtherPost(other), Read(0), Read(1)], [Persist(1)] + [];
    var middle := [Persist(0)] + ([SideEffects(0, true)] + [GetReply]);
    var s0 := Start(mode, job, output);
    var s1 := s0.(client := Awaiting(0), posts := 1, handlers := [Handler(output, Seen), Handler(other, Seen)]);
    BothSeen(mode, job, output, other);
    PersistTaken(s1, 0, [SideEffects(0, true)] + [GetReply]);
    SideEffectsAnswered(Do(s1, Persist(0)), 0, true);
    PersistKeeps(s1, 0, 1);
    var s2 := Exec(s1, middle).value;
    OthersStay(Do(s1, Persist(0)), 0, 1);
    PersistTaken(s2, 1, []);
    NoSteps(Do(s2, Persist(1)));
    ExecConcat(s1, middle, last);
    ExecConcat(s0, first, middle + last);
    steps := first + (middle + last);
  }

  lemma BothSeen(mode: Accounting, job: Job, output: string, other: string)
    requires job.state.Active?
    ensures Exec(Start(mode, job, output), [RunnerReturns, Post, OtherPost(other), Read(0), Read(1)])
         == Some(Start(mode, job, output).(client := Awaiting(0), posts := 1,
                                           handlers := [Handler(output, Seen), Handler(other, Seen)]))
  {
    hide Exec, Perform;
    var s0 := Start(mode, job, output);
    var s1 := Do(s0, RunnerReturns);
    var s2 := Do(s1, Post);
    var s3 := Do(s2, OtherPost(other));
    var s4 := Do(s3, Read(0));
    var s5 := Do(s4, Read(1));
    var c := [Read(1)] + [];
    var b := [Read(0)] + c;
    var a := [OtherPost(other)] + b;
    TakeOne(s0, RunnerReturns, [Post] + a);
    TakeOne(s1, Post, a);
    TakeOne(s2, OtherPost(other), b);
    TakeOne(s3, Read(0), c);
    TakeOne(s4, Read(1), []);
    NoSteps(s5);
    assert s5.handlers == [Handler(output, Seen), Handler(other, Seen)];
    assert [RunnerReturns] + ([Post] + a) == [RunnerReturns, Post, OtherPost(other), Read(0), Read(1)];
  }

  lemma PersistKeeps(s: State, h: nat, k: nat)
    requires InStage(s, h, Seen) && k < |s.handlers| && k != h
    ensures Do(s, Persist(h)).handlers[k] == s.handlers[k] && |Do(s, Persist(h)).handlers| == |s.handlers|
  {
  }

  lemma OthersStay(s: State, h: nat, k: nat)
    requires s.client == Awaiting(h) && InStage(s, h, Persisted) && k < |s.handlers| && k != h
    ensures var t := Exec(s, [SideEffects(h, true)] + [GetReply]);
            t.Some? && k < |t.value.handlers| && t.value.handlers[k] == s.handlers[k]
  {
    hide Exec;
    var s1 := Do(s, SideEffects(h, true));
    TakeOne(s, SideEffects(h, true), [GetReply]);
    TakeOne(s1, GetReply, []);
    NoSteps(Do(s1, GetReply));
    assert [GetReply] + [] == [GetReply];
  }

  // ---- An invalid output is failed twice -----------------------------------

  /** The rejected job, on its way to be claimed for the repair. */
  function ForRepair(mode: Accounting, job: Job): Job {
    Perform(mode, job, Fail("invalid_output_repairable"))
  }

  lemma SentForRepair(mode: Accounting, job: Job, output: string)
    requires job.state.Active?
    ensures Exec(Start(mode, job, output), [RunnerReturns, Post, Read(0), Reject(0, false)])
         == Some(Start(mode, job, output).(client := Awaiting(0), posts := 1,
                                           handlers := [Handler(output, Answered(Refused(400)))],
                                           job := ForRepair(mode, job)))
  {
    hide Perform;
    var s0 := Start(mode, job, output);
    var s1 := Do(s0, RunnerReturns);
    var s2 := Do(s1, Post);
    var s3 := Do(s2, Read(0));
    var s4 := Do(s3, Reject(0, false));
    assert s4.handlers == [Handler(output, Answered(Refused(400)))];
    TakeOne(s3, Reject(0, false), []);
    TakeOne(s2, Read(0), [Reject(0, false)]);
    TakeOne(s1, Post, [Read(0), Reject(0, false)]);
    TakeOne(s0, RunnerReturns, [Post, Read(0), Reject(0, false)]);
  }

  /** The client reads the 400 and sends its fail, which arrives after `between`. */
  lemma RefusedThenFailed(s: State, between: seq<Op>)
    requires s.client == Awaiting(0) && s.posts == 1 && |s.handlers| == 1
             && s.handlers[0].stage == Answered(Refused(400))
    requires |between| <= 1 && forall i :: 0 <= i < |between| ==> !between[i].Complete?
    ensures var steps := [GetReply, PostFail] + (if between == [] then [] else [Else(between[0])]) + [DeliverFail];
            var t := Exec(s, steps);
            && t.Some?
            && t.value.job == Perform(s.mode, PerformAll(s.mode, s.job, between), Fail("runner_failed"))
  {
    hide Perform;
    var s1 := Do(s, GetReply);
    var s2 := Do(s1, PostFail);
    if between == [] {
      assert [GetReply, PostFail] + [] + [DeliverFail] == [GetReply] + ([PostFail] + ([DeliverFail] + []));
      TakeOne(s2, DeliverFail, []);
      TakeOne(s1, PostFail, [DeliverFail] + []);
      TakeOne(s, GetReply, [PostFail] + ([DeliverFail] + []));
    } else {
      var op := between[0];
      var s3 := Do(s2, Else(op));
      assert [GetReply, PostFail] + [Else(op)] + [DeliverFail]
             == [GetReply] + ([PostFail] + ([Else(op)] + ([DeliverFail] + [])));
      TakeOne(s3, DeliverFail, []);
      TakeOne(s2, Else(op), [DeliverFail] + []);
      TakeOne(s1, PostFail, [Else(op)] + ([DeliverFail] + []));
      TakeOne(s, GetReply, [PostFail] + ([Else(op)] + ([DeliverFail] + [])));
      PerformOne(s.mode, s.job, between);
    }
  }

  lemma PerformOne(mode: Accounting, job: Job, ops: seq<Op>)
    requires |ops| == 1
    ensures PerformAll(mode, job, ops) == Perform(mode, job, ops[0])
  {
    hide Perform;
    assert ops[..0] == [] && PerformAll(mode, job, []) == job;
  }

  /** The server's move to `retry` for a repair and the watcher's fallback are both
      failures. Counted at once they spend two retries, and a job on its last one is
      failed instead of repaired. Counted at the next claim neither spends any if the
      fallback comes before it, and the job waits for its repair. */
  lemma RepairMeetsFallback(mode: Accounting, job: Job, output: string) returns (steps: seq<Step>)
    requires job.state.Active? && job.retryCount < job.retryLimit
    ensures steps == [RunnerReturns, Post, Read(0), Reject(0, false), GetReply, PostFail, DeliverFail]
    ensures Exec(Start(mode, job, output), steps).Some?
    ensures var now := Exec(Start(mode, job, output), steps).value.job;
            match mode
            case AtFail =>
              && (now.state.Failed? <==> job.retryCount + 1 == job.retryLimit)
              && (now.state.Retry? <==> job.retryCount + 2 <= job.retryLimit)
              && (now.state.Retry? ==> now.retryCount == job.retryCount + 2)
            case AtClaim => now.state.Retry? && now.retryCount == job.retryCount
  {
    hide Exec, Do, Enabled;
    var first := [RunnerReturns, Post, Read(0), Reject(0, false)];
    SentForRepair(mode, job, output);
    RefusedThenFailed(Exec(Start(mode, job, output), first).value, []);
    ExecConcat(Start(mode, job, output), first, [GetReply, PostFail, DeliverFail]);
    FailedTwice(mode, job, "invalid_output_repairable", "runner_failed");
    assert [GetReply, PostFail] + [] + [DeliverFail] == [GetReply, PostFail, DeliverFail];
    steps := first + [GetReply, PostFail, DeliverFail];
  }

  /** A fallback that comes after the claim takes the repair run away: under either
      accounting a retry more is spent, or the job is failed on its last one. */
  lemma FallbackTakesRepairRun(mode: Accounting, job: Job, output: string) returns (steps: seq<Step>)
    requires job.state.Active? && job.retryCount < job.retryLimit
    ensures steps == [RunnerReturns, Post, Read(0), Reject(0, false), GetReply, PostFail, Else(Claim), DeliverFail]
    ensures Exec(Start(mode, job, output), steps).Some?
    ensures var now := Exec(Start(mode, job, output), steps).value.job;
            && (now.state.Failed? <==> job.retryCount + 1 == job.retryLimit)
            && (now.state.Retry? <==> job.retryCount + 2 <= job.retryLimit)
            && (now.state.Retry? ==> now.retryCount == job.retryCount + if mode.AtFail? then 2 else 1)
  {
    hide Exec, Do, Enabled;
    var first := [RunnerReturns, Post, Read(0), Reject(0, false)];
    var rest := [GetReply, PostFail, Else(Claim), DeliverFail];
    SentForRepair(mode, job, output);
    RefusedThenFailed(Exec(Start(mode, job, output), first).value, [Claim]);
    assert [GetReply, PostFail] + [Else(Claim)] + [DeliverFail] == rest;
    ExecConcat(Start(mode, job, output), first, rest);
    PerformOne(mode, ForRepair(mode, job), [Claim]);
    steps := first + rest;
  }

  // ---- When the repair is the only retry -----------------------------------

  /** The step fails a job it can disturb: a counted failure of one that is not
      terminal and, if claims are counted, not waiting for its retry; or a terminal
      failure of one that is not terminal. */
  predicate Strikes(s: State, step: Step) {
    match step
    case DeliverFail => Disturbable(s.mode, s.job)
    case Reject(_, terminal) => if terminal then !Terminal(s.job.state) else Disturbable(s.mode, s.job)
    case Else(op) => (op.Fail? && Disturbable(s.mode, s.job)) || (op.FailTerminal? && !Terminal(s.job.state))
    case _ => false
  }

  /** Nothing but the client's own fail can fail the job. */
  predicate NoOtherFailure(step: Step) {
    !step.Reject? && !(step.Else? && (step.op.Fail? || step.op.FailTerminal?))
  }

  /** Somewhere in the run the job is failed once more. */
  predicate FailedAgain(s: State, steps: seq<Step>)
    decreases |steps|
  {
    && steps != [] && Enabled(s, steps[0])
    && (FailingMove(s.job, Do(s, steps[0]).job) || FailedAgain(Do(s, steps[0]), steps[1..]))
  }

  predicate SomeStrikes(s: State, steps: seq<Step>)
    decreases |steps|
  {
    steps != [] && Enabled(s, steps[0]) && (Strikes(s, steps[0]) || SomeStrikes(Do(s, steps[0]), steps[1..]))
  }

  /** Somewhere in the run the client's fail is delivered to a job it can disturb. */
  predicate FailFinds(s: State, steps: seq<Step>)
    decreases |steps|
  {
    && steps != [] && Enabled(s, steps[0])
    && ((steps[0].DeliverFail? && Disturbable(s.mode, s.job)) || FailFinds(Do(s, steps[0]), steps[1..]))
  }

  lemma StrikeIsFailingMove(s: State, step: Step)
    requires Affordable(s.mode, s.job) && Enabled(s, step)
    ensures FailingMove(s.job, Do(s, step).job) <==> Strikes(s, step)
    ensures Affordable(s.mode, Do(s, step).job) && Do(s, step).mode == s.mode
  {
    hide NextMove, ClientAfter, StageAfterRead;
  }

  /** In every run the job is failed again exactly if some step strikes it. */
  lemma {:induction false} FailedAgainIff(s: State, steps: seq<Step>)
    requires Affordable(s.mode, s.job) && Exec(s, steps).Some?
    ensures FailedAgain(s, steps) <==> SomeStrikes(s, steps)
    decreases |steps|
  {
    hide Do, Enabled, FailingMove, Strikes, Affordable;
    if steps != [] {
      StrikeIsFailingMove(s, steps[0]);
      FailedAgainIff(Do(s, steps[0]), steps[1..]);
    }
  }

  lemma {:induction false} OnlyClientStrikes(s: State, steps: seq<Step>)
    requires forall i :: 0 <= i < |steps| ==> NoOtherFailure(steps[i])
    ensures SomeStrikes(s, steps) <==> FailFinds(s, steps)
    decreases |steps|
  {
    hide Do, Enabled, Disturbable;
    if steps != [] && Enabled(s, steps[0]) {
      OnlyClientStrikes(Do(s, steps[0]), steps[1..]);
    }
  }

  /** After an output was rejected for repair, in every run, the job is failed again
      exactly if some failure strikes it. So the promise that the broker's retry is
      the only re-dispatch holds, where nobody else fails the job, in exactly the runs
      in which the client's fail is not delivered while it can disturb the job. */
  lemma RepairIsSoleRetryIff(mode: Accounting, job: Job, output: string, after: seq<Step>)
    requires job.state.Active? && job.retryCount < job.retryLimit
    ensures var sent := Exec(Start(mode, job, output), [RunnerReturns, Post, Read(0), Reject(0, false)]);
            && sent.Some? && sent.value.job.state.Retry?
            && (Exec(sent.value, after).Some? ==>
                  && (FailedAgain(sent.value, after) <==> SomeStrikes(sent.value, after))
                  && ((forall i :: 0 <= i < |after| ==> NoOtherFailure(after[i])) ==>
                        (FailedAgain(sent.value, after) <==> FailFinds(sent.value, after))))
  {
    hide Exec, FailedAgain, FailFinds, SomeStrikes, NoOtherFailure;
    SentForRepair(mode, job, output);
    var sent := Exec(Start(mode, job, output), [RunnerReturns, Post, Read(0), Reject(0, false)]).value;
    if Exec(sent, after).Some? {
      FailedAgainIff(sent, after);
      if forall i :: 0 <= i < |after| ==> NoOtherFailure(after[i]) {
        OnlyClientStrikes(sent, after);
      }
    }
  }
}
