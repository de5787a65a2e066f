/** The watcher's side of a job: the completion POST with its bounded retry, and the
    loop that reports one outcome for every job it claims. */
module Watcher {
  import opened TextLines

  const COMPLETE_RETRY_ATTEMPTS := 3

  /** What the client sees of one POST; a refusal carries a status outside 2xx. */
  datatype Reply = Accepted | Refused(status: int) | NetworkError

  predicate IsRetryable(reply: Reply) {
    reply.NetworkError? || (reply.Refused? && reply.status >= 500)
  }

  datatype Move = Finish | Again | GiveUp

  /** What the client does about the reply to its `posts`-th POST. */
  function NextMove(posts: nat, reply: Reply): Move {
    if reply.Accepted? then Finish
    else if posts <= COMPLETE_RETRY_ATTEMPTS && IsRetryable(reply) then Again
    else GiveUp
  }

  /** How many POSTs the replies lead to, from the k-th on. */
  function Posts(replies: nat -> Reply, k: nat): (n: nat)
    requires k <= COMPLETE_RETRY_ATTEMPTS
    ensures k < n <= COMPLETE_RETRY_ATTEMPTS + 1
    ensures forall m :: k <= m < n - 1 ==> IsRetryable(replies(m))
    ensures !IsRetryable(replies(n - 1)) || n == COMPLETE_RETRY_ATTEMPTS + 1
    decreases COMPLETE_RETRY_ATTEMPTS - k
  {
    if k == COMPLETE_RETRY_ATTEMPTS || !IsRetryable(replies(k)) then k + 1 else Posts(replies, k + 1)
  }

  /** `replies(k)` is what the k-th POST meets. The POSTs stop at the first reply
      that is final, and at the fourth in any case. */
  method Complete(replies: nat -> Reply) returns (posts: nat, last: Reply)
    ensures 1 <= posts <= 4 && last == replies(posts - 1) && posts == Posts(replies, 0)
    ensures forall k :: 0 <= k < posts - 1 ==> IsRetryable(replies(k))
    ensures last.Accepted? || !IsRetryable(last) || posts == 4
    ensures NextMove(posts, last) == if last.Accepted? then Finish else GiveUp
    ensures forall k :: 0 <= k < posts - 1 ==>
              replies(k) == NetworkError || (replies(k).Refused? && replies(k).status >= 500)
    ensures last == NetworkError || (last.Refused? && last.status >= 500) ==> posts == 4
    ensures forall k :: 0 <= k < posts && replies(k).Refused? && replies(k).status < 500 ==> k == posts - 1
  {
    var attempt := 0;
    posts := 0;
    while true
      invariant attempt == posts <= COMPLETE_RETRY_ATTEMPTS
      invariant Posts(replies, 0) == Posts(replies, posts)
      invariant forall k :: 0 <= k < posts ==> IsRetryable(replies(k))
      decreases COMPLETE_RETRY_ATTEMPTS - attempt
    {
      last := replies(posts);
      posts := posts + 1;
      if last.Accepted? {
        return;
      }
      if attempt >= COMPLETE_RETRY_ATTEMPTS || !IsRetryable(last) {
        return;
      }
      attempt := attempt + 1;
    }
  }

  // ---- One claimed job -----------------------------------------------------

  /** What a claimed job meets: whether a runner supports it, what the runner makes
      of it, whether the server cancels it during the run or during the completion,
      and the replies to its reports. */
  datatype Fate = Fate(supported: bool, output: Option<string>, cancelledInRun: bool, cancelledInReport: bool,
                       replies: nat -> Reply, failReply: Reply)

  datatype ClaimReply = ClaimFailed | NothingClaimed | Claimed(fate: Fate)

  /** What the loop waits for when shutdown is requested. */
  datatype Moment = InClaim | InRun | InComplete | InFail | Afterwards

  datatype Outcome = CompletedJob | FailedJob | CancelledJob

  /** Everything the server was sent for one claimed job. */
  datatype Report = Report(completes: nat, acknowledged: bool, fails: nat, outcome: Outcome)

  /** Cancellation and shutdown abort the job the loop holds, and only that one. */
  predicate AbortedInRun(fate: Fate, stop: Moment) {
    fate.cancelledInRun || stop.InRun?
  }

  predicate AbortedInReport(fate: Fate, stop: Moment) {
    fate.cancelledInReport || stop.InComplete?
  }

  function ReportOf(fate: Fate, stop: Moment): Report {
    if !fate.supported then Report(0, false, 1, FailedJob)
    else if AbortedInRun(fate, stop) then Report(0, false, 0, CancelledJob)
    else if fate.output.None? then Report(0, false, 1, FailedJob)
    else
      var posts := Posts(fate.replies, 0);
      if fate.replies(posts - 1).Accepted? then Report(posts, true, 0, CompletedJob)
      else if AbortedInReport(fate, stop) then Report(posts, false, 0, CancelledJob)
      else Report(posts, false, 1, FailedJob)
  }

  /** One claim is reported once: it is acknowledged and never failed, or failed by
      one POST that no acknowledgement precedes, or aborted and left alone. */
  lemma OneReport(fate: Fate, stop: Moment)
    ensures var r := ReportOf(fate, stop);
            && r.completes <= 4 && r.fails <= 1
            && (r.acknowledged <==> r.outcome.CompletedJob?)
            && (r.fails == 1 <==> r.outcome.FailedJob?)
            && (r.acknowledged <==> exists k :: 0 <= k < r.completes && fate.replies(k).Accepted?)
            && (forall k :: 0 <= k < r.completes - 1 ==>
                  fate.replies(k) == NetworkError || (fate.replies(k).Refused? && fate.replies(k).status >= 500))
            && (0 < r.completes < 4 ==>
                  var last := fate.replies(r.completes - 1);
                  last.Accepted? || (last.Refused? && last.status < 500))
            && (r.outcome.CancelledJob? || r.outcome.FailedJob? || r.acknowledged)
            && (!fate.supported ==> r.outcome.FailedJob?)
            && (r.completes > 0 <==> fate.supported && fate.output.Some? && !fate.cancelledInRun && !stop.InRun?)
            && (r.outcome.CancelledJob? <==>
                  && fate.supported
                  && (fate.cancelledInRun || stop.InRun?
                      || (r.completes > 0 && !r.acknowledged && (fate.cancelledInReport || stop.InComplete?))))
  {
  }

  /** Shutdown during the run leaves the job alone: nothing is sent for it. Shutdown
      while the claim is under way does not reach the job that is claimed, and one
      during the completion only keeps a failure from being sent. */
  lemma ShutdownReport(fate: Fate)
    ensures fate.supported ==> ReportOf(fate, InRun) == Report(0, false, 0, CancelledJob)
    ensures ReportOf(fate, InClaim) == ReportOf(fate, InFail) == ReportOf(fate, Afterwards)
    ensures var r, s := ReportOf(fate, Afterwards), ReportOf(fate, InComplete);
            if r.completes > 0 && r.fails == 1 then s == r.(fails := 0, outcome := CancelledJob) else s == r
  {
  }

  /** Whether the cycle ends in an error: the claim failed, or the failure was sent
      and not accepted. */
  predicate Throws(claim: ClaimReply, stop: Moment) {
    claim.ClaimFailed? || (claim.Claimed? && ReportOf(claim.fate, stop).fails == 1 && !claim.fate.failReply.Accepted?)
  }

  /** Whether the loop comes to wait for this at all. */
  predicate Reaches(claim: ClaimReply, stop: Moment) {
    match stop
    case InClaim => true
    case InRun => claim.Claimed? && claim.fate.supported
    case InComplete => claim.Claimed? && ReportOf(claim.fate, stop).completes > 0
    case InFail => claim.Claimed? && ReportOf(claim.fate, stop).fails == 1
    case Afterwards => false
  }

  /** The cycles of a script after which the loop sleeps. */
  function Idle(script: seq<ClaimReply>): nat {
    if script == [] then 0
    else
      var last := script[|script| - 1];
      Idle(script[..|script| - 1]) + if last.NothingClaimed? || Throws(last, Afterwards) then 1 else 0
  }

  ghost predicate SleepsAfter(script: seq<ClaimReply>, reports: seq<Option<Report>>, k: int)
    requires 0 <= k < |script| && k < |reports|
  {
    || script[k].NothingClaimed? || script[k].ClaimFailed?
    || (script[k].Claimed? && reports[k].Some? && reports[k].value.fails == 1 && !script[k].fate.failReply.Accepted?)
  }

  ghost function Sleeps(script: seq<ClaimReply>, reports: seq<Option<Report>>, n: nat): set<int>
    requires n <= |script| && n <= |reports|
  {
    set k | 0 <= k < n && SleepsAfter(script, reports, k)
  }

  /** The loop sleeps once for every cycle that met no job, and for every one whose
      failure report was not accepted. */
  lemma {:induction false} IdleIsCount(script: seq<ClaimReply>, reports: seq<Option<Report>>, n: nat)
    requires n <= |script| && n <= |reports|
    requires forall k :: 0 <= k < n ==>
               reports[k] == if script[k].Claimed? then Some(ReportOf(script[k].fate, Afterwards)) else None
    ensures Idle(script[..n]) == |Sleeps(script, reports, n)|
  {
    hide ReportOf;
    if n == 0 {
      assert Sleeps(script, reports, 0) == {};
    } else {
      hide Sleeps, Idle, SleepsAfter;
      IdleIsCount(script, reports, n - 1);
      IdleLast(script, reports, n - 1);
    }
  }

  lemma IdleLast(script: seq<ClaimReply>, reports: seq<Option<Report>>, n: nat)
    requires n < |script| && n < |reports|
    requires reports[n] == if script[n].Claimed? then Some(ReportOf(script[n].fate, Afterwards)) else None
    ensures Idle(script[..n + 1]) == Idle(script[..n]) + if SleepsAfter(script, reports, n) then 1 else 0
    ensures n !in Sleeps(script, reports, n)
    ensures Sleeps(script, reports, n + 1)
         == Sleeps(script, reports, n) + if SleepsAfter(script, reports, n) then {n} else {}
  {
    hide ReportOf;
    assert script[..n + 1][..n] == script[..n];
  }

  class WorkerLoop {
    var running: bool
    var stopping: bool
    var active: bool
    var aborted: bool

    constructor ()
      ensures !running && !stopping && !active
    {
      running := false;
      stopping := false;
      active := false;
      aborted := false;
    }

    /** Requests shutdown and aborts the job in hand, if there is one. */
    method Stop()
      modifies this
      ensures stopping && running == old(running) && active == old(active)
      ensures aborted == (old(aborted) || active)
    {
      stopping := true;
      if active {
        aborted := true;
      }
    }

    /** The controller of the job exists only while its runner and report do. */
    method RunInScope(fate: Fate, stop: Moment) returns (r: Report, threw: bool)
      requires !active
      modifies this
      ensures r == ReportOf(fate, stop)
      ensures threw == Throws(Claimed(fate), stop)
      ensures !active && running == old(running)
      ensures stopping == (old(stopping) || (!stop.InClaim? && Reaches(Claimed(fate), stop)))
    {
      hide Posts, IsRetryable, NextMove;
      if !fate.supported {
        if stop.InFail? {
          Stop();
        }
        return Report(0, false, 1, FailedJob), !fate.failReply.Accepted?;
      }
      active, aborted := true, false;
      var posts := 0;
      if stop.InRun? {
        Stop();
      }
      if fate.cancelledInRun {
        aborted := true;
      }
      if fate.output.Some? {
        if aborted {
          active := false;
          return Report(0, false, 0, CancelledJob), false;
        }
        var last;
        posts, last := Complete(fate.replies);
        if stop.InComplete? {
          Stop();
        }
        if fate.cancelledInReport {
          aborted := true;
        }
        if last.Accepted? {
          active := false;
          return Report(posts, true, 0, CompletedJob), false;
        }
      }
      if aborted {
        active := false;
        return Report(posts, false, 0, CancelledJob), false;
      }
      if stop.InFail? {
        Stop();
      }
      active := false;
      return Report(posts, false, 1, FailedJob), !fate.failReply.Accepted?;
    }

    /** One cycle. A failed claim and a failure that is not accepted throw, and nothing
        else does; otherwise the result says whether there was a job. */
    method Tick(claim: ClaimReply, stop: Moment) returns (claimed: bool, threw: bool, r: Option<Report>)
      requires !active
      modifies this
      ensures r == if claim.Claimed? then Some(ReportOf(claim.fate, stop)) else None
      ensures threw == Throws(claim, stop)
      ensures threw <==>
                claim.ClaimFailed? || (claim.Claimed? && r.value.fails == 1 && !claim.fate.failReply.Accepted?)
      ensures claimed == (claim.Claimed? && !threw)
      ensures !active && running == old(running)
      ensures stopping == (old(stopping) || Reaches(claim, stop))
    {
      if stop.InClaim? {
        Stop();
      }
      match claim {
        case ClaimFailed => return false, true, None;
        case NothingClaimed => return false, false, None;
        case Claimed(fate) =>
          var report, failed := RunInScope(fate, stop);
          return !failed, failed, Some(report);
      }
    }

    /** Meets the scripted claims one after another until shutdown is requested, at
        some moment of the last cycle or after it. An error in a cycle never ends the
        loop, no job is claimed after the request, and the loop sleeps exactly after
        the cycles that gave it nothing to do. */
    method Run(script: seq<ClaimReply>, stop: Moment) returns (reports: seq<Option<Report>>, sleeps: nat)
      requires !active && !stopping && script != []
      modifies this
      ensures |reports| == |script| && stopping && !running && !active
      ensures forall k :: 0 <= k < |script| ==>
                reports[k] == if script[k].Claimed?
                              then Some(ReportOf(script[k].fate, if k == |script| - 1 then stop else Afterwards))
                              else None
      ensures sleeps == Idle(script[..|script| - 1])
      ensures sleeps == |Sleeps(script, reports, |script| - 1)|
    {
      hide ReportOf;
      running := true;
      reports := [];
      sleeps := 0;
      while !stopping
        invariant |reports| <= |script| && !active && running
        invariant stopping <==> |reports| == |script|
        invariant forall k :: 0 <= k < |reports| ==>
                    reports[k] == if script[k].Claimed?
                                  then Some(ReportOf(script[k].fate, if k == |script| - 1 then stop else Afterwards))
                                  else None
        invariant sleeps == Idle(script[..if stopping then |script| - 1 else |reports|])
        decreases |script| - |reports|
      {
        var last := |reports| == |script| - 1;
        var claim := script[|reports|];
        var claimed, threw, r := Tick(claim, if last then stop else Afterwards);
        if last && !stopping {
          Stop();
        }
        assert script[..|reports| + 1][..|reports|] == script[..|reports|];
        reports := reports + [r];
        if !claimed && !stopping {
          sleeps := sleeps + 1;
        }
      }
      running := false;
      IdleIsCount(script, reports, |script| - 1);
    }
  }
}
