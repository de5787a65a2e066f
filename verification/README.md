# Magpie: verified models of its kernels

Markdown Magpie keeps a Markdown knowledge base in shape with jobs that watchers claim, run and report. This
project models the kernels in it that carry state, branching or arithmetic, and proves what they promise.

| files | what they model |
|---|---|
| `Catalog`, `Lifecycle`, `Policies`, `Refusals` | job types, capabilities, queue names, retry budgets; the job state machine; the two admission policies and what they refuse |
| `Admission` | `createIfAdmitted` as a step system: any number of sessions race for one advisory lock while jobs move on |
| `RetryAccounting` | the two ways the brokers count a retry: when a job fails, or when it is claimed again |
| `FakeBroker`, `PgBossBroker` | the in-memory broker as a class over its insertion-ordered jobs; the queue scan with its round-robin cursor |
| `SharedCursor`, `RealLanes` | any number of watchers with different capabilities on that one cursor, and the lanes of real capability sets |
| `Fanout` | the per-tick budget in front of maintenance admission |
| `Watcher`, `Completion` | the completion POST with bounded retry and the worker loop; the same protocol against a server over a network that loses requests and replies |
| `CheckoutLock`, `Embedder` | the promise-chain mutex and the coalescing background worker, as event steps and as classes whose methods take those steps |
| `TextLines`, `Anchors`, `HeadingPaths`, `Outline`, `Sections`, `Frontmatter`, `Titles` | documents as lines, anchors, heading paths, the section splitter, the frontmatter cut and a document's title |
| `AnchorLines`, `ConflictMarkers` | finding a section's heading line, inserting and stripping conflict markers |
| `MarkerEffects`, `TwoMarkers`, `AppendedMarkers`, `AppendedSpots`, `MarkerTitles`, `Annotations`, `TitleDrift` | what a marker does to the sections under one title, to a second marker, to the title, and to the document; documents whose title it changes |
| `CronFields`, `CronDays`, `Calendar`, `CronNext` | the cron grammar, the day-of-week field, the civil calendar, and the next firing time |
| `Glob` | the glob tokenizer and the rolling matcher |
| `Geometry`, `FlowRouter` | cosine similarity, zero padding and flow routing, over the reals |

The code that changes things step by step is modelled by methods with loops and by classes; each is tied to a function
of its inputs or of its old state, and the promises are lemmas about that function. A concurrent protocol is a state, a
set of steps that are enabled or not, and lemmas over every finite run.

## Where the code and its comments differ

- `packages/markdown/src/conflict-marker.ts:13` calls insert and strip true inverses. `RoundTripExactly` gives the exact
  condition; the fallback normalises trailing newlines, and an id with a line break cannot be stripped.
- `packages/markdown/src/conflict-marker.ts:93-95` justifies the zip of headed sections with heading lines.
  `ZipRightIffSafe` gives the two conditions under which it is right, both directions; `AllIndependentUnder` says which
  headings, blank above a blank body, make a marker displace a later one.
- A marker can change the title, and with it the preamble's heading, path and anchor: the pattern of
  `packages/markdown/src/index.ts:121-124` lets white space after `#` run over line ends, up to the marker, and a summary
  can hold a line end that the callout does not quote. `TitleKeptIff` and `AnnotationIsInertWhen` say exactly when the
  title and the sectioning stay; `MarkerTakesTitle`, `MarkerBecomesTitle`, `SummaryBecomesTitle` and `DriftMovesAnchor`
  are documents in which they do not.
- `packages/core/src/index.ts:1908` accepts 7 as Sunday. The code zeroes every digit 7 before it reads the field
  (`packages/core/src/index.ts:1974`). As a value 7 is Sunday (`SevenIsSunday`); a range up to 7 is rejected, but `0-7`,
  which is to be every day, is Sunday alone (`RangeToSeven`, `WholeWeekIsSunday`); a step of 7 is rejected
  (`StepOfSevenRejected`); and 70, which is no day, is Sunday (`SeventyIsSunday`). `PlainFieldExact` says exactly which
  fields mean what they say.
- `packages/core/src/index.ts:2016` says a missing match is practically impossible. `AlwaysFiresIff` says for which
  fields it is impossible; 29 February without a weekday is one for which it is not.
- `apps/api/src/platform/background-embedder.ts:24-36`: a pass that throws after being triggered again drops those
  triggers until the next one (`ThrowLosesTriggersIff`).
- `apps/api/src/features/jobs/routes.ts:100` calls the server's own move to `retry` the sole re-dispatch of an invalid
  output. The watcher's fallback `fail` follows the 400. In the in-memory broker it fails the job once more unless
  the job is terminal by then; on the database, which counts at the next claim, only if the repair run has been claimed
  (`RepairMeetsFallback`, `FallbackTakesRepairRun`). `RepairIsSoleRetryIff` says in which runs the promise holds.
- `apps/api/src/jobs/pg-boss-broker.ts:279-280` means the round robin to keep any queue from starving. It does for one
  capability list (`NoStarvation`). Between two lists the one cursor can starve a queue, `comment_pull_request` between a
  GitHub watcher with and one without local git (`DifferentListsCanStarve`); `SafeWatchersExactly`
  says exactly which queues of which watchers are safe.
- `apps/watcher/src/worker-loop.ts:67-72`: shutdown during a claim does not reach the job that is then claimed, which is
  run and reported as if nothing had happened (`ShutdownReport`).
- `packages/retrieval/src/embeddings.ts:173-176` calls padding exact. It is for vectors of one width; two vectors of
  unlike widths score zero unpadded and are compared when padded (`PaddingAgreesIff`).

## Model

| member | source | states |
|---|---|---|
| `Refusals.BlockedFollowsRules` | apps/api/src/platform/ai-capacity.ts:35-78 | Over the jobs in flight: under the interactive policy a request is refused if and only if the interactive ones are at least min(reserve, limit) and all metered ones at least the limit; under the maintenance policy if and only if all metered ones are at least max(0, limit less that minimum) |
| `Admission.AdmissionIsSafe` | apps/api/src/jobs/pg-boss-broker.ts:201-260 | In every interleaving of admitters, job progress under either retry accounting, and bypasses, metered jobs in flight stay within the limit and non-interactive ones within limit less reserve, each up to the bypasses; at most one session is inside its critical section |
| `Admission.StepKeepsInv` | apps/api/src/jobs/pg-boss-broker.ts:205-249 | Every single step, whoever takes it, keeps both bounds, the exclusive lock, and the room a session has found for its job between its count and its send |
| `Admission.SomeSessionGoesOn` | apps/api/src/jobs/pg-boss-broker.ts:205-249 | While a call has not finished, the session that holds the lock can take its next step, or, if none does, the one that waits |
| `Admission.BypassesAreCreatesAndRetries` | apps/api/src/jobs/fake-broker.ts:51-78 | Exactly a plain create and a manual retry of a metered job loosen the metered bound, and exactly those of a non-interactive one the background bound, each by one |
| `Admission.ReserveStaysFree` | apps/api/src/platform/ai-capacity.ts:50-78 | While fewer interactive jobs than the reserve are in flight, a counted interactive request is always let through, and the limit still has a free place |
| `Admission.BoundsAreReached` | apps/api/src/platform/ai-capacity.ts:35-45 | For every setting and number of bypasses some run reaches both bounds at once, so neither could be tighter |
| `Admission.LostLockOvershoots` | apps/api/src/jobs/pg-boss-broker.ts:207-213 | The lock session has to survive: lost between count and send, a limit of one is overshot with no bypass |
| `Admission.Database.CreateIfAdmitted` | apps/api/src/jobs/pg-boss-broker.ts:201-260 | A call on a free lock takes exactly the steps begin, lock, count, and then reject, send and commit, or roll back; it refuses exactly when the two rules above say so of the jobs in flight, frees the lock, and enqueues one job only when it admits |
| `Policies.LanesPartition` | packages/jobs/src/catalog.ts:52-54 | The interactive types are a slice of the metered ones, and with the background types they partition them |
| `Catalog.InteractiveIsAi` | packages/jobs/src/catalog.ts:52 | Every interactive type is metered |
| `Catalog.RequiredCapability` | packages/jobs/src/catalog.ts:113-128 | A job is only ever routed to one of its type's capabilities; otherwise routing throws |
| `Catalog.RoutingExact` | packages/jobs/src/catalog.ts:102-128 | Provider work is routed exactly where its input names a provider, publication where its input says or to GitHub when it says nothing, and maintenance and GitHub work to their one capability |
| `Catalog.QueueNamesInjective` | packages/jobs/src/catalog.ts:21-25 | A queue name belongs to one job type and one capability only, over the whole catalog |
| `Catalog.ClaimableIffCapable` | packages/jobs/src/catalog.ts:463-466 | A job's queue is among those a watcher may claim from exactly when the watcher advertises the capability the job requires |
| `Lifecycle.ClaimsArePaidFor` | apps/api/src/jobs/fake-broker.ts:97-243 | In every run of operations, claims plus one if the job is waiting are at most one plus counted retries plus manual retries, and the retry count never passes its limit |
| `Lifecycle.GenerationsBounded` | packages/jobs/src/catalog.ts:56-68 | A job is generated at most `retryLimit + 1` times, plus once for each manual retry |
| `Lifecycle.FailingJobReachesBound` | apps/api/src/jobs/fake-broker.ts:150-184 | The bound is tight: a job that keeps failing is claimed exactly that often and then failed |
| `Lifecycle.GenerationsByType` | packages/jobs/src/catalog.ts:59-63 | The retry budgets come to four generations of an interactive job and three of any other, manual retries aside, and a failing job uses them all |
| `Lifecycle.TerminalStays` | apps/api/src/jobs/fake-broker.ts:136-243 | Out of the terminal states only a manual retry leaves `failed`, and only the unguarded complete overwrites |
| `Lifecycle.CompletedStays` | apps/api/src/jobs/fake-broker.ts:150-226 | A completed job survives every run of other operations unchanged |
| `Lifecycle.OnlyRetryRevives` | apps/api/src/jobs/fake-broker.ts:228-243 | Nothing but a manual retry of a failed job brings a job back into flight |
| `RetryAccounting.ClaimsArePaidForBy` | apps/api/src/features/jobs/service.ts:616-617 | Counted at the failure or at the next claim, claims are at most one plus counted retries plus manual ones in every run, and a waiting retry can always still be paid for |
| `RetryAccounting.GenerationsBoundedBy` | packages/jobs/src/catalog.ts:56-68 | Under either accounting a job is generated at most `retryLimit + 1` times, plus once for each manual retry |
| `RetryAccounting.FailDisturbsIff` | apps/api/src/features/jobs/service.ts:616-617 | A failure moves a job to `retry` or `failed`, or counts, exactly if the job is not terminal and, counted at the claim, does not already wait for its retry |
| `FakeBroker.FakeJobBroker.Create` | apps/api/src/jobs/fake-broker.ts:51-78 | Appends one fresh job in the queue its input names, or throws and changes nothing on a rejected input or routing |
| `FakeBroker.FakeJobBroker.CreateIfAdmitted` | apps/api/src/jobs/fake-broker.ts:84-95 | Refuses exactly when the same two rules say so of its own jobs in flight, reports the exact counts, and creates exactly when it does not refuse |
| `FakeBroker.FakeJobBroker.CountInFlightSync` | apps/api/src/jobs/fake-broker.ts:281-290 | The counting loop counts the jobs of the wanted types that are created, retrying or active |
| `FakeBroker.FakeJobBroker.Claim` | apps/api/src/jobs/fake-broker.ts:97-121 | Activates the oldest interactive job that is created or waits for a retry in a queue of the caller, else the oldest such job, and nothing else; returns nothing only when there is none |
| `FakeBroker.FakeJobBroker.Heartbeat` | apps/api/src/jobs/fake-broker.ts:123-134 | Throws on a missing job and otherwise leaves the job's state alone |
| `FakeBroker.FakeJobBroker.Complete` | apps/api/src/jobs/fake-broker.ts:136-148 | Completes the named job with the output whatever its state was, keeps its other fields, and touches no other job |
| `FakeBroker.FakeJobBroker.Fail` | apps/api/src/jobs/fake-broker.ts:150-184 | Moves the named job, unless it is terminal, to retry with one more counted while retries are left, and else to failed |
| `FakeBroker.FakeJobBroker.FailTerminal` | apps/api/src/jobs/fake-broker.ts:190-205 | Fails the named job at once, keeping its retry count; no effect on a terminal job |
| `FakeBroker.FakeJobBroker.Cancel` | apps/api/src/jobs/fake-broker.ts:207-226 | A job that is not terminal ends cancelled, whatever it was doing; a terminal one is left alone |
| `FakeBroker.FakeJobBroker.Retry` | apps/api/src/jobs/fake-broker.ts:228-243 | Succeeds exactly on a failed job, which is then created again without its error |
| `FakeBroker.ClaimedJobIsRunnable` | apps/api/src/jobs/fake-broker.ts:97-121 | The claimed job is created or waits for a retry and its required capability is in the caller's list; no interactive job the caller could run is passed over, nor an older one of the same kind; nothing is returned only when the caller can run no job |
| `FakeBroker.JobsAreIndependent` | apps/api/src/jobs/fake-broker.ts:27-34 | In every run over the whole broker each job ends as its own operations alone make it |
| `FakeBroker.BrokerGenerationsBounded` | apps/api/src/jobs/fake-broker.ts:97-243 | The generation bound holds for every job in every run over the whole broker |
| `PgBossBroker.PgBossJobBroker.Claim` | apps/api/src/jobs/pg-boss-broker.ts:262-296 | Takes the oldest job of the first non-empty interactive queue, else of the first non-empty background queue from the cursor on, moves the cursor one past it (one step on a miss), and changes only that job |
| `PgBossBroker.LaneOfRouted` | apps/api/src/jobs/pg-boss-broker.ts:76-79 | A routed job waits in an interactive queue exactly when its type is interactive |
| `PgBossBroker.ClaimIsFair` | apps/api/src/jobs/pg-boss-broker.ts:262-296 | The claimed job can run on the claimer and is the oldest in its queue; no background job is handed out while an accepted interactive queue is non-empty; nothing is handed out only when no accepted queue has a job |
| `PgBossBroker.NoStarvation` | apps/api/src/jobs/pg-boss-broker.ts:279-295 | With one capability list, a background queue that stays non-empty is served within as many background-serving claims as there are background queues, whatever happens between claims |
| `PgBossBroker.ServingComesNearer` | apps/api/src/jobs/pg-boss-broker.ts:283-291 | Serving another queue strictly shortens the cursor's way to a queue that stays non-empty |
| `PgBossBroker.NextTriesFirst` | apps/api/src/jobs/pg-boss-broker.ts:283-295 | The claim after a served background queue looks first at the one behind it, and the claim after a miss at the one behind the first it tried |
| `SharedCursor.SafeFamiliesExactly` | apps/api/src/jobs/pg-boss-broker.ts:279-295 | Any number of watchers on the one cursor: a background queue is served within a bounded number of claims of those that accept it, in any interleaving, from any cursor and whatever else waits, if and only if every two watchers are safe together. Two that accept it: one list holds nothing else, or the places are the same and the shorter list has at most two places from it on, or the longer at most its place, from 0, plus one more than the shorter. One that does and one that does not: it is the first's only queue, or the other has none, or has one and this one is listed first. The same over runs of routed jobs only |
| `SharedCursor.SettledClaim` | apps/api/src/jobs/pg-boss-broker.ts:262-296 | In a safe family every claim serves the queue, or brings one measure of the cursor down, or counts for nothing and does not raise it |
| `SharedCursor.RankFalls` | apps/api/src/jobs/pg-boss-broker.ts:283-291 | Near enough in length to the longest list, or with the queue near enough to its end, every claim of a list that serves another queue brings that measure down |
| `RealLanes.PublisherLanes` | packages/jobs/src/catalog.ts:463-466 | The lanes of a GitHub watcher and of a GitHub and local-git watcher, evaluated over the whole catalog |
| `RealLanes.SafeWatchersExactly` | apps/api/src/jobs/pg-boss-broker.ts:262-296 | For the lanes of any number of capability sets a background queue cannot starve if and only if every two of them are safe together, over all runs and over runs of routed jobs alike |
| `RealLanes.SafePairsOfWatchers` | apps/api/src/jobs/pg-boss-broker.ts:262-296 | For the lanes of any two capability sets, a queue that both accept cannot starve if and only if its places are safe; over all runs and over runs of routed jobs alike |
| `RealLanes.OwnQueueOfWatchers` | apps/api/src/jobs/pg-boss-broker.ts:262-296 | For the lanes of any two capability sets, the same for a queue that only one accepts, counting that one's claims |
| `RealLanes.PublishersStarve` | apps/api/src/jobs/pg-boss-broker.ts:279-295 | Of the four queues a GitHub watcher shares with a GitHub and local-git watcher exactly `refresh_flow_snapshot` and the GitHub publications cannot starve, whether or not all jobs are routed |
| `RealLanes.DifferentListsCanStarve` | apps/api/src/jobs/pg-boss-broker.ts:283-291 | With the cursor at 0 and one crosslink and one comment job waiting, these two watchers claiming in turn serve the crosslink queue every time and the comment queue never |
| `PgBossBroker.CountsAgree` | apps/api/src/jobs/pg-boss-broker.ts:426-431 | Counting in-flight rows by queue name gives the count by job type of the in-memory broker |
| `PgBossBroker.FailTerminalAgrees` | apps/api/src/jobs/pg-boss-broker.ts:336-343 | Zeroing the retry limit and failing has the effect of the in-memory failTerminal in every state, but for the zeroed limit |
| `Fanout.FanoutBudget.Admit` | apps/api/src/platform/maintenance-fanout.ts:77-103 | Consults the budget first, then admission; counts each attempt under its outcome, spends budget only on an enqueue, and a throw leaves only the attempt counted |
| `Fanout.TicksAreAccounted` | apps/api/src/platform/maintenance-fanout.ts:57-63 | Over any number of interleaved ticks: attempts split into the three outcomes, no tick passes its budget, a budget deferral means the budget is spent, and the broker grew by exactly what the ticks enqueued |
| `Fanout.TicksStayConfigured` | apps/api/src/platform/maintenance-fanout.ts:53 | No tick enqueues more than max(0, the configured budget), whatever ticks run beside it |
| `Fanout.CompletionMakesRoom` | apps/api/src/platform/maintenance-fanout.ts:77-103 | A tick turned away for capacity gets its job in as soon as one metered job in flight has completed |
| `Fanout.FanoutLeavesReserve` | apps/api/src/platform/maintenance-fanout.ts:14-18 | No number of ticks raises the metered jobs in flight above limit less reserve, unless they started above |
| `Fanout.FanoutNeverRefusesInteractive` | apps/api/src/platform/ai-capacity.ts:62-78 | After any fan-out an interactive request is refused only if interactive jobs fill the reserve, and a reserve leaves the limit unreached |
| `Fanout.DisabledFillsBudget` | apps/api/src/platform/maintenance-fanout.ts:87-94 | With rate limiting off only the budget sheds work: every tick has enqueued all its attempts or its whole budget |
| `Watcher.Complete` | apps/watcher/src/http-client.ts:230-259 | Between one and four POSTs; every reply before the last is a network error or a refusal with status at least 500, after four of these it stops, and a refusal below 500 is always the last |
| `Watcher.OneReport` | apps/watcher/src/worker-loop.ts:94-154 | One claim is reported once, whenever shutdown and cancellation come: acknowledged and never failed, failed by one POST after no acknowledgement, or left alone, exactly when the run was aborted, or the completion was and got no acknowledgement |
| `Watcher.ShutdownReport` | apps/watcher/src/worker-loop.ts:67-72 | Shutdown during the run sends nothing for the job; during the completion it only keeps a failure from being sent; during the claim it does not reach the job |
| `Watcher.WorkerLoop.RunInScope` | apps/watcher/src/worker-loop.ts:94-154 | Reports the job as its fate and the moment of shutdown say, throws exactly when its failure is not accepted, and always clears the controller |
| `Watcher.WorkerLoop.Stop` | apps/watcher/src/worker-loop.ts:67-72 | Requests shutdown and aborts the job in hand, if there is one |
| `Watcher.WorkerLoop.Tick` | apps/watcher/src/worker-loop.ts:76-83 | Reports exactly when a job was claimed, throws exactly for a failed claim and for a failure that is not accepted, and otherwise returns whether there was a job |
| `Watcher.WorkerLoop.Run` | apps/watcher/src/worker-loop.ts:43-65 | Runs until shutdown, which may come at any await of a cycle; no error in a cycle ends it, every claimed job is reported once, nothing is claimed after the request, and it sleeps exactly after the earlier cycles without a job or with an error |
| `Completion.CompletionIsDurable` | apps/api/src/features/jobs/service.ts:345-427 | A completed job keeps its output through every continuation if no POST with another output was read before |
| `Completion.DurableIff` | apps/api/src/features/jobs/service.ts:345-427 | That condition is exact: otherwise one step overwrites the output |
| `Completion.OtherGenerationOverwrites` | apps/api/src/features/jobs/service.ts:345-427 | A run in which another output, read before the completion, overwrites one that was already acknowledged |
| `Completion.CancelledStaysIff` | apps/api/src/features/jobs/service.ts:349 | A cancelled job stays cancelled through every continuation exactly when no POST was read before the cancellation |
| `Completion.CancelledIsRefused` | apps/api/src/features/jobs/routes.ts:102-110 | A POST for a cancelled job gets 409, is not sent again, and leaves the job alone |
| `Completion.CompletedIsReplayed` | apps/api/src/features/jobs/service.ts:352-366 | A POST for a completed job replays the side effects only: the job is left alone, and the client ends, or POSTs again up to three times more |
| `Completion.PersistedIsAnswered` | apps/api/src/features/jobs/service.ts:415-428 | A POST for any other job completes it with its output, whatever the job has been moved to since it was read; failed side effects make the client POST again |
| `Completion.CrashIsRetried` | apps/api/src/features/jobs/routes.ts:112-115 | A handler that crashes at any point answers 500: the client POSTs again while it may, and what was stored stays |
| `Completion.LateCompletion` | apps/watcher/src/http-client.ts:230-259 | A POST whose reply the client lost can still complete the job |
| `Completion.ThrowIsFailed` | apps/watcher/src/worker-loop.ts:137-149 | When the runner throws, the claim sends no completion and one failure, which is counted against the job, and ends |
| `Completion.AbortEndsQuietly` | apps/watcher/src/worker-loop.ts:126-143 | An abort while the runner works, or before the failure is sent, ends the claim without another word |
| `Completion.OneClaimIsBounded` | apps/watcher/src/worker-loop.ts:119-150 | In every run one claim sends at most four completions and one failure, an acknowledgement means the job is completed, and an acknowledged client never sends a failure |
| `Completion.OutputIsNeverLost` | apps/watcher/src/http-client.ts:171-182 | With one generation: once any completion is persisted the job stays completed with that output through lost replies, 5xx, re-POSTs, the fallback fail, cancel, terminal failure and retry, and an acknowledged client's own output is the stored one |
| `Completion.FallbackAfterLostReplies` | apps/watcher/src/worker-loop.ts:137-149 | The fallback can follow a persisted completion, and then changes nothing |
| `Completion.RepairMeetsFallback` | apps/api/src/features/jobs/service.ts:612-639 | An output routed to repair is failed a second time by the fallback: counted at the failure, as in memory, this spends two retries or fails a job on its last; counted at the next claim, as in the database, it spends none and the job goes on waiting |
| `Completion.FallbackTakesRepairRun` | apps/api/src/features/jobs/service.ts:616-617 | A fallback delivered after the repair run was claimed takes it away under either accounting: a retry more is spent, or the job failed on its last |
| `Completion.FailedAgainIff` | apps/watcher/src/worker-loop.ts:137-149 | In every run from any state the job is failed again exactly if some failure is delivered while it can disturb the job |
| `Completion.RepairIsSoleRetryIff` | apps/api/src/features/jobs/routes.ts:98-101 | After a repair rejection, in every run in which nobody else fails the job, it is failed again exactly if the client's fail is delivered while the job is not terminal and, counted at the claim, not still waiting |
| `CheckoutLock.MutexIsSafe` | packages/git/src/checkout-lock.ts:12-31 | In every interleaving: one section of a key at a time, sections begin in call order and only after every earlier call of the key settled, and a drained key leaves no map entry |
| `CheckoutLock.StepKeepsInv` | packages/git/src/checkout-lock.ts:13-29 | Every call, settlement and cleanup keeps the chain linked to the last undrained call, also when a cleanup races a new call |
| `CheckoutLock.NeverStuck` | packages/git/src/checkout-lock.ts:14-21 | While a call is unfinished, an earlier call of its key or the call itself can take a step, also after rejections |
| `CheckoutLock.BeginsIff` | packages/git/src/checkout-lock.ts:13-16 | A waiting section may begin if and only if the tail of every earlier call of its key has settled, whether or not its entry is dropped yet |
| `CheckoutLock.RankDecreases` | packages/git/src/checkout-lock.ts:12-31 | The work before a call never grows, not by later calls nor by other keys, and shrinks with each step of its key up to it |
| `CheckoutLock.CanDrain` | packages/git/src/checkout-lock.ts:23-29 | From every reachable state every call can finish, and then the map is empty |
| `CheckoutLock.CheckoutLocks.WithCheckoutLock` | packages/git/src/checkout-lock.ts:12-22 | Chains the call to the key's tail, or to nothing, and becomes the tail |
| `CheckoutLock.CheckoutLocks.Proceed` | packages/git/src/checkout-lock.ts:14-16 | The section begins once the previous tail is resolved, however its section settled |
| `CheckoutLock.CheckoutLocks.DropIfLast` | packages/git/src/checkout-lock.ts:23-29 | Removes the entry only while it is still this call's |
| `Embedder.EveryTriggerIsServed` | apps/api/src/platform/background-embedder.ts:15-37 | In every run one pass at a time; without throws every trigger is followed by a pass that started after it, or the running pass's end starts it |
| `Embedder.ThrowLosesTriggersIff` | apps/api/src/platform/background-embedder.ts:32-36 | With throws, an idle embedder has unserved triggers exactly when the rerun flag was left set, and the next trigger serves them |
| `Embedder.TriggersCoalesce` | apps/api/src/platform/background-embedder.ts:24-31 | Any number of triggers in one pass start exactly one further pass, none start none |
| `Embedder.BackgroundEmbedder.OnTrigger` | apps/api/src/platform/background-embedder.ts:15-25 | Starts a pass at once when idle, only raises the flag during one, and does nothing unconfigured |
| `Embedder.BackgroundEmbedder.OnPassEnd` | apps/api/src/platform/background-embedder.ts:24-36 | Goes round again exactly when the flag was raised, lowering it first |
| `Embedder.BackgroundEmbedder.OnPassThrow` | apps/api/src/platform/background-embedder.ts:32-36 | A throw ends the pass and leaves the flag as it was |
| `TextLines.SplitJoin` | packages/markdown/src/conflict-marker.ts:60-62 | Splitting joined lines gives them back |
| `TextLines.JoinSplit` | packages/markdown/src/conflict-marker.ts:60-62 | Joining split text gives it back |
| `TextLines.TrimExact` | packages/markdown/src/index.ts:51 | Trimming takes off all white space around a text that neither starts nor ends with any |
| `TextLines.TrimParts` | packages/markdown/src/index.ts:51 | Every text is what trimming leaves, which neither starts nor ends with white space, with white space around it |
| `Anchors.SlugIsWords` | packages/markdown/src/index.ts:162-167 | A slug is the longest runs of slug characters of the lower-cased text, in order, with one dash between them and nothing else |
| `Anchors.SlugOfSpelled` | packages/markdown/src/index.ts:162-167 | Words of letters and digits with anything else between them: the slug is the words in lower case with one dash between two |
| `Anchors.DecimalReads` | packages/markdown/src/index.ts:40-44 | A suffix is the digits of its number without a leading zero |
| `Anchors.SuffixedInjective` | packages/markdown/src/index.ts:40-44 | Different suffixes give different anchors |
| `Anchors.FirstFree` | packages/markdown/src/index.ts:40-44 | The suffix search ends, at the least free suffix, by a measure on the used anchors |
| `Anchors.PickAnchor` | packages/markdown/src/index.ts:37-48 | The loop picks that anchor, which is not in use |
| `HeadingPaths.AncestorsExact` | packages/markdown/src/index.ts:89-90 | The stack holds heading j at heading i exactly when every heading after j up to and including i is deeper than j |
| `HeadingPaths.StackPathIsAncestors` | packages/markdown/src/index.ts:59-62 | The compacted stack is the texts of the declarative ancestors, skipped levels included, and is never empty after a heading |
| `Outline.BuffersCoverText` | packages/markdown/src/index.ts:76-98 | The section buffers concatenate back to the body |
| `Outline.BufferAt` | packages/markdown/src/index.ts:83-94 | Buffer i + 1 is the lines from heading i to the next one |
| `Outline.PreambleAt` | packages/markdown/src/index.ts:83-94 | Buffer 0 is the lines before the first heading |
| `Sections.HeadingOfExact` | packages/markdown/src/index.ts:83 | A line is a heading exactly when some match of the pattern exists, and its text comes from the greediest one |
| `Sections.FenceExact` | packages/markdown/src/index.ts:77 | A line is a fence exactly when white space and then three backticks or tildes start it |
| `Sections.HeadLinesExact` | packages/markdown/src/index.ts:76-95 | The headings of a document are the lines that match the pattern with an even number of fence lines before them |
| `Sections.SplitIntoSections` | packages/markdown/src/index.ts:26-99 | The line loop computes the fold its state machine describes |
| `Sections.SplitIsAssemble` | packages/markdown/src/index.ts:50-98 | The state machine refines an assembly that looks only at headings and buffers: only a blank preamble is dropped |
| `Sections.AnchorsAndOrdinals` | packages/markdown/src/index.ts:37-74 | Every document gets pairwise distinct anchors and consecutive ordinals from 0 |
| `Sections.AnchorOfSection` | packages/markdown/src/index.ts:37-48 | A section's anchor is the slug of its path, or its number when that is empty, if no earlier section has it, and else the least free suffix of it from 2 on |
| `Sections.SectionOfHeading` | packages/markdown/src/index.ts:61-72 | Heading i opens one section, at its own place, with its heading, path, content and ordinal |
| `Sections.SectionText` | packages/markdown/src/index.ts:61-94 | That section holds the heading's text and, trimmed, everything from its line up to the next heading line |
| `Sections.PreambleSection` | packages/markdown/src/index.ts:52-72 | What stands before the first heading line is a section under the title, with the title as its path, unless it is blank; there are no others |
| `Sections.SectionPath` | packages/markdown/src/index.ts:59-68 | That section's path is exactly its declarative ancestors in document order, itself last |
| `Sections.InertInside` | packages/markdown/src/index.ts:77-95 | Lines that are neither headings nor fences change no other line's reading |
| `Frontmatter.BodyOnLines` | packages/markdown/src/index.ts:15-24 | The frontmatter cut of the text is a cut of its lines |
| `Frontmatter.FrontmatterExact` | packages/markdown/src/index.ts:16-18 | With `---` in the first line and the first later line break before three dashes at j: the raw frontmatter is what stands between, the body what follows, less one line break |
| `Frontmatter.NoFrontmatter` | packages/markdown/src/index.ts:16-18 | Without such a match there is no frontmatter and the whole text is the body |
| `Frontmatter.CutInside` | packages/markdown/src/index.ts:16-18 | Lines put into the body, none starting with dashes, stay in the body and move no line across the cut |
| `Titles.InferTitleExact` | packages/markdown/src/index.ts:121-124 | The inferred title is the text of the match the pattern finds, the leftmost `#` with the longest white space after it, or `Untitled` without one or with a blank one |
| `Titles.TitleValueExact` | packages/markdown/src/index.ts:104-107 | A frontmatter line gives the title exactly when the pattern matches it, and every match gives the same value |
| `Titles.FrontTitleExact` | packages/markdown/src/index.ts:101-109 | The last frontmatter line with a title gives it, even an empty one |
| `Titles.TitleOfText` | packages/markdown/src/index.ts:111-113 | The title is the one of the raw frontmatter if that is not empty, and else the one inferred from the body |
| `Titles.ParseTitle` | packages/markdown/src/index.ts:101-113 | The title is that of the last frontmatter line with one, or else the inferred one, read off the lines of the document |
| `AnchorLines.CollectHeadingLines` | packages/markdown/src/conflict-marker.ts:108-117 | The second scan collects exactly the unfenced heading lines |
| `AnchorLines.HeadedOnlyExact` | packages/markdown/src/conflict-marker.ts:119 | The sections the zip looks at are exactly those whose content looks headed, in order |
| `AnchorLines.LooksHeadedExact` | packages/markdown/src/conflict-marker.ts:119 | Content looks headed exactly if it starts with one to six `#` and white space |
| `AnchorLines.FindHeadingExact` | packages/markdown/src/conflict-marker.ts:119-124 | The line found is the one in the place, among the heading lines, that the first section with the anchor has among those that look headed |
| `AnchorLines.FoundLineOpens` | packages/markdown/src/conflict-marker.ts:119-124 | Under the two side conditions the found line is the heading that opens the unique section with the anchor, and it is found whenever there is one |
| `AnchorLines.ZipRightIffSafe` | packages/markdown/src/conflict-marker.ts:93-95 | The two side conditions are exactly what the zip needs, for all anchors and lines |
| `AnchorLines.HeadedPreambleMisleads` | packages/markdown/src/conflict-marker.ts:119 | A preamble that trims to something headed always sends its anchor to a heading it does not open |
| `AnchorLines.BareHeadingMisleads` | packages/markdown/src/conflict-marker.ts:119 | The anchor of a blank heading with a blank body is never found on its line |
| `ConflictMarkers.CalloutQuotes` | packages/markdown/src/conflict-marker.ts:28-39 | Whatever the summary says, every line between the tags is a quote line |
| `ConflictMarkers.CalloutHoldsSummary` | packages/markdown/src/conflict-marker.ts:31-39 | The callout has one line for each summary line and holds every line that is not blank in full, up to trailing white space |
| `ConflictMarkers.CalloutBlank` | packages/markdown/src/conflict-marker.ts:31-39 | A blank summary line leaves a bare quote mark, or, as the first, the heading of the callout |
| `ConflictMarkers.MarkerReads` | packages/markdown/src/conflict-marker.ts:28-39 | A marker is its opening comment with the id, the callout, and its closing comment, one under the other |
| `ConflictMarkers.BlockInert` | packages/markdown/src/conflict-marker.ts:31-39 | No line of a marker is a heading, a fence or a frontmatter close |
| `ConflictMarkers.FindAnchorHeadingLine` | packages/markdown/src/conflict-marker.ts:96-125 | Splits, collects and zips to the full-document line, frontmatter included |
| `ConflictMarkers.InsertConflictMarker` | packages/markdown/src/conflict-marker.ts:51-63 | Unchanged if the opening tag occurs in the text; under the found heading line after an empty line; or else after the text without its trailing line breaks, an empty line before it |
| `ConflictMarkers.StripConflictMarker` | packages/markdown/src/conflict-marker.ts:67-86 | Finds the opening line, the next closing line and the separator, and gives what `StripMeans` says, or the text itself |
| `ConflictMarkers.StripMeans` | packages/markdown/src/conflict-marker.ts:67-86 | Lines p, opening tag, m, closing tag, q, with no such opening tag in p and no closing tag in m, become p and q, p without one empty line at its end; a text without such a stretch is returned as it is |
| `ConflictMarkers.InsertOnLines` | packages/markdown/src/conflict-marker.ts:55-62 | On lines an insertion is one block under a heading, or after the trimmed end |
| `ConflictMarkers.StripInsert` | packages/markdown/src/conflict-marker.ts:65-86 | Stripping a fresh insertion gives the document, or with an unknown anchor the document with one trailing newline |
| `ConflictMarkers.RoundTripExactly` | packages/markdown/src/conflict-marker.ts:11-13 | For all documents and arguments, strip undoes insert if and only if the stated conditions on marker, id, anchor and ending hold |
| `MarkerTitles.TitleAfter` | packages/markdown/src/index.ts:101-124 | After any insertion a frontmatter title is as before; an inferred one is as before if it is complete above the marker, the marker's opening tag if a `#` waits for its text there, and else what the marker's own lines supply, if they do |
| `MarkerTitles.TitleKeptIff` | packages/markdown/src/index.ts:121-124 | The title stays if and only if the frontmatter gives it, or it is complete above the marker, or no `#` opens it there and the marker supplies none or the same |
| `MarkerTitles.PlainMarkerReads` | packages/markdown/src/conflict-marker.ts:28-39 | A marker whose id and summary lines hold no line end of their own supplies no title |
| `Annotations.AnnotationIsInertIff` | packages/markdown/src/conflict-marker.ts:41-63 | With the title read anew from the annotated text, re-splitting gives the same sections, headings, paths, anchors and ordinals and at most one changed content if and only if there is a section, and the preamble is blank or the title stays |
| `Annotations.AnnotationIsInertWhen` | packages/markdown/src/conflict-marker.ts:41-63 | The same in terms of the document, the anchor and the summary, before anything is inserted |
| `Annotations.FoundContent` | packages/markdown/src/conflict-marker.ts:60-62 | The content that changes is the found heading's: its line, then the marker, then what stood under it |
| `Annotations.EndContent` | packages/markdown/src/conflict-marker.ts:55-58 | With an unknown anchor it is the last one, with the marker after its text |
| `TwoMarkers.MarkersIndependentExactly` | packages/markdown/src/conflict-marker.ts:65-86 | Insert A under a found heading, insert B, strip A: exactly the document with only B, if and only if the document already had B, or A's text does not hold B's opening tag and B's anchor leads to the same spot with A as without |
| `AppendedMarkers.AppendedIndependentExactly` | packages/markdown/src/conflict-marker.ts:55-86 | The same for an A whose anchor is unknown: if B was there, the document must end in one line break; else A's text must not hold B's opening tag, and B must be appended either way, or go to one spot of a document that ends in one line break |
| `AppendedSpots.AppendedSpot` | packages/markdown/src/conflict-marker.ts:96-125 | Where B's anchor leads once A is appended is where the original document has it under the title A leaves it with, but for a bare last heading's own anchor, which gets a heading line |
| `AppendedSpots.AppendedIndependent` | packages/markdown/src/conflict-marker.ts:65-86 | So an appended A's independence of B is told on the original document |
| `AppendedSpots.AppendedIndependentIfTitleStays` | packages/markdown/src/conflict-marker.ts:65-86 | With the title unchanged or out of sight and the last heading not bare: A's text does not hold B's opening tag, and B's anchor is unknown too or the document ends in one line break; or B was there and it does |
| `AppendedSpots.AllAppendedUnder` | packages/markdown/src/conflict-marker.ts:55-125 | With the title unchanged or out of sight an appended A is independent of every separate marker if and only if the document ends in one line break or no anchor is found in it, and no bare last heading displaces its own anchor |
| `Annotations.MarkersIndependent` | packages/markdown/src/conflict-marker.ts:96-125 | Under a heading that is not bare that spot is where the original document has B's anchor under the title A leaves it with |
| `Annotations.MarkersIndependentIfTitleStays` | packages/markdown/src/conflict-marker.ts:65-86 | So with the title unchanged or out of sight B's opening tag alone decides |
| `Annotations.AllIndependentIff` | packages/markdown/src/conflict-marker.ts:65-86 | A is independent of every separate marker if and only if it moves no anchor off its spot |
| `Annotations.AllIndependentUnder` | packages/markdown/src/conflict-marker.ts:93-125 | With the title unchanged or out of sight, headed preamble or not, this is so if and only if A's heading is not bare, or no heading line is left in the zip for the section it puts in view, or only the document's last line |
| `TitleDrift.MarkerTakesTitle` | packages/markdown/src/index.ts:121-124 | In `intro\n#  \nnotes` a marker under `section-1` changes the title from `notes` to its opening tag, and the preamble's section with it |
| `TitleDrift.MarkerBecomesTitle` | packages/markdown/src/index.ts:121-124 | In `intro\n#` a marker with any anchor, appended, becomes the title |
| `TitleDrift.SummaryBecomesTitle` | packages/markdown/src/conflict-marker.ts:31-39 | In `intro` a summary with a line separator and `# T` gives the title `T` |
| `TitleDrift.DriftMovesAnchor` | packages/markdown/src/conflict-marker.ts:96-125 | In `intro\n#  \nNotes\n## Notes\ntext` a marker under `section-1`, which is not bare, loses the anchor `notes-2`, and a second marker there is not independent of it |
| `CronFields.PartMeansExact` | packages/core/src/index.ts:1929-1956 | A part is accepted with these bounds and step exactly when it is written so in the grammar and in range |
| `CronFields.NumeralExact` | packages/core/src/index.ts:1928-1948 | A number is one or more of the ten digits |
| `CronFields.DecimalIsRead` | packages/core/src/index.ts:1930-1948 | The digits of a number are read as the number |
| `CronFields.FieldMeansExact` | packages/core/src/index.ts:1926-1962 | A field is accepted with these values if and only if every piece between its commas means a progression in the range, and the values are their terms |
| `CronFields.ParseCronField` | packages/core/src/index.ts:1926-1962 | The loops collect exactly the union of the parts' progressions, or nothing if a part is not accepted |
| `CronFields.ParseCronExpression` | packages/core/src/index.ts:1964-1988 | Five words, each field in its range, and which day fields are restricted |
| `CronFields.ExpressionMeansExact` | packages/core/src/index.ts:1926-1988 | An expression is parsed to these fields if and only if it is five words, each of comma-separated pieces that all mean progressions in 0-59, 0-23, 1-31, 1-12 and, with zeros for sevens, 0-6, with just their terms; and a day field is restricted exactly if it is not `*` |
| `CronFields.WordsExact` | packages/core/src/index.ts:1965 | The words are the space-free stretches that, with white space between each two and perhaps around them, make up the text |
| `CronFields.ParsedWellFormed` | packages/core/src/index.ts:1964-1988 | Accepted expressions have non-empty fields in range, and unrestricted day fields are full |
| `CronDays.PlainFieldExact` | packages/core/src/index.ts:1974 | A day-of-week field is parsed as the days it means, with 7 for Sunday, or rejected for meaning none, if and only if some part is not accepted and some part not valid, or all are both and every day a part loses is given, and every day a part gains meant, by another part |
| `CronDays.PartDays` | packages/core/src/index.ts:1974 | A part both readings accept loses exactly the days of a range from 0 to 7 but Sunday, and gains exactly those its shortened step reaches |
| `CronDays.PlainAlone` | packages/core/src/index.ts:1974 | Of a field with one part its numbers, with and without the sevens, decide |
| `CronDays.PlainPartExact` | packages/core/src/index.ts:1974 | A part is read as meant if and only if its numbers say so |
| `CronDays.SevenFree` | packages/core/src/index.ts:1974 | Every field without the digit 7 is read as meant |
| `CronDays.SevenIsSunday` | packages/core/src/index.ts:1908 | 7 alone is Sunday, as meant |
| `CronDays.WholeWeekIsSunday` | packages/core/src/index.ts:1974 | `0-7` means every day and is read as Sunday alone |
| `CronDays.SeventyIsSunday` | packages/core/src/index.ts:1974 | 70 means no day and is read as Sunday |
| `CronDays.RangeToSeven` | packages/core/src/index.ts:1974 | Every range up to 7 is rejected, except one whose start is zero once its sevens are, which is Sunday |
| `CronDays.StepOfSevenRejected` | packages/core/src/index.ts:1974 | A step of 7 in any part of the day-of-week field rejects the field |
| `Calendar.DateRoundTrip` | packages/core/src/index.ts:2001-2006 | The date of the day of a date is that date, leap years included |
| `Calendar.DayRoundTrip` | packages/core/src/index.ts:2001-2006 | The day of the date of a day is that day |
| `Calendar.GregorianRules` | packages/core/src/index.ts:2001-2006 | Which months have how many days, and that February has 29 in the years divisible by 4 but not by 100, or by 400 |
| `Calendar.EpochIsThursday` | packages/core/src/index.ts:2006 | Day 0 is Thursday, 1 January 1970, and the weekdays go round from it |
| `CronNext.MinuteAfterIsNext` | packages/core/src/index.ts:2023-2025 | The scan starts at the first minute strictly after the start time |
| `CronNext.CalendarMatch` | packages/core/src/index.ts:1994-2013 | A time of the calendar matches if and only if minute, hour and month are in their fields and the day of month or the weekday is in its field when both are restricted, and both are otherwise |
| `CronNext.NextCronTime` | packages/core/src/index.ts:2017-2035 | The scan returns the first time of the calendar strictly after the start, within 366 days, at which the fields fire, or nothing exactly when there is none or the expression is invalid |
| `CronNext.AlwaysFiresIff` | packages/core/src/index.ts:2027-2034 | The scan finds a time from every start if and only if both day fields are restricted, or an allowed month has an allowed day in every year |
| `CronNext.SmallDayAlwaysFires` | packages/core/src/index.ts:2027-2034 | An allowed day of month of at most 28 is enough, from any start |
| `Calendar.DateWithinYear` | packages/core/src/index.ts:2027 | Every date that exists in all years lies among any 366 days in a row |
| `Glob.MatchGlob` | apps/watcher/src/source-tools.ts:258-282 | The rolling rows decide whether the lower-cased candidate can be cut into one fitting part for each token |
| `Glob.DecidesExactly` | apps/watcher/src/source-tools.ts:233-237 | Deciding from the ends agrees with the declarative relation for every token list and text |
| `Glob.MatchesMeans` | apps/watcher/src/source-tools.ts:233-237 | A character matches itself, a star any text without a slash, a globstar any text, and tokens in a row a text that can be cut between them |
| `Glob.PlainPattern` | apps/watcher/src/source-tools.ts:251-253 | A pattern without stars matches exactly its own text in lower case |
| `Glob.LowerTextIs` | apps/watcher/src/source-tools.ts:259 | Lower-casing changes the letters A to Z and nothing else |
| `Glob.NextRow` | apps/watcher/src/source-tools.ts:267-279 | Each entry of a row follows from its left neighbour and the row before |
| `Glob.TokenizeGlob` | apps/watcher/src/source-tools.ts:239-256 | The index loop yields one token for each run of stars and for each other character |
| `Glob.CollapsePreserves` | apps/watcher/src/source-tools.ts:244-250 | Anywhere in a pattern a run of stars with a globstar in it means one globstar |
| `Glob.TokenizeMeansPairwise` | apps/watcher/src/source-tools.ts:239-256 | Collapsing never changes what a pattern matches |
| `Glob.CaseDoesNotMatter` | apps/watcher/src/source-tools.ts:251-253 | A pattern and its lower-cased form have the same tokens |
| `Glob.StarsStayInSegment` | apps/watcher/src/source-tools.ts:233-234 | Without a globstar a match has exactly the pattern's slashes |
| `Geometry.CosineSimilarity` | packages/retrieval/src/flow-router.ts:36-52 | The loop's result times the two norms is the dot product, for vectors of one length without a zero norm; otherwise it is zero; it lies between -1 and 1 |
| `Geometry.CosineMeans` | packages/retrieval/src/flow-router.ts:36-52 | The cosine has the sign of the dot product and times the two norms gives it; on a length mismatch or a zero vector it is zero |
| `Geometry.CosineOfMultiple` | packages/retrieval/src/flow-router.ts:36-52 | A vector and a positive multiple of it, itself for one, score 1, and a negative multiple -1 |
| `Geometry.CauchySchwarz` | packages/retrieval/src/flow-router.ts:43-51 | The squared dot product is at most the product of the squared norms, for all vectors |
| `Geometry.PaddingIsExact` | packages/retrieval/src/embeddings.ts:173-183 | Zero padding changes no dot product, norm or cosine of vectors of one width |
| `Geometry.PaddingAccepts` | packages/retrieval/src/embeddings.ts:154-183 | Exactly the vectors of 1 to 1536 dimensions are stored, each as itself with zeros behind it |
| `Geometry.PaddingAgreesIff` | packages/retrieval/src/embeddings.ts:178-183 | Padded and native cosines agree if and only if the widths agree or the padded dot product is zero |
| `Geometry.UnlikeWidthsDisagree` | packages/retrieval/src/embeddings.ts:173-176 | Two vectors of widths 1 and 2 score zero natively and not zero when padded |
| `FlowRouter.RouteByEmbeddingSimilarity` | packages/retrieval/src/flow-router.ts:61-90 | The loop scores every flow by its cosine with the question, sorts, and decides on the scores as `RouteExact` says |
| `FlowRouter.RouteExact` | packages/retrieval/src/flow-router.ts:61-90 | For every margin: only the first of the highest scores is routed to, exactly if it clears the floor and the margin to every other; the margin reported is the one to the best of these, and confidence is high exactly if it is twice the margin asked for, or there is no other |
| `FlowRouter.MultipleScoresHighest` | packages/retrieval/src/flow-router.ts:70-72 | A flow whose vector is a positive multiple of the question scores 1 and none scores more; with the others below by the margin it is routed to |
| `FlowRouter.RoutedIffWins` | packages/retrieval/src/flow-router.ts:70-89 | With a positive margin a flow is routed if and only if it clears the floor and beats every other by the margin; the reported margin is the distance to the best other |
| `FlowRouter.RouteIsOrderIndependent` | packages/retrieval/src/flow-router.ts:70-72 | With a positive margin the route does not depend on the order of the flows |
| `FlowRouter.ZeroMarginDependsOnOrder` | packages/retrieval/src/flow-router.ts:83-89 | With a zero margin a tie goes to the flow configured first |
| `FlowRouter.PaddingKeepsRoutes` | packages/retrieval/src/embeddings.ts:173-176 | Padding one model's vectors changes no routing decision |

## Left out

- Postgres, pg-boss, HTTP, git, timers, telemetry and logging: each is an atomic step, a parameter or an arbitrary outcome.
- Backoff: a job waiting for a retry can be claimed at once, and the delays between POSTs are not modelled.
- The `blocked` job state, which no operation here enters.
- Job ids, timestamps, schedules, trace contexts and listing: a job's id is its place in insertion order.
- Input and output schemas: what a schema makes of an input is a parameter, and an output is accepted or rejected arbitrarily.
- The pg-boss guards on complete, fail and cancel: the lifecycle follows the in-memory broker, where complete is unguarded; of the database only the counting of retries is modelled, and a manual retry there as in memory.
- Overlapping `admit` calls on one budget and overlapping `claim` calls on one cursor: both are modelled one after another.
- Documents with carriage returns, and lower-casing of letters outside ASCII.
- `Annotations.AnnotationIsInertIff`: asks for a conflict id without a line break, as the callers' generated ids are; a line break in the id could start a heading.
- `MarkerTitles.TitleKeptIff`: asks for a conflict id without any line end, so that the opening tag is one line of a title.
- `TwoMarkers.MarkersIndependentExactly`: asks for conflict ids without a line break too, since a marker whose id has one cannot be stripped at all.
- `Annotations.EndContent`: speaks of documents with at least one section; in one without, the marker becomes the preamble's section.
- Characters outside the Basic Multilingual Plane in globs: the matcher walks code points and the tokens are UTF-16 units, so the model is about text without surrogate pairs.
- Time zones and daylight saving in cron: minutes are UTC.
- Rounding: cosine and routing are over the reals, with an exact square root.
- Promises are named by the call that made them; microtasks may run in any order, which allows more runs than a runtime does.
- The embedding pass itself, and what the runner of a job does.
- Frontmatter keys other than the title, `fuseRankings`, prompts, stores and the web console: they would only add easy members.
