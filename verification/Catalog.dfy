/** The job catalog: which capabilities a job type can run on, how its jobs are
    routed to queues, and the retry budget of its policy. */
module Catalog {
  import opened TextLines

  datatype Result<+T> = Ok(value: T) | Err(message: string)

  datatype Capability = OpenAiCompatible | AzureOpenAi | Codex | Claude | GitHub | Maintenance | LocalGit

  function Name(c: Capability): string {
    match c
    case OpenAiCompatible => "openai-compatible"
    case AzureOpenAi => "azure-openai"
    case Codex => "codex"
    case Claude => "claude"
    case GitHub => "github"
    case Maintenance => "maintenance"
    case LocalGit => "local-git"
  }

  function Providers(): seq<Capability> {
    [OpenAiCompatible, AzureOpenAi, Codex, Claude]
  }

  /** The interactive class of AI work: a live caller is waiting. */
  function InteractiveJobTypes(): seq<string> {
    ["answer_question", "outline_flow_seed"]
  }

  /** The provider-routed, metered job types. */
  function AiJobTypes(): seq<string> {
    ["answer_question", "answer_question_batch", "summarize_gap", "draft_markdown_proposal", "draft_seed_document",
     "outline_flow_seed", "revise_seed_plan", "fold_markdown_proposal", "suggest_consolidation",
     "reconcile_gap_clusters", "sync_source_changes_generate_plan", "verify_document", "verify_imported_answer",
     "map_questionnaire_columns", "correct_document", "dedupe_documents", "split_document", "improve_document",
     "fold_changeset_proposal"]
  }

  function MaintenanceJobTypes(): seq<string> {
    ["process_gaps_to_pull_requests", "source_change_sync", "correctness_patrol", "editorial_patrol",
     "verify_gap_closure", "seed_bootstrap"]
  }

  const PUBLISH := "publish_proposal"

  function GitHubJobTypes(): seq<string> {
    ["refresh_flow_snapshot", "crosslink_pull_requests", "comment_pull_request"]
  }

  predicate IsAi(t: string) {
    t in AiJobTypes()
  }

  predicate IsInteractive(t: string) {
    t in InteractiveJobTypes()
  }

  predicate IsJobType(t: string) {
    IsAi(t) || t in MaintenanceJobTypes() || t == PUBLISH || t in GitHubJobTypes()
  }

  /** The interactive lane is a slice of the metered pool. */
  lemma InteractiveIsAi(t: string)
    requires IsInteractive(t)
    ensures IsAi(t)
  {
    assert AiJobTypes()[0] == "answer_question" && AiJobTypes()[5] == "outline_flow_seed";
  }

  /** The retry budget of a type's policy. */
  function RetryLimit(t: string): nat {
    var providerWork := IsAi(t);
    var maintenanceAi := providerWork && !IsInteractive(t);
    if providerWork then (if maintenanceAi then 2 else 3) else 2
  }

  // ---- Routing -------------------------------------------------------------

  /** The fields of a job's input that route it. */
  datatype Input = Input(provider: Option<string>, destination: Option<string>)

  /** The capabilities a type fans out over. */
  function Capabilities(t: string): (cs: seq<Capability>)
    ensures |cs| >= 1
  {
    if IsAi(t) then Providers()
    else if t == PUBLISH then [GitHub, LocalGit]
    else if t in MaintenanceJobTypes() then [Maintenance]
    else [GitHub]
  }

  function Named(cs: seq<Capability>, value: string): (c: Option<Capability>)
    ensures c.Some? ==> c.value in cs && Name(c.value) == value
  {
    if cs == [] then None
    else if Name(cs[0]) == value then Some(cs[0])
    else Named(cs[1..], value)
  }

  function RequiredCapability(t: string, input: Input): (r: Result<Capability>)
    ensures r.Ok? ==> r.value in Capabilities(t)
  {
    if |Capabilities(t)| == 1 then Ok(Capabilities(t)[0])
    else
      var field := if IsAi(t) then input.provider else input.destination;
      match field
      case None => if t == PUBLISH && !IsAi(t) then Ok(GitHub) else Err("the routing field is required")
      case Some(value) =>
        match Named(Capabilities(t), value)
        case None => Err("the routing field names no capability of the type")
        case Some(c) => Ok(c)
  }

  lemma {:induction false} NamedExact(cs: seq<Capability>, value: string, c: Capability)
    ensures Named(cs, value) == Some(c) <==> c in cs && Name(c) == value
  {
    if cs != [] {
      NamedExact(cs[1..], value, c);
      if Name(cs[0]) == value && Name(c) == value {
        SameName(cs[0], c);
      }
      assert cs == [cs[0]] + cs[1..];
    }
  }

  lemma SameName(c: Capability, d: Capability)
    requires Name(c) == Name(d)
    ensures c == d
  {
    assert Name(c)[0] == Name(d)[0] && Name(c)[1] == Name(d)[1];
  }

  /** Provider work runs where its input says, publication where its input says or
      on GitHub when it says nothing, and everything else where its type says. */
  lemma RoutingExact(t: string, input: Input, c: Capability)
    requires IsJobType(t)
    ensures IsAi(t) ==> (RequiredCapability(t, input) == Ok(c) <==> c in Providers() && input.provider == Some(Name(c)))
    ensures t == PUBLISH ==> (RequiredCapability(t, input) == Ok(c)
                              <==> (input.destination.None? && c == GitHub)
                                   || ((c == GitHub || c == LocalGit) && input.destination == Some(Name(c))))
    ensures t in MaintenanceJobTypes() && !IsAi(t) ==> RequiredCapability(t, input) == Ok(Maintenance)
    ensures t in GitHubJobTypes() && !IsAi(t) ==> RequiredCapability(t, input) == Ok(GitHub)
  {
    hide IsAi, Name, MaintenanceJobTypes;
    PublishIsNotAi();
    GitHubTypes(t);
    if IsAi(t) {
      if input.provider.Some? {
        NamedExact(Providers(), input.provider.value, c);
      }
    } else if t == PUBLISH {
      if input.destination.Some? {
        NamedExact([GitHub, LocalGit], input.destination.value, c);
      }
    }
  }

  lemma PublishIsNotAi()
    ensures !IsAi(PUBLISH) && PUBLISH !in MaintenanceJobTypes()
  {
  }

  lemma GitHubTypes(t: string)
    ensures t in GitHubJobTypes() ==> t != PUBLISH && t !in MaintenanceJobTypes()
    ensures t in MaintenanceJobTypes() ==> t != PUBLISH
  {
  }

  /** `capability.replaceAll("-", "_")`. */
  function Underscored(s: string): (r: string)
    ensures |r| == |s| && forall i :: 0 <= i < |s| ==> r[i] == if s[i] == '-' then '_' else s[i]
  {
    seq(|s|, i requires 0 <= i < |s| => if s[i] == '-' then '_' else s[i])
  }

  function PartitionedQueueName(t: string, c: Capability, multi: bool): string {
    if multi then t + "__" + Underscored(Name(c)) else t
  }

  function QueueOf(t: string, c: Capability): string {
    PartitionedQueueName(t, c, |Capabilities(t)| > 1)
  }

  function QueueNameForJob(t: string, input: Input): Result<string> {
    match RequiredCapability(t, input)
    case Err(m) => Err(m)
    case Ok(c) => Ok(QueueOf(t, c))
  }

  // ---- Queue names determine their type and capability ---------------------

  /** No two underscores in a row, and none at the end. */
  predicate IsWord(s: string) {
    forall i :: 0 <= i < |s| && s[i] == '_' ==> i + 1 < |s| && s[i + 1] != '_'
  }

  lemma Words1()
    ensures IsWord("answer_question")
    ensures IsWord("answer_question_batch")
    ensures IsWord("summarize_gap")
    ensures IsWord("draft_markdown_proposal")
    ensures IsWord("draft_seed_document")
  {
  }

  lemma Words2()
    ensures IsWord("outline_flow_seed")
    ensures IsWord("revise_seed_plan")
    ensures IsWord("fold_markdown_proposal")
    ensures IsWord("suggest_consolidation")
    ensures IsWord("reconcile_gap_clusters")
  {
  }

  lemma Words3()
    ensures IsWord("sync_source_changes_generate_plan")
    ensures IsWord("verify_document")
    ensures IsWord("verify_imported_answer")
    ensures IsWord("map_questionnaire_columns")
    ensures IsWord("correct_document")
  {
  }

  lemma Words4()
    ensures IsWord("dedupe_documents")
    ensures IsWord("split_document")
    ensures IsWord("improve_document")
    ensures IsWord("fold_changeset_proposal")
    ensures IsWord("process_gaps_to_pull_requests")
  {
  }

  lemma Words5()
    ensures IsWord("source_change_sync")
    ensures IsWord("correctness_patrol")
    ensures IsWord("editorial_patrol")
    ensures IsWord("verify_gap_closure")
    ensures IsWord("seed_bootstrap")
  {
  }

  lemma Words6()
    ensures IsWord("publish_proposal")
    ensures IsWord("refresh_flow_snapshot")
    ensures IsWord("crosslink_pull_requests")
    ensures IsWord("comment_pull_request")
  {
  }

  lemma TypesAreWords(t: string)
    requires IsJobType(t)
    ensures IsWord(t)
  {
    hide IsWord;
    Words1();
    Words2();
    Words3();
    Words4();
    Words5();
    Words6();
  }

  lemma SuffixNames(c: Capability, d: Capability)
    requires Underscored(Name(c)) == Underscored(Name(d))
    ensures c == d
  {
    var u, v := Underscored(Name(c)), Underscored(Name(d));
    assert u[0] == v[0] && u[1] == v[1];
  }

  lemma WordSplit(s: string, t: string, u: string, v: string)
    requires IsWord(s) && IsWord(t) && s + "__" + u == t + "__" + v
    ensures s == t && u == v
  {
    var x, y := s + "__" + u, t + "__" + v;
    WordEnds(s, u);
    WordEnds(t, v);
    assert x[..|s|] == s && y[..|t|] == t;
    assert x[|s| + 2..] == u && y[|t| + 2..] == v;
  }

  /** The first double underscore stands where the word ends. */
  lemma WordEnds(s: string, u: string)
    requires IsWord(s)
    ensures var x := s + "__" + u;
            && x[|s|] == '_' && x[|s| + 1] == '_'
            && forall i :: 0 <= i < |s| && x[i] == '_' ==> x[i + 1] != '_'
  {
    var x := s + "__" + u;
    assert forall i :: 0 <= i < |s| ==> x[i] == s[i];
  }

  lemma WordNotSplit(s: string, t: string, u: string)
    requires IsWord(s)
    ensures s != t + "__" + u
  {
    var y := t + "__" + u;
    assert y[|t|] == '_' && y[|t| + 1] == '_';
  }

  /** A queue name belongs to one job type and one of its capabilities only. */
  lemma QueueNamesInjective(s: string, c: Capability, t: string, d: Capability)
    requires IsJobType(s) && c in Capabilities(s) && IsJobType(t) && d in Capabilities(t)
    requires QueueOf(s, c) == QueueOf(t, d)
    ensures s == t && c == d
  {
    hide IsJobType, IsAi, IsWord, Underscored, Name;
    TypesAreWords(s);
    TypesAreWords(t);
    var u, v := Underscored(Name(c)), Underscored(Name(d));
    if |Capabilities(s)| > 1 {
      if |Capabilities(t)| > 1 {
        WordSplit(s, t, u, v);
        SuffixNames(c, d);
      } else {
        WordNotSplit(t, s, u);
      }
    } else {
      if |Capabilities(t)| > 1 {
        WordNotSplit(s, t, v);
      } else {
        assert c == Capabilities(s)[0] && d == Capabilities(t)[0];
      }
    }
  }

  // ---- Which queues a watcher may claim from -------------------------------

  datatype Queue = Queue(name: string, jobType: string, capability: Capability)

  function QueuesOfType(t: string, cs: seq<Capability>): (qs: seq<Queue>)
    ensures forall q :: q in qs ==> q.jobType == t && q.capability in cs && q.name == QueueOf(t, q.capability)
    ensures forall c :: c in cs ==> Queue(QueueOf(t, c), t, c) in qs
  {
    if cs == [] then []
    else [Queue(QueueOf(t, cs[0]), t, cs[0])] + QueuesOfType(t, cs[1..])
  }

  function WorkQueues(types: seq<string>): (qs: seq<Queue>)
    ensures forall q :: q in qs <==> q.jobType in types && q.capability in Capabilities(q.jobType)
                                     && q.name == QueueOf(q.jobType, q.capability)
  {
    if types == [] then []
    else QueuesOfType(types[0], Capabilities(types[0])) + WorkQueues(types[1..])
  }

  function JobTypes(): seq<string> {
    AiJobTypes() + ["refresh_flow_snapshot"] + MaintenanceJobTypes()
    + [PUBLISH, "crosslink_pull_requests", "comment_pull_request"]
  }

  lemma JobTypesExact(t: string)
    ensures t in JobTypes() <==> IsJobType(t)
  {
    hide AiJobTypes, MaintenanceJobTypes;
    var gs := GitHubJobTypes();
    assert gs[0] in gs && gs[1] in gs && gs[2] in gs;
  }

  /** The queues of the catalog that accept one of the capabilities, in order. */
  function Accepting(qs: seq<Queue>, accepted: set<Capability>): (r: seq<Queue>)
    ensures forall q :: q in r <==> q in qs && q.capability in accepted
  {
    if qs == [] then []
    else (if qs[0].capability in accepted then [qs[0]] else []) + Accepting(qs[1..], accepted)
  }

  function Names(qs: seq<Queue>): (r: seq<string>)
    ensures |r| == |qs| && forall i :: 0 <= i < |qs| ==> r[i] == qs[i].name
  {
    seq(|qs|, i requires 0 <= i < |qs| => qs[i].name)
  }

  function QueueNamesForCapabilities(accepted: set<Capability>): seq<string> {
    Names(Accepting(WorkQueues(JobTypes()), accepted))
  }

  /** A job sits in a queue a watcher may claim from exactly when the watcher
      advertises the capability that job requires. */
  lemma ClaimableIffCapable(t: string, input: Input, accepted: set<Capability>)
    requires IsJobType(t) && QueueNameForJob(t, input).Ok?
    ensures QueueNameForJob(t, input).value in QueueNamesForCapabilities(accepted)
       <==> RequiredCapability(t, input).value in accepted
  {
    hide Capabilities, IsJobType, QueueOf, WorkQueues, Accepting, JobTypes;
    var c := RequiredCapability(t, input).value;
    var name := QueueOf(t, c);
    var all := WorkQueues(JobTypes());
    var open := Accepting(all, accepted);
    JobTypesExact(t);
    var q := Queue(name, t, c);
    if c in accepted {
      assert q in open;
      var i :| 0 <= i < |open| && open[i] == q;
      assert Names(open)[i] == name;
    }
    if name in QueueNamesForCapabilities(accepted) {
      var i :| 0 <= i < |open| && Names(open)[i] == name;
      var p := open[i];
      assert p in open && p in all;
      JobTypesExact(p.jobType);
      QueueNamesInjective(t, c, p.jobType, p.capability);
    }
  }
}
