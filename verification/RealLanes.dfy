/** The lanes that real capability sets have: no lane lists a queue twice, so the safe pairs
    are known for all of them; and two watchers whose lanes, evaluated over the catalog, starve
    a queue they share. */
module RealLanes {
  import opened Catalog
  import opened FakeBroker
  import opened PgBossBroker
  import opened SharedCursor

  const CROSSLINK := "crosslink_pull_requests"
  const COMMENT := "comment_pull_request"
  const REFRESH := "refresh_flow_snapshot"

  // ---- The lanes, evaluated ------------------------------------------------

  lemma {:induction false} WorkQueuesConcat(s: seq<string>, t: seq<string>)
    ensures WorkQueues(s + t) == WorkQueues(s) + WorkQueues(t)
  {
    hide Capabilities, QueuesOfType;
    if s == [] {
      assert s + t == t;
    } else {
      assert (s + t)[1..] == s[1..] + t;
      WorkQueuesConcat(s[1..], t);
    }
  }

  lemma {:induction false} AcceptingConcat(p: seq<Queue>, q: seq<Queue>, accepted: set<Capability>)
    ensures Accepting(p + q, accepted) == Accepting(p, accepted) + Accepting(q, accepted)
  {
    if p == [] {
      assert p + q == q;
    } else {
      assert (p + q)[1..] == p[1..] + q;
      AcceptingConcat(p[1..], q, accepted);
    }
  }

  /** The accepted queues of one list of types. */
  function Open(types: seq<string>, accepted: set<Capability>): seq<Queue> {
    Accepting(WorkQueues(types), accepted)
  }

  lemma OpenConcat(s: seq<string>, t: seq<string>, accepted: set<Capability>)
    ensures Open(s + t, accepted) == Open(s, accepted) + Open(t, accepted)
  {
    WorkQueuesConcat(s, t);
    AcceptingConcat(WorkQueues(s), WorkQueues(t), accepted);
  }

  lemma {:induction false} NoneAccepted(qs: seq<Queue>, accepted: set<Capability>)
    requires forall q :: q in qs ==> q.capability !in accepted
    ensures Accepting(qs, accepted) == []
  {
    if qs != [] {
      NoneAccepted(qs[1..], accepted);
    }
  }

  lemma NoneOpen(types: seq<string>, accepted: set<Capability>)
    requires forall t, c :: t in types && c in Capabilities(t) ==> c !in accepted
    ensures Open(types, accepted) == []
  {
    hide Capabilities, WorkQueues;
    NoneAccepted(WorkQueues(types), accepted);
  }

  lemma OneOpen(t: string, accepted: set<Capability>)
    ensures Open([t], accepted) == Accepting(QueuesOfType(t, Capabilities(t)), accepted)
  {
    hide QueuesOfType, Capabilities;
    assert [t][1..] == [] && WorkQueues([]) == [];
    var qs := QueuesOfType(t, Capabilities(t));
    assert qs + [] == qs;
  }

  lemma RefreshIsNotAi()
    ensures !IsAi(REFRESH) && REFRESH != PUBLISH
  {
  }

  lemma CrosslinkIsNotAi()
    ensures !IsAi(CROSSLINK) && CROSSLINK != PUBLISH
  {
  }

  lemma CommentIsNotAi()
    ensures !IsAi(COMMENT) && COMMENT != PUBLISH
  {
  }

  lemma NotAi()
    ensures !IsAi(REFRESH) && !IsAi(CROSSLINK) && !IsAi(COMMENT)
    ensures REFRESH != PUBLISH && CROSSLINK != PUBLISH && COMMENT != PUBLISH
  {
    hide *;
    RefreshIsNotAi();
    CrosslinkIsNotAi();
    CommentIsNotAi();
  }

  lemma NotMaintenance()
    ensures REFRESH !in MaintenanceJobTypes() && CROSSLINK !in MaintenanceJobTypes()
            && COMMENT !in MaintenanceJobTypes()
  {
  }

  lemma CapabilitiesAre()
    ensures Capabilities(REFRESH) == Capabilities(CROSSLINK) == Capabilities(COMMENT) == [GitHub]
    ensures Capabilities(PUBLISH) == [GitHub, LocalGit]
    ensures forall t :: t in AiJobTypes() ==> Capabilities(t) == Providers()
    ensures forall t :: t in MaintenanceJobTypes() ==> Capabilities(t) == [Maintenance]
  {
    hide AiJobTypes, MaintenanceJobTypes;
    NotAi();
    NotMaintenance();
    PublishIsNotAi();
    forall t | t in MaintenanceJobTypes()
      ensures !IsAi(t) && t != PUBLISH
    {
      MaintenanceNotAi(t);
    }
  }

  lemma MaintenanceNotAi(t: string)
    requires t in MaintenanceJobTypes()
    ensures !IsAi(t) && t != PUBLISH
  {
  }

  const ON_GITHUB := "publish_proposal__github"
  const ON_DISK := "publish_proposal__local_git"

  lemma QueueNamesAre()
    ensures QueueOf(REFRESH, GitHub) == REFRESH && QueueOf(CROSSLINK, GitHub) == CROSSLINK
    ensures QueueOf(COMMENT, GitHub) == COMMENT
    ensures QueueOf(PUBLISH, GitHub) == ON_GITHUB && QueueOf(PUBLISH, LocalGit) == ON_DISK
  {
    hide Capabilities;
    CapabilitiesAre();
    assert Underscored("github") == "github" && Underscored("local-git") == "local_git";
    assert PUBLISH + "__" + "github" == ON_GITHUB && PUBLISH + "__" + "local_git" == ON_DISK;
  }

  /** A type of one capability, which is accepted. */
  lemma OpenSingle(t: string, c: Capability, accepted: set<Capability>)
    requires Capabilities(t) == [c] && c in accepted
    ensures Names(Open([t], accepted)) == [QueueOf(t, c)]
  {
    hide Capabilities, QueueOf;
    OneOpen(t, accepted);
    assert [c][1..] == [];
    var q := Queue(QueueOf(t, c), t, c);
    assert QueuesOfType(t, []) == [] && QueuesOfType(t, [c]) == [q];
    assert [q][1..] == [] && Accepting([], accepted) == [];
    assert Accepting([q], accepted) == [q];
  }

  /** A type of two capabilities, the first of them accepted. */
  lemma OpenDouble(t: string, c: Capability, d: Capability, accepted: set<Capability>)
    requires Capabilities(t) == [c, d] && c in accepted
    ensures Names(Open([t], accepted)) == if d in accepted then [QueueOf(t, c), QueueOf(t, d)] else [QueueOf(t, c)]
  {
    hide Capabilities, QueueOf;
    OneOpen(t, accepted);
    var p, q := Queue(QueueOf(t, c), t, c), Queue(QueueOf(t, d), t, d);
    assert [c, d][1..] == [d] && [d][1..] == [];
    assert QueuesOfType(t, []) == [] && QueuesOfType(t, [d]) == [q];
    assert QueuesOfType(t, [c, d]) == [p, q];
    AcceptTwo(p, q, accepted);
  }

  lemma AcceptTwo(p: Queue, q: Queue, accepted: set<Capability>)
    requires p.capability in accepted
    ensures Accepting([p, q], accepted) == if q.capability in accepted then [p, q] else [p]
  {
    assert [p, q][1..] == [q] && [q][1..] == [] && Accepting([], accepted) == [];
    assert Accepting([q], accepted) == if q.capability in accepted then [q] else [];
  }

  lemma OpenPublish(accepted: set<Capability>)
    requires GitHub in accepted
    ensures Names(Open([PUBLISH], accepted)) == if LocalGit in accepted then [ON_GITHUB, ON_DISK] else [ON_GITHUB]
  {
    hide *;
    CapabilitiesAre();
    QueueNamesAre();
    OpenDouble(PUBLISH, GitHub, LocalGit, accepted);
  }

  lemma NamesConcat(p: seq<Queue>, q: seq<Queue>)
    ensures Names(p + q) == Names(p) + Names(q)
  {
  }

  /** The open queues of the catalog, stretch by stretch. */
  lemma OpenStretches(ai: seq<string>, r: string, m: seq<string>, p: string, c: string, k: string,
                      accepted: set<Capability>)
    requires Open(ai, accepted) == [] && Open(m, accepted) == []
    ensures Names(Open(ai + [r] + m + [p] + [c] + [k], accepted))
         == Names(Open([r], accepted)) + Names(Open([p], accepted)) + Names(Open([c], accepted))
            + Names(Open([k], accepted))
  {
    hide Open, Names;
    OpenConcat(ai + [r] + m + [p] + [c], [k], accepted);
    OpenConcat(ai + [r] + m + [p], [c], accepted);
    OpenConcat(ai + [r] + m, [p], accepted);
    OpenConcat(ai + [r], m, accepted);
    OpenConcat(ai, [r], accepted);
    var x, y, z := Open([r], accepted), Open([p], accepted), Open([c], accepted);
    NamesConcat(x + y + z, Open([k], accepted));
    NamesConcat(x + y, z);
    NamesConcat(x, y);
    assert [] + x + [] == x;
  }

  lemma JobTypesAre(ai: seq<string>, m: seq<string>)
    requires ai == AiJobTypes() && m == MaintenanceJobTypes()
    ensures JobTypes() == ai + [REFRESH] + m + [PUBLISH] + [CROSSLINK] + [COMMENT]
  {
    hide AiJobTypes, MaintenanceJobTypes;
  }

  /** The queues of a watcher that publishes, on GitHub and perhaps on disk too. */
  lemma PublisherQueues(accepted: set<Capability>)
    requires accepted == {GitHub} || accepted == {GitHub, LocalGit}
    ensures QueueNamesForCapabilities(accepted)
         == [REFRESH] + (if LocalGit in accepted then [ON_GITHUB, ON_DISK] else [ON_GITHUB]) + [CROSSLINK] + [COMMENT]
  {
    hide *;
    var ai, m := AiJobTypes(), MaintenanceJobTypes();
    CapabilitiesAre();
    QueueNamesAre();
    JobTypesAre(ai, m);
    NothingElseOpen(accepted);
    OpenSingle(REFRESH, GitHub, accepted);
    OpenSingle(CROSSLINK, GitHub, accepted);
    OpenSingle(COMMENT, GitHub, accepted);
    OpenPublish(accepted);
    OpenIs(accepted);
    OpenStretches(ai, REFRESH, m, PUBLISH, CROSSLINK, COMMENT, accepted);
  }

  lemma NothingElseOpen(accepted: set<Capability>)
    requires accepted == {GitHub} || accepted == {GitHub, LocalGit}
    ensures Open(AiJobTypes(), accepted) == [] && Open(MaintenanceJobTypes(), accepted) == []
  {
    hide Capabilities, Open, AiJobTypes, MaintenanceJobTypes;
    CapabilitiesAre();
    NoneOpen(AiJobTypes(), accepted);
    NoneOpen(MaintenanceJobTypes(), accepted);
  }

  lemma OpenIs(accepted: set<Capability>)
    ensures QueueNamesForCapabilities(accepted) == Names(Open(JobTypes(), accepted))
  {
  }

  lemma {:induction false} FilterAll(names: seq<string>, keep: string -> bool)
    requires forall name :: name in names ==> keep(name)
    ensures Filter(names, keep) == names
  {
    if names != [] {
      FilterAll(names[1..], keep);
    }
  }

  lemma {:induction false} FilterNone(names: seq<string>, keep: string -> bool)
    requires forall name :: name in names ==> !keep(name)
    ensures Filter(names, keep) == []
  {
    if names != [] {
      FilterNone(names[1..], keep);
    }
  }

  lemma PublisherIsBackground(name: string)
    requires name in [REFRESH, ON_GITHUB, ON_DISK, CROSSLINK, COMMENT]
    ensures !IsInteractiveQueue(name)
  {
    hide *;
    CapabilitiesAre();
    QueueNamesAre();
    NotInteractive();
    PublisherTypes();
    assert [GitHub, LocalGit][0] == GitHub && [GitHub, LocalGit][1] == LocalGit && [GitHub][0] == GitHub;
    LaneOfQueue(REFRESH, GitHub);
    LaneOfQueue(CROSSLINK, GitHub);
    LaneOfQueue(COMMENT, GitHub);
    LaneOfQueue(PUBLISH, GitHub);
    LaneOfQueue(PUBLISH, LocalGit);
  }

  lemma PublisherTypes()
    ensures IsJobType(REFRESH) && IsJobType(CROSSLINK) && IsJobType(COMMENT) && IsJobType(PUBLISH)
  {
    hide IsAi, MaintenanceJobTypes;
    assert REFRESH == GitHubJobTypes()[0] && CROSSLINK == GitHubJobTypes()[1] && COMMENT == GitHubJobTypes()[2];
  }

  lemma NotInteractive()
    ensures !IsInteractive(REFRESH) && !IsInteractive(CROSSLINK) && !IsInteractive(COMMENT) && !IsInteractive(PUBLISH)
  {
  }

  const GITHUB_ONLY := Lists([], [REFRESH, ON_GITHUB, CROSSLINK, COMMENT])
  const GITHUB_AND_DISK := Lists([], [REFRESH, ON_GITHUB, ON_DISK, CROSSLINK, COMMENT])

  /** Every queue of these watchers is a background queue. */
  lemma PublisherLanes()
    ensures ListsOf({GitHub}) == GITHUB_ONLY && ListsOf({GitHub, LocalGit}) == GITHUB_AND_DISK
  {
    hide ListsOf, QueueNamesForCapabilities;
    GitHubLanes();
    DiskLanes();
  }

  lemma GitHubLanes()
    ensures ListsOf({GitHub}) == GITHUB_ONLY
  {
    hide ListsOf, QueueNamesForCapabilities;
    PublisherQueues({GitHub});
    assert LocalGit !in {GitHub};
    assert [REFRESH] + [ON_GITHUB] + [CROSSLINK] + [COMMENT] == GITHUB_ONLY.background;
    LanesOf({GitHub}, GITHUB_ONLY.background);
  }

  lemma DiskLanes()
    ensures ListsOf({GitHub, LocalGit}) == GITHUB_AND_DISK
  {
    hide ListsOf, QueueNamesForCapabilities;
    PublisherQueues({GitHub, LocalGit});
    assert [REFRESH] + [ON_GITHUB, ON_DISK] + [CROSSLINK] + [COMMENT] == GITHUB_AND_DISK.background;
    LanesOf({GitHub, LocalGit}, GITHUB_AND_DISK.background);
  }

  lemma LanesOf(accepted: set<Capability>, names: seq<string>)
    requires QueueNamesForCapabilities(accepted) == names
    requires forall name :: name in names ==> name in [REFRESH, ON_GITHUB, ON_DISK, CROSSLINK, COMMENT]
    ensures ListsOf(accepted) == Lists([], names)
  {
    hide QueueNamesForCapabilities, IsInteractiveQueue;
    forall name | name in names
      ensures !IsInteractiveQueue(name)
    {
      PublisherIsBackground(name);
    }
    FilterAll(names, name => IsInteractiveQueue(name) == false);
    FilterNone(names, name => IsInteractiveQueue(name) == true);
  }

  // ---- Every lane lists a queue once ---------------------------------------

  lemma AiDistinct()
    ensures Distinct(AiJobTypes())
  {
  }

  lemma MaintenanceDistinct()
    ensures Distinct(MaintenanceJobTypes())
  {
  }

  lemma DistinctConcat(s: seq<string>, t: seq<string>)
    requires Distinct(s) && Distinct(t) && forall x :: x in s ==> x !in t
    ensures Distinct(s + t)
  {
    var all := s + t;
    forall i, j | 0 <= i < j < |all|
      ensures all[i] != all[j]
    {
      if i < |s| <= j {
        assert all[i] in s && all[j] in t;
      }
    }
  }

  lemma JobTypesDistinct()
    ensures Distinct(JobTypes())
  {
    hide AiJobTypes, MaintenanceJobTypes, Distinct;
    var ai, m, rest := AiJobTypes(), MaintenanceJobTypes(), [PUBLISH, CROSSLINK, COMMENT];
    AiDistinct();
    MaintenanceDistinct();
    NotAi();
    NotMaintenance();
    PublishIsNotAi();
    FewDistinct();
    forall t | t in m
      ensures !IsAi(t)
    {
      MaintenanceNotAi(t);
    }
    DistinctConcat(ai, [REFRESH]);
    DistinctConcat(ai + [REFRESH], m);
    DistinctConcat(ai + [REFRESH] + m, rest);
    assert JobTypes() == ai + [REFRESH] + m + rest;
  }

  lemma FewDistinct()
    ensures Distinct([REFRESH]) && Distinct([PUBLISH, CROSSLINK, COMMENT])
    ensures REFRESH != PUBLISH && REFRESH != CROSSLINK && REFRESH != COMMENT
  {
  }

  predicate DistinctQueues(qs: seq<Queue>) {
    forall i, j :: 0 <= i < j < |qs| ==> qs[i] != qs[j]
  }

  lemma DistinctQueuesConcat(p: seq<Queue>, q: seq<Queue>)
    requires DistinctQueues(p) && DistinctQueues(q) && forall x :: x in p ==> x !in q
    ensures DistinctQueues(p + q)
  {
    var all := p + q;
    forall i, j | 0 <= i < j < |all|
      ensures all[i] != all[j]
    {
      if i < |p| <= j {
        assert all[i] in p && all[j] in q;
      }
    }
  }

  predicate DistinctCapabilities(cs: seq<Capability>) {
    forall i, j :: 0 <= i < j < |cs| ==> cs[i] != cs[j]
  }

  lemma {:induction false} QueuesOfTypeDistinct(t: string, cs: seq<Capability>)
    requires DistinctCapabilities(cs)
    ensures DistinctQueues(QueuesOfType(t, cs))
  {
    hide QueueOf;
    if cs != [] {
      assert forall i :: 0 < i < |cs| ==> cs[i] == cs[1..][i - 1];
      QueuesOfTypeDistinct(t, cs[1..]);
      DistinctQueuesConcat([Queue(QueueOf(t, cs[0]), t, cs[0])], QueuesOfType(t, cs[1..]));
    }
  }

  lemma CapabilitiesDistinct(t: string)
    ensures DistinctCapabilities(Capabilities(t))
  {
    hide IsAi, MaintenanceJobTypes;
  }

  lemma {:induction false} WorkQueuesDistinct(types: seq<string>)
    requires Distinct(types)
    ensures DistinctQueues(WorkQueues(types))
  {
    hide QueueOf, Capabilities, QueuesOfType;
    if types != [] {
      assert forall i :: 0 < i < |types| ==> types[i] == types[1..][i - 1];
      CapabilitiesDistinct(types[0]);
      QueuesOfTypeDistinct(types[0], Capabilities(types[0]));
      WorkQueuesDistinct(types[1..]);
      DistinctQueuesConcat(QueuesOfType(types[0], Capabilities(types[0])), WorkQueues(types[1..]));
    }
  }

  lemma {:induction false} AcceptingDistinct(qs: seq<Queue>, accepted: set<Capability>)
    requires DistinctQueues(qs)
    ensures DistinctQueues(Accepting(qs, accepted))
  {
    if qs != [] {
      assert forall i :: 0 < i < |qs| ==> qs[i] == qs[1..][i - 1];
      AcceptingDistinct(qs[1..], accepted);
      DistinctQueuesConcat(if qs[0].capability in accepted then [qs[0]] else [], Accepting(qs[1..], accepted));
    }
  }

  lemma NamesDistinct(qs: seq<Queue>)
    requires DistinctQueues(qs) && forall q :: q in qs ==> q in WorkQueues(JobTypes())
    ensures Distinct(Names(qs))
  {
    hide WorkQueues, JobTypes, QueueOf, Capabilities, IsJobType;
    forall i, j | 0 <= i < j < |qs|
      ensures qs[i].name != qs[j].name
    {
      assert qs[i] in qs && qs[j] in qs;
      JobTypesExact(qs[i].jobType);
      JobTypesExact(qs[j].jobType);
      if qs[i].name == qs[j].name {
        QueueNamesInjective(qs[i].jobType, qs[i].capability, qs[j].jobType, qs[j].capability);
      }
    }
  }

  lemma {:induction false} FilterDistinct(names: seq<string>, keep: string -> bool)
    requires Distinct(names)
    ensures Distinct(Filter(names, keep))
  {
    if names != [] {
      assert forall i :: 0 < i < |names| ==> names[i] == names[1..][i - 1];
      FilterDistinct(names[1..], keep);
      DistinctConcat(if keep(names[0]) then [names[0]] else [], Filter(names[1..], keep));
    }
  }

  lemma LanesApart(accepted: set<Capability>)
    ensures Apart(ListsOf(accepted))
  {
    hide WorkQueues, JobTypes, Accepting, Names, Distinct, IsInteractiveQueue;
    var names := QueueNamesForCapabilities(accepted);
    JobTypesDistinct();
    WorkQueuesDistinct(JobTypes());
    AcceptingDistinct(WorkQueues(JobTypes()), accepted);
    NamesDistinct(Accepting(WorkQueues(JobTypes()), accepted));
    FilterDistinct(names, name => IsInteractiveQueue(name) == false);
    forall name
      ensures name in Lane(names, false) ==> name !in Lane(names, true)
    {
      LaneExact(names, false, name);
      LaneExact(names, true, name);
    }
  }

  lemma NamedQueues(qs: seq<Queue>, name: string)
    requires name in Names(qs)
    ensures exists q :: q in qs && q.name == name
  {
    var i :| 0 <= i < |qs| && Names(qs)[i] == name;
    assert qs[i] in qs;
  }

  /** Every queue of a lane is the catalog's. */
  lemma LanesOfCatalog(accepted: set<Capability>, name: string)
    requires name in ListsOf(accepted).background
    ensures IsWorkQueue(name) && !IsInteractiveQueue(name)
  {
    hide WorkQueues, JobTypes, Accepting, Names, IsInteractiveQueue;
    var names := QueueNamesForCapabilities(accepted);
    LaneExact(names, false, name);
    NamedQueues(Accepting(WorkQueues(JobTypes()), accepted), name);
  }

  lemma NotInteractiveLane(accepted: set<Capability>, name: string)
    requires !IsInteractiveQueue(name)
    ensures name !in ListsOf(accepted).interactive
  {
    hide QueueNamesForCapabilities, IsInteractiveQueue;
    LaneExact(QueueNamesForCapabilities(accepted), true, name);
  }

  function WatchersOf(sets: seq<set<Capability>>): (ws: seq<Lists>)
    ensures |ws| == |sets| && forall x :: 0 <= x < |sets| ==> ws[x] == ListsOf(sets[x])
  {
    seq(|sets|, x requires 0 <= x < |sets| => ListsOf(sets[x]))
  }

  lemma WatchersAreProper(sets: seq<set<Capability>>, name: string)
    requires !IsInteractiveQueue(name)
    ensures Proper(WatchersOf(sets), name) && AllWorkQueues(WatchersOf(sets))
  {
    hide ListsOf, Apart, IsInteractiveQueue, IsWorkQueue, WatchersOf;
    var ws := WatchersOf(sets);
    forall x | 0 <= x < |ws|
      ensures Apart(ws[x]) && name !in ws[x].interactive
    {
      LanesApart(sets[x]);
      NotInteractiveLane(sets[x], name);
    }
    forall x, other | 0 <= x < |ws| && other in ws[x].background
      ensures IsWorkQueue(other)
    {
      LanesOfCatalog(sets[x], other);
    }
  }

  /** Of any number of capability sets exactly the safe families cannot starve a
      background queue, in all runs and in those of routed jobs alike. */
  lemma SafeWatchersExactly(sets: seq<set<Capability>>, name: string, routed: bool)
    requires !IsInteractiveQueue(name)
    ensures (exists bound: nat :: ServedAfter(WatchersOf(sets), name, bound, routed))
       <==> SafeFamily(WatchersOf(sets), name)
  {
    hide ServedAfter, SafeFamily, Proper, AllWorkQueues, WatchersOf, IsInteractiveQueue;
    WatchersAreProper(sets, name);
    SafeFamiliesExactly(WatchersOf(sets), name, routed);
  }

  lemma TwoWatchers(one: set<Capability>, other: set<Capability>)
    ensures WatchersOf([one, other]) == [ListsOf(one), ListsOf(other)]
  {
    hide ListsOf;
    var ws := WatchersOf([one, other]);
    assert ws[0] == ListsOf([one, other][0]) && ws[1] == ListsOf([one, other][1]);
  }

  /** Of two that both accept the queue, at these places in their lanes. */
  lemma SafePairsOfWatchers(one: set<Capability>, other: set<Capability>, i: nat, j: nat, name: string, routed: bool)
    requires i < |ListsOf(one).background| && ListsOf(one).background[i] == name
    requires j < |ListsOf(other).background| && ListsOf(other).background[j] == name
    ensures (exists bound: nat :: ServedAfter([ListsOf(one), ListsOf(other)], name, bound, routed))
       <==> SafePlaces(|ListsOf(one).background|, i, |ListsOf(other).background|, j)
  {
    hide ListsOf, ServedAfter, SafeFamily, WatchersOf, IsInteractiveQueue, Distinct, SafePlaces;
    TwoWatchers(one, other);
    LanesOfCatalog(one, name);
    SafeWatchersExactly([one, other], name, routed);
    TwoAreSafe(ListsOf(one), ListsOf(other), name);
    LanesApart(one);
    LanesApart(other);
    PlaceIs(ListsOf(one).background, name, i);
    PlaceIs(ListsOf(other).background, name, j);
  }

  /** Of two of which only the first accepts it. */
  lemma OwnQueueOfWatchers(one: set<Capability>, other: set<Capability>, i: nat, name: string, routed: bool)
    requires i < |ListsOf(one).background| && ListsOf(one).background[i] == name
    requires name !in ListsOf(other).background
    ensures (exists bound: nat :: ServedAfter([ListsOf(one), ListsOf(other)], name, bound, routed))
       <==> SafeAlone(|ListsOf(one).background|, i, |ListsOf(other).background|)
  {
    hide ListsOf, ServedAfter, SafeFamily, WatchersOf, IsInteractiveQueue, Distinct;
    TwoWatchers(one, other);
    LanesOfCatalog(one, name);
    SafeWatchersExactly([one, other], name, routed);
    TwoAreSafe(ListsOf(one), ListsOf(other), name);
    LanesApart(one);
    PlaceIs(ListsOf(one).background, name, i);
  }

  // ---- Which of their queues can wait for ever -----------------------------

  lemma FiveNames()
    ensures REFRESH != ON_GITHUB && REFRESH != ON_DISK && REFRESH != CROSSLINK && REFRESH != COMMENT
    ensures ON_GITHUB != ON_DISK && ON_GITHUB != CROSSLINK && ON_GITHUB != COMMENT
    ensures ON_DISK != CROSSLINK && ON_DISK != COMMENT && CROSSLINK != COMMENT
  {
  }

  /** Two publishers, one of them without a local checkout, keep two of the queues
      they share served and can starve the other two. */
  lemma PublishersStarve(name: string, routed: bool)
    requires name in [REFRESH, ON_GITHUB, CROSSLINK, COMMENT]
    ensures (exists bound: nat :: ServedAfter([ListsOf({GitHub}), ListsOf({GitHub, LocalGit})], name, bound, routed))
       <==> name in [REFRESH, ON_GITHUB]
  {
    hide ListsOf, ServedAfter;
    PublisherLanes();
    FiveNames();
    var i: nat := if name == REFRESH then 0 else if name == ON_GITHUB then 1 else if name == CROSSLINK then 2 else 3;
    SafePairsOfWatchers({GitHub}, {GitHub, LocalGit}, i, if i <= 1 then i else i + 1, name, routed);
  }

  function Comments(second: bool): Go {
    Go(if second then 1 else 0,
       Look([JobIn(COMMENT), JobIn(CROSSLINK)], FromBackground(if second then 3 else 2, 1)))
  }

  lemma CommentMissed(second: bool, c: nat)
    requires c == if second then 3 else 0
    ensures var l, d := if second then GITHUB_AND_DISK else GITHUB_ONLY, if second then 4 else 3;
            && Comments(second).look == MissingLook(l, COMMENT, d)
            && Misses(|l.background|, if second then 4 else 3, c, d)
  {
    hide JobIn;
  }

  lemma CommentMissedAgain()
    ensures Misses(4, 3, 4, 3)
  {
  }

  lemma {:induction false} CommentsRun(n: nat)
    ensures var run := Swings(Comments(true), Comments(false), n);
            && |run| == 2 * n
            && forall k :: 0 <= k < |run| ==> run[k] == Comments(k % 2 == 0)
  {
    hide Comments;
    if n > 0 {
      CommentsRun(n - 1);
    }
  }

  lemma GitHubQueueRouted(name: string, i: nat)
    requires i < 4 && GITHUB_ONLY.background[i] == name
    ensures Routed(JobIn(name))
  {
    hide JobIn, ListsOf, Routed, IsWorkQueue, IsInteractiveQueue;
    PublisherLanes();
    assert ListsOf({GitHub}).background[i] == name;
    LanesOfCatalog({GitHub}, name);
    JobInIsRouted(name);
  }

  lemma CommentsRouted(second: bool)
    ensures AllRouted(Comments(second).look.jobs)
  {
    hide JobIn, Routed;
    GitHubQueueRouted(COMMENT, 3);
    GitHubQueueRouted(CROSSLINK, 2);
  }

  /** The comment queue misses out in a run of these claims. */
  ghost predicate CommentStarves(ws: seq<Lists>, run: seq<Go>, n: nat) {
    && Shared(ws, 0, run) && RoutedRun(run)
    && |run| == Servings(ws, run, COMMENT) == 2 * n + 1
    && Waits(run, COMMENT) && !GetsServed(ws, run, COMMENT)
    && forall k :: 0 <= k < |run| ==> run[k] == Comments(k % 2 == 1)
  }

  lemma CommentsStarve(ws: seq<Lists>, n: nat)
    requires Passes(ws, Comments(true), COMMENT, 3, 4) && Counts(ws, Comments(true), COMMENT)
    requires Passes(ws, Comments(false), COMMENT, 4, 3) && Passes(ws, Comments(false), COMMENT, 0, 3)
    requires Counts(ws, Comments(false), COMMENT)
    ensures CommentStarves(ws, [Comments(false)] + Swings(Comments(true), Comments(false), n), n)
  {
    hide Passes, Counts, Comments, AllRouted, ServesFrom, Shared, Waits, GetsServed, Servings, Swings;
    var up, down := Comments(true), Comments(false);
    SwingsStarve(ws, COMMENT, 3, up, 4, down, n);
    CommentsRun(n);
    CommentsRouted(true);
    CommentsRouted(false);
    var rest := Swings(up, down, n);
    var run := [down] + rest;
    assert forall k :: 0 < k < |run| ==> run[k] == rest[k - 1];
    PassStarts(ws, COMMENT, 0, down, 3, rest);
  }

  /** With the same two jobs waiting all along and the cursor at 0, the two publishers
      claiming in turn serve `crosslink_pull_requests` every time, and never
      `comment_pull_request`. */
  lemma DifferentListsCanStarve(n: nat)
    ensures var ws := [ListsOf({GitHub}), ListsOf({GitHub, LocalGit})];
            CommentStarves(ws, [Comments(false)] + Swings(Comments(true), Comments(false), n), n)
  {
    hide *;
    PublisherLanes();
    LanesApart({GitHub});
    LanesApart({GitHub, LocalGit});
    CommentsPass([GITHUB_ONLY, GITHUB_AND_DISK]);
    CommentsStarve([GITHUB_ONLY, GITHUB_AND_DISK], n);
  }

  lemma CommentsPass(ws: seq<Lists>)
    requires ws == [GITHUB_ONLY, GITHUB_AND_DISK] && Apart(GITHUB_ONLY) && Apart(GITHUB_AND_DISK)
    ensures Passes(ws, Comments(true), COMMENT, 3, 4) && Counts(ws, Comments(true), COMMENT)
    ensures Passes(ws, Comments(false), COMMENT, 4, 3) && Passes(ws, Comments(false), COMMENT, 0, 3)
    ensures Counts(ws, Comments(false), COMMENT)
  {
    hide MissingLook, Misses, Apart, Passes, Counts, JobIn;
    CommentMissed(true, 3);
    CommentMissed(false, 0);
    CommentMissedAgain();
    MissingPasses(ws, 1, 4, COMMENT, 3, 4);
    MissingPasses(ws, 0, 3, COMMENT, 4, 3);
    MissingPasses(ws, 0, 3, COMMENT, 0, 3);
  }

  /** A passing claim in front of a starving run. */
  lemma PassStarts(ws: seq<Lists>, name: string, c: nat, go: Go, d: nat, rest: seq<Go>)
    requires Passes(ws, go, name, c, d) && Counts(ws, go, name)
    requires Shared(ws, d, rest) && Waits(rest, name) && !GetsServed(ws, rest, name)
    ensures var run := [go] + rest;
            && Shared(ws, c, run) && Waits(run, name) && !GetsServed(ws, run, name)
            && Servings(ws, run, name) == 1 + Servings(ws, rest, name)
  {
    hide Serves, Fetch, CursorAfter, ServesFrom;
    var run := [go] + rest;
    assert run[1..] == rest;
  }
}
