/** Routing a question to the flow whose embedding is most similar, or abstaining. */
module FlowRouter {
  import opened TextLines
  import opened Geometry

  datatype EmbeddedFlow = EmbeddedFlow(id: string, vector: seq<real>)

  datatype Scored = Scored(id: string, score: real)

  datatype Options = Options(minTopScore: real, minMargin: real)

  /** A lone flow wins by an infinite margin, written None. */
  datatype Route = Abstain | Routed(flowId: string, high: bool, margin: Option<real>)

  function Scores(question: seq<real>, flows: seq<EmbeddedFlow>, sqrt: real -> real): (r: seq<Scored>)
    ensures |r| == |flows|
    ensures forall i :: 0 <= i < |flows| ==> r[i] == Scored(flows[i].id, Cosine(question, flows[i].vector, sqrt))
  {
    seq(|flows|, i requires 0 <= i < |flows| => Scored(flows[i].id, Cosine(question, flows[i].vector, sqrt)))
  }

  // ---- The stable descending sort ------------------------------------------

  predicate Descending(s: seq<Scored>) {
    forall i, j :: 0 <= i < j < |s| ==> s[i].score >= s[j].score
  }

  /** After every element that scores at least as much. */
  function Insert(s: seq<Scored>, x: Scored): (r: seq<Scored>)
    ensures multiset(r) == multiset(s) + multiset{x}
  {
    if s == [] then [x]
    else if s[|s| - 1].score >= x.score then s + [x]
    else
      assert s == s[..|s| - 1] + [s[|s| - 1]];
      Insert(s[..|s| - 1], x) + [s[|s| - 1]]
  }

  lemma {:induction false} InsertDescends(s: seq<Scored>, x: Scored)
    requires Descending(s)
    ensures Descending(Insert(s, x))
  {
    if s != [] && s[|s| - 1].score < x.score {
      var front, last := s[..|s| - 1], s[|s| - 1];
      InsertDescends(front, x);
      var r := Insert(front, x);
      forall i | 0 <= i < |r|
        ensures r[i].score >= last.score
      {
        assert r[i] in multiset(r);
        assert r[i] == x || r[i] in multiset(front);
      }
    }
  }

  function SortDescending(s: seq<Scored>): (r: seq<Scored>)
    ensures multiset(r) == multiset(s)
  {
    if s == [] then []
    else
      assert s == s[..|s| - 1] + [s[|s| - 1]];
      Insert(SortDescending(s[..|s| - 1]), s[|s| - 1])
  }

  lemma {:induction false} SortDescends(s: seq<Scored>)
    ensures Descending(SortDescending(s))
  {
    if s != [] {
      SortDescends(s[..|s| - 1]);
      InsertDescends(SortDescending(s[..|s| - 1]), s[|s| - 1]);
    }
  }

  // ---- The decision --------------------------------------------------------

  /** What the top two of a sorted list decide. */
  function Decide(sorted: seq<Scored>, options: Options): Route {
    if sorted == [] then Abstain
    else if sorted[0].score < options.minTopScore then Abstain
    else if |sorted| == 1 then Routed(sorted[0].id, true, None)
    else
      var margin := sorted[0].score - sorted[1].score;
      if margin < options.minMargin then Abstain
      else Routed(sorted[0].id, margin >= options.minMargin * 2.0, Some(margin))
  }

  function RouteScored(scored: seq<Scored>, options: Options): Route {
    Decide(SortDescending(scored), options)
  }

  method RouteByEmbeddingSimilarity(question: seq<real>, flows: seq<EmbeddedFlow>, options: Options, sqrt: real -> real)
    returns (route: Route)
    requires IsSqrt(sqrt)
    ensures route == RouteScored(Scores(question, flows, sqrt), options)
  {
    hide Cosine, Insert, Dot;
    if |flows| == 0 {
      assert Scores(question, flows, sqrt) == [];
      return Abstain;
    }
    var scored: seq<Scored> := [];
    for i := 0 to |flows|
      invariant scored == Scores(question, flows, sqrt)[..i]
    {
      var score := CosineSimilarity(question, flows[i].vector, sqrt);
      scored := scored + [Scored(flows[i].id, score)];
    }
    assert scored == Scores(question, flows, sqrt);
    scored := SortDescending(scored);
    var top := scored[0];
    if top.score < options.minTopScore {
      return Abstain;
    }
    if |scored| == 1 {
      return Routed(top.id, true, None);
    }
    var margin := top.score - scored[1].score;
    if margin < options.minMargin {
      return Abstain;
    }
    return Routed(top.id, margin >= options.minMargin * 2.0, Some(margin));
  }

  // ---- The routed flow is the clear winner ---------------------------------

  /** Flow i clears the floor and beats every other flow by the margin. */
  predicate Wins(scored: seq<Scored>, options: Options, i: nat) {
    && i < |scored|
    && scored[i].score >= options.minTopScore
    && forall j :: 0 <= j < |scored| && j != i ==> scored[i].score - scored[j].score >= options.minMargin
  }

  /** The margin is exactly the distance to the best other flow. */
  predicate IsMargin(scored: seq<Scored>, i: nat, margin: Option<real>)
    requires i < |scored|
  {
    match margin
    case None => |scored| == 1
    case Some(m) =>
      && (exists j :: 0 <= j < |scored| && j != i && scored[i].score - scored[j].score == m)
      && (forall j :: 0 <= j < |scored| && j != i ==> scored[i].score - scored[j].score >= m)
  }

  /** Taking one occurrence out of a sequence takes it out of the multiset. */
  lemma WithoutOne(s: seq<Scored>, i: nat)
    requires i < |s|
    ensures multiset(s[..i] + s[i + 1..]) == multiset(s) - multiset{s[i]}
  {
    var rest := s[..i] + s[i + 1..];
    assert s == s[..i] + ([s[i]] + s[i + 1..]);
    assert multiset(s) == multiset(rest) + multiset{s[i]};
  }

  lemma SameRest(s: seq<Scored>, i: nat, t: seq<Scored>, k: nat)
    requires i < |s| && k < |t| && multiset(s) == multiset(t) && s[i] == t[k]
    ensures multiset(s[..i] + s[i + 1..]) == multiset(t[..k] + t[k + 1..])
  {
    WithoutOne(s, i);
    WithoutOne(t, k);
  }

  lemma SameTail(s: seq<Scored>, i: nat, sorted: seq<Scored>)
    requires i < |s| && sorted != [] && multiset(s) == multiset(sorted) && s[i] == sorted[0]
    ensures multiset(sorted[1..]) == multiset(s[..i] + s[i + 1..])
  {
    SameRest(s, i, sorted, 0);
    assert sorted[..0] + sorted[0 + 1..] == sorted[1..];
  }

  lemma InRest(s: seq<Scored>, i: nat, j: nat)
    requires i < |s| && j < |s| && i != j
    ensures s[j] in multiset(s[..i] + s[i + 1..])
  {
    var rest := s[..i] + s[i + 1..];
    assert rest[if j < i then j else j - 1] == s[j];
  }

  /** Two lists with the same elements have the same top two scores once sorted, and
      the same top when it is alone there. */
  lemma SameTop(s: seq<Scored>, t: seq<Scored>)
    requires multiset(s) == multiset(t) && Descending(s) && Descending(t) && s != []
    ensures t != [] && s[0].score == t[0].score
  {
    assert s[0] in multiset(s) && t != [];
    assert t[0] in multiset(t);
    var i :| 0 <= i < |t| && t[i] == s[0];
    var j :| 0 <= j < |s| && s[j] == t[0];
  }

  lemma SameLength(s: seq<Scored>, t: seq<Scored>)
    requires multiset(s) == multiset(t)
    ensures |s| == |t|
  {
    assert |multiset(s)| == |s| && |multiset(t)| == |t|;
  }

  lemma TailDescends(s: seq<Scored>)
    requires s != [] && Descending(s)
    ensures Descending(s[1..])
  {
  }

  lemma ClearTopIsTop(s: seq<Scored>, t: seq<Scored>)
    requires multiset(s) == multiset(t) && Descending(s) && Descending(t)
    requires |s| > 1 && s[0].score > s[1].score
    ensures t != [] && t[0] == s[0]
  {
    SameTop(s, t);
    assert t[0] in multiset(t);
    var k :| 0 <= k < |s| && s[k] == t[0];
  }

  lemma SameTails(s: seq<Scored>, t: seq<Scored>)
    requires multiset(s) == multiset(t) && s != [] && t != [] && s[0] == t[0]
    ensures multiset(s[1..]) == multiset(t[1..])
  {
    SameTail(s, 0, t);
    assert s[..0] + s[0 + 1..] == s[1..];
  }

  lemma ClearTopAgrees(s: seq<Scored>, t: seq<Scored>)
    requires multiset(s) == multiset(t) && Descending(s) && Descending(t)
    requires |s| > 1 && s[0].score > s[1].score
    ensures |t| == |s| && t[0] == s[0] && t[1].score == s[1].score
  {
    hide Descending;
    SameLength(s, t);
    ClearTopIsTop(s, t);
    SameTails(s, t);
    TailDescends(s);
    TailDescends(t);
    SameTop(s[1..], t[1..]);
    assert s[1] == s[1..][0] && t[1] == t[1..][0];
  }

  lemma DecideAgrees(s: seq<Scored>, t: seq<Scored>, options: Options)
    requires multiset(s) == multiset(t) && Descending(s) && Descending(t) && options.minMargin > 0.0
    ensures Decide(s, options) == Decide(t, options)
  {
    SameLength(s, t);
    if s != [] {
      SameTop(s, t);
      if |s| == 1 {
        assert s == [s[0]] && t == [t[0]];
        assert t[0] in multiset(s);
      } else if s[0].score > s[1].score {
        ClearTopAgrees(s, t);
      } else if t[0].score > t[1].score {
        ClearTopAgrees(t, s);
      }
    }
  }

  /** With a positive margin the order in which the flows are configured does not
      matter: neither to the flow, nor to the confidence, nor to the margin. */
  lemma RouteIsOrderIndependent(a: seq<Scored>, b: seq<Scored>, options: Options)
    requires multiset(a) == multiset(b) && options.minMargin > 0.0
    ensures RouteScored(a, options) == RouteScored(b, options)
  {
    hide SortDescending, Decide;
    SortDescends(a);
    SortDescends(b);
    DecideAgrees(SortDescending(a), SortDescending(b), options);
  }

  /** The sorted list starts with the flow that beats all others. */
  lemma WinnerIsTop(s: seq<Scored>, options: Options, i: nat)
    requires options.minMargin > 0.0 && Wins(s, options, i)
    ensures var sorted := SortDescending(s);
            && |sorted| == |s| && sorted[0] == s[i]
            && multiset(sorted[1..]) == multiset(s[..i] + s[i + 1..])
  {
    hide SortDescending;
    var sorted := SortDescending(s);
    SameLength(sorted, s);
    SortDescends(s);
    assert sorted[0] in multiset(sorted) && s[i] in multiset(s);
    var k :| 0 <= k < |s| && s[k] == sorted[0];
    var j :| 0 <= j < |sorted| && sorted[j] == s[i];
    SameTail(s, i, sorted);
  }

  /** With a positive margin a flow is routed exactly when it clears the floor and
      beats every other one by the margin, and the router abstains exactly when no
      flow does. */
  lemma RoutedIffWins(scored: seq<Scored>, options: Options)
    requires options.minMargin > 0.0
    ensures RouteScored(scored, options).Routed? <==> exists i :: 0 <= i < |scored| && Wins(scored, options, i)
    ensures forall i :: 0 <= i < |scored| && Wins(scored, options, i) ==>
              var route := RouteScored(scored, options);
              && route.Routed? && route.flowId == scored[i].id && IsMargin(scored, i, route.margin)
              && (route.high <==> route.margin.None? || route.margin.value >= options.minMargin * 2.0)
  {
    hide SortDescending;
    forall i | 0 <= i < |scored| && Wins(scored, options, i)
      ensures var route := RouteScored(scored, options);
              && route.Routed? && route.flowId == scored[i].id && IsMargin(scored, i, route.margin)
              && (route.high <==> route.margin.None? || route.margin.value >= options.minMargin * 2.0)
    {
      WinnerIsRouted(scored, options, i);
    }
    if RouteScored(scored, options).Routed? {
      var i := RoutedWins(scored, options);
    }
  }

  lemma WinnerIsRouted(s: seq<Scored>, options: Options, i: nat)
    requires options.minMargin > 0.0 && Wins(s, options, i)
    ensures var route := RouteScored(s, options);
            && route.Routed? && route.flowId == s[i].id && IsMargin(s, i, route.margin)
            && (route.high <==> route.margin.None? || route.margin.value >= options.minMargin * 2.0)
  {
    hide SortDescending;
    WinnerIsTop(s, options, i);
    SortDescends(s);
    var sorted, rest := SortDescending(s), s[..i] + s[i + 1..];
    if |s| > 1 {
      assert sorted[1] == sorted[1..][0];
      assert sorted[1] in multiset(sorted[1..]);
      var k :| 0 <= k < |rest| && rest[k] == sorted[1];
      var j := if k < i then k else k + 1;
      assert s[j] == sorted[1] && j != i;
      forall m | 0 <= m < |s| && m != i
        ensures s[m].score <= sorted[1].score
      {
        InRest(s, i, m);
        assert s[m] in multiset(sorted[1..]);
        var n :| 0 <= n < |sorted[1..]| && sorted[1..][n] == s[m];
        assert sorted[n + 1] == s[m];
      }
    }
  }

  lemma RoutedWins(s: seq<Scored>, options: Options) returns (i: nat)
    requires options.minMargin > 0.0 && RouteScored(s, options).Routed?
    ensures Wins(s, options, i)
  {
    hide SortDescending;
    SortDescends(s);
    var sorted := SortDescending(s);
    SameLength(sorted, s);
    assert sorted[0] in multiset(sorted);
    i :| 0 <= i < |s| && s[i] == sorted[0];
    if |s| > 1 {
      SameTail(s, i, sorted);
      forall m | 0 <= m < |s| && m != i
        ensures s[i].score - s[m].score >= options.minMargin
      {
        InRest(s, i, m);
        assert s[m] in multiset(sorted[1..]);
        var n :| 0 <= n < |sorted[1..]| && sorted[1..][n] == s[m];
        assert sorted[n + 1] == s[m];
      }
    }
  }

  // ---- Whatever the margin -------------------------------------------------

  /** The first of the highest scores. */
  predicate IsTop(s: seq<Scored>, i: nat) {
    && i < |s|
    && (forall j :: 0 <= j < i ==> s[j].score < s[i].score)
    && (forall j :: i < j < |s| ==> s[j].score <= s[i].score)
  }

  lemma InsertedTop(s: seq<Scored>, x: Scored)
    requires Descending(s)
    ensures Insert(s, x)[0] == if s == [] || s[0].score < x.score then x else s[0]
    decreases |s|
  {
    if s != [] && s[|s| - 1].score < x.score {
      InsertedTop(s[..|s| - 1], x);
    }
  }

  lemma TopSnoc(front: seq<Scored>, k: nat, x: Scored)
    requires IsTop(front, k)
    ensures IsTop(front + [x], if front[k].score < x.score then |front| else k)
  {
  }

  lemma SortLast(s: seq<Scored>)
    requires s != []
    ensures SortDescending(s) == Insert(SortDescending(s[..|s| - 1]), s[|s| - 1])
  {
  }

  lemma {:induction false} SortedTop(s: seq<Scored>) returns (i: nat)
    requires s != []
    ensures IsTop(s, i) && SortDescending(s)[0] == s[i]
  {
    hide Insert, IsTop, SortDescending, Descending;
    var n := |s| - 1;
    if n == 0 {
      i := 0;
      OneTop(s);
    } else {
      var front := s[..n];
      var k := SortedTop(front);
      InTop(front, k);
      SortDescends(front);
      InsertedTop(SortDescending(front), s[n]);
      SameLength(SortDescending(front), front);
      SortLast(s);
      i := if front[k].score < s[n].score then n else k;
      TopSnoc(front, k, s[n]);
      assert s == front + [s[n]];
    }
  }

  lemma InTop(s: seq<Scored>, k: nat)
    requires IsTop(s, k)
    ensures k < |s|
  {
  }

  lemma OneTop(s: seq<Scored>)
    requires |s| == 1
    ensures IsTop(s, 0) && SortDescending(s)[0] == s[0]
  {
    assert s[..0] == [] && SortDescending([]) == [];
  }

  /** Whatever the margin: only the first of the highest scores is ever routed to; it is
      exactly if it clears the floor and the margin to every other one, and the reported
      margin is the one to the best of these. */
  lemma RouteExact(scored: seq<Scored>, options: Options) returns (top: nat)
    ensures scored == [] ==> RouteScored(scored, options) == Abstain
    ensures scored != [] ==>
              var route := RouteScored(scored, options);
              && IsTop(scored, top)
              && (route.Routed? <==> Wins(scored, options, top))
              && (route.Routed? ==>
                    && route.flowId == scored[top].id && IsMargin(scored, top, route.margin)
                    && (route.high <==> route.margin.None? || route.margin.value >= options.minMargin * 2.0))
  {
    hide SortDescending, IsTop;
    var sorted := SortDescending(scored);
    SameLength(sorted, scored);
    if scored == [] {
      top := 0;
    } else {
      top := SortedTop(scored);
      InTop(scored, top);
      SortDescends(scored);
      SameTail(scored, top, sorted);
      if |scored| > 1 {
        SecondIsBestOther(scored, top, sorted);
      }
    }
  }

  lemma SecondIsBestOther(s: seq<Scored>, i: nat, sorted: seq<Scored>)
    requires i < |s| == |sorted| && |s| > 1 && Descending(sorted)
    requires multiset(sorted[1..]) == multiset(s[..i] + s[i + 1..])
    ensures exists j :: 0 <= j < |s| && j != i && s[j] == sorted[1]
    ensures forall j :: 0 <= j < |s| && j != i ==> s[j].score <= sorted[1].score
  {
    var rest := s[..i] + s[i + 1..];
    assert sorted[1] == sorted[1..][0];
    assert sorted[1] in multiset(sorted[1..]);
    var k :| 0 <= k < |rest| && rest[k] == sorted[1];
    assert s[if k < i then k else k + 1] == sorted[1];
    forall m | 0 <= m < |s| && m != i
      ensures s[m].score <= sorted[1].score
    {
      InRest(s, i, m);
      assert s[m] in multiset(sorted[1..]);
      var n :| 0 <= n < |sorted[1..]| && sorted[1..][n] == s[m];
      assert sorted[n + 1] == s[m];
    }
  }

  /** A flow whose vector is a positive multiple of the question's scores 1, and no flow
      scores more; with the floor and every other score low enough it is routed to. */
  lemma MultipleScoresHighest(question: seq<real>, flows: seq<EmbeddedFlow>, options: Options, sqrt: real -> real,
                              i: nat, k: real)
    requires IsSqrt(sqrt) && i < |flows| && Multiple(question, k, flows[i].vector) && k > 0.0
    requires Dot(question, question) != 0.0
    ensures var scored := Scores(question, flows, sqrt);
            && scored[i].score == 1.0 && (forall j :: 0 <= j < |flows| ==> scored[j].score <= 1.0)
            && (options.minMargin > 0.0 && options.minTopScore <= 1.0
                && (forall j :: 0 <= j < |flows| && j != i ==> scored[j].score <= 1.0 - options.minMargin) ==>
                  RouteScored(scored, options).Routed? && RouteScored(scored, options).flowId == flows[i].id)
  {
    hide Cosine, Dot, RouteScored;
    var scored := Scores(question, flows, sqrt);
    CosineOfMultiple(question, k, flows[i].vector, sqrt);
    forall j | 0 <= j < |flows|
      ensures scored[j].score <= 1.0
    {
      CosineInRange(question, flows[j].vector, sqrt);
    }
    if options.minMargin > 0.0 {
      RoutedIffWins(scored, options);
    }
  }

  /** A zero margin is different: a tie then goes to the flow configured first. */
  lemma ZeroMarginDependsOnOrder(a: Scored, b: Scored, options: Options)
    requires a.score == b.score >= options.minTopScore && options.minMargin == 0.0
    ensures RouteScored([a, b], options) == Routed(a.id, true, Some(0.0))
    ensures RouteScored([b, a], options) == Routed(b.id, true, Some(0.0))
  {
    assert [a, b][..1] == [a] && [b, a][..1] == [b] && [a][..0] == [] && [b][..0] == [];
    assert SortDescending([a]) == [a] && SortDescending([b]) == [b];
  }

  // ---- Padding -------------------------------------------------------------

  /** The flows as the store keeps them. */
  function PaddedFlows(flows: seq<EmbeddedFlow>): (r: seq<EmbeddedFlow>)
    requires forall i :: 0 <= i < |flows| ==> PadToStoredDimensions(flows[i].vector).Ok?
    ensures |r| == |flows|
    ensures forall i :: 0 <= i < |flows| ==>
              r[i] == EmbeddedFlow(flows[i].id, PadToStoredDimensions(flows[i].vector).value)
  {
    seq(|flows|, i requires 0 <= i < |flows| => EmbeddedFlow(flows[i].id, PadToStoredDimensions(flows[i].vector).value))
  }

  /** Storing one model's vectors at the fixed width changes no routing decision. */
  lemma PaddingKeepsRoutes(question: seq<real>, flows: seq<EmbeddedFlow>, options: Options, sqrt: real -> real)
    requires PadToStoredDimensions(question).Ok?
    requires forall i :: 0 <= i < |flows| ==>
               PadToStoredDimensions(flows[i].vector).Ok? && |flows[i].vector| == |question|
    ensures RouteScored(Scores(PadToStoredDimensions(question).value, PaddedFlows(flows), sqrt), options)
         == RouteScored(Scores(question, flows, sqrt), options)
  {
    hide Cosine, RouteScored, PadToStoredDimensions;
    var padded := Scores(PadToStoredDimensions(question).value, PaddedFlows(flows), sqrt);
    forall i | 0 <= i < |flows|
      ensures padded[i] == Scores(question, flows, sqrt)[i]
    {
      PaddingIsExact(question, flows[i].vector, sqrt);
    }
    assert padded == Scores(question, flows, sqrt);
  }
}
