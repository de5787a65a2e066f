/** The heading stack of the section splitter, and what a heading path means. */
module HeadingPaths {
  import opened TextLines

  datatype Heading = Heading(level: nat, text: string)

  type Stack = seq<Option<string>>

  function Holes(n: nat): (r: Stack)
    ensures |r| == n
    ensures forall i :: 0 <= i < n ==> r[i] == None
  {
    if n == 0 then [] else Holes(n - 1) + [None]
  }

  /** A stack cut or extended with holes to exactly `n` slots. */
  function Fit(stack: Stack, n: nat): (r: Stack)
    ensures |r| == n
  {
    if |stack| >= n then stack[..n] else stack + Holes(n - |stack|)
  }

  /** `splice(level - 1)` followed by the assignment to slot `level - 1`. */
  function Put(stack: Stack, h: Heading): Stack
    requires h.level >= 1
  {
    Fit(stack, h.level - 1) + [Some(h.text)]
  }

  /** The filled slots, in order. */
  function Compact(stack: Stack): seq<string> {
    if stack == [] then []
    else
      var front := Compact(stack[..|stack| - 1]);
      if stack[|stack| - 1].Some? then front + [stack[|stack| - 1].value] else front
  }

  predicate Levelled(hs: seq<Heading>) {
    forall i :: 0 <= i < |hs| ==> hs[i].level >= 1
  }

  function StackOf(hs: seq<Heading>): Stack
    requires Levelled(hs)
  {
    if hs == [] then [] else Put(StackOf(hs[..|hs| - 1]), hs[|hs| - 1])
  }

  // ---- The declarative reading --------------------------------------------

  /** Heading `j` is an ancestor of heading `i`, or `i` itself: every heading
      after `j` up to and including `i` is deeper than `j`. */
  predicate IsAncestor(hs: seq<Heading>, j: int, i: int) {
    0 <= j <= i < |hs| && forall m :: j < m <= i ==> hs[m].level > hs[j].level
  }

  predicate Indices(js: seq<int>, n: nat) {
    forall x :: 0 <= x < |js| ==> 0 <= js[x] < n
  }

  /** Those of the headings `js` that lie above `level`. */
  function Shallower(hs: seq<Heading>, js: seq<int>, level: nat): (r: seq<int>)
    requires Indices(js, |hs|)
    ensures Indices(r, |hs|)
  {
    if js == [] then []
    else
      var last := js[|js| - 1];
      var front := Shallower(hs, js[..|js| - 1], level);
      if hs[last].level < level then front + [last] else front
  }

  lemma {:induction false} ShallowerMember(hs: seq<Heading>, js: seq<int>, level: nat, j: int)
    requires Indices(js, |hs|)
    ensures j in Shallower(hs, js, level) <==> j in js && hs[j].level < level
  {
    if js != [] {
      var front := js[..|js| - 1];
      ShallowerMember(hs, front, level, j);
      assert js == front + [js[|js| - 1]];
    }
  }

  /** The ancestors of the last heading, outermost first, itself included. */
  function Ancestors(hs: seq<Heading>): (js: seq<int>)
    ensures Indices(js, |hs|)
  {
    if hs == [] then []
    else
      var front := hs[..|hs| - 1];
      Shallower(hs, Ancestors(front), hs[|hs| - 1].level) + [|hs| - 1]
  }

  predicate Ascending(js: seq<int>) {
    forall x, y :: 0 <= x < y < |js| ==> js[x] < js[y]
  }

  lemma {:induction false} ShallowerAscending(hs: seq<Heading>, js: seq<int>, level: nat)
    requires Indices(js, |hs|)
    requires Ascending(js)
    ensures Ascending(Shallower(hs, js, level))
  {
    if js != [] {
      var front := js[..|js| - 1];
      ShallowerAscending(hs, front, level);
      var r := Shallower(hs, front, level);
      forall x | 0 <= x < |r|
        ensures r[x] < js[|js| - 1]
      {
        ShallowerMember(hs, front, level, r[x]);
      }
    }
  }

  lemma {:induction false} AncestorsAscending(hs: seq<Heading>)
    ensures Ascending(Ancestors(hs))
  {
    if hs != [] {
      var front := hs[..|hs| - 1];
      AncestorsAscending(front);
      ShallowerAscending(hs, Ancestors(front), hs[|hs| - 1].level);
      var kept := Shallower(hs, Ancestors(front), hs[|hs| - 1].level);
      forall x | 0 <= x < |kept|
        ensures kept[x] < |hs| - 1
      {
        ShallowerMember(hs, Ancestors(front), hs[|hs| - 1].level, kept[x]);
      }
    }
  }

  lemma AncestorStep(hs: seq<Heading>, j: int, n: nat)
    requires |hs| == n + 1 && 0 <= j < n
    ensures IsAncestor(hs, j, n) <==> IsAncestor(hs[..n], j, n - 1) && hs[j].level < hs[n].level
  {
    var front := hs[..n];
    if IsAncestor(hs, j, n) {
      assert forall m :: j < m <= n - 1 ==> front[m] == hs[m];
    }
    if IsAncestor(front, j, n - 1) && hs[j].level < hs[n].level {
      assert forall m :: j < m < n ==> hs[m] == front[m];
    }
  }

  /** `Ancestors` lists exactly the ancestors of the last heading, however many
      levels the document skips. */
  lemma {:induction false} AncestorsExact(hs: seq<Heading>, j: int)
    requires hs != []
    ensures j in Ancestors(hs) <==> IsAncestor(hs, j, |hs| - 1)
  {
    hide Shallower, IsAncestor, Ancestors;
    var n := |hs| - 1;
    AncestorsLast(hs);
    AncestorInRange(hs, j);
    if 0 <= j < n {
      AncestorStep(hs, j, n);
      AncestorsExact(hs[..n], j);
      ShallowerMember(hs, Ancestors(hs[..n]), hs[n].level, j);
    } else if j != n {
      assert j !in Ancestors(hs);
    }
  }

  lemma AncestorsLast(hs: seq<Heading>)
    requires hs != []
    ensures var n := |hs| - 1;
            Ancestors(hs) == Shallower(hs, Ancestors(hs[..n]), hs[n].level) + [n]
  {
  }

  lemma AncestorInRange(hs: seq<Heading>, j: int)
    requires hs != []
    ensures IsAncestor(hs, j, |hs| - 1) ==> 0 <= j < |hs|
    ensures IsAncestor(hs, |hs| - 1, |hs| - 1)
  {
  }

  // ---- The stack realises it ----------------------------------------------

  /** The headings a stack of `Put`s still holds, outermost first. */
  function Kept(es: seq<Heading>, level: nat): (r: seq<Heading>)
    ensures Levelled(es) ==> Levelled(r)
    ensures forall x :: 0 <= x < |r| ==> r[x].level < level
  {
    if es == [] then []
    else
      var front := Kept(es[..|es| - 1], level);
      if es[|es| - 1].level < level then front + [es[|es| - 1]] else front
  }

  function Entries(hs: seq<Heading>): (r: seq<Heading>)
    ensures Levelled(hs) ==> Levelled(r)
  {
    if hs == [] then [] else Kept(Entries(hs[..|hs| - 1]), hs[|hs| - 1].level) + [hs[|hs| - 1]]
  }

  predicate Deepening(es: seq<Heading>) {
    forall x, y :: 0 <= x < y < |es| ==> es[x].level < es[y].level
  }

  function Texts(es: seq<Heading>): (r: seq<string>)
    ensures |r| == |es| && forall x :: 0 <= x < |es| ==> r[x] == es[x].text
  {
    if es == [] then [] else Texts(es[..|es| - 1]) + [es[|es| - 1].text]
  }

  /** The stack that holds exactly the headings `es`, each in its level's slot. */
  function Spread(es: seq<Heading>): Stack
    requires Levelled(es)
  {
    if es == [] then [] else Put(Spread(es[..|es| - 1]), es[|es| - 1])
  }

  lemma {:induction false} CompactHoles(stack: Stack, n: nat)
    ensures Compact(stack + Holes(n)) == Compact(stack)
  {
    var padded := stack + Holes(n);
    if n == 0 {
      assert padded == stack;
    } else {
      CompactHoles(stack, n - 1);
      assert padded[..|padded| - 1] == stack + Holes(n - 1);
    }
  }

  lemma SpreadLength(es: seq<Heading>)
    requires Levelled(es) && es != []
    ensures |Spread(es)| == es[|es| - 1].level
  {
  }

  /** One entry more, above holes. */
  lemma CompactPut(s: Stack, h: Heading)
    requires |s| < h.level
    ensures Compact(Put(s, h)) == Compact(s) + [h.text]
  {
    hide Compact, Fit, Holes;
    var n := h.level - 1;
    FitLong(s, n);
    CompactHoles(s, n - |s|);
    CompactSnoc(Fit(s, n), h.text);
  }

  lemma FitLong(s: Stack, n: nat)
    requires |s| <= n
    ensures Fit(s, n) == s + Holes(n - |s|)
  {
    assert |s| == n ==> s[..n] == s && Holes(0) == [];
  }

  lemma CompactSnoc(s: Stack, text: string)
    ensures Compact(s + [Some(text)]) == Compact(s) + [text]
  {
    assert (s + [Some(text)])[..|s|] == s;
  }

  lemma {:induction false} CompactSpread(es: seq<Heading>)
    requires Levelled(es) && Deepening(es)
    ensures Compact(Spread(es)) == Texts(es)
  {
    hide Compact, Put;
    if es == [] {
      EmptyStack();
    } else {
      var front, h := es[..|es| - 1], es[|es| - 1];
      CompactSpread(front);
      if front != [] {
        SpreadLength(front);
      }
      CompactPut(Spread(front), h);
    }
  }

  lemma EmptyStack()
    ensures Compact([]) == []
  {
  }

  lemma {:induction false} KeptAll(es: seq<Heading>, level: nat)
    requires forall x :: 0 <= x < |es| ==> es[x].level < level
    ensures Kept(es, level) == es
  {
    if es != [] {
      KeptAll(es[..|es| - 1], level);
    }
  }

  lemma {:induction false} KeptDeepening(es: seq<Heading>, level: nat)
    requires Deepening(es)
    ensures Deepening(Kept(es, level))
  {
    if es != [] {
      hide Kept;
      var front, h := es[..|es| - 1], es[|es| - 1];
      if h.level < level {
        KeptAll(es, level);
      } else {
        KeptDeepening(front, level);
        KeptLast(es, level);
      }
    }
  }

  lemma CutPut(s: Stack, h: Heading, n: nat)
    requires n < h.level
    ensures Fit(Put(s, h), n) == Fit(s, n)
  {
    hide Holes;
    var m := h.level - 1;
    if |s| < n {
      HolesCut(m - |s|, n - |s|);
      assert Put(s, h)[..n] == s + Holes(m - |s|)[..n - |s|];
    }
  }

  lemma {:induction false} HolesCut(m: nat, n: nat)
    requires n <= m
    ensures Holes(m)[..n] == Holes(n)
  {
    if n < m {
      HolesCut(m - 1, n);
    }
  }

  lemma DeepeningFront(es: seq<Heading>)
    requires Deepening(es) && Levelled(es) && es != []
    ensures var front, h := es[..|es| - 1], es[|es| - 1];
            Deepening(front) && Levelled(front) && forall x :: 0 <= x < |front| ==> front[x].level < h.level
  {
  }

  lemma SpreadLast(es: seq<Heading>)
    requires Levelled(es) && es != []
    ensures Levelled(es[..|es| - 1]) && Spread(es) == Put(Spread(es[..|es| - 1]), es[|es| - 1])
  {
  }

  lemma KeptLast(es: seq<Heading>, level: nat)
    requires es != [] && es[|es| - 1].level >= level
    ensures Kept(es, level) == Kept(es[..|es| - 1], level)
  {
  }

  lemma {:induction false} CutSpread(es: seq<Heading>, level: nat)
    requires Levelled(es) && Deepening(es) && level >= 1
    ensures Fit(Spread(es), level - 1) == Fit(Spread(Kept(es, level)), level - 1)
  {
    hide Fit, Put, Spread, Kept, Deepening;
    if es == [] {
      KeptAll(es, level);
    } else {
      var front, h := es[..|es| - 1], es[|es| - 1];
      DeepeningFront(es);
      if h.level >= level {
        CutSpread(front, level);
        CutPut(Spread(front), h, level - 1);
        SpreadLast(es);
        KeptLast(es, level);
      } else {
        KeptAll(es, level);
      }
    }
  }

  lemma DeepeningStep(es: seq<Heading>, h: Heading)
    requires Deepening(es)
    ensures Deepening(Kept(es, h.level) + [h])
  {
    KeptDeepening(es, h.level);
  }

  lemma PutSpread(es: seq<Heading>, h: Heading)
    requires Levelled(es) && Deepening(es) && h.level >= 1
    ensures Put(Spread(es), h) == Spread(Kept(es, h.level) + [h])
  {
    CutSpread(es, h.level);
    var kept := Kept(es, h.level);
    assert (kept + [h])[..|kept|] == kept;
  }

  lemma {:induction false} StackIsSpread(hs: seq<Heading>)
    requires Levelled(hs)
    ensures Deepening(Entries(hs))
    ensures StackOf(hs) == Spread(Entries(hs))
  {
    if hs != [] {
      var front, h := hs[..|hs| - 1], hs[|hs| - 1];
      var es := Entries(front);
      StackIsSpread(front);
      DeepeningStep(es, h);
      PutSpread(es, h);
    }
  }

  function Pick(hs: seq<Heading>, js: seq<int>): (r: seq<Heading>)
    requires Indices(js, |hs|)
    ensures |r| == |js| && forall x :: 0 <= x < |js| ==> r[x] == hs[js[x]]
  {
    if js == [] then [] else Pick(hs, js[..|js| - 1]) + [hs[js[|js| - 1]]]
  }

  lemma {:induction false} PickShallower(hs: seq<Heading>, js: seq<int>, level: nat)
    requires Indices(js, |hs|)
    ensures Pick(hs, Shallower(hs, js, level)) == Kept(Pick(hs, js), level)
  {
    if js != [] {
      var front := js[..|js| - 1];
      PickShallower(hs, front, level);
      var r := Shallower(hs, front, level);
      assert (r + [js[|js| - 1]])[..|r|] == r;
      assert Pick(hs, js)[..|front|] == Pick(hs, front);
    }
  }

  lemma {:induction false} EntriesAreAncestors(hs: seq<Heading>)
    ensures Entries(hs) == Pick(hs, Ancestors(hs))
  {
    if hs != [] {
      var front := hs[..|hs| - 1];
      EntriesAreAncestors(front);
      var js := Ancestors(front);
      assert Pick(front, js) == Pick(hs, js);
      PickShallower(hs, js, hs[|hs| - 1].level);
      var kept := Shallower(hs, js, hs[|hs| - 1].level);
      assert (kept + [|hs| - 1])[..|kept|] == kept;
    }
  }

  /** The compacted stack is the texts of the last heading's ancestors,
      outermost first, and ends with that heading's own text. */
  lemma StackPathIsAncestors(hs: seq<Heading>)
    requires hs != [] && Levelled(hs)
    ensures Compact(StackOf(hs)) == Texts(Pick(hs, Ancestors(hs)))
    ensures Compact(StackOf(hs)) != []
  {
    StackIsSpread(hs);
    CompactSpread(Entries(hs));
    EntriesAreAncestors(hs);
  }
}
