/** The section splitter: a line machine with a fence flag, a heading stack and a
    set of used anchors, and the declarative reading of what it produces. */
module Sections {
  import opened TextLines
  import opened Anchors
  import opened HeadingPaths
  import opened Outline

  // ---- Line classes --------------------------------------------------------

  /** A line that opens or closes a code fence. */
  predicate IsFence(line: string) {
    var t := TrimStart(line);
    "```" <= t || "~~~" <= t
  }

  /** `^\s*(```|~~~)`: white space up to `p`, and a fence there. */
  predicate MatchesFence(line: string, p: int) {
    0 <= p <= |line| - 3 && Blank(line[..p]) && (line[p..p + 3] == "```" || line[p..p + 3] == "~~~")
  }

  lemma FenceExact(line: string)
    ensures IsFence(line) <==> exists p :: MatchesFence(line, p)
  {
    var n, t := LeadingSpaces(line), TrimStart(line);
    if IsFence(line) {
      assert line[n..n + 3] == t[..3];
      assert MatchesFence(line, n);
    }
    if p :| MatchesFence(line, p) {
      FenceStart(line, p);
      assert t[..3] == line[p..p + 3];
    }
  }

  /** No fence character is white space, so the white space ends at the fence. */
  lemma FenceStart(line: string, p: int)
    requires MatchesFence(line, p)
    ensures LeadingSpaces(line) == p
  {
    assert line[p] == line[p..p + 3][0] && !IsSpace('`') && !IsSpace('~');
    LeadingSpacesAre(line, p);
  }

  lemma {:induction false} LeadingSpacesAre(s: string, n: nat)
    requires n <= |s| && Blank(s[..n]) && (n < |s| ==> !IsSpace(s[n]))
    ensures LeadingSpaces(s) == n
  {
    if n > 0 {
      assert s[0] == s[..n][0];
      assert s[1..][..n - 1] == s[..n][1..];
      LeadingSpacesAre(s[1..], n - 1);
    }
  }

  /** How many `#` a text starts with. */
  function Hashes(s: string): (n: nat)
    ensures n <= |s| && forall i :: 0 <= i < n ==> s[i] == '#'
    ensures n < |s| ==> s[n] != '#'
  {
    if s != "" && s[0] == '#' then
      var n := 1 + Hashes(s[1..]);
      assert forall i :: 0 < i < n ==> s[i] == s[1..][i - 1];
      n
    else 0
  }

  /** `^(#{1,6})\s+(.+)$` with `k` hashes and its second group starting at `p`. */
  predicate MatchesHeading(line: string, k: int, p: int) {
    && 1 <= k <= 6 && k < p < |line|
    && (forall i :: 0 <= i < k ==> line[i] == '#')
    && (forall i :: k <= i < p ==> IsSpace(line[i]))
    && (forall i :: p <= i < |line| ==> !IsLineEnd(line[i]))
  }

  function HeadingOf(line: string): (h: Option<Heading>)
    ensures h.Some? ==> 1 <= h.value.level <= 6
  {
    var k := Hashes(line);
    var rest := line[k..];
    var w := LeadingSpaces(rest);
    if !(1 <= k <= 6) || w == 0 then None
    else
      // `\s+` is greedy, but gives one character back when nothing follows it.
      var p := if w < |rest| then w else w - 1;
      if p == 0 || exists i :: p <= i < |rest| && IsLineEnd(rest[i]) then None
      else Some(Heading(k, Trim(rest[p..])))
  }

  lemma HeadingMatch(line: string, k: int, p: int)
    requires MatchesHeading(line, k, p)
    ensures k == Hashes(line) && HeadingOf(line).Some?
  {
    var n := Hashes(line);
    assert !IsSpace('#') && IsSpace(line[k]);
    assert n == k;
    var rest := line[k..];
    var w := LeadingSpaces(rest);
    assert rest[0] == line[k];
    assert forall i :: 0 <= i < p - k ==> rest[i] == line[k + i];
    assert w >= p - k;
    assert forall i :: p - k <= i < |rest| ==> rest[i] == line[k + i];
  }

  /** Where the second group of a heading line starts. */
  function TextStart(line: string): (p: int)
    requires HeadingOf(line).Some?
    ensures 0 <= p <= |line|
  {
    var k := Hashes(line);
    var w := LeadingSpaces(line[k..]);
    if k + w < |line| then k + w else k + w - 1
  }

  lemma HeadingOfMatches(line: string)
    requires HeadingOf(line).Some?
    ensures MatchesHeading(line, HeadingOf(line).value.level, TextStart(line))
    ensures HeadingOf(line).value.text == Trim(line[TextStart(line)..])
  {
    hide Trim, IsSpace, IsLineEnd, LeadingSpaces, Hashes;
    var k, p := Hashes(line), TextStart(line);
    var rest := line[k..];
    assert forall i :: k <= i < |line| ==> line[i] == rest[i - k];
    assert line[p..] == rest[p - k..];
    SpacesLead(rest);
  }

  lemma SpacesLead(rest: string)
    ensures forall i :: 0 <= i < LeadingSpaces(rest) ==> IsSpace(rest[i])
  {
    hide LeadingSpaces, IsSpace;
    var w := LeadingSpaces(rest);
    forall i | 0 <= i < w
      ensures IsSpace(rest[i])
    {
      assert rest[..w][i] == rest[i];
    }
  }

  lemma TextStartGreedy(line: string, q: int)
    requires HeadingOf(line).Some? && MatchesHeading(line, HeadingOf(line).value.level, q)
    ensures q <= TextStart(line)
  {
    hide Trim, IsSpace, IsLineEnd;
    var k := Hashes(line);
    var rest := line[k..];
    var w := LeadingSpaces(rest);
    assert w < |rest| ==> line[k + w] == rest[w];
  }

  /** `HeadingOf` decides the heading pattern and returns its greedy groups. */
  lemma HeadingOfExact(line: string)
    ensures HeadingOf(line).Some? <==> exists k, p :: MatchesHeading(line, k, p)
    ensures HeadingOf(line).Some? ==>
              var h := HeadingOf(line).value;
              exists p :: MatchesHeading(line, h.level, p) && h.text == Trim(line[p..])
                          && forall q :: MatchesHeading(line, h.level, q) ==> q <= p
  {
    hide HeadingOf, MatchesHeading, Trim;
    if HeadingOf(line).Some? {
      HeadingOfMatches(line);
      forall q | MatchesHeading(line, HeadingOf(line).value.level, q)
        ensures q <= TextStart(line)
      {
        TextStartGreedy(line, q);
      }
    } else if k, p :| MatchesHeading(line, k, p) {
      HeadingMatch(line, k, p);
    }
  }

  lemma HeadingNotBlank(line: string)
    requires HeadingOf(line).Some?
    ensures !Blank(line) && line != "" && line[0] == '#'
  {
    assert !IsSpace('#');
  }

  // ---- The line machine ----------------------------------------------------

  datatype Section = Section(heading: string, headingPath: seq<string>, anchor: string, content: string, ordinal: nat)

  datatype State = State(stack: Stack, used: set<string>, heading: string, buffer: seq<string>,
                         inFence: bool, sections: seq<Section>)

  function Start(title: string): State {
    State([], {}, title, [], false, [])
  }

  predicate HasHeadingLine(buffer: seq<string>) {
    exists i :: 0 <= i < |buffer| && HeadingOf(buffer[i]).Some?
  }

  function PathOrTitle(path: seq<string>, heading: string): seq<string> {
    if path != [] then path else [heading]
  }

  function NewSection(heading: string, path: seq<string>, used: set<string>, buffer: seq<string>,
                      ordinal: nat): Section {
    Section(heading, path, UniqueAnchor(used, Slugify(JoinDash(path)), ordinal), Trim(Join(buffer)), ordinal)
  }

  function Flush(st: State): State {
    if Trim(Join(st.buffer)) == "" && !HasHeadingLine(st.buffer) then st
    else
      var path := PathOrTitle(Compact(st.stack), st.heading);
      var s := NewSection(st.heading, path, st.used, st.buffer, |st.sections|);
      st.(used := st.used + {s.anchor}, sections := st.sections + [s])
  }

  function Step(st: State, line: string): State {
    if IsFence(line) then st.(inFence := !st.inFence, buffer := st.buffer + [line])
    else
      match if st.inFence then None else HeadingOf(line)
      case None => st.(buffer := st.buffer + [line])
      case Some(h) => Flush(st).(buffer := [line], heading := h.text, stack := Put(st.stack, h))
  }

  function Run(title: string, lines: seq<string>): State {
    if lines == [] then Start(title) else Step(Run(title, Init(lines)), Last(lines))
  }

  function SplitSections(title: string, lines: seq<string>): seq<Section> {
    Flush(Run(title, lines)).sections
  }

  lemma RunSnoc(title: string, lines: seq<string>, line: string)
    ensures Run(title, lines + [line]) == Step(Run(title, lines), line)
  {
    InitSnoc(lines, line);
  }

  /** The splitter as it is written: one pass over the lines, updating the stack,
      the buffer, the used anchors, the ordinal and the fence flag. */
  method SplitIntoSections(title: string, lines: seq<string>) returns (sections: seq<Section>)
    ensures sections == SplitSections(title, lines)
  {
    hide Flush, HeadingOf, IsFence, Put;
    assert Run(title, lines[..0]) == Start(title);
    hide Run;
    sections := [];
    var headingStack: Stack := [];
    var usedAnchors: set<string> := {};
    var currentHeading := title;
    var currentLines: seq<string> := [];
    var ordinal := 0;
    var inFence := false;
    for i := 0 to |lines|
      invariant ordinal == |sections|
      invariant Run(title, lines[..i])
                == State(headingStack, usedAnchors, currentHeading, currentLines, inFence, sections)
    {
      var line := lines[i];
      RunSnoc(title, lines[..i], line);
      assert lines[..i + 1] == lines[..i] + [line];
      if IsFence(line) {
        inFence := !inFence;
        currentLines := currentLines + [line];
      } else {
        var heading := if inFence then None else HeadingOf(line);
        if heading.Some? {
          sections, usedAnchors, ordinal :=
            FlushSection(sections, usedAnchors, ordinal, headingStack, currentHeading, currentLines, inFence);
          currentLines := [line];
          currentHeading := heading.value.text;
          headingStack := Put(headingStack, heading.value);
        } else {
          currentLines := currentLines + [line];
        }
      }
    }
    assert lines[..|lines|] == lines;
    sections, usedAnchors, ordinal :=
      FlushSection(sections, usedAnchors, ordinal, headingStack, currentHeading, currentLines, inFence);
  }

  method FlushSection(sections: seq<Section>, used: set<string>, ordinal: nat, stack: Stack, heading: string,
                      buffer: seq<string>, ghost inFence: bool)
    returns (sections': seq<Section>, used': set<string>, ordinal': nat)
    requires ordinal == |sections|
    ensures ordinal' == |sections'|
    ensures Flush(State(stack, used, heading, buffer, inFence, sections))
         == State(stack, used', heading, buffer, inFence, sections')
  {
    var content := Trim(Join(buffer));
    if content == "" && !HasHeadingLine(buffer) {
      return sections, used, ordinal;
    }
    var compacted := Compact(stack);
    var path := if compacted != [] then compacted else [heading];
    var anchor := PickAnchor(used, Slugify(JoinDash(path)), ordinal);
    sections' := sections + [Section(heading, path, anchor, content, ordinal)];
    used' := used + {anchor};
    ordinal' := ordinal + 1;
  }

  // ---- The declarative reading --------------------------------------------

  /** Whether text that starts inside or outside a fence ends inside one. */
  predicate FencedFrom(fenced: bool, lines: seq<string>) {
    if lines == [] then fenced else FencedFrom(fenced, Init(lines)) != IsFence(Last(lines))
  }

  predicate Fenced(lines: seq<string>) {
    FencedFrom(false, lines)
  }

  /** The heading a line opens: none inside a fence, and none on a fence line. */
  function MarkOf(fenced: bool, line: string): Mark {
    if IsFence(line) || fenced then None else HeadingOf(line)
  }

  function MarkedFrom(fenced: bool, lines: seq<string>): (ls: seq<Line>)
    ensures |ls| == |lines|
  {
    if lines == [] then []
    else
      MarkedFrom(fenced, Init(lines)) + [Line(Last(lines), MarkOf(FencedFrom(fenced, Init(lines)), Last(lines)))]
  }

  lemma {:induction false} MarkedText(fenced: bool, lines: seq<string>)
    ensures Plain(MarkedFrom(fenced, lines)) == lines
  {
    if lines != [] {
      MarkedText(fenced, Init(lines));
    }
  }

  function Marked(lines: seq<string>): (ls: seq<Line>)
    ensures |ls| == |lines|
  {
    MarkedFrom(false, lines)
  }

  lemma {:induction false} MarkedAt(lines: seq<string>, i: nat)
    requires i < |lines|
    ensures Marked(lines)[i] == Line(lines[i], MarkOf(Fenced(lines[..i]), lines[i]))
  {
    if i < |lines| - 1 {
      MarkedAt(Init(lines), i);
      assert Init(lines)[..i] == lines[..i];
    }
  }

  /** The lines before `i` that open or close a fence. */
  ghost function FenceLines(lines: seq<string>, i: int): set<int> {
    set k | 0 <= k < i && k < |lines| && IsFence(lines[k])
  }

  lemma FenceLast(lines: seq<string>, i: nat)
    requires i < |lines|
    ensures Fenced(lines[..i + 1]) == (Fenced(lines[..i]) != IsFence(lines[i]))
    ensures i !in FenceLines(lines, i)
    ensures FenceLines(lines, i + 1) == FenceLines(lines, i) + if IsFence(lines[i]) then {i} else {}
  {
    hide IsFence;
    assert Init(lines[..i + 1]) == lines[..i];
  }

  lemma {:induction false} FencedIsOdd(lines: seq<string>, i: nat)
    requires i <= |lines|
    ensures Fenced(lines[..i]) <==> |FenceLines(lines, i)| % 2 == 1
  {
    hide *;
    if i == 0 {
      NoFenceLines(lines);
    } else {
      FencedIsOdd(lines, i - 1);
      FenceLast(lines, i - 1);
      OddStep(|FenceLines(lines, i - 1)|, IsFence(lines[i - 1]));
    }
  }

  lemma NoFenceLines(lines: seq<string>)
    ensures !Fenced(lines[..0]) && FenceLines(lines, 0) == {}
  {
  }

  lemma OddStep(n: nat, more: bool)
    ensures (n + if more then 1 else 0) % 2 == 1 <==> (n % 2 == 1) != more
  {
  }

  /** The heading lines are those that match the pattern with an even number of fence
      lines before them. */
  lemma HeadLinesExact(lines: seq<string>, i: int)
    ensures i in Heads(Marked(lines)) <==>
              && 0 <= i < |lines| && (exists k, p :: MatchesHeading(lines[i], k, p))
              && |FenceLines(lines, i)| % 2 == 0
  {
    hide Heads, Marked, HeadingOf, MatchesHeading, FenceLines, IsFence, Fenced;
    HeadsExact(Marked(lines), i);
    if 0 <= i < |lines| {
      MarkedAt(lines, i);
      FencedIsOdd(lines, i);
      HeadingOfExact(lines[i]);
      HeadingNotFence(lines[i]);
    }
  }

  lemma HeadingNotFence(line: string)
    ensures HeadingOf(line).Some? ==> !IsFence(line)
  {
    if HeadingOf(line).Some? {
      HeadingNotBlank(line);
      LeadingSpacesAre(line, 0);
    }
  }

  lemma MarkedSnoc(fenced: bool, lines: seq<string>, line: string)
    ensures FencedFrom(fenced, lines + [line]) == (FencedFrom(fenced, lines) != IsFence(line))
    ensures MarkedFrom(fenced, lines + [line])
         == MarkedFrom(fenced, lines) + [Line(line, MarkOf(FencedFrom(fenced, lines), line))]
  {
    InitSnoc(lines, line);
  }

  lemma {:induction false} MarkedConcat(fenced: bool, a: seq<string>, b: seq<string>)
    ensures FencedFrom(fenced, a + b) == FencedFrom(FencedFrom(fenced, a), b)
    ensures MarkedFrom(fenced, a + b) == MarkedFrom(fenced, a) + MarkedFrom(FencedFrom(fenced, a), b)
  {
    if b == [] {
      assert a + b == a;
    } else {
      var front, line := Init(b), Last(b);
      MarkedConcat(fenced, a, front);
      MarkedSnoc(fenced, a + front, line);
      MarkedSnoc(FencedFrom(fenced, a), front, line);
      assert b == front + [line] && a + b == (a + front) + [line];
      ConcatAssoc(MarkedFrom(fenced, a), MarkedFrom(FencedFrom(fenced, a), front),
                  [Line(line, MarkOf(FencedFrom(fenced, a + front), line))]);
    }
  }

  function AnchorSet(ss: seq<Section>): set<string> {
    if ss == [] then {} else AnchorSet(Init(ss)) + {Last(ss).anchor}
  }

  lemma {:induction false} AnchorSetExact(ss: seq<Section>, a: string)
    ensures a in AnchorSet(ss) <==> exists i :: 0 <= i < |ss| && ss[i].anchor == a
  {
    if ss != [] {
      AnchorSetExact(Init(ss), a);
      assert Init(ss) + [Last(ss)] == ss;
    }
  }

  /** The heading path after the headings `hs`: the texts of the last one's ancestors. */
  function PathOf(title: string, hs: seq<Heading>): seq<string> {
    if hs == [] then [title] else Texts(Pick(hs, Ancestors(hs)))
  }

  function HeadingText(title: string, hs: seq<Heading>): string {
    if hs == [] then title else Last(hs).text
  }

  /** The next section, given the headings up to it, its buffer and its predecessors. */
  function Next(title: string, hs: seq<Heading>, b: seq<string>, front: seq<Section>): Section {
    NewSection(HeadingText(title, hs), PathOf(title, hs), AnchorSet(front), b, |front|)
  }

  /** One section a buffer, except that a blank preamble has none. */
  function Assemble(title: string, hs: seq<Heading>, bs: seq<seq<string>>): seq<Section>
    requires |bs| <= |hs| + 1
  {
    if bs == [] then []
    else
      var front := Assemble(title, hs, Init(bs));
      if |bs| == 1 && AllBlank(bs[0]) then front
      else front + [Next(title, hs[..|bs| - 1], Last(bs), front)]
  }

  lemma {:induction false} AssemblePrefix(title: string, hs: seq<Heading>, h: Heading, bs: seq<seq<string>>)
    requires |bs| <= |hs| + 1
    ensures Assemble(title, hs, bs) == Assemble(title, hs + [h], bs)
  {
    hide Next, AllBlank;
    if bs != [] {
      AssemblePrefix(title, hs, h, Init(bs));
      assert hs[..|bs| - 1] == (hs + [h])[..|bs| - 1];
    }
  }

  lemma FlushSkipsBlank(buffer: seq<string>)
    ensures (Trim(Join(buffer)) == "" && !HasHeadingLine(buffer)) <==> AllBlank(buffer)
  {
    TrimBlank(Join(buffer));
    BlankJoin(buffer);
    if i :| 0 <= i < |buffer| && HeadingOf(buffer[i]).Some? {
      HeadingNotBlank(buffer[i]);
    }
  }

  // The machine, with the marks computed beforehand.

  function Take(st: State, l: Line): State {
    match l.mark
    case None => st.(buffer := st.buffer + [l.text])
    case Some(h) => Flush(st).(buffer := [l.text], heading := h.text, stack := Put(st.stack, h))
  }

  function Fold(title: string, ls: seq<Line>): State {
    if ls == [] then Start(title) else Take(Fold(title, Init(ls)), Last(ls))
  }

  lemma StepIsTake(st: State, line: string)
    ensures Step(st, line) == Take(st, Line(line, MarkOf(st.inFence, line))).(inFence := st.inFence != IsFence(line))
  {
  }

  lemma TakeKeepsFence(st: State, l: Line, fence: bool)
    ensures Take(st.(inFence := fence), l) == Take(st, l).(inFence := fence)
  {
  }

  lemma {:induction false} RunIsFold(title: string, lines: seq<string>)
    ensures Run(title, lines) == Fold(title, Marked(lines)).(inFence := Fenced(lines))
  {
    if lines != [] {
      var front := Init(lines);
      RunIsFold(title, front);
      var st, l := Fold(title, Marked(front)), Line(Last(lines), MarkOf(Fenced(front), Last(lines)));
      StepIsTake(st.(inFence := Fenced(front)), Last(lines));
      TakeKeepsFence(st, l, Fenced(front));
      InitSnoc(Marked(front), l);
    }
  }

  /** Every heading's buffer starts with its heading line. */
  predicate Solid(ls: seq<Line>) {
    forall i :: 0 <= i < |ls| && ls[i].mark.Some? ==> !Blank(ls[i].text)
  }

  lemma MarkedSolid(lines: seq<string>)
    ensures Solid(Marked(lines))
  {
    forall i | 0 <= i < |lines| && Marked(lines)[i].mark.Some?
      ensures !Blank(Marked(lines)[i].text)
    {
      MarkedAt(lines, i);
      HeadingNotBlank(lines[i]);
    }
  }

  lemma HeadedBufferNotBlank(ls: seq<Line>, i: nat)
    requires Solid(ls) && 0 < i < |Buffers(ls)|
    ensures !AllBlank(Buffers(ls)[i])
  {
    BufferAt(ls, i - 1);
    HeadingAt(ls, i - 1);
    assert Buffers(ls)[i][0] == ls[Heads(ls)[i - 1]].text;
  }

  /** What the machine holds after the lines `ls`. */
  predicate Tracks(title: string, ls: seq<Line>, st: State) {
    var hs, bs := Headings(ls), Buffers(ls);
    && st.buffer == Last(bs)
    && st.heading == HeadingText(title, hs)
    && st.stack == StackOf(hs)
    && st.sections == Assemble(title, hs, Init(bs))
    && st.used == AnchorSet(st.sections)
  }

  lemma FlushTracks(title: string, ls: seq<Line>, st: State)
    requires Solid(ls) && Tracks(title, ls, st)
    ensures Flush(st).sections == Assemble(title, Headings(ls), Buffers(ls))
    ensures Flush(st).used == AnchorSet(Flush(st).sections)
  {
    var hs, bs := Headings(ls), Buffers(ls);
    StackPath(title, hs);
    FlushAdds(st);
    AssembleAdds(title, hs, bs);
    InitSnoc(st.sections, Next(title, hs, st.buffer, st.sections));
    if hs != [] {
      HeadedBufferNotBlank(ls, |bs| - 1);
    }
  }

  lemma FlushAdds(st: State)
    ensures var path := PathOrTitle(Compact(st.stack), st.heading);
            var s := NewSection(st.heading, path, st.used, st.buffer, |st.sections|);
            Flush(st) == if AllBlank(st.buffer) then st
                         else st.(used := st.used + {s.anchor}, sections := st.sections + [s])
  {
    FlushSkipsBlank(st.buffer);
  }

  lemma AssembleAdds(title: string, hs: seq<Heading>, bs: seq<seq<string>>)
    requires |bs| == |hs| + 1
    ensures var front := Assemble(title, hs, Init(bs));
            Assemble(title, hs, bs) == if |bs| == 1 && AllBlank(bs[0]) then front
                                       else front + [Next(title, hs, Last(bs), front)]
  {
    assert hs[..|bs| - 1] == hs;
  }

  lemma StackPath(title: string, hs: seq<Heading>)
    requires Levelled(hs)
    ensures PathOrTitle(Compact(StackOf(hs)), HeadingText(title, hs)) == PathOf(title, hs)
  {
    if hs != [] {
      StackPathIsAncestors(hs);
    }
  }

  lemma TakeTracks(title: string, ls: seq<Line>, l: Line, st: State)
    requires Solid(ls) && Tracks(title, ls, st)
    ensures Tracks(title, ls + [l], Take(st, l))
  {
    var hs, bs := Headings(ls), Buffers(ls);
    InitSnoc(ls, l);
    if l.mark.Some? {
      FlushTracks(title, ls, st);
      InitSnoc(bs, [l.text]);
      InitSnoc(hs, l.mark.value);
      AssemblePrefix(title, hs, l.mark.value, bs);
    } else {
      InitSnoc(Init(bs), Last(bs) + [l.text]);
    }
  }

  lemma {:induction false} FoldTracks(title: string, ls: seq<Line>)
    requires Solid(ls)
    ensures Tracks(title, ls, Fold(title, ls))
  {
    if ls != [] {
      FoldTracks(title, Init(ls));
      TakeTracks(title, Init(ls), Last(ls), Fold(title, Init(ls)));
    }
  }

  /** The one-pass machine produces one section for each heading line, carrying
      that heading, its ancestors' texts and the text up to the next heading
      line, and one for a preamble that is not blank. */
  lemma SplitIsAssemble(title: string, lines: seq<string>)
    ensures SplitSections(title, lines) == Assemble(title, Headings(Marked(lines)), Buffers(Marked(lines)))
  {
    var ls := Marked(lines);
    RunIsFold(title, lines);
    MarkedSolid(lines);
    FoldTracks(title, ls);
    FlushTracks(title, ls, Run(title, lines));
  }

  /** 1 when a blank preamble is dropped, else 0. */
  function Dropped(bs: seq<seq<string>>): nat
    requires bs != []
  {
    if AllBlank(bs[0]) then 1 else 0
  }

  lemma {:induction false} AssembleLength(title: string, hs: seq<Heading>, bs: seq<seq<string>>)
    requires 0 < |bs| <= |hs| + 1
    ensures |Assemble(title, hs, bs)| == |bs| - Dropped(bs)
  {
    if |bs| == 1 {
      assert Init(bs) == [];
    } else {
      AssembleLength(title, hs, Init(bs));
    }
  }

  /** Section `i - Dropped(bs)` is the one of buffer `i`. */
  predicate Describes(s: Section, title: string, hs: seq<Heading>, b: seq<string>, ordinal: int) {
    && s.heading == HeadingText(title, hs) && s.headingPath == PathOf(title, hs)
    && s.content == Trim(Join(b)) && s.ordinal == ordinal
  }

  lemma NextDescribes(title: string, hs: seq<Heading>, b: seq<string>, front: seq<Section>)
    ensures Describes(Next(title, hs, b, front), title, hs, b, |front|)
  {
    hide PathOf, HeadingText, Join, Trim, AnchorSet;
  }

  lemma {:induction false} AssembleAt(title: string, hs: seq<Heading>, bs: seq<seq<string>>, i: nat)
    requires 0 < |bs| <= |hs| + 1 && Dropped(bs) <= i < |bs|
    ensures |Assemble(title, hs, bs)| == |bs| - Dropped(bs)
    ensures Describes(Assemble(title, hs, bs)[i - Dropped(bs)], title, hs[..i], bs[i], i - Dropped(bs))
  {
    hide Assemble, Next, Describes, AllBlank;
    AssembleLength(title, hs, bs);
    if |bs| == 1 {
      AssembleOne(title, hs, bs);
      NextDescribes(title, [], bs[0], []);
      assert hs[..0] == [];
    } else {
      var front := Init(bs);
      AssembleMore(title, hs, bs);
      AssembleLength(title, hs, front);
      if i < |front| {
        AssembleAt(title, hs, front, i);
      } else {
        NextDescribes(title, hs[..i], Last(bs), Assemble(title, hs, front));
      }
    }
  }

  predicate DistinctAnchors(ss: seq<Section>) {
    forall i, j :: 0 <= i < j < |ss| ==> ss[i].anchor != ss[j].anchor
  }

  lemma {:induction false} AssembleDistinct(title: string, hs: seq<Heading>, bs: seq<seq<string>>)
    requires |bs| <= |hs| + 1
    ensures DistinctAnchors(Assemble(title, hs, bs))
  {
    hide Assemble, Next, AllBlank, DistinctAnchors;
    NoneDistinct(title, hs);
    if |bs| == 1 {
      AssembleOne(title, hs, bs);
      OneDistinct(Next(title, [], bs[0], []));
    } else if bs != [] {
      var front := Assemble(title, hs, Init(bs));
      AssembleDistinct(title, hs, Init(bs));
      AssembleMore(title, hs, bs);
      NextFresh(title, hs[..|bs| - 1], Last(bs), front);
      DistinctSnoc(front, Next(title, hs[..|bs| - 1], Last(bs), front));
    }
  }

  lemma NoneDistinct(title: string, hs: seq<Heading>)
    ensures Assemble(title, hs, []) == [] && DistinctAnchors([])
  {
  }

  lemma OneDistinct(s: Section)
    ensures DistinctAnchors([s])
  {
  }

  lemma NextFresh(title: string, hs: seq<Heading>, b: seq<string>, front: seq<Section>)
    ensures Next(title, hs, b, front).anchor !in AnchorSet(front)
  {
    hide PathOf, HeadingText, Slugify, JoinDash, Trim, Join, AnchorSet;
  }

  lemma DistinctSnoc(front: seq<Section>, s: Section)
    requires DistinctAnchors(front) && s.anchor !in AnchorSet(front)
    ensures DistinctAnchors(front + [s])
  {
    AnchorSetExact(front, s.anchor);
  }

  /** Every document gets pairwise distinct anchors and ordinals 0, 1, 2, … */
  lemma AnchorsAndOrdinals(title: string, lines: seq<string>)
    ensures DistinctAnchors(SplitSections(title, lines))
    ensures forall i :: 0 <= i < |SplitSections(title, lines)| ==> SplitSections(title, lines)[i].ordinal == i
  {
    SplitIsAssemble(title, lines);
    var hs, bs := Headings(Marked(lines)), Buffers(Marked(lines));
    AssembleDistinct(title, hs, bs);
    AssembleLength(title, hs, bs);
    forall i | 0 <= i < |SplitSections(title, lines)|
      ensures SplitSections(title, lines)[i].ordinal == i
    {
      AssembleAt(title, hs, bs, i + Dropped(bs));
    }
  }

  lemma {:induction false} AssembleAnchor(title: string, hs: seq<Heading>, bs: seq<seq<string>>, i: nat)
    requires |bs| <= |hs| + 1 && i < |Assemble(title, hs, bs)|
    ensures var ss := Assemble(title, hs, bs);
            ss[i].anchor == UniqueAnchor(AnchorSet(ss[..i]), Slugify(JoinDash(ss[i].headingPath)), i)
  {
    hide UniqueAnchor, Slugify, JoinDash, AnchorSet, PathOf;
    var ss, front := Assemble(title, hs, bs), Assemble(title, hs, Init(bs));
    if i < |front| {
      AssembleAnchor(title, hs, Init(bs), i);
      assert ss[..i] == front[..i];
    } else {
      assert ss[..i] == front;
    }
  }

  lemma AnchorInSplit(title: string, lines: seq<string>, i: nat)
    requires i < |SplitSections(title, lines)|
    ensures var ss := SplitSections(title, lines);
            var base := BaseAnchor(JoinDash(SlugWords(JoinDash(ss[i].headingPath))), i);
            && (ss[i].anchor == base <==> !HasAnchor(ss[..i], base))
            && (ss[i].anchor != base ==> exists k: nat :: k >= 2 && ss[i].anchor == Suffixed(base, k)
                                           && forall m: nat :: 2 <= m < k ==> HasAnchor(ss[..i], Suffixed(base, m)))
  {
    hide SplitSections, Slugify, JoinDash, SlugWords, AnchorSet, Suffixed;
    var ss := SplitSections(title, lines);
    SplitIsAssemble(title, lines);
    AssembleAnchor(title, Headings(Marked(lines)), Buffers(Marked(lines)), i);
    SlugIsWords(JoinDash(ss[i].headingPath));
    forall a
      ensures a in AnchorSet(ss[..i]) <==> HasAnchor(ss[..i], a)
    {
      AnchorSetExact(ss[..i], a);
    }
  }

  /** An anchor is the slug of its heading path (or numbered, if that is empty) for
      the first section that has it, and otherwise carries the least suffix from 2 on
      that no earlier section took. */
  lemma AnchorOfSection(title: string, lines: seq<string>, i: nat)
    requires i < |SplitSections(title, lines)|
    ensures var ss := SplitSections(title, lines);
            var slug := JoinDash(SlugWords(JoinDash(ss[i].headingPath)));
            var base := if slug != "" then slug else "section-" + Decimal(i);
            && (ss[i].anchor == base <==> !HasAnchor(ss[..i], base))
            && (ss[i].anchor != base ==>
                  exists k: nat :: k >= 2 && ss[i].anchor == base + "-" + Decimal(k)
                                   && forall m: nat :: 2 <= m < k ==> HasAnchor(ss[..i], base + "-" + Decimal(m)))
  {
    hide SplitSections, JoinDash, SlugWords, HasAnchor, Decimal;
    AnchorInSplit(title, lines, i);
    var ss := SplitSections(title, lines);
    var base := BaseAnchor(JoinDash(SlugWords(JoinDash(ss[i].headingPath))), i);
    if ss[i].anchor != base {
      var k: nat :| k >= 2 && ss[i].anchor == Suffixed(base, k)
                    && forall m: nat :: 2 <= m < k ==> HasAnchor(ss[..i], Suffixed(base, m));
      forall m: nat | 2 <= m < k
        ensures HasAnchor(ss[..i], base + "-" + Decimal(m))
      {
        assert HasAnchor(ss[..i], Suffixed(base, m));
      }
    }
  }

  predicate HasAnchor(ss: seq<Section>, a: string) {
    exists i :: 0 <= i < |ss| && ss[i].anchor == a
  }

  lemma AncestorInPrefix(hs: seq<Heading>, j: int, i: nat)
    requires i < |hs|
    ensures IsAncestor(hs[..i + 1], j, i) <==> IsAncestor(hs, j, i)
  {
    assert forall m :: 0 <= m <= i ==> hs[..i + 1][m] == hs[m];
  }

  /** Where heading `i`'s section stands among the sections. */
  function SectionIndex(ls: seq<Line>, i: nat): int {
    i + 1 - Dropped(Buffers(ls))
  }

  lemma SectionOfHeading(title: string, lines: seq<string>, i: nat)
    requires i < |Headings(Marked(lines))|
    ensures var ls, ss := Marked(lines), SplitSections(title, lines);
            && |ss| == |Headings(ls)| + SectionIndex(ls, 0)
            && 0 <= SectionIndex(ls, i) < |ss|
            && Describes(ss[SectionIndex(ls, i)], title, Headings(ls)[..i + 1], Buffers(ls)[i + 1], SectionIndex(ls, i))
  {
    hide Describes, SplitSections, Marked, Assemble, Buffers, Headings;
    SplitIsAssemble(title, lines);
    AssembleAt(title, Headings(Marked(lines)), Buffers(Marked(lines)), i + 1);
  }

  lemma DescribedAt(s: Section, title: string, hs: seq<Heading>, i: nat, b: seq<string>, at: int)
    requires i < |hs| && Describes(s, title, hs[..i + 1], b, at)
    ensures s.heading == hs[i].text && s.content == Trim(Join(b)) && s.ordinal == at
  {
    hide PathOf, Trim, Join;
  }

  lemma MarkedPlain(lines: seq<string>)
    ensures Plain(Marked(lines)) == lines
  {
    MarkedText(false, lines);
  }

  lemma MarkSome(fenced: bool, line: string, h: Heading)
    ensures MarkOf(fenced, line) == Some(h) ==> HeadingOf(line) == Some(h)
  {
    hide HeadingOf, IsFence;
  }

  /** Heading `i`'s line and its buffer, told on the lines. */
  lemma HeadedLines(lines: seq<string>, i: nat)
    requires i < |Heads(Marked(lines))|
    ensures var ls := Marked(lines);
            var from := Heads(ls)[i];
            && from < EndOf(ls, i) <= |lines|
            && HeadingOf(lines[from]) == Some(Headings(ls)[i])
            && Buffers(ls)[i + 1] == lines[from..EndOf(ls, i)]
  {
    hide Marked, Heads, Headings, Buffers, Plain, MarkOf, Fenced, HeadingOf, EndOf;
    var ls := Marked(lines);
    BufferAt(ls, i);
    HeadingAt(ls, i);
    MarkedPlain(lines);
    var from := Heads(ls)[i];
    MarkedAt(lines, from);
    MarkSome(Fenced(lines[..from]), lines[from], Headings(ls)[i]);
  }

  /** What each section holds, told on the lines: heading `i`'s text and everything from
      its line up to the next heading line. */
  lemma SectionText(title: string, lines: seq<string>, i: nat)
    requires i < |Heads(Marked(lines))|
    ensures var ls, ss, at := Marked(lines), SplitSections(title, lines), SectionIndex(Marked(lines), i);
            var from := Heads(ls)[i];
            && 0 <= at < |ss| && from < EndOf(ls, i) <= |lines|
            && HeadingOf(lines[from]) == Some(Headings(ls)[i])
            && ss[at].heading == Headings(ls)[i].text && ss[at].ordinal == at
            && ss[at].content == Trim(Join(lines[from..EndOf(ls, i)]))
  {
    hide *;
    SectionOfHeading(title, lines, i);
    HeadedLines(lines, i);
    var ls, at := Marked(lines), SectionIndex(Marked(lines), i);
    DescribedAt(SplitSections(title, lines)[at], title, Headings(ls), i, Buffers(ls)[i + 1], at);
  }

  lemma DescribedFirst(s: Section, title: string, hs: seq<Heading>, b: seq<string>)
    requires Describes(s, title, hs[..0], b, 0)
    ensures s == Section(title, [title], s.anchor, Trim(Join(b)), 0)
  {
    hide Trim, Join;
    assert hs[..0] == [];
  }

  /** The text before the first heading line is a section of its own, under the title,
      unless it is blank; every other section has its heading line. */
  lemma PreambleSection(title: string, lines: seq<string>)
    ensures var hs, ss := Heads(Marked(lines)), SplitSections(title, lines);
            var front := lines[..if hs == [] then |lines| else hs[0]];
            && |ss| == |hs| + (if AllBlank(front) then 0 else 1)
            && (forall i :: 0 <= i < |hs| ==> SectionIndex(Marked(lines), i) == i + if AllBlank(front) then 0 else 1)
            && (!AllBlank(front) ==> ss[0] == Section(title, [title], ss[0].anchor, Trim(Join(front)), 0))
  {
    hide SplitSections, Marked, Heads, Headings, Buffers, Plain, Trim, Join, AllBlank, Assemble, Describes;
    var ls := Marked(lines);
    var hs, bs := Headings(ls), Buffers(ls);
    SplitIsAssemble(title, lines);
    AssembleLength(title, hs, bs);
    PreambleAt(ls);
    MarkedPlain(lines);
    if !AllBlank(bs[0]) {
      AssembleAt(title, hs, bs, 0);
      DescribedFirst(SplitSections(title, lines)[0], title, hs, bs[0]);
    }
  }

  /** The section of heading `i` carries heading `j`'s text in its path exactly
      for the ancestors `j` of `i`, in document order, itself last. */
  lemma SectionPath(title: string, lines: seq<string>, i: nat)
    requires i < |Headings(Marked(lines))|
    ensures var ss, hs, at := SplitSections(title, lines), Headings(Marked(lines)), SectionIndex(Marked(lines), i);
            var js := Ancestors(hs[..i + 1]);
            && 0 <= at < |ss|
            && ss[at].heading == hs[i].text
            && ss[at].headingPath == Texts(Pick(hs[..i + 1], js))
            && Ascending(js) && (forall j :: j in js <==> IsAncestor(hs, j, i))
  {
    SectionOfHeading(title, lines, i);
    PathMeaning(Headings(Marked(lines)), i);
  }

  lemma PathMeaning(hs: seq<Heading>, i: nat)
    requires i < |hs|
    ensures var js := Ancestors(hs[..i + 1]);
            Ascending(js) && (forall j :: j in js <==> IsAncestor(hs, j, i))
  {
    var front := hs[..i + 1];
    AncestorsAscending(front);
    forall j
      ensures j in Ancestors(front) <==> IsAncestor(hs, j, i)
    {
      AncestorsExact(front, j);
      AncestorInPrefix(hs, j, i);
    }
  }

  // ---- Extra lines that are neither headings nor fences --------------------

  /** Lines that leave the machine's mode and headings alone. */
  predicate Inert(lines: seq<string>) {
    forall i :: 0 <= i < |lines| ==> !IsFence(lines[i]) && HeadingOf(lines[i]).None?
  }

  lemma {:induction false} InertUnmarked(fenced: bool, extra: seq<string>)
    requires Inert(extra)
    ensures FencedFrom(fenced, extra) == fenced
    ensures Unmarked(MarkedFrom(fenced, extra))
  {
    if extra != [] {
      InertUnmarked(fenced, Init(extra));
    }
  }

  /** Inert lines change neither the fence state nor the marks of what follows. */
  lemma InertInside(front: seq<string>, extra: seq<string>, rest: seq<string>)
    requires Inert(extra)
    ensures var f := Fenced(front);
            && Marked(front + rest) == Marked(front) + MarkedFrom(f, rest)
            && Marked(front + extra + rest) == Marked(front) + MarkedFrom(f, extra) + MarkedFrom(f, rest)
            && Unmarked(MarkedFrom(f, extra))
  {
    InertUnmarked(Fenced(front), extra);
    MarkedConcat(false, front, rest);
    MarkedConcat(false, front, extra);
    MarkedConcat(false, front + extra, rest);
  }

  /** The same sections, up to the content of section `at`. */
  predicate SameExceptContent(ss: seq<Section>, tt: seq<Section>, at: int) {
    && |ss| == |tt|
    && forall i :: 0 <= i < |ss| ==> tt[i] == if i == at then ss[i].(content := tt[i].content) else ss[i]
  }

  lemma {:induction false} AssembleSame(title: string, hs: seq<Heading>, bs: seq<seq<string>>, cs: seq<seq<string>>,
                                        j: nat)
    requires 0 < |bs| == |cs| <= |hs| + 1
    requires forall i :: 0 <= i < |bs| && i != j ==> bs[i] == cs[i]
    requires AllBlank(bs[0]) <==> AllBlank(cs[0])
    ensures SameExceptContent(Assemble(title, hs, bs), Assemble(title, hs, cs), j - Dropped(bs))
    ensures AnchorSet(Assemble(title, hs, bs)) == AnchorSet(Assemble(title, hs, cs))
  {
    hide Next, AllBlank, Assemble, AnchorSet, SameExceptContent;
    if |bs| == 1 {
      AssembleOne(title, hs, bs);
      AssembleOne(title, hs, cs);
      NextSame(title, [], bs[0], cs[0], [], []);
      SameOne(title, bs[0], cs[0], j);
    } else {
      AssembleSame(title, hs, Init(bs), Init(cs), j);
      AssembleMore(title, hs, bs);
      AssembleMore(title, hs, cs);
      var hs' := hs[..|bs| - 1];
      var ss, tt := Assemble(title, hs, Init(bs)), Assemble(title, hs, Init(cs));
      NextSame(title, hs', Last(bs), Last(cs), ss, tt);
      SameSnoc(ss, tt, Next(title, hs', Last(bs), ss), Next(title, hs', Last(cs), tt), j - Dropped(bs));
    }
  }

  lemma AssembleOne(title: string, hs: seq<Heading>, bs: seq<seq<string>>)
    requires |bs| == 1
    ensures Assemble(title, hs, bs) == if AllBlank(bs[0]) then [] else [Next(title, [], bs[0], [])]
  {
    assert Init(bs) == [] && hs[..0] == [];
  }

  lemma SameOne(title: string, b: seq<string>, c: seq<string>, at: nat)
    requires at != 0 ==> b == c
    ensures SameExceptContent([Next(title, [], b, [])], [Next(title, [], c, [])], at)
    ensures AnchorSet([Next(title, [], b, [])]) == AnchorSet([Next(title, [], c, [])])
    ensures SameExceptContent([], [], at - 1)
  {
    SameSnoc([], [], Next(title, [], b, []), Next(title, [], c, []), at);
    assert [] + [Next(title, [], b, [])] == [Next(title, [], b, [])];
    assert [] + [Next(title, [], c, [])] == [Next(title, [], c, [])];
  }

  lemma AssembleMore(title: string, hs: seq<Heading>, bs: seq<seq<string>>)
    requires 1 < |bs| <= |hs| + 1
    ensures var front := Assemble(title, hs, Init(bs));
            Assemble(title, hs, bs) == front + [Next(title, hs[..|bs| - 1], Last(bs), front)]
    ensures |Assemble(title, hs, Init(bs))| == |bs| - 1 - Dropped(bs)
  {
    AssembleLength(title, hs, Init(bs));
  }

  lemma NextSame(title: string, hs: seq<Heading>, b: seq<string>, c: seq<string>, ss: seq<Section>, tt: seq<Section>)
    requires |ss| == |tt| && AnchorSet(ss) == AnchorSet(tt)
    ensures Next(title, hs, c, tt) == Next(title, hs, b, ss).(content := Trim(Join(c)))
    ensures b == c ==> Next(title, hs, c, tt) == Next(title, hs, b, ss)
  {
  }

  lemma SameSnoc(ss: seq<Section>, tt: seq<Section>, s: Section, t: Section, at: int)
    requires SameExceptContent(ss, tt, at) && AnchorSet(ss) == AnchorSet(tt)
    requires t == if |ss| == at then s.(content := t.content) else s
    ensures SameExceptContent(ss + [s], tt + [t], at)
    ensures AnchorSet(ss + [s]) == AnchorSet(tt + [t])
  {
    InitSnoc(ss, s);
    InitSnoc(tt, t);
  }
}
