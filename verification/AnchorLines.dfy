/** From a section's anchor to the line that opens it, by zipping the sections that look
    headed with the heading lines, and when that is right. */
module AnchorLines {
  import opened TextLines
  import opened HeadingPaths
  import opened Outline
  import opened Sections

  /** `^(#{1,6})\s+` on a section's content. */
  predicate LooksHeaded(content: string) {
    var k := Hashes(content);
    1 <= k <= 6 && k < |content| && IsSpace(content[k])
  }

  lemma LooksHeadedExact(content: string)
    ensures LooksHeaded(content) <==>
              exists k :: 1 <= k <= 6 && k < |content| && content[..k] == "######"[..k] && IsSpace(content[k])
  {
    hide IsSpace;
    var n := Hashes(content);
    if LooksHeaded(content) {
      assert content[..n] == "######"[..n];
    }
    if k :| 1 <= k <= 6 && k < |content| && content[..k] == "######"[..k] && IsSpace(content[k]) {
      SpaceNotHash(content[k]);
      forall i | 0 <= i < k
        ensures content[i] == '#'
      {
        assert content[i] == content[..k][i];
      }
      HashesAre(content, k);
    }
  }

  function HeadedOnly(ss: seq<Section>): seq<Section> {
    if ss == [] then []
    else if LooksHeaded(Last(ss).content) then HeadedOnly(Init(ss)) + [Last(ss)]
    else HeadedOnly(Init(ss))
  }

  /** `findIndex` by anchor. */
  function IndexOfAnchor(ss: seq<Section>, anchor: string): (i: Option<nat>)
    ensures i.Some? ==> i.value < |ss| && ss[i.value].anchor == anchor
  {
    if ss == [] then None
    else
      var front := IndexOfAnchor(Init(ss), anchor);
      if front.Some? then front
      else if Last(ss).anchor == anchor then Some(|ss| - 1)
      else None
  }

  lemma {:induction false} IndexOfExact(ss: seq<Section>, anchor: string, i: nat)
    ensures IndexOfAnchor(ss, anchor) == Some(i) <==>
              i < |ss| && ss[i].anchor == anchor && forall k :: 0 <= k < i ==> ss[k].anchor != anchor
  {
    if ss != [] {
      IndexOfExact(Init(ss), anchor, i);
      if i == |ss| - 1 && IndexOfAnchor(Init(ss), anchor).None? {
        NoneBefore(Init(ss), anchor);
      }
    }
  }

  lemma {:induction false} NoneBefore(ss: seq<Section>, anchor: string)
    requires IndexOfAnchor(ss, anchor).None?
    ensures forall k :: 0 <= k < |ss| ==> ss[k].anchor != anchor
  {
    if ss != [] {
      NoneBefore(Init(ss), anchor);
    }
  }

  /** `picked` are the sections that look headed, at the places `js`, in order. */
  ghost predicate Picks(ss: seq<Section>, js: seq<int>, picked: seq<Section>) {
    && Ascending(js) && |js| == |picked|
    && (forall j :: j in js <==> 0 <= j < |ss| && LooksHeaded(ss[j].content))
    && (forall x :: 0 <= x < |js| ==> 0 <= js[x] < |ss| && picked[x] == ss[js[x]])
  }

  lemma PicksOneMore(ss: seq<Section>, js: seq<int>, picked: seq<Section>, s: Section)
    requires Picks(ss, js, picked)
    ensures LooksHeaded(s.content) ==> Picks(ss + [s], js + [|ss|], picked + [s])
    ensures !LooksHeaded(s.content) ==> Picks(ss + [s], js, picked)
  {
    hide LooksHeaded;
    var all := ss + [s];
    assert all[|ss|] == s && forall j :: 0 <= j < |ss| ==> all[j] == ss[j];
    if LooksHeaded(s.content) {
      var more := js + [|ss|];
      assert forall j :: j in more <==> j in js || j == |ss|;
      assert forall x :: 0 <= x < |js| ==> more[x] == js[x];
    }
  }

  /** The sections that look headed, in order. */
  lemma {:induction false} HeadedOnlyExact(ss: seq<Section>) returns (js: seq<int>)
    ensures Picks(ss, js, HeadedOnly(ss))
  {
    hide LooksHeaded, Picks;
    if ss == [] {
      js := [];
      NonePicked();
    } else {
      js := HeadedOnlyExact(Init(ss));
      PicksOneMore(Init(ss), js, HeadedOnly(Init(ss)), Last(ss));
      assert Init(ss) + [Last(ss)] == ss;
      if LooksHeaded(Last(ss).content) {
        js := js + [|ss| - 1];
      }
    }
  }

  lemma NonePicked()
    ensures Picks([], [], [])
  {
  }

  lemma {:induction false} IndexOfDistinct(ss: seq<Section>, i: nat)
    requires DistinctAnchors(ss) && i < |ss|
    ensures IndexOfAnchor(ss, ss[i].anchor) == Some(i)
  {
    if i < |ss| - 1 {
      IndexOfDistinct(Init(ss), i);
    }
  }

  lemma {:induction false} IndexOfNone(ss: seq<Section>, anchor: string)
    requires forall i :: 0 <= i < |ss| ==> ss[i].anchor != anchor
    ensures IndexOfAnchor(ss, anchor) == None
  {
    if ss != [] {
      IndexOfNone(Init(ss), anchor);
    }
  }

  /** The body line the zip picks for an anchor. */
  function FindHeading(title: string, body: seq<string>, anchor: string): (line: Option<nat>)
    ensures line.Some? ==> line.value < |body|
  {
    var heads := Heads(Marked(body));
    var position := IndexOfAnchor(HeadedOnly(SplitSections(title, body)), anchor);
    if position.None? || position.value >= |heads| then None else Some(heads[position.value])
  }

  /** The line found is the one in the place, among the heading lines, that the first
      section with the anchor has among the sections that look headed. */
  lemma FindHeadingExact(title: string, body: seq<string>, anchor: string, line: nat)
    ensures var headed, heads := HeadedOnly(SplitSections(title, body)), Heads(Marked(body));
            FindHeading(title, body, anchor) == Some(line) <==>
              exists i: nat :: i < |headed| && headed[i].anchor == anchor
                               && (forall k :: 0 <= k < i ==> headed[k].anchor != anchor)
                               && i < |heads| && heads[i] == line
  {
    hide SplitSections, Marked, Heads, HeadedOnly, IndexOfAnchor;
    var headed, found := HeadedOnly(SplitSections(title, body)), FindHeading(title, body, anchor);
    forall i: nat
      ensures IndexOfAnchor(headed, anchor) == Some(i) <==>
                i < |headed| && headed[i].anchor == anchor && forall k :: 0 <= k < i ==> headed[k].anchor != anchor
    {
      IndexOfExact(headed, anchor, i);
    }
    var position := IndexOfAnchor(headed, anchor);
    if position.Some? {
      assert IndexOfAnchor(headed, anchor) == Some(position.value);
    }
  }

  lemma HeadsSnoc(body: seq<string>, line: string)
    ensures Fenced(body + [line]) == (Fenced(body) != IsFence(line))
    ensures Heads(Marked(body + [line]))
         == if IsFence(line) || Fenced(body) || HeadingOf(line).None? then Heads(Marked(body))
            else Heads(Marked(body)) + [|body|]
  {
    MarkedSnoc(false, body, line);
    MarkSnoc(Marked(body), Line(line, MarkOf(Fenced(body), line)));
  }

  /** The loop that collects the heading lines, fence flag and all. */
  method CollectHeadingLines(body: seq<string>) returns (headingLines: seq<nat>)
    ensures headingLines == Heads(Marked(body))
  {
    headingLines := [];
    var inFence := false;
    assert Heads(Marked(body[..0])) == [] && !Fenced(body[..0]);
    hide Marked, Fenced, HeadingOf, IsFence, Heads;
    for index := 0 to |body|
      invariant headingLines == Heads(Marked(body[..index])) && inFence == Fenced(body[..index])
    {
      var line := body[index];
      HeadsSnoc(body[..index], line);
      assert body[..index + 1] == body[..index] + [line];
      if IsFence(line) {
        inFence := !inFence;
      } else if !inFence && HeadingOf(line).Some? {
        headingLines := headingLines + [index];
      }
    }
    assert body[..|body|] == body;
  }

  // ---- When the zip is right -----------------------------------------------

  /** Body line `line` opens the section with this anchor. */
  ghost predicate Opens(title: string, body: seq<string>, line: nat, anchor: string) {
    var ls, ss := Marked(body), SplitSections(title, body);
    exists i :: 0 <= i < |Heads(ls)| && Heads(ls)[i] == line
                && 0 <= SectionIndex(ls, i) < |ss| && ss[SectionIndex(ls, i)].anchor == anchor
  }

  /** Some heading is blank and has nothing but blank lines under it. */
  predicate Bare(h: Heading, buffer: seq<string>) {
    h.text == "" && buffer != [] && AllBlank(buffer[1..])
  }

  /** The two side conditions: the preamble does not look headed, and no heading
      is blank above a blank body. Without headings there is nothing to zip. */
  predicate ZipSafe(body: seq<string>) {
    var hs, bs := Headings(Marked(body)), Buffers(Marked(body));
    hs != [] ==> !LooksHeaded(Trim(Join(bs[0]))) && forall i :: 0 <= i < |hs| ==> !Bare(hs[i], bs[i + 1])
  }

  lemma BlankFrom(s: string, i: nat, j: nat)
    requires i <= j <= |s| && Blank(s[i..j])
    ensures Blank(s[i..]) <==> Blank(s[j..])
  {
    assert s[i..] == s[i..j] + s[j..];
    BlankConcat(s[i..j], s[j..]);
  }

  lemma HeadingTextBlank(line: string)
    requires HeadingOf(line).Some?
    ensures HeadingOf(line).value.text == "" <==> Blank(line[HeadingOf(line).value.level..])
  {
    hide Trim, IsSpace, IsLineEnd, HeadingOf;
    HeadingOfMatches(line);
    var k, p := HeadingOf(line).value.level, TextStart(line);
    assert Blank(line[k..p]) by {
      forall i | 0 <= i < p - k
        ensures IsSpace(line[k..p][i])
      {
        assert line[k..p][i] == line[k + i];
      }
    }
    BlankFrom(line, k, p);
    TrimBlank(line[p..]);
  }

  lemma {:induction false} TrimKeeps(s: string, i: nat)
    requires i < |s| && !IsSpace(s[i])
    ensures TrimmedLength(s) > i
  {
    if IsSpace(s[|s| - 1]) {
      TrimKeeps(s[..|s| - 1], i);
    }
  }

  lemma {:induction false} TrimDrops(s: string, k: nat)
    requires k <= |s| && Blank(s[k..])
    ensures TrimmedLength(s) <= k
  {
    if |s| > k {
      assert s[|s| - 1] == s[k..][|s| - 1 - k];
      assert s[..|s| - 1][k..] == s[k..][..|s| - 1 - k];
      TrimDrops(s[..|s| - 1], k);
    }
  }

  lemma TrimFromHash(s: string, k: nat)
    requires 1 <= k < |s| && Hashes(s) == k
    ensures Trim(s) == s[..TrimmedLength(s)] && k <= TrimmedLength(s)
    ensures TrimmedLength(s) == k <==> Blank(s[k..])
  {
    assert s[0] == '#' && s[k - 1] == '#' && !IsSpace('#');
    assert s[0..] == s;
    TrimKeeps(s, k - 1);
    if Blank(s[k..]) {
      TrimDrops(s, k);
    }
  }

  lemma HashesAre(s: string, k: nat)
    requires k <= |s| && (k < |s| ==> s[k] != '#') && forall i :: 0 <= i < k ==> s[i] == '#'
    ensures Hashes(s) == k
  {
  }

  lemma TrimmedLooksHeaded(s: string, k: nat)
    requires 1 <= k <= 6 && k < |s| && Hashes(s) == k && IsSpace(s[k])
    ensures LooksHeaded(Trim(s)) <==> !Blank(s[k..])
  {
    TrimFromHash(s, k);
    HashesAre(s[..TrimmedLength(s)], k);
  }

  /** The content of a heading's section looks headed unless the heading is bare. */
  lemma HeadedContent(line: string, rest: seq<string>)
    requires HeadingOf(line).Some?
    ensures LooksHeaded(Trim(Join([line] + rest))) <==> !Bare(HeadingOf(line).value, [line] + rest)
  {
    hide HeadingOf, IsSpace, IsLineEnd, LooksHeaded, Trim, Blank, AllBlank;
    var k := HeadingOf(line).value.level;
    HeadingOfMatches(line);
    HeadingTextBlank(line);
    assert ([line] + rest)[1..] == rest;
    var tail := if rest == [] then "" else "\n" + Join(rest);
    var s := line + tail;
    assert Join([line] + rest) == s;
    SpaceNotHash(s[k]);
    HashesAre(s, k);
    TrimmedLooksHeaded(s, k);
    assert s[k..] == line[k..] + tail;
    BlankConcat(line[k..], tail);
    BlankTail(rest);
  }

  lemma SpaceNotHash(c: char)
    requires IsSpace(c)
    ensures c != '#'
  {
  }

  lemma BlankTail(rest: seq<string>)
    ensures Blank(if rest == [] then "" else "\n" + Join(rest)) <==> AllBlank(rest)
  {
    BlankConcat("\n", Join(rest));
    BlankJoin(rest);
  }

  lemma SectionLooksHeaded(title: string, body: seq<string>, i: nat)
    requires i < |Heads(Marked(body))|
    ensures var ls, ss := Marked(body), SplitSections(title, body);
            && 0 <= SectionIndex(ls, i) < |ss|
            && (LooksHeaded(ss[SectionIndex(ls, i)].content) <==> !Bare(Headings(ls)[i], Buffers(ls)[i + 1]))
  {
    hide SplitSections, LooksHeaded, HeadingOf, Trim, Join, Bare, Marked, Heads, Headings, Buffers, SectionIndex,
         PathOf, HeadingText, AllBlank;
    SectionOfHeading(title, body, i);
    HeadedBuffer(body, i);
  }

  /** Heading i's buffer: its line, which opens it, and what is under it. */
  lemma HeadedBuffer(body: seq<string>, i: nat)
    requires i < |Heads(Marked(body))|
    ensures var ls := Marked(body);
            LooksHeaded(Trim(Join(Buffers(ls)[i + 1]))) <==> !Bare(Headings(ls)[i], Buffers(ls)[i + 1])
  {
    hide LooksHeaded, HeadingOf, Trim, Join, Bare, Marked, Heads, Headings, Buffers, FencedFrom, IsFence, AllBlank;
    var ls := Marked(body);
    BufferAt(ls, i);
    HeadingAt(ls, i);
    var h := Heads(ls)[i];
    MarkedAt(body, h);
    PlainMarked(body);
    var b := Buffers(ls)[i + 1];
    assert b == [body[h]] + b[1..];
    HeadedContent(body[h], b[1..]);
  }

  lemma PlainMarked(body: seq<string>)
    ensures Plain(Marked(body)) == body
  {
    MarkedText(false, body);
  }

  lemma HeadedLast(ss: seq<Section>)
    requires ss != []
    ensures HeadedOnly(ss) == HeadedOnly(Init(ss)) + if LooksHeaded(Last(ss).content) then [Last(ss)] else []
    ensures HeadedOnly([]) == []
  {
    hide LooksHeaded;
  }

  lemma {:induction false} HeadedAll(ss: seq<Section>)
    requires forall i :: 0 <= i < |ss| ==> LooksHeaded(ss[i].content)
    ensures HeadedOnly(ss) == ss
  {
    if ss != [] {
      hide LooksHeaded, HeadedOnly;
      HeadedAll(Init(ss));
      HeadedLast(ss);
    }
  }

  lemma {:induction false} HeadedButFirst(ss: seq<Section>)
    requires ss != [] && !LooksHeaded(ss[0].content)
    requires forall i :: 1 <= i < |ss| ==> LooksHeaded(ss[i].content)
    ensures HeadedOnly(ss) == ss[1..]
  {
    hide LooksHeaded, HeadedOnly;
    HeadedLast(ss);
    if |ss| == 1 {
      assert Init(ss) == [];
    } else {
      var front := Init(ss);
      assert front[0] == ss[0] && forall i :: 1 <= i < |front| ==> ss[i] == front[i];
      HeadedButFirst(front);
      assert front[1..] + [Last(ss)] == ss[1..];
    }
  }

  lemma {:induction false} HeadedMember(ss: seq<Section>, i: nat)
    requires i < |HeadedOnly(ss)|
    ensures exists j :: 0 <= j < |ss| && HeadedOnly(ss)[i] == ss[j] && LooksHeaded(ss[j].content)
  {
    if i < |HeadedOnly(Init(ss))| {
      HeadedMember(Init(ss), i);
      var j :| 0 <= j < |Init(ss)| && HeadedOnly(ss)[i] == Init(ss)[j] && LooksHeaded(Init(ss)[j].content);
      assert ss[j] == Init(ss)[j];
    } else {
      assert HeadedOnly(ss)[i] == ss[|ss| - 1];
    }
  }

  lemma {:induction false} HeadedFirst(ss: seq<Section>)
    requires ss != [] && LooksHeaded(ss[0].content)
    ensures HeadedOnly(ss) != [] && HeadedOnly(ss)[0] == ss[0]
  {
    if |ss| > 1 {
      HeadedFirst(Init(ss));
    } else {
      assert Init(ss) == [];
    }
  }

  lemma PreambleContent(title: string, body: seq<string>)
    requires Dropped(Buffers(Marked(body))) == 0
    ensures SplitSections(title, body) != []
    ensures SplitSections(title, body)[0].content == Trim(Join(Buffers(Marked(body))[0]))
  {
    hide SplitSections, Marked, Trim, Join, Buffers, Headings, Assemble, PathOf, HeadingText, AllBlank;
    SplitIsAssemble(title, body);
    AssembleAt(title, Headings(Marked(body)), Buffers(Marked(body)), 0);
  }

  lemma HeadedSections(title: string, body: seq<string>)
    requires ZipSafe(body) && Heads(Marked(body)) != []
    ensures var ls, ss := Marked(body), SplitSections(title, body);
            && |ss| == |Heads(ls)| + SectionIndex(ls, 0)
            && HeadedOnly(ss) == ss[SectionIndex(ls, 0)..]
  {
    hide SplitSections, LooksHeaded, Trim, Join, Bare, Marked, Heads, Headings, Buffers, HeadedOnly, AllBlank, PathOf,
         HeadingText;
    var ls, ss := Marked(body), SplitSections(title, body);
    SectionOfHeading(title, body, 0);
    forall x | SectionIndex(ls, 0) <= x < |ss|
      ensures LooksHeaded(ss[x].content)
    {
      SectionLooksHeaded(title, body, x - SectionIndex(ls, 0));
    }
    if SectionIndex(ls, 0) == 0 {
      HeadedAll(ss);
      assert ss[0..] == ss;
    } else {
      PreambleContent(title, body);
      HeadedButFirst(ss);
    }
  }

  /** Under the side conditions a found line is the heading that opens the unique
      section with the anchor, and a line is found whenever there is one. */
  lemma FoundLineOpens(title: string, body: seq<string>, anchor: string, line: nat)
    requires ZipSafe(body)
    ensures FindHeading(title, body, anchor) == Some(line) <==> Opens(title, body, line, anchor)
  {
    hide SplitSections, ZipSafe, Marked, HeadedOnly, Heads, Buffers, AllBlank, IndexOfAnchor;
    var ls, ss := Marked(body), SplitSections(title, body);
    if Heads(ls) != [] {
      HeadedSections(title, body);
      AnchorsAndOrdinals(title, body);
      var p := SectionIndex(ls, 0);
      var tt := ss[p..];
      assert DistinctAnchors(tt);
      forall i | 0 <= i < |Heads(ls)|
        ensures SectionIndex(ls, i) == p + i && tt[i] == ss[SectionIndex(ls, i)]
        ensures IndexOfAnchor(tt, tt[i].anchor) == Some(i)
      {
        IndexOfDistinct(tt, i);
      }
    }
  }

  ghost predicate ZipRightAt(title: string, body: seq<string>, anchor: string, line: nat) {
    FindHeading(title, body, anchor) == Some(line) <==> Opens(title, body, line, anchor)
  }

  lemma HeadedPreambleMisleads(title: string, body: seq<string>)
    requires Heads(Marked(body)) != [] && LooksHeaded(Trim(Join(Buffers(Marked(body))[0])))
    ensures SplitSections(title, body) != []
    ensures !ZipRightAt(title, body, SplitSections(title, body)[0].anchor, Heads(Marked(body))[0])
  {
    hide SplitSections, LooksHeaded, Marked, Heads, Buffers, AllBlank, IndexOfAnchor, HeadedOnly, Trim, Join;
    var ss := SplitSections(title, body);
    HeadedNotDropped(Buffers(Marked(body))[0]);
    PreambleContent(title, body);
    AnchorsAndOrdinals(title, body);
    HeadedFirst(ss);
    IndexOfFirst(HeadedOnly(ss));
  }

  lemma BareHeadingMisleads(title: string, body: seq<string>, i: nat)
    requires i < |Heads(Marked(body))| && Bare(Headings(Marked(body))[i], Buffers(Marked(body))[i + 1])
    ensures 0 <= SectionIndex(Marked(body), i) < |SplitSections(title, body)|
    ensures !ZipRightAt(title, body, SplitSections(title, body)[SectionIndex(Marked(body), i)].anchor,
                        Heads(Marked(body))[i])
  {
    hide SplitSections, LooksHeaded, Marked, Bare, Heads, Buffers, AllBlank, IndexOfAnchor, HeadedOnly;
    var ss := SplitSections(title, body);
    SectionLooksHeaded(title, body, i);
    AnchorsAndOrdinals(title, body);
    var anchor := ss[SectionIndex(Marked(body), i)].anchor;
    forall x | 0 <= x < |HeadedOnly(ss)|
      ensures HeadedOnly(ss)[x].anchor != anchor
    {
      HeadedMember(ss, x);
    }
    IndexOfNone(HeadedOnly(ss), anchor);
  }

  lemma HeadedNotDropped(preamble: seq<string>)
    requires LooksHeaded(Trim(Join(preamble)))
    ensures !AllBlank(preamble)
  {
    BlankJoin(preamble);
    TrimBlank(Join(preamble));
  }

  lemma {:induction false} IndexOfFirst(ss: seq<Section>)
    requires ss != []
    ensures IndexOfAnchor(ss, ss[0].anchor) == Some(0)
  {
    if |ss| > 1 {
      IndexOfFirst(Init(ss));
    } else {
      assert Init(ss) == [];
    }
  }

  /** The two side conditions are exactly what the zip needs. */
  lemma ZipRightIffSafe(title: string, body: seq<string>)
    ensures ZipSafe(body) <==> forall anchor, line: nat :: ZipRightAt(title, body, anchor, line)
  {
    if ZipSafe(body) {
      hide FindHeading, Opens, ZipSafe;
      forall anchor, line: nat
        ensures ZipRightAt(title, body, anchor, line)
      {
        FoundLineOpens(title, body, anchor, line);
      }
    } else {
      hide ZipRightAt, Bare, LooksHeaded, Marked;
      var ls := Marked(body);
      if LooksHeaded(Trim(Join(Buffers(ls)[0]))) {
        HeadedPreambleMisleads(title, body);
      } else {
        var i: nat :| i < |Headings(ls)| && Bare(Headings(ls)[i], Buffers(ls)[i + 1]);
        BareHeadingMisleads(title, body, i);
      }
    }
  }
}
