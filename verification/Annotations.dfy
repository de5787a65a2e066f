/** What inserting a conflict marker leaves alone when the title is read anew from the
    annotated document: its sections but for one content, and the other markers; and exactly
    when it leaves them alone. */
module Annotations {
  import opened TextLines
  import opened HeadingPaths
  import opened Outline
  import opened Sections
  import opened AnchorLines
  import opened Titles
  import opened ConflictMarkers
  import opened MarkerEffects
  import opened TwoMarkers
  import opened MarkerTitles
  import F = Frontmatter

  /** The sections of a document, under the title it gives itself. */
  function SectionsOf(content: string): seq<Section> {
    DocSections(TitleOf(content), content)
  }

  predicate BlankPreamble(body: seq<string>) {
    AllBlank(Buffers(Marked(body))[0])
  }

  // ---- What the title reaches ----------------------------------------------

  lemma {:induction false} AssembleWithoutTitle(t: string, u: string, hs: seq<Heading>, bs: seq<seq<string>>)
    requires 0 < |bs| <= |hs| + 1 && AllBlank(bs[0])
    ensures Assemble(t, hs, bs) == Assemble(u, hs, bs)
  {
    hide NewSection, AllBlank;
    if |bs| > 1 {
      AssembleWithoutTitle(t, u, hs, Init(bs));
    } else {
      assert Init(bs) == [];
    }
  }

  /** A document whose preamble is blank has the same sections under every title. */
  lemma BlankPreambleHidesTitle(t: string, u: string, body: seq<string>)
    requires BlankPreamble(body)
    ensures SplitSections(t, body) == SplitSections(u, body)
  {
    hide SplitSections, Assemble, Marked, Buffers, AllBlank;
    SplitIsAssemble(t, body);
    SplitIsAssemble(u, body);
    AssembleWithoutTitle(t, u, Headings(Marked(body)), Buffers(Marked(body)));
  }

  /** In every other one the first section carries it. */
  lemma PreambleShowsTitle(title: string, body: seq<string>)
    requires !BlankPreamble(body)
    ensures SplitSections(title, body) != [] && SplitSections(title, body)[0].heading == title
  {
    hide SplitSections, Assemble, Marked, Buffers, AllBlank;
    var hs, bs := Headings(Marked(body)), Buffers(Marked(body));
    SplitIsAssemble(title, body);
    AssembleAt(title, hs, bs, 0);
    assert hs[..0] == [];
  }

  // ---- Inertness -----------------------------------------------------------

  /** Re-splitting gives the same number of sections, with the same headings, paths,
      anchors and ordinals, and at most one content changed. */
  predicate SameButOneContent(content: string, after: string) {
    exists at :: 0 <= at < |SectionsOf(content)| && SameExceptContent(SectionsOf(content), SectionsOf(after), at)
  }

  /** Under one title an insertion changes one content, and not the preamble's
      blankness, unless the document has no section at all. */
  lemma InertUnderOneTitle(title: string, content: string, args: Args) returns (at: int)
    requires !HasMarker(content, args.conflictId) && OneLine(args.conflictId) && DocSections(title, content) != []
    ensures var after := Insert(title, content, args);
            && 0 <= at < |DocSections(title, content)|
            && SameExceptContent(DocSections(title, content), DocSections(title, after), at)
            && BlankPreamble(BodyLines(after)) == BlankPreamble(BodyLines(content))
  {
    hide Insert, HasMarker, OneLine, SplitSections, BodyLines, SameExceptContent, Block, BlankPreamble, FindAnchorLine;
    if FindAnchorLine(title, content, args.anchor).Some? {
      at := FoundInsertIsInert(title, content, args);
      FoundPreamble(title, content, args);
    } else {
      at := |DocSections(title, content)| - 1;
      FallbackInsertIsInert(title, content, args);
      EndPreamble(title, content, args);
    }
  }

  lemma FoundPreamble(title: string, content: string, args: Args)
    requires !HasMarker(content, args.conflictId) && OneLine(args.conflictId)
    requires FindAnchorLine(title, content, args.anchor).Some?
    ensures BlankPreamble(BodyLines(Insert(title, content, args))) == BlankPreamble(BodyLines(content))
  {
    hide Insert, FindAnchorLine, HasMarker, OneLine, Block, Marked, Heads, Headings, Buffers, AllBlank, BodyLines,
         Split, SplitSections, SectionIndex, ZipSafe;
    var i := BodyAfterInsert(title, content, args);
  }

  lemma EndPreamble(title: string, content: string, args: Args)
    requires !HasMarker(content, args.conflictId) && OneLine(args.conflictId)
    requires FindAnchorLine(title, content, args.anchor).None? && DocSections(title, content) != []
    ensures BlankPreamble(BodyLines(Insert(title, content, args))) == BlankPreamble(BodyLines(content))
  {
    hide Insert, FindAnchorLine, HasMarker, OneLine, Block, Marked, Heads, Headings, Buffers, AllBlank, BodyLines,
         Split, F.OpenBody, TrimLines, AllEmpty, F.NoDashes, SplitSections;
    var x, blank := BodyAfterFallback(title, content, args);
    FallbackNoDashes(args);
    EmptyInert(blank);
    TailBuffers(x, blank);
    TailBuffers(x, Block(args) + [""]);
    var b := Buffers(Marked(x));
    if |b| == 1 {
      AllBlankConcat(b[0], blank);
      AllBlankConcat(b[0], Block(args) + [""]);
      OnlyPreamble(title, x + blank);
    } else {
      assert Buffers(Marked(x + blank))[0] == b[0] == Buffers(Marked(x + (Block(args) + [""])))[0];
    }
  }

  /** Without headings there is a section only if the preamble is not blank. */
  lemma OnlyPreamble(title: string, body: seq<string>)
    requires |Buffers(Marked(body))| == 1 && SplitSections(title, body) != []
    ensures !BlankPreamble(body)
  {
    hide Marked, Buffers, AllBlank, SplitSections;
    SplitIsAssemble(title, body);
    AssembleLength(title, Headings(Marked(body)), Buffers(Marked(body)));
  }

  /** An insertion is inert exactly when the document has a section, and the title
      cannot be seen in it or stays what it was. */
  lemma AnnotationIsInertIff(content: string, args: Args)
    requires !HasMarker(content, args.conflictId) && OneLine(args.conflictId)
    ensures SameButOneContent(content, Annotate(content, args))
       <==> && SectionsOf(content) != []
            && (BlankPreamble(BodyLines(content)) || TitleOf(Annotate(content, args)) == TitleOf(content))
  {
    hide Insert, HasMarker, OneLine, SplitSections, BodyLines, SameExceptContent, Block, BlankPreamble, TitleOf;
    var t, after := TitleOf(content), Annotate(content, args);
    var u := TitleOf(after);
    if SectionsOf(content) != [] {
      var at := InertUnderOneTitle(t, content, args);
      if BlankPreamble(BodyLines(content)) {
        BlankPreambleHidesTitle(t, u, BodyLines(after));
        assert SameExceptContent(SectionsOf(content), SectionsOf(after), at);
      } else {
        PreambleShowsTitle(t, BodyLines(content));
        PreambleShowsTitle(u, BodyLines(after));
        if u != t {
          FirstDiffers(SectionsOf(content), SectionsOf(after));
        } else {
          assert SameExceptContent(SectionsOf(content), SectionsOf(after), at);
        }
      }
    }
  }

  lemma FirstDiffers(ss: seq<Section>, tt: seq<Section>)
    requires ss != [] && tt != [] && ss[0].heading != tt[0].heading
    ensures forall at :: !SameExceptContent(ss, tt, at)
  {
  }

  /** In terms of the document, the anchor and the summary alone. */
  lemma AnnotationIsInertWhen(content: string, args: Args)
    requires !HasMarker(content, args.conflictId) && OneLine(args.conflictId) && NoLineEnd(args.conflictId)
    ensures SameButOneContent(content, Annotate(content, args))
       <==> SectionsOf(content) != [] && (BlankPreamble(BodyLines(content)) || KeepsTitle(content, args))
  {
    hide Annotate, HasMarker, OneLine, SectionsOf, BodyLines, BlankPreamble, TitleOf, KeepsTitle, SameButOneContent;
    AnnotationIsInertIff(content, args);
    TitleKeptIff(content, args);
  }

  // ---- The changed content -------------------------------------------------

  lemma {:induction false} AssembledContents(t: string, u: string, hs: seq<Heading>, bs: seq<seq<string>>)
    requires |bs| <= |hs| + 1
    ensures var ss, tt := Assemble(t, hs, bs), Assemble(u, hs, bs);
            |ss| == |tt| && forall i :: 0 <= i < |ss| ==> ss[i].content == tt[i].content
  {
    hide AllBlank, PathOf, HeadingText, Trim, Join;
    if bs != [] {
      AssembledContents(t, u, hs, Init(bs));
    }
  }

  /** No content depends on the title. */
  lemma ContentsIgnoreTitle(t: string, u: string, body: seq<string>)
    ensures var ss, tt := SplitSections(t, body), SplitSections(u, body);
            |ss| == |tt| && forall i :: 0 <= i < |ss| ==> ss[i].content == tt[i].content
  {
    hide SplitSections, Assemble, Marked, Buffers;
    SplitIsAssemble(t, body);
    SplitIsAssemble(u, body);
    AssembledContents(t, u, Headings(Marked(body)), Buffers(Marked(body)));
  }

  /** The content that changes is the found heading's: its line, then the marker, then
      what stood under it. */
  lemma FoundContent(content: string, args: Args) returns (i: nat, rest: seq<string>)
    requires Ready(content, args)
    ensures var body, ss, tt := BodyLines(content), SectionsOf(content), SectionsOf(Annotate(content, args));
            && i < |Heads(Marked(body))|
            && FindHeading(TitleOf(content), body, args.anchor) == Some(Heads(Marked(body))[i])
            && 0 <= SectionIndex(Marked(body), i) < |ss| == |tt|
            && var line, at := body[Heads(Marked(body))[i]], SectionIndex(Marked(body), i);
               && ss[at].content == Trim(Join([line] + rest))
               && tt[at].content == Trim(Join([line] + Block(args) + rest))
  {
    hide Ready, Annotate, AnchorLineOf, Block, Split, F.Put, Below, Marked, Heads, Headings, Buffers, FindHeading,
         BodyLines, SplitSections, SectionIndex, TitleOf, Join, Trim;
    var k;
    i, k := Placed(content, args);
    var title, body, after := TitleOf(content), BodyLines(content), BodyLines(Annotate(content, args));
    rest := HeadingContent(title, body, after, i, Block(args));
    ContentsIgnoreTitle(title, TitleOf(Annotate(content, args)), after);
  }

  /** Without a heading to go under, the marker follows the last content. */
  lemma EndContent(content: string, args: Args) returns (rest: seq<string>, blank: seq<string>)
    requires !HasMarker(content, args.conflictId) && OneLine(args.conflictId)
    requires AnchorLineOf(content, args.anchor).None? && SectionsOf(content) != []
    ensures var ss, tt := SectionsOf(content), SectionsOf(Annotate(content, args));
            && |ss| == |tt| && AllEmpty(blank)
            && Last(ss).content == Trim(Join(rest + blank))
            && Last(tt).content == Trim(Join(rest + (Block(args) + [""])))
  {
    hide Insert, FindAnchorLine, HasMarker, OneLine, Block, BodyLines, SplitSections, TitleOf, Join, Trim, Marked,
         Buffers, F.OpenBody, F.NoDashes, TrimLines, AllBlank, AllEmpty, Split;
    var title, after := TitleOf(content), Annotate(content, args);
    var x;
    x, blank := BodyAfterFallback(title, content, args);
    FallbackNoDashes(args);
    EmptyInert(blank);
    rest := Last(Buffers(Marked(x)));
    FallbackInsertIsInert(title, content, args);
    LastContent(title, x, blank);
    LastContent(title, x, Block(args) + [""]);
    ContentsIgnoreTitle(title, TitleOf(after), BodyLines(after));
  }

  lemma LastContent(title: string, x: seq<string>, extra: seq<string>)
    requires Inert(extra) && SplitSections(title, x + extra) != []
    ensures Last(SplitSections(title, x + extra)).content == Trim(Join(Last(Buffers(Marked(x))) + extra))
  {
    hide Join, Trim, Marked, Buffers, Headings, Assemble, SplitSections, Inert, AllBlank;
    var hs, bs := Headings(Marked(x + extra)), Buffers(Marked(x + extra));
    TailBuffers(x, extra);
    SplitIsAssemble(title, x + extra);
    AssembleLength(title, hs, bs);
    AssembleAt(title, hs, bs, |bs| - 1);
  }

  lemma HeadingContent(title: string, before: seq<string>, after: seq<string>, i: nat, extra: seq<string>)
    returns (rest: seq<string>)
    requires Below(Marked(before), Marked(after), i, extra)
    ensures var ss, tt := SplitSections(title, before), SplitSections(title, after);
            var at := SectionIndex(Marked(before), i);
            && 0 <= at < |ss| == |tt|
            && var line := before[Heads(Marked(before))[i]];
               && ss[at].content == Trim(Join([line] + rest))
               && tt[at].content == Trim(Join([line] + extra + rest))
  {
    hide Marked, Heads, Headings, Buffers, SplitSections, Join, Trim, PathOf, HeadingText, SectionIndex;
    SectionsBelow(title, before, after, i, extra);
    SectionOfHeading(title, before, i);
    SectionOfHeading(title, after, i);
    rest := HeadingBuffer(before, i);
    var b, a := Buffers(Marked(before))[i + 1], Buffers(Marked(after))[i + 1];
    assert b[..1] == [b[0]] && b[1..] == rest;
    assert a == b[..1] + extra + b[1..];
  }

  lemma HeadingBuffer(body: seq<string>, i: nat) returns (rest: seq<string>)
    requires i < |Heads(Marked(body))|
    ensures Buffers(Marked(body))[i + 1] == [body[Heads(Marked(body))[i]]] + rest
  {
    hide Marked, Heads, Headings, Buffers, EndOf, Plain;
    BufferAt(Marked(body), i);
    PlainMarked(body);
    rest := body[Heads(Marked(body))[i] + 1..EndOf(Marked(body), i)];
  }

  // ---- Independence --------------------------------------------------------

  /** No anchor is found elsewhere for the title the marker leaves. */
  lemma SameTitleFinds(t: string, u: string, content: string, anchor: string)
    requires t == u || BlankPreamble(BodyLines(content))
    ensures FindAnchorLine(t, content, anchor) == FindAnchorLine(u, content, anchor)
  {
    hide SplitSections, BodyLines, HeadedOnly, IndexOfAnchor, Marked, Heads, Split, BlankPreamble;
    if t != u {
      BlankPreambleHidesTitle(t, u, BodyLines(content));
    }
  }

  /** The heading a marker for this anchor goes under is blank above a blank body. */
  ghost predicate LandsOnBare(content: string, anchor: string) {
    var body := BodyLines(content);
    exists i: nat :: BareHeading(body, i) && FindHeading(TitleOf(content), body, anchor) == Some(Heads(Marked(body))[i])
  }

  lemma SameHead(ls: seq<Line>, i: nat, j: nat)
    requires i < |Heads(ls)| && j < |Heads(ls)| && Heads(ls)[i] == Heads(ls)[j]
    ensures i == j
  {
    if i < j {
      HeadsOrdered(ls, i, j);
    } else if j < i {
      HeadsOrdered(ls, j, i);
    }
  }

  lemma BareInRange(body: seq<string>, j: nat)
    requires BareHeading(body, j)
    ensures j < |Heads(Marked(body))|
  {
  }

  lemma NotBareAt(content: string, a: Args, i: nat)
    requires i < |Heads(Marked(BodyLines(content)))|
    requires FindHeading(TitleOf(content), BodyLines(content), a.anchor) == Some(Heads(Marked(BodyLines(content)))[i])
    ensures LandsOnBare(content, a.anchor) <==> BareHeading(BodyLines(content), i)
  {
    hide FindHeading, BodyLines, TitleOf, BareHeading, Marked, Heads;
    var body := BodyLines(content);
    forall j: nat | BareHeading(body, j)
                    && (BareInRange(body, j);
                        FindHeading(TitleOf(content), body, a.anchor) == Some(Heads(Marked(body))[j]))
      ensures j == i
    {
      SameHead(Marked(body), i, j);
    }
  }

  /** Under a heading that is not bare, A moves no anchor of any title. */
  lemma SecondUnderTitle(content: string, a: Args, anchor: string)
    requires Ready(content, a) && !LandsOnBare(content, a.anchor)
    ensures SecondSpot(content, a, anchor) == FindAnchorLine(TitleOf(Annotate(content, a)), content, anchor)
  {
    hide Ready, Annotate, Block, Split, F.Put, Below, Marked, Heads, FindHeading, BodyLines, TitleOf, LandsOnBare,
         BareHeading, HeadedOnly, IndexOfAnchor, SplitSections, HeadAt, Join, AnchorLineOf;
    var i, k := Placed(content, a);
    var withA := Annotate(content, a);
    var u, body, after := TitleOf(withA), BodyLines(content), BodyLines(withA);
    assert OneLine(a.conflictId) by {
      ReadyIsOneLine(content, a);
    }
    BlockNotBlank(a);
    NotBareAt(content, a, i);
    FindMoved(u, body, after, i, Block(a), anchor);
    FindInDocument(u, content, anchor);
    FindInDocument(u, withA, anchor);
    BackShifted(FindHeading(u, body, anchor), Heads(Marked(body))[i], |Block(a)|, |Split(content)| - |body|);
    AnchorLineIs(withA, anchor);
  }

  lemma FindInDocument(title: string, content: string, anchor: string)
    ensures |Split(content)| >= |BodyLines(content)|
    ensures FindAnchorLine(title, content, anchor)
         == Offset(FindHeading(title, BodyLines(content), anchor), |Split(content)| - |BodyLines(content)|)
  {
    hide FindHeading, Split, F.CutLines;
  }

  /** With A inserted under a heading that is not bare and then B, stripping A leaves
      the document with only B exactly when: B's marker was there from the start; or
      A's text does not hold B's opening tag, and B's anchor leads to one spot of the
      original document under its own title and under the title A leaves it with. */
  lemma MarkersIndependent(content: string, a: Args, b: Args)
    requires Ready(content, a) && OneLine(b.conflictId) && !LandsOnBare(content, a.anchor)
    ensures Independent(content, a, b)
       <==> || HasMarker(content, b.conflictId)
            || (!Includes(RenderMarker(a), OpenTag(b.conflictId))
                && SameSpot(Split(content), AnchorLineOf(content, b.anchor),
                            FindAnchorLine(TitleOf(Annotate(content, a)), content, b.anchor)))
  {
    hide Ready, Annotate, Independent, HasMarker, SameSpot, AnchorLineOf, FindAnchorLine, SecondSpot, LandsOnBare,
         Split, Includes, RenderMarker, OpenTag, TitleOf;
    MarkersIndependentExactly(content, a, b);
    SecondUnderTitle(content, a, b.anchor);
  }

  /** In particular when the title cannot be seen or stays. */
  lemma MarkersIndependentIfTitleStays(content: string, a: Args, b: Args)
    requires Ready(content, a) && OneLine(b.conflictId) && !LandsOnBare(content, a.anchor)
    requires BlankPreamble(BodyLines(content)) || TitleOf(Annotate(content, a)) == TitleOf(content)
    ensures Independent(content, a, b)
       <==> HasMarker(content, b.conflictId) || !Includes(RenderMarker(a), OpenTag(b.conflictId))
  {
    hide Ready, Annotate, Independent, HasMarker, FindAnchorLine, LandsOnBare, Split, Includes, RenderMarker, OpenTag,
         TitleOf, BlankPreamble, BodyLines;
    MarkersIndependent(content, a, b);
    SameTitleFinds(TitleOf(content), TitleOf(Annotate(content, a)), content, b.anchor);
    AnchorLineIs(content, b.anchor);
  }

  lemma FreshId(content: string) returns (id: string)
    ensures OneLine(id) && |id| > |content| && !Includes(content, OpenTag(id))
  {
    id := seq(|content| + 1, _ => 'x');
  }

  lemma IncludesInConcat(a: string, b: string, x: string)
    requires !Includes(a + b, x)
    ensures !Includes(a, x) && !Includes(b, x)
  {
    assert "" + a + b == a + b && a + b + "" == a + b;
    if Includes(a, x) {
      var i :| OccursAt(a, x, i);
      OccursInside("", a, b, x, i);
    } else if Includes(b, x) {
      var i :| OccursAt(b, x, i);
      OccursInside(a, b, "", x, i);
    }
  }

  /** A is independent of every separate marker, whatever its anchor. */
  ghost predicate AllIndependent(content: string, a: Args) {
    forall b: Args :: Separate(content, a, b) ==> Independent(content, a, b)
  }

  ghost predicate MovesNoSpot(content: string, a: Args) {
    forall x: string :: SameSpot(Split(content), AnchorLineOf(content, x), SecondSpot(content, a, x))
  }

  /** A is independent of every separate marker exactly when it moves no anchor off
      its spot. */
  lemma AllIndependentIff(content: string, a: Args)
    requires Ready(content, a)
    ensures AllIndependent(content, a) <==> MovesNoSpot(content, a)
  {
    hide Ready, Annotate, Independent, HasMarker, SameSpot, AnchorLineOf, SecondSpot, Split, Includes, RenderMarker,
         OpenTag, OneLine;
    if AllIndependent(content, a) {
      var id := FreshId(content + RenderMarker(a));
      IncludesInConcat(content, RenderMarker(a), OpenTag(id));
      forall x: string
        ensures SameSpot(Split(content), AnchorLineOf(content, x), SecondSpot(content, a, x))
      {
        var b := Args(id, x, "");
        HasMarkerIs(content, id);
        assert Separate(content, a, b);
        MarkersIndependentExactly(content, a, b);
      }
    }
    if MovesNoSpot(content, a) {
      forall b: Args | Separate(content, a, b)
        ensures Independent(content, a, b)
      {
        MarkersIndependentExactly(content, a, b);
      }
    }
  }

  lemma HasMarkerIs(content: string, id: string)
    ensures HasMarker(content, id) <==> Includes(content, OpenTag(id))
  {
  }

  /** Heading i is bare, the zip has a heading line for it once it is seen, and that
      line is not the last of a document that ends in one line break. */
  predicate Displaces(content: string, i: nat) {
    var lines, body := Split(content), BodyLines(content);
    var heads, h := Heads(Marked(body)), HeadedAbove(TitleOf(content), body, i);
    && BareHeading(body, i)
    && h < |heads|
    && !FinalLine(lines, |lines| - |body| + heads[h])
  }

  /** A bare heading displaces the anchor of the section it heads itself. */
  lemma DisplacedAnchor(content: string, a: Args, i: nat)
    requires Ready(content, a) && i < |Heads(Marked(BodyLines(content)))| && Displaces(content, i)
    requires FindHeading(TitleOf(content), BodyLines(content), a.anchor) == Some(Heads(Marked(BodyLines(content)))[i])
    requires BlankPreamble(BodyLines(content)) || TitleOf(Annotate(content, a)) == TitleOf(content)
    ensures !MovesNoSpot(content, a)
  {
    hide Ready, Annotate, SameSpot, AnchorLineOf, SecondSpot, Split, BodyLines, TitleOf, BlankPreamble, Marked, Heads,
         BareHeading, HeadedAbove, FindHeading, FinalLine, AnchorAt, Offset, HeadAt, SplitSections, HeadedOnly,
         IndexOfAnchor, Pushed;
    var title, body, lines := TitleOf(content), BodyLines(content), Split(content);
    var x, h := AnchorAt(title, body, i), HeadedAbove(title, body, i);
    SpotsOfAnchor(content, a, i, x);
    SpotsDiffer(lines, Heads(Marked(body)), h, |lines| - |body|);
    assert !SameSpot(lines, AnchorLineOf(content, x), SecondSpot(content, a, x));
  }

  lemma SpotsDiffer(lines: seq<string>, heads: seq<nat>, h: nat, front: nat)
    requires h < |heads| && !FinalLine(lines, front + heads[h])
    ensures !SameSpot(lines, Offset(HeadAt(heads, None), front), Offset(HeadAt(heads, Some(h)), front))
  {
  }

  /** Both spots of an anchor, when A stands under bare heading i. */
  lemma SpotsOfAnchor(content: string, a: Args, i: nat, x: string)
    requires Ready(content, a) && i < |Heads(Marked(BodyLines(content)))| && BareHeading(BodyLines(content), i)
    requires FindHeading(TitleOf(content), BodyLines(content), a.anchor) == Some(Heads(Marked(BodyLines(content)))[i])
    requires BlankPreamble(BodyLines(content)) || TitleOf(Annotate(content, a)) == TitleOf(content)
    ensures var lines, body, title := Split(content), BodyLines(content), TitleOf(content);
            var heads, h, front := Heads(Marked(body)), HeadedAbove(title, body, i), |lines| - |body|;
            var index := IndexOfAnchor(HeadedOnly(SplitSections(title, body)), x);
            && front >= 0
            && AnchorLineOf(content, x) == Offset(HeadAt(heads, index), front)
            && (x == AnchorAt(title, body, i) ==> index == None)
            && SecondSpot(content, a, x)
            == Offset(HeadAt(heads, if x == AnchorAt(title, body, i) then Some(h) else Pushed(index, h)), front)
  {
    hide Ready, Annotate, Block, Split, F.Put, Below, Marked, Heads, FindHeading, BodyLines, TitleOf, BareHeading,
         HeadedOnly, IndexOfAnchor, SplitSections, HeadAt, Join, AnchorLineOf, HeadedAbove, AnchorAt, BlankPreamble,
         Pushed;
    var j, k := Placed(content, a);
    var withA := Annotate(content, a);
    var t, u, body, after := TitleOf(content), TitleOf(withA), BodyLines(content), BodyLines(withA);
    SameHead(Marked(body), i, j);
    assert OneLine(a.conflictId) by {
      ReadyIsOneLine(content, a);
    }
    BlockNotBlank(a);
    SameTitleFindsAfter(content, a, x);
    FindPushed(t, body, after, i, Block(a), x);
    FindInDocument(t, content, x);
    FindInDocument(t, withA, x);
    AnchorLineIs(content, x);
    AnchorLineIs(withA, x);
    FindIsHeadAt(t, after, x);
    var index := IndexOfAnchor(HeadedOnly(SplitSections(t, after)), x);
    MovedHeadAt(Marked(body), Marked(after), i, Block(a), index);
    BackShifted(HeadAt(Heads(Marked(body)), index), Heads(Marked(body))[i], |Block(a)|, |Split(content)| - |body|);
  }

  lemma SameTitleFindsAfter(content: string, a: Args, x: string)
    requires Ready(content, a)
    requires BlankPreamble(BodyLines(content)) || TitleOf(Annotate(content, a)) == TitleOf(content)
    ensures FindAnchorLine(TitleOf(Annotate(content, a)), Annotate(content, a), x)
         == FindAnchorLine(TitleOf(content), Annotate(content, a), x)
  {
    hide Insert, FindAnchorLine, BlankPreamble, BodyLines, TitleOf, HasMarker, OneLine;
    FoundPreamble(TitleOf(content), content, a);
    SameTitleFinds(TitleOf(Annotate(content, a)), TitleOf(content), Annotate(content, a), x);
  }

  /** Nothing can be found below the last heading line. */
  lemma FinalIsLastHead(content: string, h: nat)
    requires var lines, body := Split(content), BodyLines(content);
             var heads := Heads(Marked(body));
             h < |heads| && |lines| >= |body| && FinalLine(lines, |lines| - |body| + heads[h])
    ensures h + 1 == |Heads(Marked(BodyLines(content)))|
  {
    hide Split, F.CutLines, Marked, Heads;
    var body := BodyLines(content);
    if h + 1 < |Heads(Marked(body))| {
      HeadLine(content, h + 1);
      HeadsOrdered(Marked(body), h, h + 1);
    }
  }

  /** One step on in the zip changes no spot if it starts past the headings, or at
      a last one that is also the last line. */
  lemma PushedSpot(lines: seq<string>, heads: seq<nat>, h: nat, index: Option<nat>, front: nat)
    requires h < |heads| ==> h + 1 == |heads| && FinalLine(lines, front + heads[h])
    ensures SameSpot(lines, Offset(HeadAt(heads, index), front), Offset(HeadAt(heads, Pushed(index, h)), front))
    ensures SameSpot(lines, None, Offset(HeadAt(heads, Some(h)), front))
  {
    hide FinalLine;
  }

  /** Under any other heading A moves no anchor off its spot. */
  lemma KeepsSpot(content: string, a: Args, i: nat, x: string)
    requires Ready(content, a) && i < |Heads(Marked(BodyLines(content)))| && !Displaces(content, i)
    requires FindHeading(TitleOf(content), BodyLines(content), a.anchor) == Some(Heads(Marked(BodyLines(content)))[i])
    requires BlankPreamble(BodyLines(content)) || TitleOf(Annotate(content, a)) == TitleOf(content)
    ensures SameSpot(Split(content), AnchorLineOf(content, x), SecondSpot(content, a, x))
  {
    hide Ready, Annotate, AnchorLineOf, SecondSpot, Split, BodyLines, TitleOf, BlankPreamble, Marked, Heads,
         BareHeading, HeadedAbove, FindHeading, FinalLine, FindAnchorLine, LandsOnBare, AnchorAt, Pushed, HeadAt,
         SameSpot, SplitSections, HeadedOnly, IndexOfAnchor;
    var title, body, lines := TitleOf(content), BodyLines(content), Split(content);
    NotBareAt(content, a, i);
    if BareHeading(body, i) {
      SpotsOfAnchor(content, a, i, x);
      var h, heads := HeadedAbove(title, body, i), Heads(Marked(body));
      if h < |heads| {
        FinalIsLastHead(content, h);
      }
      PushedSpot(lines, heads, h, IndexOfAnchor(HeadedOnly(SplitSections(title, body)), x), |lines| - |body|);
      NoHead(heads, |lines| - |body|);
    } else {
      SecondUnderTitle(content, a, x);
      SameTitleFinds(title, TitleOf(Annotate(content, a)), content, x);
      AnchorLineIs(content, x);
      SpotItself(lines, AnchorLineOf(content, x));
    }
  }

  lemma NoHead(heads: seq<nat>, front: nat)
    ensures Offset(HeadAt(heads, None), front) == None
  {
  }

  lemma SpotItself(lines: seq<string>, p: Option<nat>)
    ensures SameSpot(lines, p, p)
  {
  }

  /** Under heading i, with the title out of sight or unchanged, A is independent of
      every separate marker exactly when heading i displaces no anchor: bare headings
      do, unless nothing is left in the zip for the section they put in view. */
  lemma AllIndependentUnder(content: string, a: Args, i: nat)
    requires Ready(content, a) && i < |Heads(Marked(BodyLines(content)))|
    requires FindHeading(TitleOf(content), BodyLines(content), a.anchor) == Some(Heads(Marked(BodyLines(content)))[i])
    requires BlankPreamble(BodyLines(content)) || TitleOf(Annotate(content, a)) == TitleOf(content)
    ensures AllIndependent(content, a) <==> !Displaces(content, i)
  {
    hide Ready, Annotate, AnchorLineOf, SecondSpot, BodyLines, TitleOf, BlankPreamble, Marked, Heads, FindHeading,
         Displaces, AllIndependent, SameSpot, Split;
    AllIndependentIff(content, a);
    if Displaces(content, i) {
      DisplacedAnchor(content, a, i);
    } else {
      forall x: string
        ensures SameSpot(Split(content), AnchorLineOf(content, x), SecondSpot(content, a, x))
      {
        KeepsSpot(content, a, i, x);
      }
    }
  }
}
