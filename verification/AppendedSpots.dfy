/** Where a second marker goes after one appended to the document, told on the document
    as it was; and when the two are independent. An appended marker is text under the last
    heading: it moves no line above it, but it puts a bare last heading in view of the zip. */
module AppendedSpots {
  import opened TextLines
  import opened Outline
  import opened Sections
  import opened AnchorLines
  import opened Titles
  import opened ConflictMarkers
  import opened MarkerEffects
  import opened TwoMarkers
  import opened AppendedMarkers
  import opened Annotations
  import F = Frontmatter

  // ---- The body ------------------------------------------------------------

  /** The last heading is blank above a blank body. */
  predicate BareEnd(body: seq<string>) {
    var n := |Heads(Marked(body))|;
    n > 0 && BareHeading(body, n - 1)
  }

  function EndAnchor(title: string, body: seq<string>): string {
    var n := |Heads(Marked(body))|;
    if n > 0 then AnchorAt(title, body, n - 1) else ""
  }

  /** The heading line that the zip gives a bare last heading once it is seen. */
  function EndLine(title: string, body: seq<string>): Option<nat> {
    var heads := Heads(Marked(body));
    if |heads| > 0 then HeadAt(heads, Some(HeadedAbove(title, body, |heads| - 1))) else None
  }

  lemma TailOutline(x: seq<string>, extra: seq<string>)
    requires Inert(extra)
    ensures Heads(Marked(x + extra)) == Heads(Marked(x)) && Headings(Marked(x + extra)) == Headings(Marked(x))
    ensures |Buffers(Marked(x))| == |Heads(Marked(x))| + 1
    ensures Last(Buffers(Marked(x + extra))) == Last(Buffers(Marked(x))) + extra
    ensures |Heads(Marked(x))| > 0 ==> Buffers(Marked(x + extra))[0] == Buffers(Marked(x))[0]
  {
    hide Marked, Heads, Headings, Buffers, Inert;
    TailHeads(x, extra);
    TailBuffers(x, extra);
  }

  lemma EndIndex(title: string, body: seq<string>)
    requires |Heads(Marked(body))| > 0
    ensures SectionIndex(Marked(body), |Heads(Marked(body))| - 1) == |SplitSections(title, body)| - 1 >= 0
  {
    hide Marked, Heads, Headings, Buffers, SplitSections, Describes, AllBlank;
    SectionOfHeading(title, body, |Heads(Marked(body))| - 1);
  }

  /** The last heading's section is the last one, and looks headed unless bare. */
  lemma EndSection(title: string, body: seq<string>)
    requires |Heads(Marked(body))| > 0
    ensures var ss := SplitSections(title, body);
            && |ss| > 0 && SectionIndex(Marked(body), |Heads(Marked(body))| - 1) == |ss| - 1
            && EndAnchor(title, body) == Last(ss).anchor
            && (LooksHeaded(Last(ss).content) <==> !BareEnd(body))
  {
    hide Marked, Heads, Headings, Buffers, SplitSections, LooksHeaded, Bare, SectionIndex;
    EndIndex(title, body);
    SectionLooksHeaded(title, body, |Heads(Marked(body))| - 1);
  }

  lemma EndInView(x: seq<string>, extra: seq<string>)
    requires Inert(extra) && !AllBlank(extra) && |Heads(Marked(x))| > 0
    ensures !BareEnd(x + extra)
  {
    hide Marked, Heads, Headings, Buffers, Inert;
    TailOutline(x, extra);
    var last, b := Last(Buffers(Marked(x + extra))), Last(Buffers(Marked(x)));
    NotEmptyBuffer(x);
    assert last[1..] == b[1..] + extra;
    AllBlankConcat(b[1..], extra);
  }

  lemma NotEmptyBuffer(x: seq<string>)
    requires |Heads(Marked(x))| > 0
    ensures Last(Buffers(Marked(x))) != []
  {
    hide Marked, Heads, Buffers;
    BufferAt(Marked(x), |Heads(Marked(x))| - 1);
  }

  lemma SameFront(ss: seq<Section>, tt: seq<Section>)
    requires ss != [] && SameExceptContent(ss, tt, |ss| - 1)
    ensures tt != [] && Init(tt) == Init(ss) && Last(tt).anchor == Last(ss).anchor
  {
  }

  /** The zip before and after: the same anchors, or one more at its end. */
  lemma AppendedIndex(ss: seq<Section>, tt: seq<Section>, anchor: string)
    requires ss != [] && SameExceptContent(ss, tt, |ss| - 1) && LooksHeaded(Last(tt).content)
    requires IndexOfAnchor(HeadedOnly(ss), anchor).Some? && !LooksHeaded(Last(ss).content) ==> Last(ss).anchor != anchor
    ensures IndexOfAnchor(HeadedOnly(tt), anchor)
         == if !LooksHeaded(Last(ss).content) && anchor == Last(ss).anchor then Some(|HeadedOnly(Init(ss))|)
            else IndexOfAnchor(HeadedOnly(ss), anchor)
  {
    hide LooksHeaded, HeadedOnly, IndexOfAnchor, SameExceptContent;
    SameFront(ss, tt);
    HeadedLast(ss);
    HeadedLast(tt);
    var p := HeadedOnly(Init(ss));
    assert p + [] == p;
    IndexOfOne(Last(tt), anchor);
    IndexOfOne(Last(ss), anchor);
    IndexInConcat(p, [Last(tt)], anchor);
    IndexInConcat(p, [Last(ss)], anchor);
  }

  lemma EndHeadedAbove(title: string, body: seq<string>)
    requires |Heads(Marked(body))| > 0 && SplitSections(title, body) != []
    requires SectionIndex(Marked(body), |Heads(Marked(body))| - 1) == |SplitSections(title, body)| - 1
    ensures EndLine(title, body) == HeadAt(Heads(Marked(body)), Some(|HeadedOnly(Init(SplitSections(title, body)))|))
  {
    hide Marked, Heads, SplitSections, HeadedOnly, SectionIndex, HeadAt;
  }

  /** What the zip finds in the longer body. */
  lemma AppendedFind(title: string, x: seq<string>, blank: seq<string>, extra: seq<string>, anchor: string)
    requires AllEmpty(blank) && Inert(extra) && !AllBlank(extra)
    ensures FindHeading(title, x + extra, anchor)
         == if BareEnd(x + blank) && anchor == EndAnchor(title, x + blank) then EndLine(title, x + blank)
            else FindHeading(title, x + blank, anchor)
  {
    hide Marked, Heads, SplitSections, HeadedOnly, IndexOfAnchor, Inert, AllEmpty, LooksHeaded, BareEnd, EndAnchor,
         EndLine, SameExceptContent, SectionIndex, FindHeading, HeadAt;
    EmptyInert(blank);
    TailOutline(x, blank);
    TailOutline(x, extra);
    FindIsHeadAt(title, x + blank, anchor);
    FindIsHeadAt(title, x + extra, anchor);
    if |Heads(Marked(x))| > 0 {
      var ss, tt := SplitSections(title, x + blank), SplitSections(title, x + extra);
      EndSection(title, x + blank);
      EndSection(title, x + extra);
      EndInView(x, extra);
      TailChangesLast(title, x, blank, extra);
      SameLength(ss, tt);
      if !LooksHeaded(Last(ss).content) {
        EndElsewhere(title, x + blank, anchor);
      }
      AppendedIndex(ss, tt, anchor);
      EndHeadedAbove(title, x + blank);
    } else {
      NoHeadsFound(x + blank, IndexOfAnchor(HeadedOnly(SplitSections(title, x + blank)), anchor));
      NoHeadsFound(x + extra, IndexOfAnchor(HeadedOnly(SplitSections(title, x + extra)), anchor));
    }
  }

  lemma SameLength(ss: seq<Section>, tt: seq<Section>)
    requires SameExceptContent(ss, tt, |ss| - 1)
    ensures |ss| == |tt|
  {
  }

  lemma EndElsewhere(title: string, body: seq<string>, anchor: string)
    requires SplitSections(title, body) != [] && !LooksHeaded(Last(SplitSections(title, body)).content)
    ensures IndexOfAnchor(HeadedOnly(SplitSections(title, body)), anchor).Some? ==>
              Last(SplitSections(title, body)).anchor != anchor
  {
    hide SplitSections, LooksHeaded, HeadedOnly, IndexOfAnchor;
    if IndexOfAnchor(HeadedOnly(SplitSections(title, body)), anchor).Some? {
      AnchorElsewhere(title, body, |SplitSections(title, body)| - 1, anchor);
    }
  }

  lemma NoHeadsFound(body: seq<string>, index: Option<nat>)
    requires |Heads(Marked(body))| == 0
    ensures HeadAt(Heads(Marked(body)), index).None? && !BareEnd(body)
  {
    hide Marked, Heads;
  }

  // ---- The document --------------------------------------------------------

  /** Where an anchor leads once a marker is appended, under a title, told on the
      document without it. */
  function EndSpot(title: string, content: string, anchor: string): Option<nat> {
    var body := BodyLines(content);
    var line := if BareEnd(body) && anchor == EndAnchor(title, body) then EndLine(title, body)
                else FindHeading(title, body, anchor);
    Offset(line, |Split(content)| - |body|)
  }

  lemma NothingInNothing(title: string, blank: seq<string>, anchor: string)
    requires AllEmpty(blank)
    ensures FindHeading(title, [] + blank, anchor).None? && !BareEnd([] + blank)
  {
    hide Marked, SplitSections, HeadedOnly, IndexOfAnchor, Inert, AllEmpty;
    EmptyInert(blank);
    TailHeads([], blank);
    assert Marked([]) == [];
    NoHeadsFound([] + blank, None);
  }

  lemma OffsetSame(line: Option<nat>, front: int, other: int)
    requires line.Some? ==> front == other
    ensures Offset(line, front) == Offset(line, other)
  {
  }

  lemma AppendedSpot(content: string, a: Args, anchor: string)
    requires ReadyAtEnd(content, a)
    ensures AnchorLineOf(Annotate(content, a), anchor) == EndSpot(TitleOf(Annotate(content, a)), content, anchor)
  {
    hide FindAnchorLine, Insert, HasMarker, OneLine, Block, Split, Join, TitleOf, TrimLines, BodyLines, F.OpenBody,
         AllEmpty, FindHeading, BareEnd, EndAnchor, EndLine, Offset, Inert, F.NoDashes, AllBlank;
    var withA := Annotate(content, a);
    var u := TitleOf(withA);
    var x, blank := BodyAfterFallback(TitleOf(content), content, a);
    AppendedOnLines(content, a);
    FallbackNoDashes(a);
    AppendedFind(u, x, blank, Block(a) + [""], anchor);
    FindInDocument(u, withA, anchor);
    AnchorLineIs(withA, anchor);
    BodyFits(content, x, withA, Block(a) + [""]);
    if x == [] {
      NothingInNothing(u, blank, anchor);
    }
    OffsetSame(FindHeading(u, BodyLines(withA), anchor), |Split(withA)| - |BodyLines(withA)|,
               |Split(content)| - |BodyLines(content)|);
  }

  /** With A appended and then B inserted, stripping A leaves the document with only B
      exactly as the original document says: B's two spots are those of its anchor under
      the document's own title, and at the end under the title A leaves it with. */
  lemma AppendedIndependent(content: string, a: Args, b: Args)
    requires ReadyAtEnd(content, a) && OneLine(b.conflictId)
    ensures Independent(content, a, b)
       <==> if HasMarker(content, b.conflictId) then EndsOnce(content)
            else && !Includes(RenderMarker(a), OpenTag(b.conflictId))
                 && SameAtEnd(Split(content), AnchorLineOf(content, b.anchor),
                              EndSpot(TitleOf(Annotate(content, a)), content, b.anchor))
  {
    hide ReadyAtEnd, AnchorLineOf, Annotate, HasMarker, OneLine, OpenTag, RenderMarker, TitleOf, Split, SameAtEnd,
         Includes, EndSpot, EndsOnce, Independent;
    AppendedIndependentExactly(content, a, b);
    AppendedSpot(content, a, b.anchor);
  }

  // ---- With the title out of sight or unchanged ----------------------------

  lemma SameTitleEnds(t: string, u: string, content: string, anchor: string)
    requires t == u || BlankPreamble(BodyLines(content))
    ensures EndSpot(t, content, anchor) == EndSpot(u, content, anchor)
  {
    hide SplitSections, BodyLines, HeadedOnly, IndexOfAnchor, Marked, Heads, Split, BlankPreamble, BareHeading,
         SectionIndex, Offset, HeadAt;
    if t != u {
      BlankPreambleHidesTitle(t, u, BodyLines(content));
    }
  }

  /** Without a bare last heading an appended marker moves no anchor. */
  lemma EndSpotIs(content: string, anchor: string)
    ensures EndSpot(TitleOf(content), content, anchor)
         == if BareEnd(BodyLines(content)) && anchor == EndAnchor(TitleOf(content), BodyLines(content))
            then Offset(EndLine(TitleOf(content), BodyLines(content)), |Split(content)| - |BodyLines(content)|)
            else AnchorLineOf(content, anchor)
  {
    hide FindHeading, BareEnd, EndAnchor, EndLine, Split, BodyLines, TitleOf, FindAnchorLine, Offset;
    FindInDocument(TitleOf(content), content, anchor);
    AnchorLineIs(content, anchor);
  }

  lemma EndedOnce(content: string)
    ensures EndsOnce(content) <==> Split(content) == Ended(Split(content))
  {
    hide Split, Ended, TrimNewlines, Join;
    EndedIs(content);
  }

  lemma SameAtItself(lines: seq<string>, p: Option<nat>)
    requires lines != []
    ensures SameAtEnd(lines, p, p) <==> p.None? || lines == Ended(lines)
  {
    hide Ended;
  }

  /** Above a last heading that is not bare, B must be appended too, or the document end
      in one line break. */
  lemma AppendedIndependentIfTitleStays(content: string, a: Args, b: Args)
    requires ReadyAtEnd(content, a) && OneLine(b.conflictId) && !BareEnd(BodyLines(content))
    requires BlankPreamble(BodyLines(content)) || TitleOf(Annotate(content, a)) == TitleOf(content)
    ensures Independent(content, a, b)
       <==> if HasMarker(content, b.conflictId) then EndsOnce(content)
            else && !Includes(RenderMarker(a), OpenTag(b.conflictId))
                 && (AnchorLineOf(content, b.anchor).None? || EndsOnce(content))
  {
    hide ReadyAtEnd, AnchorLineOf, Annotate, HasMarker, OneLine, OpenTag, RenderMarker, TitleOf, Split, SameAtEnd,
         Includes, EndSpot, EndsOnce, Independent, BareEnd, BlankPreamble, BodyLines, Ended;
    AppendedIndependent(content, a, b);
    SameTitleEnds(TitleOf(content), TitleOf(Annotate(content, a)), content, b.anchor);
    EndSpotIs(content, b.anchor);
    SameAtItself(Split(content), AnchorLineOf(content, b.anchor));
    EndedOnce(content);
  }

  /** A keeps every anchor on its spot. */
  ghost predicate KeepsSpots(content: string, a: Args) {
    forall x: string ::
      SameAtEnd(Split(content), AnchorLineOf(content, x), EndSpot(TitleOf(Annotate(content, a)), content, x))
  }

  lemma AllAppendedIff(content: string, a: Args)
    requires ReadyAtEnd(content, a)
    ensures AllIndependent(content, a) <==> KeepsSpots(content, a)
  {
    hide ReadyAtEnd, Annotate, Independent, HasMarker, SameAtEnd, AnchorLineOf, EndSpot, Split, Includes, RenderMarker,
         OpenTag, OneLine, TitleOf, EndsOnce;
    if AllIndependent(content, a) {
      var id := FreshId(content + RenderMarker(a));
      IncludesInConcat(content, RenderMarker(a), OpenTag(id));
      forall x: string
        ensures SameAtEnd(Split(content), AnchorLineOf(content, x), EndSpot(TitleOf(Annotate(content, a)), content, x))
      {
        var b := Args(id, x, "");
        HasMarkerIs(content, id);
        assert Separate(content, a, b);
        AppendedIndependent(content, a, b);
      }
    }
    if KeepsSpots(content, a) {
      forall b: Args | Separate(content, a, b)
        ensures Independent(content, a, b)
      {
        AppendedIndependent(content, a, b);
      }
    }
  }

  /** No anchor is found: there is no heading line, or no section looks headed. */
  predicate NothingFound(content: string) {
    var body := BodyLines(content);
    Heads(Marked(body)) == [] || HeadedOnly(SplitSections(TitleOf(content), body)) == []
  }

  lemma NothingFoundExact(content: string)
    ensures NothingFound(content) <==> forall x: string :: AnchorLineOf(content, x).None?
  {
    hide Marked, Heads, SplitSections, HeadedOnly, IndexOfAnchor, Split, BodyLines, TitleOf, AnchorLineOf, HeadAt;
    var title, body := TitleOf(content), BodyLines(content);
    var zip := HeadedOnly(SplitSections(title, body));
    if NothingFound(content) {
      forall x: string
        ensures AnchorLineOf(content, x).None?
      {
        FoundLine(title, content, x);
        AnchorLineIs(content, x);
        NoHeadAt(Heads(Marked(body)), zip, x);
      }
    } else {
      FoundLine(title, content, zip[0].anchor);
      AnchorLineIs(content, zip[0].anchor);
      FirstFound(Heads(Marked(body)), zip);
      HeadLine(content, 0);
    }
  }

  lemma NoHeadAt(heads: seq<nat>, zip: seq<Section>, x: string)
    requires heads == [] || zip == []
    ensures HeadAt(heads, IndexOfAnchor(zip, x)).None?
  {
  }

  lemma {:induction false} FoundFirst(zip: seq<Section>)
    requires zip != []
    ensures IndexOfAnchor(zip, zip[0].anchor) == Some(0)
  {
    if |zip| > 1 {
      FoundFirst(Init(zip));
    } else {
      IndexOfOne(zip[0], zip[0].anchor);
      assert zip == [zip[0]];
    }
  }

  lemma FirstFound(heads: seq<nat>, zip: seq<Section>)
    requires heads != [] && zip != []
    ensures HeadAt(heads, IndexOfAnchor(zip, zip[0].anchor)) == Some(heads[0])
  {
    hide IndexOfAnchor;
    FoundFirst(zip);
  }

  /** A bare last heading, with a heading line left for it in the zip that is not the
      last line of the document. */
  predicate DisplacesEnd(content: string) {
    var lines, body := Split(content), BodyLines(content);
    var spot := Offset(EndLine(TitleOf(content), body), |lines| - |body|);
    BareEnd(body) && spot.Some? && !FinalLine(Ended(lines), spot.value)
  }

  lemma EndAnchorNotFound(content: string)
    requires BareEnd(BodyLines(content))
    ensures AnchorLineOf(content, EndAnchor(TitleOf(content), BodyLines(content))).None?
  {
    hide Marked, Heads, SplitSections, HeadedOnly, IndexOfAnchor, Split, F.CutLines, TitleOf, HeadAt, LooksHeaded, Bare,
         SectionIndex, BareHeading, EndAnchor;
    var title, body := TitleOf(content), BodyLines(content);
    EndSection(title, body);
    EndElsewhere(title, body, EndAnchor(title, body));
    FoundLine(title, content, EndAnchor(title, body));
    AnchorLineIs(content, EndAnchor(title, body));
    NotAtNone(Heads(Marked(body)), IndexOfAnchor(HeadedOnly(SplitSections(title, body)), EndAnchor(title, body)));
  }

  lemma NotAtNone(heads: seq<nat>, index: Option<nat>)
    ensures index.None? ==> HeadAt(heads, index).None?
  {
  }

  lemma SpotsKept(content: string, x: string)
    ensures SameAtEnd(Split(content), AnchorLineOf(content, x), EndSpot(TitleOf(content), content, x))
       <==> if BareEnd(BodyLines(content)) && x == EndAnchor(TitleOf(content), BodyLines(content))
            then !DisplacesEnd(content)
            else AnchorLineOf(content, x).None? || EndsOnce(content)
  {
    hide AnchorLineOf, TitleOf, Split, EndSpot, EndsOnce, BareEnd, BodyLines, Ended, EndAnchor, EndLine, Offset,
         FinalLine;
    EndSpotIs(content, x);
    if BareEnd(BodyLines(content)) && x == EndAnchor(TitleOf(content), BodyLines(content)) {
      EndAnchorNotFound(content);
    } else {
      SameAtItself(Split(content), AnchorLineOf(content, x));
      EndedOnce(content);
    }
  }

  /** With the title out of sight or unchanged, an appended A is independent of every
      separate marker exactly when the document ends in one line break or has no anchor
      to find, and no bare last heading displaces its own. */
  lemma AllAppendedUnder(content: string, a: Args)
    requires ReadyAtEnd(content, a)
    requires BlankPreamble(BodyLines(content)) || TitleOf(Annotate(content, a)) == TitleOf(content)
    ensures AllIndependent(content, a)
       <==> (EndsOnce(content) || NothingFound(content)) && !DisplacesEnd(content)
  {
    hide ReadyAtEnd, Annotate, SameAtEnd, AnchorLineOf, EndSpot, Split, TitleOf, EndsOnce, BlankPreamble, BodyLines,
         NothingFound, AllIndependent, BareEnd, EndAnchor, DisplacesEnd;
    AllAppendedIff(content, a);
    NothingFoundExact(content);
    forall x: string
      ensures EndSpot(TitleOf(Annotate(content, a)), content, x) == EndSpot(TitleOf(content), content, x)
      ensures SameAtEnd(Split(content), AnchorLineOf(content, x), EndSpot(TitleOf(content), content, x))
         <==> if BareEnd(BodyLines(content)) && x == EndAnchor(TitleOf(content), BodyLines(content))
              then !DisplacesEnd(content)
              else AnchorLineOf(content, x).None? || EndsOnce(content)
    {
      SameTitleEnds(TitleOf(content), TitleOf(Annotate(content, a)), content, x);
      SpotsKept(content, x);
    }
    BareIfDisplaced(content);
    if BareEnd(BodyLines(content)) {
      EndAnchorNotFound(content);
    }
    var end := EndAnchor(TitleOf(content), BodyLines(content));
    if KeepsSpots(content, a) {
      assert SameAtEnd(Split(content), AnchorLineOf(content, end),
             EndSpot(TitleOf(Annotate(content, a)), content, end));
    }
  }

  lemma BareIfDisplaced(content: string)
    ensures DisplacesEnd(content) ==> BareEnd(BodyLines(content))
  {
    hide BareEnd, Ended, FinalLine, EndLine, Offset;
  }
}
