/** Two markers, the first of them appended to the document because its anchor was not
    found: taking it out leaves the document with one line break at its end, so the second
    must not show whether there was another ending. */
module AppendedMarkers {
  import opened TextLines
  import opened Outline
  import opened Sections
  import opened AnchorLines
  import opened Titles
  import opened ConflictMarkers
  import opened MarkerEffects
  import opened TwoMarkers
  import F = Frontmatter

  /** The lines with one line break at their end. */
  function Ended(lines: seq<string>): (r: seq<string>)
    requires lines != []
    ensures r != []
  {
    TrimLines(lines) + [""]
  }

  lemma {:induction false} TrimmedLast(lines: seq<string>)
    requires lines != []
    ensures Last(TrimLines(lines)) != "" || |TrimLines(lines)| == 1
  {
    if |lines| > 1 && Last(lines) == "" {
      TrimmedLast(Init(lines));
    }
  }

  lemma TrimEnded(lines: seq<string>)
    requires lines != []
    ensures TrimLines(Ended(lines)) == TrimLines(lines)
  {
    var t := TrimLines(lines);
    TrimmedLast(lines);
    TrimAfter(t, [""]);
    assert Init([""]) == [] && TrimTail([]) == [];
    assert t + [] == t;
  }

  /** A can be appended: its marker is not there yet, and its anchor is not found. */
  predicate ReadyAtEnd(content: string, a: Args) {
    OneLine(a.conflictId) && !HasMarker(content, a.conflictId) && AnchorLineOf(content, a.anchor).None?
  }

  lemma AppendedOnLines(content: string, a: Args)
    requires ReadyAtEnd(content, a)
    ensures var lines, withA := Split(content), Annotate(content, a);
            var ended := Ended(lines);
            && Split(withA) == F.Put(ended, |ended| - 2, Block(a)) && withA == Join(Split(withA))
            && OpenTag(a.conflictId) !in ended && AllOneLine(ended)
  {
    hide FindAnchorLine, Insert, HasMarker, OneLine, Block, Split, Join, TitleOf, TrimLines, OpenTag;
    var lines := Split(content);
    var t := TrimLines(lines);
    InsertOnLines(TitleOf(content), content, a);
    JoinSplit(Annotate(content, a));
    NoTagLine(content, a.conflictId);
    assert (t + [""])[..|t|] == t && (t + [""])[|t|..] == [""];
    TagNotEmpty(a.conflictId);
    NotInConcat(OpenTag(a.conflictId), t, [""]);
  }

  lemma TagNotEmpty(id: string)
    ensures OpenTag(id) != "" && OneLine("")
  {
  }

  /** With A at the end every found line is a heading line above it. */
  lemma FoundAboveEnd(content: string, a: Args, anchor: string)
    requires ReadyAtEnd(content, a)
    ensures var q, ended := AnchorLineOf(Annotate(content, a), anchor), Ended(Split(content));
            q.Some? ==> q.value <= |ended| - 2 && ended[q.value] != ""
  {
    hide FindAnchorLine, Insert, HasMarker, OneLine, Block, Split, Join, TitleOf, TrimLines, Marked, Heads,
         SplitSections, HeadedOnly, IndexOfAnchor, BodyLines, F.OpenBody, HeadAt, AllEmpty;
    var withA := Annotate(content, a);
    var ended := Ended(Split(content));
    var x, blank := BodyAfterFallback(TitleOf(content), content, a);
    AppendedOnLines(content, a);
    FoundLine(TitleOf(withA), withA, anchor);
    FallbackNoDashes(a);
    TailHeads(x, Block(a) + [""]);
    var index := IndexOfAnchor(HeadedOnly(SplitSections(TitleOf(withA), BodyLines(withA))), anchor);
    HeadInside(x, index);
    var q := AnchorLineOf(withA, anchor);
    BodyFits(content, x, withA, Block(a) + [""]);
  }

  lemma TailHeads(x: seq<string>, extra: seq<string>)
    requires Inert(extra)
    ensures Heads(Marked(x + extra)) == Heads(Marked(x))
  {
    hide Heads, MarkedFrom, FencedFrom, Inert;
    InertInside(x, extra, []);
    assert x + extra + [] == x + extra;
    var m := MarkedFrom(Fenced(x), extra);
    assert MarkedFrom(Fenced(x), []) == [] by { NoMarks(Fenced(x)); }
    assert Marked(x) + m + [] == Marked(x) + m;
    UnmarkedTail(Marked(x), m);
  }

  lemma NoMarks(fenced: bool)
    ensures MarkedFrom(fenced, []) == []
  {
  }

  lemma HeadInside(x: seq<string>, index: Option<nat>)
    ensures var h := HeadAt(Heads(Marked(x)), index); h.Some? ==> h.value < |x|
  {
    hide Heads;
    if HeadAt(Heads(Marked(x)), index).Some? {
      HeadsBelow(Marked(x), index.value);
    }
  }

  lemma BodyFits(content: string, x: seq<string>, withA: string, extra: seq<string>)
    requires BodyLines(withA) == x + extra && |Split(withA)| == |Ended(Split(content))| - 1 + |extra|
    ensures |Split(withA)| - |BodyLines(withA)| == |Ended(Split(content))| - 1 - |x|
  {
    hide Split, BodyLines, TrimLines;
  }

  // ---- Taking A out again --------------------------------------------------

  /** Insertions of B at `q` into the ended lines and at `p` into the lines as they were
      give one document. */
  predicate SameAtEnd(lines: seq<string>, p: Option<nat>, q: Option<nat>)
    requires lines != []
  {
    if q.None? then SameSpot(lines, p, None)
    else if p.None? then FinalLine(Ended(lines), q.value)
    else p == q && lines == Ended(lines)
  }

  lemma EndSpotsDecide(lines: seq<string>, p: Option<nat>, q: Option<nat>, b: Args)
    requires lines != [] && OneLine(b.conflictId) && OpenTag(b.conflictId) !in lines
    requires OpenTag(b.conflictId) !in Ended(lines) && IsSpot(lines, p) && IsSpot(Ended(lines), q)
    ensures InsertLines(Ended(lines), q, b) == InsertLines(lines, p, b) <==> SameAtEnd(lines, p, q)
  {
    hide OpenTag, OneLine, FinalLine, Block, TrimLines;
    TrimEnded(lines);
    assert InsertLines(Ended(lines), None, b) == InsertLines(lines, None, b);
    if q.None? {
      SpotsDecide(lines, p, None, b);
    } else if p.None? {
      SpotsDecide(Ended(lines), q, None, b);
    } else if InsertLines(Ended(lines), q, b) == InsertLines(lines, p, b) {
      TagPlace(lines, p, b);
      TagPlace(Ended(lines), q, b);
      SamePut(Ended(lines), lines, q.value, Block(b));
    }
  }

  lemma SamePut(s: seq<string>, t: seq<string>, k: nat, extra: seq<string>)
    requires k < |s| && k < |t| && F.Put(s, k, extra) == F.Put(t, k, extra)
    ensures s == t
  {
    var x := F.Put(s, k, extra);
    assert x[..k + 1] == s[..k + 1] == t[..k + 1];
    assert x[k + 1 + |extra|..] == s[k + 1..] == t[k + 1..];
    assert s == s[..k + 1] + s[k + 1..] && t == t[..k + 1] + t[k + 1..];
  }

  predicate SomeIncludes(lines: seq<string>, tag: string) {
    exists i :: 0 <= i < |lines| && Includes(lines[i], tag)
  }

  lemma IncludesSnoc(front: seq<string>, tag: string)
    requires tag != ""
    ensures SomeIncludes(front + [""], tag) <==> SomeIncludes(front, tag)
  {
    hide Includes;
    var all := front + [""];
    EmptyIncludesNothing(tag);
    if i :| 0 <= i < |front| && Includes(front[i], tag) {
      assert all[i] == front[i];
    }
    if i :| 0 <= i < |all| && Includes(all[i], tag) {
      assert i < |front| && front[i] == all[i];
    }
  }

  lemma {:induction false} TrimIncludes(lines: seq<string>, tag: string)
    requires lines != [] && tag != ""
    ensures SomeIncludes(lines, tag) <==> SomeIncludes(TrimLines(lines), tag)
  {
    hide SomeIncludes;
    if |lines| > 1 && Last(lines) == "" {
      TrimIncludes(Init(lines), tag);
      IncludesSnoc(Init(lines), tag);
      assert Init(lines) + [""] == lines;
    }
  }

  /** The ended document holds the markers of the document. */
  lemma EndedMarkers(content: string, id: string)
    requires OneLine(id)
    ensures HasMarker(Join(Ended(Split(content))), id) <==> HasMarker(content, id)
  {
    hide OpenTag, Includes, Split, Join, OneLine, TrimLines;
    TagShape(id);
    JoinSplit(content);
    IncludesByLine(Split(content), OpenTag(id));
    IncludesByLine(Ended(Split(content)), OpenTag(id));
    TrimIncludes(Split(content), OpenTag(id));
    IncludesSnoc(TrimLines(Split(content)), OpenTag(id));
  }

  lemma NoTagInEnded(content: string, id: string)
    requires OneLine(id) && !HasMarker(content, id)
    ensures OpenTag(id) !in Split(content) && OpenTag(id) !in Ended(Split(content))
  {
    hide OpenTag, Split, HasMarker, OneLine, TrimLines;
    NoTagLine(content, id);
    TagNotEmpty(id);
    var t := TrimLines(Split(content));
    NotInConcat(OpenTag(id), t, [""]);
    assert forall i :: 0 <= i < |t| ==> t[i] == Split(content)[i];
  }

  /** The document with both, and without A again. */
  lemma AppendedTakenOut(content: string, a: Args, b: Args)
    requires ReadyAtEnd(content, a) && Separate(content, a, b)
    ensures var q, ended := AnchorLineOf(Annotate(content, a), b.anchor), Ended(Split(content));
            && IsSpot(ended, q)
            && Strip(Annotate(Annotate(content, a), b), a.conflictId) == Join(InsertLines(ended, q, b))
  {
    hide FindAnchorLine, Insert, HasMarker, OneLine, OpenTag, RenderMarker, StripLines, Block, Split, Join, TitleOf,
         F.Put, InsertLines, TrimLines;
    var lines, withA := Split(content), Annotate(content, a);
    var ended, q := Ended(lines), AnchorLineOf(withA, b.anchor);
    AppendedOnLines(content, a);
    FoundAboveEnd(content, a, b.anchor);
    EndedMarkers(content, b.conflictId);
    MarkerAfterInsert(ended, |ended| - 2, a, b.conflictId);
    InsertOnLines(TitleOf(withA), withA, b);
    TagNotInBlock(a, b);
    TrimmedLast(lines);
    assert ended[|ended| - 2] == Last(TrimLines(lines));
    StripBoth(ended, |ended| - 2, a, q, b);
  }

  lemma EndedIs(content: string)
    ensures content == Join(Ended(Split(content))) <==> Split(content) == Ended(Split(content))
    ensures Join(Ended(Split(content))) == TrimNewlines(content) + "\n"
  {
    hide Split, Join, TrimLines, TrimNewlines;
    JoinSplit(content);
    TrimOnLines(Split(content));
    JoinTrailing(TrimLines(Split(content)));
    EndedOneLine(Split(content));
    SplitJoin(Ended(Split(content)));
  }

  lemma EndedOneLine(lines: seq<string>)
    requires lines != [] && AllOneLine(lines)
    ensures AllOneLine(Ended(lines))
  {
    hide TrimLines;
  }

  /** With A appended and then B inserted, stripping A leaves the document with only B
      exactly when: B's marker was there from the start and the document ends in one
      line break; or A's text does not hold B's opening tag, and B goes to one spot, in a
      document that ends in one line break unless B is appended either way. */
  lemma AppendedIndependentExactly(content: string, a: Args, b: Args)
    requires ReadyAtEnd(content, a) && OneLine(b.conflictId)
    ensures Independent(content, a, b)
       <==> if HasMarker(content, b.conflictId) then EndsOnce(content)
            else && !Includes(RenderMarker(a), OpenTag(b.conflictId))
                 && SameAtEnd(Split(content), AnchorLineOf(content, b.anchor),
                              AnchorLineOf(Annotate(content, a), b.anchor))
  {
    hide AnchorLineOf, Insert, HasMarker, OneLine, OpenTag, RenderMarker, Strip, InsertLines, TitleOf, Split, SameAtEnd,
         Includes, F.Put, Join, Block, IsSpot, TrimLines, TrimNewlines;
    var lines := Split(content);
    assert OneLine(a.conflictId) && !HasMarker(content, a.conflictId);
    AnchorLineIs(content, a.anchor);
    StripInsert(TitleOf(content), content, a);
    EndedIs(content);
    if HasMarker(content, b.conflictId) || Includes(RenderMarker(a), OpenTag(b.conflictId)) {
      AppendedOnLines(content, a);
      EndedMarkers(content, b.conflictId);
      MarkerAlreadyIn(Ended(lines), |Ended(lines)| - 2, a, b.conflictId);
      InsertNothing(TitleOf(Annotate(content, a)), Annotate(content, a), b);
      if HasMarker(content, b.conflictId) {
        InsertNothing(TitleOf(content), content, b);
      } else {
        InsertAdds(content, b);
      }
    } else {
      OnlySecond(content, a, b);
      AppendedTakenOut(content, a, b);
      NoTagInEnded(content, b.conflictId);
      JoinSplit(Annotate(content, b));
      var p, q := AnchorLineOf(content, b.anchor), AnchorLineOf(Annotate(content, a), b.anchor);
      EndSpotsDecide(lines, p, q, b);
      SpotInRange(Ended(lines), q);
      EndedOneLine(lines);
      InsertedSplits(Ended(lines), q, b);
    }
  }

  /** An insertion adds the marker, so it does not only change the ending. */
  lemma InsertAdds(content: string, b: Args)
    requires OneLine(b.conflictId) && !HasMarker(content, b.conflictId)
    ensures Annotate(content, b) != Join(Ended(Split(content)))
  {
    hide AnchorLineOf, Insert, OneLine, OpenTag, Split, Join, TitleOf, TrimLines, HasMarker;
    EndedMarkers(content, b.conflictId);
    MarkerPresent(content, b);
  }

  lemma MarkerPresent(content: string, b: Args)
    requires OneLine(b.conflictId) && !HasMarker(content, b.conflictId)
    ensures HasMarker(Annotate(content, b), b.conflictId)
  {
    hide FindAnchorLine, Insert, OneLine, OpenTag, Split, Join, TitleOf, TrimLines, Includes, MarkerLines;
    var lines, tag := Split(content), OpenTag(b.conflictId);
    var after := Annotate(content, b);
    InsertOnLines(TitleOf(content), content, b);
    JoinSplit(after);
    TagShape(b.conflictId);
    IncludesByLine(Split(after), tag);
    IncludesItself(tag);
    MarkerFirst(b);
    var at := FindAnchorLine(TitleOf(content), content, b.anchor);
    var n := if at.Some? then at.value + 1 else |TrimLines(lines)|;
    assert Split(after)[n + 1] == Block(b)[1] == tag;
    assert Includes(Split(after)[n + 1], tag);
  }

  lemma MarkerFirst(b: Args)
    ensures MarkerLines(b) != [] && MarkerLines(b)[0] == OpenTag(b.conflictId)
  {
    hide OpenTag, Callout;
  }

  lemma IncludesItself(s: string)
    ensures Includes(s, s)
  {
    assert s[0..|s|] == s;
    assert OccursAt(s, s, 0);
  }
}
