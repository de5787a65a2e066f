/** Two markers in one document, and when they do not see each other: the second goes to the
    same spot with the first one in place, and taking the first one out leaves what the
    second alone would have made. */
module TwoMarkers {
  import opened TextLines
  import opened Outline
  import opened Sections
  import opened AnchorLines
  import opened Titles
  import opened ConflictMarkers
  import opened MarkerEffects
  import F = Frontmatter

  // ---- Taking the first marker out again -----------------------------------

  lemma {:induction false} TrimAfter(p: seq<string>, q: seq<string>)
    requires p != [] && (Last(p) != "" || |p| == 1)
    ensures TrimLines(p + q) == p + TrimTail(q)
  {
    if q == [] {
      assert p + q == p;
    } else if Last(q) == "" {
      ConcatInit(p, q);
      TrimAfter(p, Init(q));
    } else {
      ConcatInit(p, q);
    }
  }

  function TrimTail(q: seq<string>): seq<string> {
    if q != [] && Last(q) == "" then TrimTail(Init(q)) else q
  }

  lemma NotInConcat<T>(x: T, a: seq<T>, b: seq<T>)
    ensures x in a + b <==> x in a || x in b
  {
  }

  lemma StripFallback(lines: seq<string>, k: nat, a: Args, b: Args)
    requires k < |lines| && (lines[k] != "" || k == 0) && OneLine(a.conflictId)
    requires OpenTag(a.conflictId) !in lines
    ensures StripLines(InsertLines(F.Put(lines, k, Block(a)), None, b), a.conflictId) == InsertLines(lines, None, b)
  {
    hide StripLines, Block, TrimLines, OpenTag, OneLine;
    BlockNotBlank(a);
    var p, q := lines[..k + 1], lines[k + 1..];
    assert p + q == lines;
    TrimAfter(p, q);
    TrimAfter(p + Block(a), q);
    StripBlock(p, a, TrimTail(q) + Block(b) + [""]);
    assert p + Block(a) + TrimTail(q) + Block(b) + [""] == p + Block(a) + (TrimTail(q) + Block(b) + [""]);
    assert p + TrimTail(q) + Block(b) + [""] == p + (TrimTail(q) + Block(b) + [""]);
  }

  lemma StripFound(lines: seq<string>, k: nat, a: Args, l: nat, b: Args)
    requires k < |lines| && l < |lines| && OneLine(a.conflictId)
    requires OpenTag(a.conflictId) !in lines && OpenTag(a.conflictId) !in Block(b)
    ensures var line := if l <= k then l else l + |Block(a)|;
            StripLines(F.Put(F.Put(lines, k, Block(a)), line, Block(b)), a.conflictId) == F.Put(lines, l, Block(b))
  {
    hide StripLines, Block, OpenTag, OneLine;
    var ba, bb := Block(a), Block(b);
    var one := F.Put(lines, k, ba);
    if l <= k {
      var p, q := lines[..l + 1] + bb + lines[l + 1..k + 1], lines[k + 1..];
      assert one[..l + 1] == lines[..l + 1];
      assert one[l + 1..] == lines[l + 1..k + 1] + ba + q;
      NotInConcat(OpenTag(a.conflictId), lines[..l + 1] + bb, lines[l + 1..k + 1]);
      NotInConcat(OpenTag(a.conflictId), lines[..l + 1], bb);
      StripBlock(p, a, q);
      assert F.Put(one, l, bb) == p + ba + q;
      assert lines[l + 1..] == lines[l + 1..k + 1] + q;
      assert F.Put(lines, l, bb) == p + q;
    } else {
      var p, q := lines[..k + 1], lines[k + 1..l + 1] + bb + lines[l + 1..];
      var line := l + |ba|;
      assert one[..line + 1] == p + ba + lines[k + 1..l + 1];
      assert one[line + 1..] == lines[l + 1..];
      StripBlock(p, a, q);
      assert F.Put(one, line, bb) == p + ba + q;
      assert F.Put(lines, l, bb) == p + q;
    }
  }

  lemma StripBoth(lines: seq<string>, k: nat, a: Args, at: Option<nat>, b: Args)
    requires k < |lines| && (lines[k] != "" || k == 0) && OneLine(a.conflictId) && (at.Some? ==> at.value < |lines|)
    requires OpenTag(a.conflictId) !in lines && OpenTag(a.conflictId) !in Block(b)
    ensures var moved := Moved(at, k, |Block(a)|);
            && |F.Put(lines, k, Block(a))| == |lines| + |Block(a)|
            && StripLines(InsertLines(F.Put(lines, k, Block(a)), moved, b), a.conflictId) == InsertLines(lines, at, b)
  {
    hide StripLines, OneLine, OpenTag, Block;
    if at.None? {
      StripFallback(lines, k, a, b);
    } else {
      StripFound(lines, k, a, at.value, b);
    }
  }

  lemma TagNotInBlock(a: Args, b: Args)
    requires OneLine(a.conflictId) && OneLine(b.conflictId) && !Includes(RenderMarker(a), OpenTag(b.conflictId))
    ensures OpenTag(a.conflictId) !in Block(b)
  {
    hide OpenTag, Callout, RenderMarker;
    MarkerShape(a);
    MarkerShape(b);
    TagShape(a.conflictId);
    var m, tag := MarkerLines(b), OpenTag(a.conflictId);
    if tag == m[0] {
      FirstLineIncluded(a);
      assert false;
    }
    forall i | 0 <= i < |m|
      ensures m[i] != tag
    {
    }
  }

  lemma FirstLineIncluded(a: Args)
    ensures Includes(RenderMarker(a), OpenTag(a.conflictId))
  {
    hide OpenTag, RenderMarker, OccursAt;
    TagLeads(a);
    OccursWithin(RenderMarker(a), OpenTag(a.conflictId), 0);
  }

  lemma MarkerAfterInsert(lines: seq<string>, k: nat, a: Args, id: string)
    requires k < |lines| && OneLine(a.conflictId) && OneLine(id) && !Includes(RenderMarker(a), OpenTag(id))
    ensures HasMarker(Join(F.Put(lines, k, Block(a))), id) <==> HasMarker(Join(lines), id)
  {
    hide OpenTag, MarkerLines, Includes, Join, OneLine;
    var tag, m, more := OpenTag(id), MarkerLines(a), F.Put(lines, k, Block(a));
    TagShape(id);
    MarkerShape(a);
    IncludesByLine(lines, tag);
    IncludesByLine(more, tag);
    IncludesByLine(m, tag);
    EmptyIncludesNothing(tag);
    forall i | 0 <= i < |lines| && Includes(lines[i], tag)
      ensures exists j :: 0 <= j < |more| && Includes(more[j], tag)
    {
      assert more[if i <= k then i else i + |Block(a)|] == lines[i];
    }
    forall j | k < j <= k + |Block(a)|
      ensures !Includes(more[j], tag)
    {
      assert more[j] == if j == k + 1 then "" else m[j - k - 2];
    }
    forall j | 0 <= j < |more| && Includes(more[j], tag)
      ensures exists i :: 0 <= i < |lines| && Includes(lines[i], tag)
    {
      assert lines[if j <= k then j else j - |Block(a)|] == more[j];
    }
  }

  lemma EmptyIncludesNothing(tag: string)
    requires tag != ""
    ensures !Includes("", tag)
  {
  }

  lemma MarkerAlreadyIn(lines: seq<string>, k: nat, a: Args, id: string)
    requires k < |lines| && AllOneLine(lines) && OneLine(a.conflictId) && OneLine(id)
    requires HasMarker(Join(lines), id) || Includes(RenderMarker(a), OpenTag(id))
    ensures HasMarker(Join(F.Put(lines, k, Block(a))), id)
  {
    hide OpenTag, MarkerLines, Includes, Join, OneLine, F.Put, Block;
    var tag, m, more := OpenTag(id), MarkerLines(a), F.Put(lines, k, Block(a));
    TagShape(id);
    MarkerShape(a);
    PutNotEmpty(lines, k, Block(a));
    IncludesByLine(lines, tag);
    IncludesByLine(m, tag);
    IncludesByLine(more, tag);
    if x :| 0 <= x < |lines| && Includes(lines[x], tag) {
      PutKeeps(lines, k, Block(a), x);
    }
    if x :| 0 <= x < |m| && Includes(m[x], tag) {
      PutBlockAt(lines, k, a, x);
    }
  }

  lemma PutNotEmpty(lines: seq<string>, k: nat, extra: seq<string>)
    requires k < |lines|
    ensures |F.Put(lines, k, extra)| == |lines| + |extra| >= 1
  {
  }

  lemma PutBlockAt(lines: seq<string>, k: nat, a: Args, x: nat)
    requires k < |lines| && x < |MarkerLines(a)|
    ensures k + 2 + x < |F.Put(lines, k, Block(a))| && F.Put(lines, k, Block(a))[k + 2 + x] == MarkerLines(a)[x]
  {
    hide MarkerLines;
  }

  lemma PutKeeps(lines: seq<string>, k: nat, extra: seq<string>, x: nat)
    requires k < |lines| && x < |lines|
    ensures var at := if x <= k then x else x + |extra|;
            at < |F.Put(lines, k, extra)| && F.Put(lines, k, extra)[at] == lines[x]
  {
  }

  lemma InsertNothing(title: string, content: string, args: Args)
    requires HasMarker(content, args.conflictId)
    ensures Insert(title, content, args) == content
  {
  }

  lemma InsertLinesFound(lines: seq<string>, k: nat, args: Args)
    requires k < |lines|
    ensures InsertLines(lines, Some(k), args) == F.Put(lines, k, Block(args))
  {
  }

  // ---- Insertions at two lines ---------------------------------------------

  /** The document ends with this line and one line break. */
  predicate FinalLine(lines: seq<string>, l: nat) {
    l + 2 == |lines| && lines[l + 1] == ""
  }

  /** An insertion at these two places gives one document: they are the same, or one
      is the last line, ended once, and the other the end of the document. */
  predicate SameSpot(lines: seq<string>, p: Option<nat>, q: Option<nat>) {
    || p == q
    || (p.None? && q.Some? && FinalLine(lines, q.value))
    || (q.None? && p.Some? && FinalLine(lines, p.value))
  }

  predicate IsSpot(lines: seq<string>, p: Option<nat>) {
    p.Some? ==> p.value < |lines| && lines[p.value] != ""
  }

  /** Where the opening tag stands after an insertion. */
  lemma TagPlace(lines: seq<string>, p: Option<nat>, b: Args)
    requires lines != [] && OneLine(b.conflictId) && OpenTag(b.conflictId) !in lines && IsSpot(lines, p)
    ensures var n := if p.Some? then p.value + 1 else |TrimLines(lines)|;
            IndexFrom(InsertLines(lines, p, b), OpenTag(b.conflictId), 0) == n + 1
  {
    hide OpenTag, Callout, TrimLines, OneLine;
    var tag, all := OpenTag(b.conflictId), InsertLines(lines, p, b);
    var n := if p.Some? then p.value + 1 else |TrimLines(lines)|;
    TagShape(b.conflictId);
    assert all[..n] == lines[..n] && all[n] == "" && all[n + 1] == tag;
    forall m | 0 <= m < n + 1
      ensures all[m] != tag
    {
      assert m < n ==> all[m] == all[..n][m] == lines[m];
    }
    IndexIs(all, tag, 0, n + 1);
  }

  lemma TrimmedAtFinal(lines: seq<string>, l: nat)
    requires FinalLine(lines, l) && lines[l] != ""
    ensures TrimLines(lines) == lines[..l + 1]
  {
    assert Init(lines) == lines[..l + 1];
  }

  lemma EndIsFinal(lines: seq<string>, l: nat, b: Args)
    requires lines != [] && OneLine(b.conflictId) && OpenTag(b.conflictId) !in lines && l < |lines| && lines[l] != ""
    ensures InsertLines(lines, None, b) == InsertLines(lines, Some(l), b) <==> FinalLine(lines, l)
  {
    hide OpenTag, Block, OneLine, TrimLines;
    if FinalLine(lines, l) {
      TrimmedAtFinal(lines, l);
      assert lines[l + 1..] == [""];
    }
    if InsertLines(lines, None, b) == InsertLines(lines, Some(l), b) {
      TagPlace(lines, None, b);
      TagPlace(lines, Some(l), b);
      var x, y := InsertLines(lines, None, b), InsertLines(lines, Some(l), b);
      assert |x| == |TrimLines(lines)| + |Block(b)| + 1 && |y| == |lines| + |Block(b)|;
      assert x[|x| - 1] == "" && y[|y| - 1] == lines[l + 1];
    }
  }

  /** Two places give one document exactly when they are the same spot. */
  lemma SpotsDecide(lines: seq<string>, p: Option<nat>, q: Option<nat>, b: Args)
    requires lines != [] && OneLine(b.conflictId) && OpenTag(b.conflictId) !in lines && IsSpot(lines, p)
             && IsSpot(lines, q)
    ensures InsertLines(lines, p, b) == InsertLines(lines, q, b) <==> SameSpot(lines, p, q)
  {
    hide OpenTag, InsertLines, OneLine, FinalLine;
    if p.Some? && q.Some? {
      TagPlace(lines, p, b);
      TagPlace(lines, q, b);
    } else if p.Some? {
      EndIsFinal(lines, p.value, b);
    } else if q.Some? {
      EndIsFinal(lines, q.value, b);
    }
  }

  // ---- The document with A in it -------------------------------------------

  /** A can be inserted: its marker is not there yet, and its anchor is found. */
  predicate Ready(content: string, a: Args) {
    OneLine(a.conflictId) && !HasMarker(content, a.conflictId) && AnchorLineOf(content, a.anchor).Some?
  }

  lemma HeadLine(content: string, q: nat)
    requires q < |Heads(Marked(BodyLines(content)))|
    ensures var lines, body := Split(content), BodyLines(content);
            var l := |lines| - |body| + Heads(Marked(body))[q];
            0 <= l < |lines| && lines[l] != ""
  {
    hide Marked, Heads, Headings, Buffers, HeadingOf, Split;
    var body := BodyLines(content);
    HeadingAt(Marked(body), q);
    var b := Heads(Marked(body))[q];
    MarkedAt(body, b);
    HeadingNotBlank(body[b]);
    CutLineNotEmpty(Split(content), b);
  }

  lemma CutLineNotEmpty(lines: seq<string>, b: nat)
    requires lines != [] && b < |F.CutLines(lines).body| && F.CutLines(lines).body[b] != ""
    ensures lines[F.CutLines(lines).front + b] != ""
  {
  }

  /** A found line is a heading line, moved by the frontmatter. */
  lemma FoundLine(title: string, content: string, anchor: string)
    ensures var lines, body := Split(content), BodyLines(content);
            var found := HeadAt(Heads(Marked(body)), IndexOfAnchor(HeadedOnly(SplitSections(title, body)), anchor));
            && FindAnchorLine(title, content, anchor) == Offset(found, |lines| - |body|)
            && IsSpot(lines, FindAnchorLine(title, content, anchor))
  {
    hide Marked, Heads, SplitSections, HeadedOnly, IndexOfAnchor, Split, F.CutLines, FindHeading;
    var body := BodyLines(content);
    var index := IndexOfAnchor(HeadedOnly(SplitSections(title, body)), anchor);
    FindIsHeadAt(title, body, anchor);
    if HeadAt(Heads(Marked(body)), index).Some? {
      HeadLine(content, index.value);
    }
  }

  /** A body line in the full document. */
  function Offset(line: Option<nat>, front: int): Option<nat> {
    match line
    case None => None
    case Some(x) => if front + x >= 0 then Some(front + x) else None
  }

  lemma PlacedOnLines(content: string, a: Args) returns (k: nat)
    requires Ready(content, a)
    ensures var lines, withA := Split(content), Annotate(content, a);
            && AnchorLineOf(content, a.anchor) == Some(k) && k < |lines|
            && Split(withA) == F.Put(lines, k, Block(a)) && withA == Join(F.Put(lines, k, Block(a)))
            && content == Join(lines)
  {
    hide FindAnchorLine, Insert, HasMarker, OneLine, Block, Split, Join, F.Put, TitleOf, InsertLines;
    k := AnchorLineOf(content, a.anchor).value;
    JoinSplit(content);
    JoinSplit(Annotate(content, a));
    InsertOnLines(TitleOf(content), content, a);
    InsertLinesFound(Split(content), k, a);
  }

  lemma PlacedInBody(content: string, a: Args) returns (i: nat)
    requires Ready(content, a)
    ensures var lines, body, withA := Split(content), BodyLines(content), Annotate(content, a);
            && Below(Marked(body), Marked(BodyLines(withA)), i, Block(a)) && i < |Heads(Marked(body))|
            && |Split(withA)| - |BodyLines(withA)| == |lines| - |body| >= 0
            && AnchorLineOf(content, a.anchor) == Some(|lines| - |body| + Heads(Marked(body))[i])
            && FindHeading(TitleOf(content), body, a.anchor) == Some(Heads(Marked(body))[i])
  {
    hide FindHeading, Insert, HasMarker, OneLine, Block, Split, Below, Marked, Heads, F.CutLines, TitleOf, ZipSafe,
         SplitSections, SectionIndex;
    i := BodyAfterInsert(TitleOf(content), content, a);
    BelowIndex(Marked(BodyLines(content)), Marked(BodyLines(Annotate(content, a))), i, Block(a));
  }

  /** The document with A in it, on lines and on its body. */
  lemma Placed(content: string, a: Args) returns (i: nat, k: nat)
    requires Ready(content, a)
    ensures var lines, body, withA := Split(content), BodyLines(content), Annotate(content, a);
            && Below(Marked(body), Marked(BodyLines(withA)), i, Block(a)) && i < |Heads(Marked(body))|
            && |Split(withA)| - |BodyLines(withA)| == |lines| - |body| >= 0
            && k == |lines| - |body| + Heads(Marked(body))[i] < |lines| && lines[k] != ""
            && AnchorLineOf(content, a.anchor) == Some(k)
            && FindHeading(TitleOf(content), body, a.anchor) == Some(Heads(Marked(body))[i])
            && Split(withA) == F.Put(lines, k, Block(a)) && withA == Join(F.Put(lines, k, Block(a)))
            && content == Join(lines)
  {
    hide Ready, FindHeading, Annotate, AnchorLineOf, Block, Split, Join, F.Put, Below, Marked, Heads, BodyLines,
         TitleOf;
    i := PlacedInBody(content, a);
    k := PlacedOnLines(content, a);
    HeadLine(content, i);
  }

  /** Where B goes once A stands, told on the lines without A. */
  function SecondSpot(content: string, a: Args, anchor: string): Option<nat> {
    var k := AnchorLineOf(content, a.anchor);
    Back(AnchorLineOf(Annotate(content, a), anchor), if k.Some? then k.value else 0, |Block(a)|)
  }

  /** It is a line of the document, and A's lines move it to where B is found. */
  lemma SecondIsSpot(content: string, a: Args, anchor: string)
    requires Ready(content, a)
    ensures IsSpot(Split(content), SecondSpot(content, a, anchor))
    ensures Moved(SecondSpot(content, a, anchor), AnchorLineOf(content, a.anchor).value, |Block(a)|)
         == AnchorLineOf(Annotate(content, a), anchor)
  {
    hide Ready, FindAnchorLine, Insert, Block, Split, Join, F.Put, Below, Marked, Heads, F.CutLines, TitleOf,
         HeadedOnly, IndexOfAnchor, SplitSections, FindHeading, BodyLines, HeadAt;
    var withA := Annotate(content, a);
    var i, k := Placed(content, a);
    var body, after := BodyLines(content), BodyLines(withA);
    var index := IndexOfAnchor(HeadedOnly(SplitSections(TitleOf(withA), after)), anchor);
    FoundLine(TitleOf(withA), withA, anchor);
    MovedHeadAt(Marked(body), Marked(after), i, Block(a), index);
    HeadIsSpot(content, index);
    BackShifted(HeadAt(Heads(Marked(body)), index), Heads(Marked(body))[i], |Block(a)|, |Split(content)| - |body|);
  }

  lemma HeadIsSpot(content: string, index: Option<nat>)
    ensures var lines, body := Split(content), BodyLines(content);
            IsSpot(lines, Offset(HeadAt(Heads(Marked(body)), index), |lines| - |body|))
  {
    hide Marked, Heads, Split, F.CutLines;
    if HeadAt(Heads(Marked(BodyLines(content))), index).Some? {
      HeadLine(content, index.value);
    }
  }

  lemma BackShifted(line: Option<nat>, from: nat, n: nat, front: nat)
    ensures Back(Offset(Moved(line, from, n), front), front + from, n) == Offset(line, front)
    ensures Moved(Offset(line, front), front + from, n) == Offset(Moved(line, from, n), front)
  {
  }

  // ---- Independence --------------------------------------------------------

  /** Stripping A leaves exactly the document with only B inserted. */
  predicate Independent(content: string, a: Args, b: Args) {
    Strip(Annotate(Annotate(content, a), b), a.conflictId) == Annotate(content, b)
  }

  /** B's marker is neither in the document nor in A's text. */
  predicate Separate(content: string, a: Args, b: Args) {
    && OneLine(b.conflictId)
    && !HasMarker(content, b.conflictId)
    && !Includes(RenderMarker(a), OpenTag(b.conflictId))
  }

  /** The document with only B. */
  lemma OnlySecond(content: string, a: Args, b: Args)
    requires Separate(content, a, b)
    ensures var lines := Split(content);
            && lines != [] && OpenTag(b.conflictId) !in lines
            && IsSpot(lines, AnchorLineOf(content, b.anchor))
            && Split(Annotate(content, b)) == InsertLines(lines, AnchorLineOf(content, b.anchor), b)
  {
    hide FindAnchorLine, Insert, HasMarker, OneLine, OpenTag, RenderMarker, BodyLines, Block, Split, InsertLines,
         TitleOf, Marked, Heads, IndexOfAnchor, HeadedOnly, SplitSections, HeadAt;
    FoundLine(TitleOf(content), content, b.anchor);
    InsertOnLines(TitleOf(content), content, b);
    NoTagLine(content, b.conflictId);
  }

  lemma WithBoth(content: string, a: Args, b: Args)
    requires Ready(content, a) && Separate(content, a, b)
    ensures var withA := Annotate(content, a);
            && IsSpot(Split(withA), AnchorLineOf(withA, b.anchor))
            && Split(Annotate(withA, b)) == InsertLines(Split(withA), AnchorLineOf(withA, b.anchor), b)
  {
    hide FindAnchorLine, Insert, HasMarker, OneLine, OpenTag, RenderMarker, BodyLines, Block, Split, Join,
         InsertLines, F.Put, TitleOf, Below, Marked, Heads, FindHeading, IndexOfAnchor, HeadedOnly, SplitSections,
         HeadAt;
    var withA := Annotate(content, a);
    var i, k := Placed(content, a);
    FoundLine(TitleOf(withA), withA, b.anchor);
    MarkerAfterInsert(Split(content), k, a, b.conflictId);
    InsertOnLines(TitleOf(withA), withA, b);
  }

  /** The document with both, and without A again. */
  lemma FirstTakenOut(content: string, a: Args, b: Args)
    requires Ready(content, a) && Separate(content, a, b)
    ensures IsSpot(Split(content), SecondSpot(content, a, b.anchor))
    ensures Strip(Annotate(Annotate(content, a), b), a.conflictId)
         == Join(InsertLines(Split(content), SecondSpot(content, a, b.anchor), b))
  {
    hide AnchorLineOf, Annotate, HasMarker, OneLine, OpenTag, RenderMarker, StripLines, Block, Split, Join,
         InsertLines, F.Put, SecondSpot, Moved, FindHeading, Marked, Heads, Below;
    var i, k := Placed(content, a);
    WithBoth(content, a, b);
    SecondIsSpot(content, a, b.anchor);
    TagNotInBlock(a, b);
    NoTagLine(content, a.conflictId);
    StripBoth(Split(content), k, a, SecondSpot(content, a, b.anchor), b);
  }

  lemma {:induction false} InsertedSplits(lines: seq<string>, p: Option<nat>, b: Args)
    requires lines != [] && AllOneLine(lines) && OneLine(b.conflictId) && (p.Some? ==> p.value < |lines|)
    ensures Split(Join(InsertLines(lines, p, b))) == InsertLines(lines, p, b)
  {
    hide Block, OneLine, Split, Join, AllOneLine, TrimLines;
    InsertedOneLine(lines, p, b);
    NotNothing(lines, p, b);
    SplitJoin(InsertLines(lines, p, b));
  }

  lemma NotNothing(lines: seq<string>, p: Option<nat>, b: Args)
    requires lines != [] && (p.Some? ==> p.value < |lines|)
    ensures |InsertLines(lines, p, b)| >= 1
  {
  }

  /** With A inserted under a found heading and then B, stripping A leaves the
      document with only B exactly when: B's marker was there from the start; or A's
      text does not hold B's opening tag, and with A in place B's anchor leads to the
      same spot as without it. */
  lemma MarkersIndependentExactly(content: string, a: Args, b: Args)
    requires Ready(content, a) && OneLine(b.conflictId)
    ensures Independent(content, a, b)
       <==> || HasMarker(content, b.conflictId)
            || (!Includes(RenderMarker(a), OpenTag(b.conflictId))
                && SameSpot(Split(content), AnchorLineOf(content, b.anchor), SecondSpot(content, a, b.anchor)))
  {
    hide AnchorLineOf, Insert, HasMarker, OneLine, OpenTag, RenderMarker, Strip, InsertLines, SecondSpot, TitleOf,
         Split, SameSpot, Includes, F.Put, Join, Below, Marked, Heads, BodyLines, Block, FindHeading, IsSpot;
    var lines := Split(content);
    StripInsert(TitleOf(content), content, a);
    var i, k := Placed(content, a);
    assert OneLine(a.conflictId) && AnchorLineOf(content, a.anchor).Some? && !HasMarker(content, a.conflictId);
    AnchorLineIs(content, a.anchor);
    if HasMarker(content, b.conflictId) || Includes(RenderMarker(a), OpenTag(b.conflictId)) {
      MarkerAlreadyIn(lines, k, a, b.conflictId);
      InsertNothing(TitleOf(Annotate(content, a)), Annotate(content, a), b);
      if HasMarker(content, b.conflictId) {
        InsertNothing(TitleOf(content), content, b);
      } else {
        InsertChanges(TitleOf(content), content, b);
      }
    } else {
      OnlySecond(content, a, b);
      FirstTakenOut(content, a, b);
      JoinSplit(Annotate(content, b));
      SecondIsSpot(content, a, b.anchor);
      var p, q := AnchorLineOf(content, b.anchor), SecondSpot(content, a, b.anchor);
      SpotsDecide(lines, p, q, b);
      SpotInRange(lines, q);
      InsertedSplits(lines, q, b);
    }
  }

  lemma AnchorLineIs(content: string, anchor: string)
    ensures AnchorLineOf(content, anchor) == FindAnchorLine(TitleOf(content), content, anchor)
  {
  }

  lemma SpotInRange(lines: seq<string>, p: Option<nat>)
    requires IsSpot(lines, p)
    ensures p.Some? ==> p.value < |lines|
  {
  }
}
