/** What a marker does to the sections and anchors of a document, as long as both are read
    under one title: it changes one content, and moves no heading line but those below it;
    under a bare heading it puts a section in view and pushes the zip along by one. */
module MarkerEffects {
  import opened TextLines
  import opened Outline
  import opened Sections
  import opened AnchorLines
  import opened ConflictMarkers
  import F = Frontmatter

  function DocSections(title: string, content: string): seq<Section> {
    SplitSections(title, BodyLines(content))
  }

  // ---- Inert lines under a heading -----------------------------------------

  /** `after` has the outline of `before` with `extra` under heading `i`. */
  predicate Below(before: seq<Line>, after: seq<Line>, i: nat, extra: seq<string>) {
    && i < |Heads(before)|
    && Headings(after) == Headings(before)
    && Heads(after) == Shift(Heads(before), Heads(before)[i] + 1, |extra|)
    && Grown(Buffers(before), Buffers(after), i + 1, 1, extra)
  }

  lemma PutBelow(body: seq<string>, i: nat, extra: seq<string>)
    requires Inert(extra) && i < |Heads(Marked(body))|
    ensures Below(Marked(body), Marked(F.Put(body, Heads(Marked(body))[i], extra)), i, extra)
  {
    hide Marked, Heads, Headings, Buffers, FencedFrom, MarkedFrom, Inert, HeadingOf, IsFence;
    var ls := Marked(body);
    var b := Heads(ls)[i];
    var front, rest := body[..b + 1], body[b + 1..];
    assert front + rest == body;
    InertInside(front, extra, rest);
    var m, x, r := Marked(front), MarkedFrom(Fenced(front), extra), MarkedFrom(Fenced(front), rest);
    MarkedText(Fenced(front), extra);
    assert ls[..b + 1] == m;
    PrefixAtHead(ls, i);
    UnmarkedInside(m, x, r);
    BuffersInside(m, x, r);
  }

  lemma SectionsBelow(title: string, before: seq<string>, after: seq<string>, i: nat, extra: seq<string>)
    requires Below(Marked(before), Marked(after), i, extra)
    ensures SectionIndex(Marked(after), i) == SectionIndex(Marked(before), i)
    ensures 0 <= SectionIndex(Marked(before), i) < |SplitSections(title, before)|
    ensures SameExceptContent(SplitSections(title, before), SplitSections(title, after),
                              SectionIndex(Marked(before), i))
  {
    hide Marked, Heads, Headings, Buffers, SplitSections, Assemble, AllBlank, SameExceptContent;
    SplitIsAssemble(title, before);
    SplitIsAssemble(title, after);
    SectionOfHeading(title, before, i);
    AssembleSame(title, Headings(Marked(before)), Buffers(Marked(before)), Buffers(Marked(after)), i + 1);
  }

  /** The line an anchor is found on moves with the lines put in before it. */
  function Moved(line: Option<nat>, from: nat, n: nat): Option<nat> {
    match line
    case None => None
    case Some(x) => Some(if x <= from then x else x + n)
  }

  /** Heading i is blank and has a blank body. */
  predicate BareHeading(body: seq<string>, i: nat) {
    var ls := Marked(body);
    i < |Heads(ls)| && Bare(Headings(ls)[i], Buffers(ls)[i + 1])
  }

  /** With text put under it a heading's section looks headed, as it did before
      unless the heading was bare. */
  lemma HeadedBelow(title: string, before: seq<string>, after: seq<string>, i: nat, extra: seq<string>)
    requires Below(Marked(before), Marked(after), i, extra) && !AllBlank(extra)
    ensures var ss, tt := SplitSections(title, before), SplitSections(title, after);
            var at := SectionIndex(Marked(before), i);
            && 0 <= at < |ss| == |tt|
            && SameExceptContent(ss, tt, at)
            && LooksHeaded(tt[at].content)
            && (LooksHeaded(ss[at].content) <==> !BareHeading(before, i))
  {
    hide Marked, Heads, Headings, Buffers, LooksHeaded, SplitSections;
    SectionsBelow(title, before, after, i, extra);
    SectionLooksHeaded(title, before, i);
    SectionLooksHeaded(title, after, i);
    var a := Buffers(Marked(after))[i + 1];
    var x :| 0 <= x < |extra| && !Blank(extra[x]);
    assert a[1 + x] == extra[x];
    assert a[1..][x] == extra[x];
  }

  lemma {:induction false} HeadedConcat(a: seq<Section>, b: seq<Section>)
    ensures HeadedOnly(a + b) == HeadedOnly(a) + HeadedOnly(b)
  {
    hide LooksHeaded;
    if b == [] {
      assert a + b == a;
    } else {
      ConcatInit(a, b);
      HeadedConcat(a, Init(b));
    }
  }

  lemma HeadedOne(s: Section)
    ensures HeadedOnly([s]) == if LooksHeaded(s.content) then [s] else []
  {
    hide LooksHeaded;
    assert Init([s]) == [] && HeadedOnly([]) == [];
  }

  lemma CutAround<T>(s: seq<T>, at: nat)
    requires at < |s|
    ensures s == s[..at] + [s[at]] + s[at + 1..]
  {
  }

  lemma HeadedThree(a: seq<Section>, s: Section, c: seq<Section>)
    ensures HeadedOnly(a + [s] + c) == HeadedOnly(a) + (if LooksHeaded(s.content) then [s] else []) + HeadedOnly(c)
  {
    hide LooksHeaded, HeadedOnly;
    HeadedOne(s);
    HeadedConcat(a, [s]);
    HeadedConcat(a + [s], c);
  }

  /** The sections that look headed, around one of them. */
  lemma HeadedAround(ss: seq<Section>, at: nat)
    requires at < |ss|
    ensures HeadedOnly(ss)
            == HeadedOnly(ss[..at]) + (if LooksHeaded(ss[at].content) then [ss[at]] else []) + HeadedOnly(ss[at + 1..])
  {
    hide LooksHeaded, HeadedOnly;
    CutAround(ss, at);
    HeadedThree(ss[..at], ss[at], ss[at + 1..]);
  }

  lemma {:induction false} SameAnchors(ss: seq<Section>, tt: seq<Section>, anchor: string)
    requires |ss| == |tt| && forall i :: 0 <= i < |ss| ==> ss[i].anchor == tt[i].anchor
    ensures IndexOfAnchor(ss, anchor) == IndexOfAnchor(tt, anchor)
  {
    if ss != [] {
      SameAnchors(Init(ss), Init(tt), anchor);
    }
  }

  /** What lies around the one section that changed. */
  lemma SameAround(ss: seq<Section>, tt: seq<Section>, at: nat)
    requires at < |ss| && SameExceptContent(ss, tt, at)
    ensures tt[..at] == ss[..at] && tt[at + 1..] == ss[at + 1..] && tt[at].anchor == ss[at].anchor
  {
  }

  /** A text under a heading that is not bare moves every found line along. */
  lemma FindMoved(title: string, before: seq<string>, after: seq<string>, i: nat, extra: seq<string>, anchor: string)
    requires Below(Marked(before), Marked(after), i, extra) && !AllBlank(extra) && !BareHeading(before, i)
    ensures FindHeading(title, after, anchor)
         == Moved(FindHeading(title, before, anchor), Heads(Marked(before))[i], |extra|)
  {
    hide Marked, Heads, Headings, Buffers, LooksHeaded, SplitSections, HeadedOnly, IndexOfAnchor, SameExceptContent,
         BareHeading;
    var ss, tt, at := SplitSections(title, before), SplitSections(title, after), SectionIndex(Marked(before), i);
    HeadedBelow(title, before, after, i, extra);
    SameAround(ss, tt, at);
    HeadedAround(ss, at);
    HeadedAround(tt, at);
    SameAnchors(HeadedOnly(ss), HeadedOnly(tt), anchor);
  }

  // ---- Where anchors are found across an insertion --------------------------

  /** Where a line found behind the put-in lines was before. */
  function Back(line: Option<nat>, from: nat, n: nat): Option<nat> {
    match line
    case None => None
    case Some(x) => Some(if x <= from || x < n then x else x - n)
  }

  lemma {:induction false} HeadsOrdered(ls: seq<Line>, x: nat, y: nat)
    requires x < y < |Heads(ls)|
    ensures Heads(ls)[x] < Heads(ls)[y] < |ls|
  {
    if y < |Heads(Init(ls))| {
      HeadsOrdered(Init(ls), x, y);
    } else {
      HeadsBelow(Init(ls), x);
    }
  }

  lemma {:induction false} HeadsBelow(ls: seq<Line>, x: nat)
    requires x < |Heads(ls)|
    ensures Heads(ls)[x] < |ls|
  {
    if x < |Heads(Init(ls))| {
      HeadsBelow(Init(ls), x);
    }
  }

  function HeadAt(heads: seq<nat>, index: Option<nat>): Option<nat> {
    if index.None? || index.value >= |heads| then None else Some(heads[index.value])
  }

  lemma FindIsHeadAt(title: string, body: seq<string>, anchor: string)
    ensures FindHeading(title, body, anchor)
         == HeadAt(Heads(Marked(body)), IndexOfAnchor(HeadedOnly(SplitSections(title, body)), anchor))
  {
    hide Marked, Heads, SplitSections, HeadedOnly, IndexOfAnchor;
  }

  /** A found line of the longer text is a moved heading line of the shorter one. */
  lemma MovedHeadAt(before: seq<Line>, after: seq<Line>, i: nat, extra: seq<string>, index: Option<nat>)
    requires Below(before, after, i, extra)
    ensures HeadAt(Heads(after), index) == Moved(HeadAt(Heads(before), index), Heads(before)[i], |extra|)
    ensures Back(HeadAt(Heads(after), index), Heads(before)[i], |extra|) == HeadAt(Heads(before), index)
  {
    hide Heads, Headings, Buffers;
  }

  lemma IndexLast(ss: seq<Section>, anchor: string)
    requires ss != []
    ensures var front := IndexOfAnchor(Init(ss), anchor);
            IndexOfAnchor(ss, anchor)
            == if front.Some? then front else if Last(ss).anchor == anchor then Some(|ss| - 1) else None
  {
  }

  lemma IndexNone(anchor: string)
    ensures IndexOfAnchor([], anchor) == None
  {
  }

  lemma {:induction false} IndexInConcat(a: seq<Section>, b: seq<Section>, anchor: string)
    ensures IndexOfAnchor(a + b, anchor)
         == if IndexOfAnchor(a, anchor).Some? then IndexOfAnchor(a, anchor)
            else if IndexOfAnchor(b, anchor).Some? then Some(|a| + IndexOfAnchor(b, anchor).value)
            else None
  {
    hide IndexOfAnchor;
    if b == [] {
      assert a + b == a;
      IndexNone(anchor);
    } else {
      ConcatInit(a, b);
      IndexInConcat(a, Init(b), anchor);
      IndexLast(a + b, anchor);
      IndexLast(b, anchor);
    }
  }

  lemma IndexOfOne(s: Section, anchor: string)
    ensures IndexOfAnchor([s], anchor) == if s.anchor == anchor then Some(0) else None
  {
    assert Init([s]) == [] && Last([s]) == s;
    assert IndexOfAnchor([], anchor) == None;
  }

  /** The index a section has once `s` stands after `h` others. */
  function Pushed(index: Option<nat>, h: nat): Option<nat> {
    if index.Some? && index.value >= h then Some(index.value + 1) else index
  }

  lemma IndexPushed(p: seq<Section>, s: Section, r: seq<Section>, anchor: string)
    requires s.anchor != anchor || IndexOfAnchor(p + r, anchor).None?
    ensures IndexOfAnchor(p + [s] + r, anchor)
         == if s.anchor == anchor then Some(|p|) else Pushed(IndexOfAnchor(p + r, anchor), |p|)
  {
    hide IndexOfAnchor;
    IndexOfOne(s, anchor);
    IndexInConcat(p, r, anchor);
    IndexInConcat(p, [s], anchor);
    IndexInConcat(p + [s], r, anchor);
  }

  /** A section that does not look headed does not have the anchor the zip finds. */
  lemma AnchorElsewhere(title: string, body: seq<string>, at: nat, anchor: string)
    requires at < |SplitSections(title, body)| && !LooksHeaded(SplitSections(title, body)[at].content)
    requires IndexOfAnchor(HeadedOnly(SplitSections(title, body)), anchor).Some?
    ensures SplitSections(title, body)[at].anchor != anchor
  {
    hide SplitSections, LooksHeaded, HeadedOnly, IndexOfAnchor;
    var ss := SplitSections(title, body);
    AnchorsAndOrdinals(title, body);
    HeadedMember(ss, IndexOfAnchor(HeadedOnly(ss), anchor).value);
  }

  /** How many sections before heading i's own look headed. */
  function HeadedAbove(title: string, body: seq<string>, i: nat): nat {
    var ss, at := SplitSections(title, body), SectionIndex(Marked(body), i);
    if 0 <= at <= |ss| then |HeadedOnly(ss[..at])| else 0
  }

  function AnchorAt(title: string, body: seq<string>, i: nat): string {
    var ss, at := SplitSections(title, body), SectionIndex(Marked(body), i);
    if 0 <= at < |ss| then ss[at].anchor else ""
  }

  /** Under a bare heading the section put in view gets the anchor's place in the
      zip, and every headed section after it moves on to the next heading line. */
  lemma FindPushed(title: string, before: seq<string>, after: seq<string>, i: nat, extra: seq<string>, anchor: string)
    requires Below(Marked(before), Marked(after), i, extra) && !AllBlank(extra) && BareHeading(before, i)
    ensures var heads, h := Heads(Marked(before)), HeadedAbove(title, before, i);
            var index := IndexOfAnchor(HeadedOnly(SplitSections(title, before)), anchor);
            && FindHeading(title, before, anchor) == HeadAt(heads, index)
            && (anchor == AnchorAt(title, before, i) ==> index == None)
            && Back(FindHeading(title, after, anchor), heads[i], |extra|)
            == HeadAt(heads, if anchor == AnchorAt(title, before, i) then Some(h) else Pushed(index, h))
  {
    hide Marked, Heads, Headings, Buffers, LooksHeaded, SplitSections, HeadedOnly, IndexOfAnchor, SameExceptContent,
         BareHeading, SectionIndex, FindHeading, Below;
    var ss, tt, at := SplitSections(title, before), SplitSections(title, after), SectionIndex(Marked(before), i);
    HeadedBelow(title, before, after, i, extra);
    SameAround(ss, tt, at);
    HeadedAround(ss, at);
    HeadedAround(tt, at);
    var p, r := HeadedOnly(ss[..at]), HeadedOnly(ss[at + 1..]);
    assert p + [] + r == p + r;
    if IndexOfAnchor(HeadedOnly(ss), anchor).Some? {
      AnchorElsewhere(title, before, at, anchor);
    }
    IndexPushed(p, tt[at], r, anchor);
    FindIsHeadAt(title, before, anchor);
    FindIsHeadAt(title, after, anchor);
    MovedHeadAt(Marked(before), Marked(after), i, extra, IndexOfAnchor(HeadedOnly(tt), anchor));
    BelowIndex(Marked(before), Marked(after), i, extra);
  }

  lemma BelowIndex(before: seq<Line>, after: seq<Line>, i: nat, extra: seq<string>)
    requires Below(before, after, i, extra)
    ensures i < |Heads(before)|
  {
  }

  // ---- A found anchor ------------------------------------------------------

  lemma FoundIsHead(title: string, body: seq<string>, anchor: string) returns (i: nat)
    requires FindHeading(title, body, anchor).Some?
    ensures i < |Heads(Marked(body))| && FindHeading(title, body, anchor) == Some(Heads(Marked(body))[i])
    ensures body[Heads(Marked(body))[i]] != "" && body[Heads(Marked(body))[i]][0] == '#'
    ensures var ls, ss := Marked(body), SplitSections(title, body);
            ZipSafe(body) ==> 0 <= SectionIndex(ls, i) < |ss| && ss[SectionIndex(ls, i)].anchor == anchor
  {
    hide SplitSections, Marked, Heads, Buffers, HeadedOnly, HeadingOf, ZipSafe, AllBlank;
    var line := FindHeading(title, body, anchor).value;
    var ls, ss := Marked(body), SplitSections(title, body);
    if ZipSafe(body) {
      FoundLineOpens(title, body, anchor, line);
      i :| 0 <= i < |Heads(ls)| && Heads(ls)[i] == line
           && 0 <= SectionIndex(ls, i) < |ss| && ss[SectionIndex(ls, i)].anchor == anchor;
    } else {
      i := IndexOfAnchor(HeadedOnly(ss), anchor).value;
    }
    HeadingAt(ls, i);
    MarkedAt(body, line);
    HeadingNotBlank(body[line]);
  }

  /** An insertion under a found heading, seen from the body. */
  lemma BodyAfterInsert(title: string, content: string, args: Args) returns (i: nat)
    requires !HasMarker(content, args.conflictId) && OneLine(args.conflictId)
    requires FindAnchorLine(title, content, args.anchor).Some?
    ensures var body, after := BodyLines(content), BodyLines(Insert(title, content, args));
            var ls, ss, block := Marked(body), SplitSections(title, body), Block(args);
            && Below(ls, Marked(after), i, block)
            && |Split(Insert(title, content, args))| - |after| == |Split(content)| - |body|
            && FindAnchorLine(title, content, args.anchor) == Some(|Split(content)| - |body| + Heads(ls)[i])
            && (ZipSafe(body) ==> 0 <= SectionIndex(ls, i) < |ss| && ss[SectionIndex(ls, i)].anchor == args.anchor)
  {
    hide Below, FindHeading, ZipSafe, SplitSections, Marked, Heads, Block, Split, F.BodyText, F.CutLines, F.Put, Insert,
         HasMarker, Inert, F.NoDashes, SectionIndex, AllOneLine;
    var lines, body := Split(content), BodyLines(content);
    i := FoundIsHead(title, body, args.anchor);
    var b := Heads(Marked(body))[i];
    var cut := F.CutLines(lines);
    InsertOnLines(title, content, args);
    F.BodyLineAt(lines, b);
    BlockInert(args);
    F.CutInside(lines, cut.front + b, Block(args));
    PutBelow(body, i, Block(args));
  }

  /** No blank line of the body comes from the closing tag of a block. */
  lemma BlockNotBlank(args: Args)
    requires OneLine(args.conflictId)
    ensures !AllBlank(Block(args)) && Last(Block(args)) != ""
  {
    MarkerShape(args);
    var b := Block(args);
    assert !IsSpace('<');
    assert Last(b)[0] == '<' == b[|b| - 1][0];
    assert !Blank(b[|b| - 1]);
  }

  /** Inserting under a found anchor keeps the number of sections, their headings,
      paths, anchors and ordinals, and every content but one: that of the section
      with the anchor, when the zip is safe. */
  lemma FoundInsertIsInert(title: string, content: string, args: Args) returns (at: nat)
    requires !HasMarker(content, args.conflictId) && OneLine(args.conflictId)
    requires FindAnchorLine(title, content, args.anchor).Some?
    ensures var ss := DocSections(title, content);
            && at < |ss|
            && SameExceptContent(ss, DocSections(title, Insert(title, content, args)), at)
            && (ZipSafe(BodyLines(content)) ==> ss[at].anchor == args.anchor)
  {
    hide Below, FindAnchorLine, Insert, HasMarker, OneLine, SplitSections, BodyLines, Marked, SectionIndex,
         SameExceptContent, ZipSafe, Block, Heads;
    var i := BodyAfterInsert(title, content, args);
    SectionsBelow(title, BodyLines(content), BodyLines(Insert(title, content, args)), i, Block(args));
    at := SectionIndex(Marked(BodyLines(content)), i);
  }

  // ---- The fallback --------------------------------------------------------

  predicate AllEmpty(lines: seq<string>) {
    forall i :: 0 <= i < |lines| ==> lines[i] == ""
  }

  lemma {:induction false} TrimDropsEmpty(lines: seq<string>) returns (tail: seq<string>)
    requires lines != []
    ensures lines == TrimLines(lines) + tail && AllEmpty(tail)
  {
    if |lines| > 1 && Last(lines) == "" {
      var t := TrimDropsEmpty(Init(lines));
      tail := t + [""];
    } else {
      tail := [];
    }
  }

  lemma EmptyInert(lines: seq<string>)
    requires AllEmpty(lines)
    ensures Inert(lines) && F.NoDashes(lines) && AllBlank(lines)
  {
    hide IsFence, HeadingOf;
    AngledInert("");
  }

  /** The body before and after a fallback insertion share everything but a tail. */
  lemma BodyAfterFallback(title: string, content: string, args: Args) returns (x: seq<string>, blank: seq<string>)
    requires !HasMarker(content, args.conflictId) && OneLine(args.conflictId)
    requires FindAnchorLine(title, content, args.anchor).None?
    ensures x == F.OpenBody(TrimLines(Split(content)))
    ensures AllEmpty(blank) && BodyLines(content) == x + blank
    ensures x != [] ==> |Split(content)| - |BodyLines(content)| == |TrimLines(Split(content))| - |x|
    ensures BodyLines(Insert(title, content, args)) == x + (Block(args) + [""])
  {
    hide FindAnchorLine, Insert, HasMarker, Block, Split, TrimLines, F.BodyText, F.CutLines, F.OpenBody, Inert,
         F.NoDashes, AllOneLine;
    var lines := Split(content);
    var t := TrimLines(lines);
    var tail := TrimDropsEmpty(lines);
    InsertOnLines(title, content, args);
    BlockInert(args);
    FallbackNoDashes(args);
    assert t + Block(args) + [""] == t + (Block(args) + [""]);
    F.CutAppend(t, Block(args) + [""]);
    x := F.OpenBody(t);
    if tail == [] {
      assert lines == t;
      F.CutOpen(t);
      blank := if F.CutLines(t).body == x then [] else [""];
    } else {
      EmptyInert(tail);
      F.CutAppend(t, tail);
      blank := tail;
    }
  }

  lemma FallbackNoDashes(args: Args)
    requires OneLine(args.conflictId)
    ensures F.NoDashes(Block(args) + [""]) && Inert(Block(args) + [""]) && !AllBlank(Block(args) + [""])
  {
    hide IsFence, HeadingOf;
    BlockInert(args);
    BlockNotBlank(args);
    AngledInert("");
    var i :| 0 <= i < |Block(args)| && !Blank(Block(args)[i]);
    assert (Block(args) + [""])[i] == Block(args)[i];
  }

  lemma TailBuffers(x: seq<string>, extra: seq<string>)
    requires Inert(extra)
    ensures var bs := Buffers(Marked(x));
            && Headings(Marked(x + extra)) == Headings(Marked(x))
            && Buffers(Marked(x + extra)) == Init(bs) + [Last(bs) + extra]
  {
    hide Marked, Heads, Headings, Buffers, FencedFrom, MarkedFrom, Inert;
    InertInside(x, extra, []);
    assert x + extra + [] == x + extra;
    var m := MarkedFrom(Fenced(x), extra);
    assert MarkedFrom(Fenced(x), []) == [];
    assert Marked(x) + m + [] == Marked(x) + m;
    MarkedText(Fenced(x), extra);
    UnmarkedTail(Marked(x), m);
    BuffersTail(Marked(x), m);
  }

  lemma TailChangesLast(title: string, x: seq<string>, blank: seq<string>, extra: seq<string>)
    requires AllEmpty(blank) && Inert(extra)
    requires SplitSections(title, x + blank) != []
    ensures var ss := SplitSections(title, x + blank);
            SameExceptContent(ss, SplitSections(title, x + extra), |ss| - 1)
  {
    hide Marked, Heads, Headings, Buffers, SplitSections, Assemble, Inert, SameExceptContent, AllEmpty, AllBlank,
         Dropped;
    var hs, b := Headings(Marked(x)), Buffers(Marked(x));
    EmptyInert(blank);
    TailBuffers(x, blank);
    TailBuffers(x, extra);
    SplitIsAssemble(title, x + blank);
    SplitIsAssemble(title, x + extra);
    var bs, cs := Buffers(Marked(x + blank)), Buffers(Marked(x + extra));
    AssembleLength(title, hs, bs);
    TailBlank(b, blank, extra);
    OneDropped(bs);
    AssembleSame(title, hs, bs, cs, |b| - 1);
  }

  lemma OneDropped(bs: seq<seq<string>>)
    requires bs != []
    ensures |bs| - Dropped(bs) != 0 && |bs| == 1 ==> !AllBlank(bs[0])
  {
    hide AllBlank;
  }

  /** A tail of the last buffer decides on a blank preamble only if that is all there is. */
  lemma TailBlank(b: seq<seq<string>>, blank: seq<string>, extra: seq<string>)
    requires b != [] && AllBlank(blank)
    ensures var bs, cs := Init(b) + [Last(b) + blank], Init(b) + [Last(b) + extra];
            (|b| == 1 ==> !AllBlank(bs[0])) ==> (AllBlank(bs[0]) <==> AllBlank(cs[0]))
  {
    hide AllBlank;
    if |b| == 1 {
      AllBlankConcat(b[0], blank);
      AllBlankConcat(b[0], extra);
    } else {
      assert (Init(b) + [Last(b) + blank])[0] == b[0] == (Init(b) + [Last(b) + extra])[0];
    }
  }

  lemma AllBlankConcat(a: seq<string>, b: seq<string>)
    ensures AllBlank(a + b) <==> AllBlank(a) && AllBlank(b)
  {
    var c := a + b;
    assert forall i :: 0 <= i < |a| ==> c[i] == a[i];
    assert forall i :: 0 <= i < |b| ==> c[|a| + i] == b[i];
  }

  /** The fallback changes the last section's content only, if there is a section. */
  lemma FallbackInsertIsInert(title: string, content: string, args: Args)
    requires !HasMarker(content, args.conflictId) && OneLine(args.conflictId)
    requires FindAnchorLine(title, content, args.anchor).None? && DocSections(title, content) != []
    ensures var ss := DocSections(title, content);
            SameExceptContent(ss, DocSections(title, Insert(title, content, args)), |ss| - 1)
  {
    hide FindAnchorLine, Insert, HasMarker, OneLine, SplitSections, BodyLines, SameExceptContent, Block, Inert,
         F.NoDashes, AllBlank;
    var x, blank := BodyAfterFallback(title, content, args);
    FallbackNoDashes(args);
    TailChangesLast(title, x, blank, Block(args) + [""]);
  }
}
