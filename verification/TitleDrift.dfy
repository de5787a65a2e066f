/** Documents whose title a marker changes, and what comes of it: a renamed preamble, a
    marker for a title, a summary for a title, and a second marker that loses its anchor. They
    are read line by line. */
module TitleDrift {
  import opened TextLines
  import opened Anchors
  import opened HeadingPaths
  import opened Outline
  import opened Sections
  import opened AnchorLines
  import opened Titles
  import opened ConflictMarkers
  import opened MarkerEffects
  import opened TwoMarkers
  import opened MarkerTitles
  import opened Annotations
  import F = Frontmatter

  // ---- Reading small documents ---------------------------------------------

  /** A line that starts with a letter. */
  predicate Lettered(line: string) {
    line != "" && ('a' <= line[0] <= 'z' || 'A' <= line[0] <= 'Z')
  }

  lemma LetteredLine(line: string)
    requires Lettered(line)
    ensures !IsFence(line) && HeadingOf(line).None? && !Blank(line)
  {
    StartsAtOnce(line);
  }

  lemma BareHash(line: string)
    requires line == "#  "
    ensures !IsFence(line) && HeadingOf(line) == Some(Heading(1, "")) && Scan(line) == Pending
  {
    hide Piece, TrimEnd;
    assert Hashes("  ") == 0 && line[1..] == "  " && Hashes(line) == 1;
    assert Blank(line[1..]);
    TrimBlank(" ");
    assert line[1..][1..] == " ";
    StartsAtOnce(line);
    FirstOpenIs(line, 0);
  }

  lemma NotesHeading(line: string)
    requires line == "## Notes"
    ensures !IsFence(line) && HeadingOf(line) == Some(Heading(2, "Notes"))
  {
    hide HeadingOf, TextStart, Trim;
    NotesMatch(line);
    HeadingMatch(line, 2, 3);
    HeadingOfMatches(line);
    SameHashes(line, 2, 3, HeadingOf(line).value.level, TextStart(line));
    assert line[3..] == "Notes";
    NotesTrimmed();
    StartsAtOnce(line);
  }

  lemma NotesMatch(line: string)
    requires line == "## Notes"
    ensures MatchesHeading(line, 2, 3) && line[2] == ' '
  {
  }

  lemma SameHashes(line: string, k: int, p: int, l: int, q: int)
    requires MatchesHeading(line, k, p) && MatchesHeading(line, l, q) && !IsSpace(line[p]) && p == k + 1
    ensures l == k && q == p
  {
    hide IsSpace, IsLineEnd;
    LineEndsAreSpaces(line[k]);
    LineEndsAreSpaces(line[l]);
  }

  lemma NotesTrimmed()
    ensures Trim("Notes") == "Notes"
  {
    StartsAtOnce("Notes");
    assert "Notes"[..5] == "Notes" && TrimmedLength("Notes") == 5;
  }

  /** The outline of some lines that end outside a fence. */
  predicate Outlined(body: seq<string>, hs: seq<Heading>, heads: seq<nat>, bs: seq<seq<string>>) {
    var ls := Marked(body);
    !Fenced(body) && Headings(ls) == hs && Heads(ls) == heads && Buffers(ls) == bs
  }

  lemma AddText(body: seq<string>, hs: seq<Heading>, heads: seq<nat>, bs: seq<seq<string>>, b: seq<string>,
                line: string)
    requires Outlined(body, hs, heads, bs + [b]) && !IsFence(line) && HeadingOf(line).None?
    ensures Outlined(body + [line], hs, heads, bs + [b + [line]])
  {
    hide HeadingOf, IsFence, Marked;
    OneMore(body, line);
    InitSnoc(bs, b);
  }

  lemma AddHeading(body: seq<string>, hs: seq<Heading>, heads: seq<nat>, bs: seq<seq<string>>, line: string)
    requires Outlined(body, hs, heads, bs) && !IsFence(line) && HeadingOf(line).Some?
    ensures Outlined(body + [line], hs + [HeadingOf(line).value], heads + [|body|], bs + [[line]])
  {
    hide HeadingOf, IsFence, Marked;
    OneMore(body, line);
  }

  /** One more line, seen by the outline. */
  lemma OneMore(body: seq<string>, line: string)
    requires !Fenced(body) && !IsFence(line)
    ensures !Fenced(body + [line])
    ensures var h := HeadingOf(line);
            var ls, ms := Marked(body), Marked(body + [line]);
            && Headings(ms) == (if h.Some? then Headings(ls) + [h.value] else Headings(ls))
            && Heads(ms) == (if h.Some? then Heads(ls) + [|body|] else Heads(ls))
            && Buffers(ms) == Extend(Buffers(ls), Line(line, h))
  {
    hide HeadingOf, IsFence;
    MarkedSnoc(false, body, line);
    var l := Line(line, MarkOf(false, line));
    MarkSnoc(Marked(body), l);
    InitSnoc(Marked(body), l);
  }

  lemma NothingYet(none: seq<seq<string>>)
    requires none == []
    ensures Outlined([], [], [], none + [[]])
  {
  }

  lemma IntroOutline(a: string)
    requires Lettered(a)
    ensures Outlined([a], [], [], [[a]])
  {
    hide Outlined, HeadingOf, IsFence;
    LetteredLine(a);
    var none: seq<seq<string>>, empty: seq<string> := [], [];
    NothingYet(none);
    AddText([], [], [], none, [], a);
    assert empty + [a] == [a] && none + [[a]] == [[a]];
  }

  /** A preamble line, then a bare heading with a line under it. */
  lemma ShortOutline(a: string, b: string)
    requires Lettered(a) && Lettered(b)
    ensures Outlined([a, "#  ", b], [Heading(1, "")], [1], [[a], ["#  ", b]])
  {
    hide Outlined, HeadingOf, IsFence;
    IntroOutline(a);
    LetteredLine(b);
    BareHash("#  ");
    AddHeading([a], [], [], [[a]], "#  ");
    NothingBefore(Heading(1, ""));
    NothingBefore(1);
    assert [a] + ["#  "] == [a, "#  "] && [[a]] + [["#  "]] == [[a], ["#  "]];
    AddText([a, "#  "], [Heading(1, "")], [1], [[a]], ["#  "], b);
    assert [a, "#  "] + [b] == [a, "#  ", b] && ["#  "] + [b] == ["#  ", b];
    assert [[a]] + [["#  ", b]] == [[a], ["#  ", b]];
  }

  lemma NothingBefore<T>(x: T)
    ensures [] + [x] == [x]
  {
  }

  const NOTES := ["intro", "#  ", "Notes", "## Notes", "text"]

  lemma NotesOutline()
    ensures Outlined(NOTES, [Heading(1, ""), Heading(2, "Notes")], [1, 3],
                     [["intro"], ["#  ", "Notes"], ["## Notes", "text"]])
  {
    hide Outlined, HeadingOf, IsFence;
    var first, bs := ["intro", "#  ", "Notes"], [["intro"], ["#  ", "Notes"]];
    var hs := [Heading(1, ""), Heading(2, "Notes")];
    ShortOutline("intro", "Notes");
    NotesHeading("## Notes");
    LetteredLine("text");
    AddHeading(first, [Heading(1, "")], [1], bs, "## Notes");
    assert [Heading(1, "")] + [Heading(2, "Notes")] == hs;
    AddText(first + ["## Notes"], hs, [1] + [3], bs, ["## Notes"], "text");
    assert first + ["## Notes"] + ["text"] == NOTES && [1] + [3] == [1, 3];
    assert ["## Notes"] + ["text"] == ["## Notes", "text"];
    assert bs + [["## Notes", "text"]] == [["intro"], ["#  ", "Notes"], ["## Notes", "text"]];
  }

  lemma PathUnder(title: string)
    ensures PathOf(title, [Heading(1, "")]) == [""]
    ensures PathOf(title, [Heading(1, ""), Heading(2, "Notes")]) == ["", "Notes"]
  {
    hide StackOf, Compact, Texts, Pick, Ancestors;
    var one, two := [Heading(1, "")], [Heading(1, ""), Heading(2, "Notes")];
    StackPathIsAncestors(one);
    StackPathIsAncestors(two);
    NotesStack();
    NotesPath();
  }

  lemma NotesStack()
    ensures StackOf([Heading(1, "")]) == [Some("")]
    ensures StackOf([Heading(1, ""), Heading(2, "Notes")]) == [Some(""), Some("Notes")]
  {
    var one, two := [Heading(1, "")], [Heading(1, ""), Heading(2, "Notes")];
    assert one[..0] == [] && two[..1] == one;
    assert StackOf([]) == [];
    assert StackOf(one) == [Some("")];
  }

  lemma NotesPath()
    ensures Compact([Some("")]) == [""] && Compact([Some(""), Some("Notes")]) == ["", "Notes"]
  {
    var s: Stack, r: Stack := [Some(""), Some("Notes")], [Some("")];
    assert s[..1] == r && r[..0] == [];
    assert Compact([]) == [];
  }

  lemma SectionAfter(title: string, hs: seq<Heading>, bs: seq<seq<string>>, b: seq<string>)
    requires 0 < |bs| <= |hs|
    ensures var front := Assemble(title, hs, bs);
            Assemble(title, hs, bs + [b]) == front + [Next(title, hs[..|bs|], b, front)]
  {
    InitSnoc(bs, b);
  }

  lemma FirstSection(title: string, hs: seq<Heading>, b: seq<string>)
    requires !AllBlank(b)
    ensures Assemble(title, hs, [b]) == [NewSection(title, [title], {}, b, 0)]
  {
    assert Init([b]) == [] && hs[..0] == [];
  }

  // ---- Anchors of small documents ------------------------------------------

  lemma {:induction false} CollapseGrows(s: string, t: string)
    ensures Collapse(s) <= Collapse(s + t)
  {
    if t == "" {
      assert s + t == s;
    } else {
      assert (s + t)[..|s + t| - 1] == s + t[..|t| - 1];
      CollapseGrows(s, t[..|t| - 1]);
    }
  }

  /** The slug of any text that starts as an opening tag does. */
  lemma TagSlug(rest: string)
    ensures Slugify("<!-- m" + rest) != "" && Slugify("<!-- m" + rest)[0] == 'm'
  {
    var c := Collapse("<!-- m" + rest);
    CollapseGrows("<!-- m", rest);
    TagCollapse();
    assert c[0] == '-' && c[1] == 'm';
    assert c[1..][0] == 'm';
  }

  lemma Spell(s: string, c: char, t: string)
    requires t == s + [c]
    ensures Collapse(t) == AddChar(Collapse(s), Lower(c))
  {
    assert t[..|s|] == s;
  }

  lemma TagCollapse()
    ensures Collapse("<!-- m") == "-m"
  {
    hide Collapse;
    NoCollapse();
    Spell("", '<', "<");
    Spell("<", '!', "<!");
    Spell("<!", '-', "<!-");
    Spell("<!-", '-', "<!--");
    Spell("<!--", ' ', "<!-- ");
    Spell("<!-- ", 'm', "<!-- m");
  }

  lemma NoCollapse()
    ensures Collapse("") == ""
  {
  }

  lemma OtesCollapse(s: string)
    ensures Collapse(s + "otes") == Collapse(s) + "otes"
  {
    hide Collapse;
    Spell(s, 'o', s + "o");
    Spell(s + "o", 't', s + "ot");
    Spell(s + "ot", 'e', s + "ote");
    Spell(s + "ote", 's', s + "otes");
  }

  lemma NotesSlug()
    ensures Slugify("Notes") == "notes" && Slugify("-Notes") == "notes" && Slugify("notes") == "notes"
    ensures Slugify("") == ""
  {
    hide Collapse;
    NoCollapse();
    Spell("", 'N', "N");
    Spell("", 'n', "n");
    Spell("", '-', "-");
    Spell("-", 'N', "-N");
    OtesCollapse("N");
    OtesCollapse("n");
    OtesCollapse("-N");
    OtesAfter();
  }

  lemma OtesAfter()
    ensures "N" + "otes" == "Notes" && "n" + "otes" == "notes" && "-N" + "otes" == "-Notes" && "-n" + "otes" == "-notes"
    ensures StripDashes("-notes") == "notes" == StripDashes("notes") && StripDashes("") == ""
  {
    assert "-notes"[1..] == "notes";
  }

  // ---- The sections of the two documents -----------------------------------

  /** The first section of a document that starts with `intro`. */
  lemma IntroSection(title: string, hs: seq<Heading>)
    ensures var ss := Assemble(title, hs, [["intro"]]);
            |ss| == 1 && ss[0].anchor == BaseAnchor(Slugify(title), 0) && !LooksHeaded(ss[0].content)
            && AnchorSet(ss) == {ss[0].anchor}
  {
    hide Slugify, Trim, BaseAnchor;
    LetteredLine("intro");
    assert !Blank(["intro"][0]);
    FirstSection(title, hs, ["intro"]);
    var s := NewSection(title, [title], {}, ["intro"], 0);
    assert JoinDash([title]) == title && Join(["intro"]) == "intro";
    IntroTrimmed();
    InitSnoc([], s);
    assert [] + [s] == [s];
    assert AnchorSet([]) == {};
  }

  lemma IntroTrimmed()
    ensures Trim("intro") == "intro" && Hashes("intro") == 0
  {
    StartsAtOnce("intro");
    assert "intro"[..5] == "intro" && TrimmedLength("intro") == 5;
  }

  /** The bare heading's section, second, is numbered. */
  lemma BareSection(title: string, hs: seq<Heading>, b: string)
    requires hs != [] && hs[0] == Heading(1, "") && BaseAnchor(Slugify(title), 0) != "section-1"
    ensures var ss := Assemble(title, hs, [["intro"], ["#  ", b]]);
            var front := Assemble(title, hs, [["intro"]]);
            && |ss| == 2 && |front| == 1 && ss[0] == front[0]
            && ss[1].anchor == "section-1"
            && AnchorSet(ss) == {BaseAnchor(Slugify(title), 0), "section-1"}
  {
    hide Slugify, Trim, Assemble, PathOf, Join, AnchorSet;
    IntroSection(title, hs);
    PathUnder(title);
    NotesSlug();
    var front := Assemble(title, hs, [["intro"]]);
    SectionAfter(title, hs, [["intro"]], ["#  ", b]);
    assert [["intro"]] + [["#  ", b]] == [["intro"], ["#  ", b]];
    assert hs[..1] == [Heading(1, "")];
    SectionOne();
    AnchorSetSnoc(front, Next(title, hs[..1], ["#  ", b], front));
  }

  lemma SectionOne()
    ensures BaseAnchor("", 1) == "section-1" && JoinDash([""]) == "" && JoinDash(["", "Notes"]) == "-Notes"
    ensures Decimal(2) == "2"
  {
    assert Decimal(1) == "1";
  }

  lemma AnchorSetSnoc(ss: seq<Section>, s: Section)
    ensures AnchorSet(ss + [s]) == AnchorSet(ss) + {s.anchor}
  {
    InitSnoc(ss, s);
  }

  /** The second heading's section, third, has the slug of its text, or its second
      form if the title has that slug. */
  lemma NotesSection(title: string, hs: seq<Heading>)
    requires hs == [Heading(1, ""), Heading(2, "Notes")] && BaseAnchor(Slugify(title), 0) != "section-1"
    ensures var ss := Assemble(title, hs, [["intro"], ["#  ", "Notes"], ["## Notes", "text"]]);
            var front := Assemble(title, hs, [["intro"], ["#  ", "Notes"]]);
            && |ss| == 3 && |front| == 2 && ss[..2] == front
            && ss[2].anchor == if BaseAnchor(Slugify(title), 0) == "notes" then "notes-2" else "notes"
  {
    hide Slugify, Assemble, Next, PathOf, AnchorSet, BaseAnchor;
    BareSection(title, hs, "Notes");
    var two, last := [["intro"], ["#  ", "Notes"]], ["## Notes", "text"];
    SectionAfter(title, hs, two, last);
    assert two + [last] == [["intro"], ["#  ", "Notes"], ["## Notes", "text"]];
    assert hs[..2] == hs;
    NotesAnchor(title, hs, Assemble(title, hs, two), last);
  }

  lemma NotesAnchor(title: string, hs: seq<Heading>, front: seq<Section>, b: seq<string>)
    requires hs == [Heading(1, ""), Heading(2, "Notes")] && |front| == 2
    requires AnchorSet(front) == {BaseAnchor(Slugify(title), 0), "section-1"}
    ensures Next(title, hs, b, front).anchor == if BaseAnchor(Slugify(title), 0) == "notes" then "notes-2" else "notes"
  {
    hide Slugify, Trim, PathOf, Join, AnchorSet, UniqueAnchor, BaseAnchor, HeadingText;
    PathUnder(title);
    NotesSlug();
    SectionOne();
    NotesSuffix(BaseAnchor(Slugify(title), 0));
  }

  lemma NotesSuffix(first: string)
    ensures UniqueAnchor({first, "section-1"}, "notes", 2) == if first == "notes" then "notes-2" else "notes"
  {
    hide FirstFree;
    var used := {first, "section-1"};
    assert "section-1"[0] == 's' && "notes"[0] == 'n' && "notes-2"[0] == 'n' && |"notes-2"| == 7 && |"notes"| == 5;
    SectionOne();
    assert Suffixed("notes", 2) == "notes-2";
    if first == "notes" {
      FirstFreeIsLeast(used, "notes", 2, 2);
    }
  }

  lemma HeadedTail(ss: seq<Section>, x: string)
    requires 2 <= |ss| <= 3 && !LooksHeaded(ss[0].content)
    requires forall i :: 1 <= i < |ss| ==> LooksHeaded(ss[i].content)
    ensures HeadedOnly(ss) == ss[1..]
    ensures IndexOfAnchor(ss[1..], x)
         == if ss[1].anchor == x then Some(0) else if |ss| == 3 && ss[2].anchor == x then Some(1) else None
  {
    hide LooksHeaded, HeadedOnly, IndexOfAnchor;
    HeadedOne(ss[0]);
    HeadedOne(ss[1]);
    HeadedConcat([ss[0]], [ss[1]]);
    IndexOfOne(ss[1], x);
    if |ss| == 3 {
      HeadedOne(ss[2]);
      HeadedConcat([ss[0]] + [ss[1]], [ss[2]]);
      IndexOfOne(ss[2], x);
      IndexInConcat([ss[1]], [ss[2]], x);
      assert ss == [ss[0]] + [ss[1]] + [ss[2]] && ss[1..] == [ss[1]] + [ss[2]];
    } else {
      assert ss == [ss[0]] + [ss[1]] && ss[1..] == [ss[1]];
    }
  }

  /** The section of a heading above some text, in a document that starts with
      `intro`. */
  lemma HeadedAt(title: string, body: seq<string>, i: nat)
    requires i < |Heads(Marked(body))| && Buffers(Marked(body))[0] == ["intro"]
    requires var b := Buffers(Marked(body))[i + 1]; |b| == 2 && !Blank(b[1])
    ensures !BareHeading(body, i)
    ensures i + 1 < |SplitSections(title, body)| && LooksHeaded(SplitSections(title, body)[i + 1].content)
  {
    hide Marked, Headings, Heads, Buffers, LooksHeaded, SplitSections, Blank;
    var b := Buffers(Marked(body))[i + 1];
    assert b[1..][0] == b[1];
    LetteredLine("intro");
    assert Buffers(Marked(body))[0][0] == "intro";
    SectionLooksHeaded(title, body, i);
  }

  lemma ShortFinds(title: string, b: string)
    requires Lettered(b) && BaseAnchor(Slugify(title), 0) != "section-1"
    ensures FindHeading(title, ["intro", "#  ", b], "section-1") == Some(1)
  {
    hide *;
    ShortSections(title, b);
    var ss := SplitSections(title, ["intro", "#  ", b]);
    HeadedTail(ss, "section-1");
    FindIsHeadAt(title, ["intro", "#  ", b], "section-1");
    HeadAtFirst([1]);
  }

  lemma HeadAtFirst(heads: seq<nat>)
    requires heads != []
    ensures HeadAt(heads, Some(0)) == Some(heads[0])
  {
  }

  lemma ShortSections(title: string, b: string)
    requires Lettered(b) && BaseAnchor(Slugify(title), 0) != "section-1"
    ensures var ss := SplitSections(title, ["intro", "#  ", b]);
            && |ss| == 2 && !LooksHeaded(ss[0].content) && LooksHeaded(ss[1].content) && ss[1].anchor == "section-1"
    ensures Heads(Marked(["intro", "#  ", b])) == [1]
  {
    hide Slugify, Assemble, Marked, Headings, Heads, Buffers, LooksHeaded, SplitSections, BaseAnchor, Blank, AnchorSet,
         Fenced, BareHeading;
    var body, hs := ["intro", "#  ", b], [Heading(1, "")];
    ShortOutline("intro", b);
    SplitIsAssemble(title, body);
    IntroSection(title, hs);
    BareSection(title, hs, b);
    LetteredLine(b);
    HeadedAt(title, body, 0);
  }

  lemma NotesSections(title: string)
    requires BaseAnchor(Slugify(title), 0) != "section-1"
    ensures var ss := SplitSections(title, NOTES);
            && |ss| == 3 && !LooksHeaded(ss[0].content) && ss[1].anchor == "section-1"
            && ss[2].anchor == if BaseAnchor(Slugify(title), 0) == "notes" then "notes-2" else "notes"
  {
    hide Slugify, Assemble, Marked, Headings, Heads, Buffers, LooksHeaded, SplitSections, BaseAnchor, AnchorSet;
    var hs := [Heading(1, ""), Heading(2, "Notes")];
    NotesOutline();
    SplitIsAssemble(title, NOTES);
    IntroSection(title, hs);
    BareSection(title, hs, "Notes");
    NotesSection(title, hs);
    var ss := SplitSections(title, NOTES);
    assert ss[..2][0] == ss[0] && ss[..2][1] == ss[1];
  }

  lemma NotesHeaded(title: string)
    ensures var ss := SplitSections(title, NOTES);
            2 < |ss| && LooksHeaded(ss[1].content) && LooksHeaded(ss[2].content)
    ensures !BareHeading(NOTES, 0) && Heads(Marked(NOTES)) == [1, 3]
  {
    hide Marked, Headings, Heads, Buffers, LooksHeaded, SplitSections;
    NotesOutline();
    LetteredLine("Notes");
    LetteredLine("text");
    HeadedAt(title, NOTES, 0);
    HeadedAt(title, NOTES, 1);
  }

  lemma NotesFinds(title: string)
    requires BaseAnchor(Slugify(title), 0) != "section-1"
    ensures FindHeading(title, NOTES, "section-1") == Some(1)
    ensures FindHeading(title, NOTES, "notes-2") == if BaseAnchor(Slugify(title), 0) == "notes" then Some(3) else None
  {
    hide Slugify, Marked, Heads, LooksHeaded, HeadedOnly, IndexOfAnchor, SplitSections, BaseAnchor, BareHeading;
    NotesSections(title);
    NotesHeaded(title);
    var ss := SplitSections(title, NOTES);
    assert "section-1" != "notes-2" && "notes" != "notes-2";
    HeadedTail(ss, "section-1");
    HeadedTail(ss, "notes-2");
  }

  // ---- Their titles --------------------------------------------------------

  /** Text after the bare heading gives the title, and a marker in between takes it. */
  lemma HashWaits()
    ensures ReadAll(NoHash, ["intro", "#  "]) == Pending
  {
    hide Read, Scan;
    ReadTwo(NoHash, "intro", "#  ");
    PlainIntro();
    PlainLineReads("intro");
    BareHash("#  ");
    ReadIs("intro", "#  ");
  }

  lemma TextArrives(b: string)
    requires Lettered(b) && NoLineEnd(b) && Trim(b) == b
    ensures Read(Pending, b) == Titled(b)
  {
    hide LeadText, NoLineEnd, Trim;
    LetteredLine(b);
    PlainLead(b);
  }

  lemma TitleWaits(b: string, rest: seq<string>)
    requires Lettered(b) && NoLineEnd(b) && Trim(b) == b
    ensures ReadAll(NoHash, ["intro", "#  "]) == Pending
    ensures ReadAll(NoHash, ["intro", "#  ", b] + rest) == Titled(b)
  {
    hide LeadText, Read, LeadingSpaces, NoLineEnd, Trim, Lettered;
    var two: seq<string> := ["intro", "#  "];
    HashWaits();
    TextArrives(b);
    assert ["intro", "#  ", b][..2] == two;
    ReadAllConcat(NoHash, ["intro", "#  ", b], rest);
    TitledStays(Titled(b), rest);
  }

  lemma PlainIntro()
    ensures NoLineEnd("intro") && "intro"[0] != '#'
  {
    assert forall i :: 0 <= i < 5 ==> 'a' <= "intro"[i] <= 'z';
  }

  lemma ReadIs(a: string, h: string)
    requires Scan(a) == NoHash && Scan(h) == Pending
    ensures Read(NoHash, a) == NoHash && Read(NoHash, h) == Pending
  {
  }

  lemma PlainLead(b: string)
    requires Lettered(b) && NoLineEnd(b) && Trim(b) == b
    ensures LeadText(b) == b
  {
    StartsAtOnce(b);
    PieceIs(b, b);
  }

  /** A document without frontmatter. */
  lemma NoFront(content: string, lines: seq<string>)
    requires lines != [] && AllOneLine(lines) && content == Join(lines) && lines[0] != "---"
    ensures Split(content) == BodyLines(content) == lines && !GivesTitle(content)
    ensures TitleOf(content) == Named(ReadAll(NoHash, lines))
  {
    hide Split, Join, ReadAll, F.FirstClose;
    SplitJoin(lines);
    TitleIs(content);
  }

  lemma ShortHasNoMarker(content: string, id: string)
    requires |content| < 24
    ensures !HasMarker(content, id)
  {
    assert |OpenTag(id)| == 28 + |id|;
  }

  // ---- The marker in the way -----------------------------------------------

  /** `section-1` in a document of these lines, whose title is `b`. */
  lemma UnderBareHeading(content: string, b: string, rest: seq<string>, args: Args)
    requires var lines := ["intro", "#  ", b] + rest; AllOneLine(lines) && content == Join(lines)
    requires Lettered(b) && NoLineEnd(b) && Trim(b) == b && OneLine(args.conflictId)
    requires FindHeading(b, ["intro", "#  ", b] + rest, args.anchor) == Some(1) && !HasMarker(content, args.conflictId)
    ensures Split(content) == BodyLines(content) == ["intro", "#  ", b] + rest
    ensures Ready(content, args) && AnchorLineOf(content, args.anchor) == Some(1)
    ensures TitleOf(content) == b && TitleOf(Annotate(content, args)) == LeadText(OpenTag(args.conflictId))
  {
    hide Split, TitleOf, Annotate, HasMarker, FindHeading, BodyLines, ReadAll, Join, Trim, NoLineEnd, LeadText, OpenTag,
         FrontLines, FrontTitle, GivesTitle, OneLine;
    var lines := ["intro", "#  ", b] + rest;
    assert lines[0] == "intro" && lines[..2] == ["intro", "#  "];
    assert "intro"[0] != "---"[0];
    NoFront(content, lines);
    TitleWaits(b, rest);
    TitleAfter(content, args);
  }

  lemma PreambleSeen(b: string)
    requires Lettered(b)
    ensures !BlankPreamble(["intro", "#  ", b]) && !BlankPreamble(NOTES)
  {
    hide Marked, Buffers, Headings, Heads;
    ShortOutline("intro", b);
    NotesOutline();
    LetteredLine("intro");
    assert ["intro"][0] == "intro";
  }

  lemma NotesWord(b: string)
    requires b == "notes" || b == "Notes"
    ensures Lettered(b) && NoLineEnd(b) && Trim(b) == b && OneLine(b)
    ensures BaseAnchor(Slugify(b), 0) == "notes" != "section-1"
  {
    hide Slugify;
    NotesSlug();
    assert forall i :: 0 <= i < 5 ==> 'A' <= b[i] <= 'z';
    StartsAtOnce(b);
    assert TrimmedLength(b) == 5 && b[..5] == b;
    assert "notes"[0] != "section-1"[0];
  }

  lemma SmallLines()
    ensures OneLine("intro") && OneLine("#  ") && OneLine("## Notes") && OneLine("text") && OneLine("#")
  {
  }

  /** The title is the line under an empty heading. A marker under that heading is
      read instead, and the preamble's section is renamed. */
  lemma MarkerTakesTitle(summary: string)
    ensures var content, args := "intro\n#  \nnotes", Args("c1", "section-1", summary);
            && Ready(content, args)
            && TitleOf(content) == "notes"
            && TitleOf(Annotate(content, args)) == "<!-- magpie:conflict id=c1 -->"
            && !SameButOneContent(content, Annotate(content, args))
  {
    hide Ready, Split, TitleOf, Annotate, AnchorLineOf, HasMarker, FindHeading, BodyLines, ReadAll, SameButOneContent,
         Slugify, BlankPreamble, LeadText, NoLineEnd, Trim, OneLine, Lettered, BaseAnchor, UNTITLED;
    var content, args := "intro\n#  \nnotes", Args("c1", "section-1", summary);
    NotesWord("notes");
    SmallLines();
    ShortFinds("notes", "notes");
    ShortJoins();
    ShortHasNoMarker(content, "c1");
    OneTag();
    assert ["intro", "#  ", "notes"] + [] == ["intro", "#  ", "notes"];
    UnderBareHeading(content, "notes", [], args);
    TagTitle("c1");
    PreambleSeen("notes");
    AnnotationIsInertIff(content, args);
    assert "notes"[0] != OpenTag("c1")[0];
  }

  lemma OneTag()
    ensures OpenTag("c1") == "<!-- magpie:conflict id=c1 -->" && NoLineEnd("c1") && OneLine("c1")
  {
  }

  lemma ShortJoins()
    ensures Join(["intro", "#  ", "notes"]) == "intro\n#  \nnotes"
  {
    var l: seq<string> := ["intro", "#  ", "notes"];
    assert l[1..] == ["#  ", "notes"] && ["#  ", "notes"][1..] == ["notes"];
  }

  lemma NotesLines()
    ensures AllOneLine(NOTES)
  {
    hide OneLine;
    SmallLines();
    NotesWord("Notes");
  }

  lemma ShortLinesNoMarker(lines: seq<string>, id: string)
    requires lines != [] && OneLine(id) && forall i :: 0 <= i < |lines| ==> |lines[i]| < 24
    ensures !HasMarker(Join(lines), id)
  {
    hide Join;
    TagShape(id);
    IncludesByLine(lines, OpenTag(id));
    forall i | 0 <= i < |lines|
      ensures !Includes(lines[i], OpenTag(id))
    {
      assert |OpenTag(id)| == 28 + |id|;
    }
  }

  /** The title a marker leaves has a slug of its own. */
  lemma TagAnchor(id: string)
    ensures BaseAnchor(Slugify(OpenTag(id)), 0) !in {"notes", "notes-2", "section-1"}
  {
    hide Slugify;
    var rest := "agpie:conflict id=" + id + " -->";
    assert OpenTag(id) == "<!-- m" + rest;
    TagSlug(rest);
    assert "notes"[0] == 'n' && "notes-2"[0] == 'n' && "section-1"[0] == 's';
  }

  lemma NotesReady(content: string, a: Args)
    requires content == Join(NOTES)
    requires a.anchor == "section-1" && NoLineEnd(a.conflictId) && OneLine(a.conflictId)
    ensures Split(content) == BodyLines(content) == NOTES && Ready(content, a)
    ensures TitleOf(content) == "Notes" && TitleOf(Annotate(content, a)) == OpenTag(a.conflictId)
    ensures !LandsOnBare(content, a.anchor)
  {
    hide *;
    NotesWord("Notes");
    NotesLines();
    NotesShort();
    ShortLinesNoMarker(NOTES, a.conflictId);
    NotesFinds("Notes");
    NotesHeaded("Notes");
    UnderBareHeading(content, "Notes", ["## Notes", "text"], a);
    TagTitle(a.conflictId);
    NotBareAt(content, a, 0);
  }

  lemma NotesShort()
    ensures ["intro", "#  ", "Notes"] + ["## Notes", "text"] == NOTES
    ensures NOTES != [] && forall i :: 0 <= i < |NOTES| ==> |NOTES[i]| < 24
  {
  }

  /** The title changes although the marker's heading is not bare and the preamble
      not headed; a second marker's anchor goes with it, and the two markers are not
      independent. */
  lemma DriftMovesAnchor(a: Args, b: Args)
    requires a.anchor == "section-1" && NoLineEnd(a.conflictId) && OneLine(a.conflictId)
    requires b.anchor == "notes-2" && OneLine(b.conflictId)
    ensures var content := Join(NOTES);
            && Ready(content, a) && !LandsOnBare(content, a.anchor) && !HasMarker(content, b.conflictId)
            && AnchorLineOf(content, b.anchor) == Some(3)
            && AnchorLineOf(Annotate(content, a), b.anchor) == None
            && !Independent(content, a, b)
  {
    hide Ready, Split, TitleOf, Annotate, AnchorLineOf, HasMarker, FindHeading, BodyLines, Slugify, Join, LandsOnBare,
         NoLineEnd, OneLine, BaseAnchor, OpenTag, SecondSpot, Independent;
    var content := Join(NOTES);
    NotesReady(content, a);
    NotesLines();
    ShortLinesNoMarker(NOTES, b.conflictId);
    NotesWord("Notes");
    TagAnchor(a.conflictId);
    NotesFinds("Notes");
    NotesFinds(OpenTag(a.conflictId));
    AnchorLineIs(content, b.anchor);
    assert AnchorLineOf(content, b.anchor) == Some(3);
    assert FindAnchorLine(OpenTag(a.conflictId), content, b.anchor) == None;
    MarkersIndependent(content, a, b);
    SecondUnderTitle(content, a, b.anchor);
    SecondNone(content, a, b.anchor);
  }

  lemma SecondNone(content: string, a: Args, anchor: string)
    requires SecondSpot(content, a, anchor) == None
    ensures AnchorLineOf(Annotate(content, a), anchor) == None
  {
    hide AnchorLineOf, Annotate;
  }

  // ---- Documents without a heading -----------------------------------------

  lemma LoneHash()
    ensures !IsFence("#") && HeadingOf("#").None? && Scan("#") == Pending
  {
    hide Piece, TrimEnd;
    assert "#"[1..] == "";
    StartsAtOnce("#");
    FirstOpenIs("#", 0);
  }

  lemma NothingToFind(title: string, lines: seq<string>, anchor: string)
    requires lines != [] && lines[0] == "intro" && Outlined(lines, [], [], [lines])
    ensures FindHeading(title, lines, anchor).None? && !BlankPreamble(lines)
  {
    hide Marked, Headings, Heads, Buffers, SplitSections, HeadedOnly, IndexOfAnchor, Blank;
    LetteredLine("intro");
    assert Buffers(Marked(lines))[0] == lines;
  }

  lemma NoAnchorLine(content: string, anchor: string)
    requires FindHeading(TitleOf(content), BodyLines(content), anchor).None?
    ensures AnchorLineOf(content, anchor) == None
    ensures Above(content, anchor) == F.OpenBody(TrimLines(Split(content)))
  {
    hide FindHeading, TitleOf, BodyLines, Split, TrimLines, F.OpenBody;
  }

  lemma AllAbove(lines: seq<string>)
    requires lines != [] && lines[0] != "---" && Last(lines) != ""
    ensures F.OpenBody(TrimLines(lines)) == lines
  {
  }

  /** A preamble alone, with no anchor to find. */
  lemma NoHeadings(content: string, lines: seq<string>, anchor: string)
    requires lines != [] && lines[0] == "intro" && AllOneLine(lines) && content == Join(lines)
    requires Outlined(lines, [], [], [lines]) && Last(lines) != ""
    ensures AnchorLineOf(content, anchor) == None && !BlankPreamble(BodyLines(content)) && SectionsOf(content) != []
    ensures Split(content) == lines && !GivesTitle(content) && TitleOf(content) == Named(ReadAll(NoHash, lines))
    ensures Above(content, anchor) == lines
  {
    hide Split, TitleOf, Join, GivesTitle, Above, AnchorLineOf, BlankPreamble, SplitSections, ReadAll, Outlined,
         BodyLines, FindHeading, F.OpenBody, TrimLines, AllOneLine;
    assert "intro"[0] != "---"[0];
    NoFront(content, lines);
    NothingToFind(TitleOf(content), lines, anchor);
    NoAnchorLine(content, anchor);
    AllAbove(lines);
    PreambleShowsTitle(TitleOf(content), lines);
  }

  /** A `#` that ends the text waits for its title, and gets the marker's tag. */
  lemma MarkerBecomesTitle(args: Args)
    requires NoLineEnd(args.conflictId) && OneLine(args.conflictId)
    ensures var content := "intro\n#";
            && AnchorLineOf(content, args.anchor) == None && SectionsOf(content) != []
            && TitleOf(content) == "Untitled" && TitleOf(Annotate(content, args)) == OpenTag(args.conflictId)
            && !SameButOneContent(content, Annotate(content, args))
  {
    hide Split, TitleOf, Annotate, AnchorLineOf, HasMarker, BodyLines, SectionsOf, Join, BlankPreamble, Above,
         NoLineEnd, OneLine, OpenTag, LeadText, ReadAll, GivesTitle, HeadingOf, IsFence, Outlined, SameButOneContent;
    var content, lines := "intro\n#", ["intro", "#"];
    SmallLines();
    HashJoins();
    HashOutline();
    NoHeadings(content, lines, args.anchor);
    ShortHasNoMarker(content, args.conflictId);
    HashReads();
    TitleAfter(content, args);
    TagTitle(args.conflictId);
    AnnotationIsInertIff(content, args);
  }

  lemma HashJoins()
    ensures Join(["intro", "#"]) == "intro\n#" && Join(["intro"]) == "intro"
  {
    assert ["intro", "#"][1..] == ["#"];
  }

  lemma HashOutline()
    ensures Outlined(["intro", "#"], [], [], [["intro", "#"]])
  {
    hide Outlined, HeadingOf, IsFence;
    var none: seq<seq<string>> := [];
    IntroOutline("intro");
    LoneHash();
    assert none + [["intro"]] == [["intro"]];
    AddText(["intro"], [], [], none, ["intro"], "#");
    assert ["intro"] + ["#"] == ["intro", "#"] && none + [["intro", "#"]] == [["intro", "#"]];
  }

  lemma HashReads()
    ensures ReadAll(NoHash, ["intro", "#"]) == Pending
  {
    hide Scan;
    PlainIntro();
    PlainLineReads("intro");
    LoneHash();
    ReadTwo(NoHash, "intro", "#");
  }

  const SMUGGLED := "x\U{2028}# T"

  /** A summary with a line separator, which `$` and `^` honour and the callout does
      not quote, gives a document without a title one. */
  lemma SummaryBecomesTitle(id: string, anchor: string)
    requires NoLineEnd(id) && OneLine(id)
    ensures var content, args := "intro", Args(id, anchor, SMUGGLED);
            && AnchorLineOf(content, anchor) == None && SectionsOf(content) != []
            && TitleOf(content) == "Untitled" && TitleOf(Annotate(content, args)) == "T"
            && !SameButOneContent(content, Annotate(content, args))
  {
    hide Split, TitleOf, Annotate, AnchorLineOf, HasMarker, BodyLines, SectionsOf, Join, BlankPreamble, Above, Scan,
         Block, NoLineEnd, OneLine, OpenTag, LeadText, ReadAll, GivesTitle, HeadingOf, IsFence, Outlined,
         SameButOneContent;
    var content, args := "intro", Args(id, anchor, SMUGGLED);
    SmallLines();
    HashJoins();
    IntroOutline("intro");
    NoHeadings(content, ["intro"], anchor);
    ShortHasNoMarker(content, id);
    IntroReads();
    SmuggledBlock(id, anchor);
    TitleAfter(content, args);
    AnnotationIsInertIff(content, args);
    assert "T" != "Untitled" by { assert |"T"| == 1; }
  }

  lemma IntroReads()
    ensures ReadAll(NoHash, ["intro"]) == NoHash
  {
    hide Scan;
    PlainIntro();
    PlainLineReads("intro");
    assert ["intro"][..0] == [] && ReadAll(NoHash, []) == NoHash;
  }

  lemma SmuggledBlock(id: string, anchor: string)
    requires NoLineEnd(id) && OneLine(id)
    ensures ReadAll(NoHash, Block(Args(id, anchor, SMUGGLED))) == Titled("T")
  {
    hide Scan, OpenTag, NoLineEnd, OneLine, ReadAll, Callout, LeadText;
    var args := Args(id, anchor, SMUGGLED);
    var line := "> **Unresolved source conflict.** " + SMUGGLED;
    SmuggledCallout();
    PlainTags(id);
    TagShape(id);
    PlainLineReads(OpenTag(id));
    CloseTagReads();
    SmuggledLine();
    var b := Block(args);
    assert b == ["", OpenTag(id)] + [line, CLOSE_TAG];
    ReadTwo(NoHash, "", OpenTag(id));
    ReadAllConcat(NoHash, ["", OpenTag(id)], [line, CLOSE_TAG]);
    ReadTwo(NoHash, line, CLOSE_TAG);
  }

  lemma SmuggledCallout()
    ensures Callout(SMUGGLED) == ["> **Unresolved source conflict.** " + SMUGGLED]
  {
    var line := "> **Unresolved source conflict.** " + SMUGGLED;
    SplitOneLine(SMUGGLED);
    assert line[|line| - 1] == 'T' && !IsSpace('T');
    assert TrimmedLength(line) == |line| && line[..|line|] == line;
  }

  lemma SmuggledLine()
    ensures Scan("> **Unresolved source conflict.** " + SMUGGLED) == Titled("T")
  {
    hide LeadText;
    var head, line := "> **Unresolved source conflict.** ", "> **Unresolved source conflict.** " + SMUGGLED;
    assert |head| == 34 && line[34] == 'x' && line[35] == SMUGGLED[1] && line[36] == '#' && line[37] == ' '
           && line[38] == 'T';
    assert forall p :: 0 <= p < 34 ==> head[p] != '#';
    assert forall p :: 0 <= p < 34 ==> line[p] == head[p];
    assert OpensTitle(line, 36);
    FirstOpenIs(line, 36);
    assert line[37..] == " T";
    assert !Blank(" T") by { assert " T"[1] == 'T'; }
    LeadT();
  }

  lemma LeadT()
    ensures LeadText(" T") == "T"
  {
    assert " T"[1..] == "T" && LeadingSpaces("T") == 0 && LeadingSpaces(" T") == 1;
    PieceIs("T", "T");
    assert TrimmedLength("T") == 1 && "T"[..1] == "T";
  }
}
