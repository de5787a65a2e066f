/** What a marker does to the title of a document: nothing if the title is complete above
    the marker or comes from the frontmatter, and otherwise what its own lines say, for a
    `#` above it waits for the next text. */
module MarkerTitles {
  import opened TextLines
  import opened Outline
  import opened Sections
  import opened AnchorLines
  import opened Titles
  import opened ConflictMarkers
  import opened MarkerEffects
  import opened TwoMarkers
  import F = Frontmatter

  // ---- The frontmatter stays -----------------------------------------------

  lemma FrontAppend(lines: seq<string>, extra: seq<string>)
    requires lines != [] && F.NoDashes(extra)
    ensures FrontLines(lines + extra) == FrontLines(lines)
  {
    var all := lines + extra;
    if lines[0] == "---" {
      if |lines| < 2 {
        if |all| >= 2 {
          F.FirstCloseIs(all, 2, |all|);
        }
      } else {
        hide F.FirstClose, F.NoDashes;
        F.AppendFirstClose(lines, extra);
      }
    }
  }

  lemma FrontPut(lines: seq<string>, k: nat, extra: seq<string>)
    requires lines != [] && F.NoDashes(extra) && F.CutLines(lines).front <= k < |lines| && lines[k] != "---"
    ensures FrontLines(F.Put(lines, k, extra)) == FrontLines(lines)
  {
    hide F.FirstClose, F.NoDashes;
    if lines[0] == "---" && |lines| >= 2 {
      F.PutFirstClose(lines, k, extra);
    }
  }

  // ---- The inferred title --------------------------------------------------

  lemma CloseTagReads()
    ensures Scan(CLOSE_TAG) == NoHash && Scan("") == NoHash && !Blank(CLOSE_TAG)
  {
    hide LeadText;
    assert forall p :: 0 <= p < |CLOSE_TAG| ==> CLOSE_TAG[p] != '#';
    assert CLOSE_TAG[0] == '<' && !IsSpace('<');
  }

  /** A marker ends a wait for the title with its opening tag; and it leaves no wait
      behind. */
  lemma BlockReads(args: Args)
    requires OneLine(args.conflictId)
    ensures ReadAll(Pending, Block(args)) == Titled(LeadText(OpenTag(args.conflictId)))
    ensures ReadAll(NoHash, Block(args)) != Pending
  {
    hide LeadText, Scan, Blank, MarkerLines, OpenTag;
    var m, b := MarkerLines(args), Block(args);
    MarkerShape(args);
    CloseTagReads();
    TagNotBlank(args.conflictId);
    ReadTwo(Pending, "", m[0]);
    assert b == ["", m[0]] + m[1..];
    ReadAllConcat(Pending, ["", m[0]], m[1..]);
    TitledStays(Titled(LeadText(m[0])), m[1..]);
    assert b[|b| - 1] == CLOSE_TAG;
  }

  lemma TagNotBlank(id: string)
    ensures !Blank(OpenTag(id)) && Blank("")
  {
    assert OpenTag(id)[0] == '<' && !IsSpace('<');
  }

  lemma ReadTwo(st: Probe, a: string, b: string)
    ensures ReadAll(st, [a, b]) == Read(Read(st, a), b)
  {
    hide Read;
    assert [a, b][..1] == [a] && [a][..0] == [];
    assert ReadAll(st, []) == st;
    assert ReadAll(st, [a]) == Read(st, a);
  }

  lemma {:induction false} EmptyReads(st: Probe, lines: seq<string>)
    requires AllEmpty(lines)
    ensures ReadAll(st, lines) == st
  {
    hide LeadText, Scan;
    CloseTagReads();
    if lines != [] {
      EmptyReads(st, lines[..|lines| - 1]);
    }
  }

  /** The inferred title once a marker stands under the lines `above`. */
  function TitleUnder(above: seq<string>, args: Args, title: string): string {
    match ReadAll(NoHash, above)
    case Titled(_) => title
    case Pending => LeadText(OpenTag(args.conflictId))
    case NoHash =>
      match ReadAll(NoHash, Block(args))
      case Titled(t) => t
      case _ => title
  }

  lemma InferredInside(above: seq<string>, rest: seq<string>, args: Args)
    requires OneLine(args.conflictId)
    ensures Named(ReadAll(NoHash, above + Block(args) + rest))
         == TitleUnder(above, args, Named(ReadAll(NoHash, above + rest)))
  {
    hide Read, ReadAll, Block, OpenTag, LeadText;
    var st := ReadAll(NoHash, above);
    BlockReads(args);
    ReadAllConcat(NoHash, above, rest);
    ReadAllConcat(NoHash, above, Block(args));
    ReadAllConcat(NoHash, above + Block(args), rest);
    if st.Titled? {
      TitledStays(st, rest);
      TitledStays(st, Block(args));
    }
    var after := ReadAll(st, Block(args));
    if after.Titled? {
      TitledStays(after, rest);
    }
  }

  lemma InferredAtEnd(above: seq<string>, blank: seq<string>, args: Args)
    requires OneLine(args.conflictId) && AllEmpty(blank)
    ensures Named(ReadAll(NoHash, above + (Block(args) + [""])))
         == TitleUnder(above, args, Named(ReadAll(NoHash, above + blank)))
  {
    hide Read, ReadAll, Block, OpenTag, LeadText, TitleUnder;
    InferredInside(above, [""], args);
    assert above + (Block(args) + [""]) == above + Block(args) + [""];
    ReadAllConcat(NoHash, above, [""]);
    ReadAllConcat(NoHash, above, blank);
    EmptyReads(ReadAll(NoHash, above), [""]);
    EmptyReads(ReadAll(NoHash, above), blank);
  }

  // ---- The title of the document -------------------------------------------

  /** The lines of the body that a marker for this anchor goes under. */
  function Above(content: string, anchor: string): seq<string> {
    var lines, body := Split(content), BodyLines(content);
    match AnchorLineOf(content, anchor)
    case None => F.OpenBody(TrimLines(lines))
    case Some(l) => var n := l + 1 - (|lines| - |body|); if 0 <= n <= |body| then body[..n] else body
  }

  predicate GivesTitle(content: string) {
    FrontTitle(FrontLines(Split(content))) != ""
  }

  lemma TitleIs(content: string)
    ensures TitleOf(content)
         == if GivesTitle(content) then FrontTitle(FrontLines(Split(content)))
            else Named(ReadAll(NoHash, BodyLines(content)))
  {
  }

  lemma FoundAbove(content: string, args: Args)
    requires Ready(content, args)
    ensures FrontLines(Split(Annotate(content, args))) == FrontLines(Split(content))
    ensures exists rest :: BodyLines(content) == Above(content, args.anchor) + rest
                           && BodyLines(Annotate(content, args)) == Above(content, args.anchor) + Block(args) + rest
  {
    hide Ready, Annotate, AnchorLineOf, Block, Split, F.Put, Below, Marked, Heads, FindHeading, Inert, F.NoDashes,
         FrontLines, HeadingOf, IsFence, Buffers, Headings;
    var i, k := Placed(content, args);
    var lines, body := Split(content), BodyLines(content);
    var b := Heads(Marked(body))[i];
    assert OneLine(args.conflictId) by {
      ReadyIsOneLine(content, args);
    }
    BlockInert(args);
    HeadingAt(Marked(body), i);
    MarkedAt(body, b);
    HeadingNotBlank(body[b]);
    F.BodyLineAt(lines, b);
    FrontPut(lines, k, Block(args));
    F.CutInside(lines, k, Block(args));
    PutIs(body, b, Block(args));
    assert Above(content, args.anchor) == body[..b + 1];
  }

  lemma ReadyIsOneLine(content: string, a: Args)
    requires Ready(content, a)
    ensures OneLine(a.conflictId)
  {
  }

  lemma PutIs(lines: seq<string>, k: nat, extra: seq<string>)
    requires k < |lines|
    ensures F.Put(lines, k, extra) == lines[..k + 1] + extra + lines[k + 1..]
            && lines == lines[..k + 1] + lines[k + 1..]
  {
  }

  lemma EndAbove(content: string, args: Args)
    requires !HasMarker(content, args.conflictId) && OneLine(args.conflictId)
             && AnchorLineOf(content, args.anchor).None?
    ensures FrontLines(Split(Annotate(content, args))) == FrontLines(Split(content))
    ensures exists blank :: AllEmpty(blank) && BodyLines(content) == Above(content, args.anchor) + blank
                            && BodyLines(Annotate(content, args)) == Above(content, args.anchor) + (Block(args) + [""])
  {
    hide Insert, FindAnchorLine, Block, Split, TrimLines, F.OpenBody, F.CutLines, Inert, F.NoDashes, FrontLines,
         HasMarker, OneLine, AllEmpty, TitleOf;
    var lines := Split(content);
    var t := TrimLines(lines);
    var tail := TrimDropsEmpty(lines);
    var x, blank := BodyAfterFallback(TitleOf(content), content, args);
    InsertOnLines(TitleOf(content), content, args);
    FallbackNoDashes(args);
    EmptyInert(tail);
    FrontAppend(t, Block(args) + [""]);
    FrontAppend(t, tail);
    assert t + Block(args) + [""] == t + (Block(args) + [""]);
  }

  /** The title after any insertion: a frontmatter title stays; an inferred one stays
      if its line is complete above the marker, becomes the marker's opening tag if
      its `#` still waits for text there, and otherwise is what the marker's own lines
      supply, if they do. */
  lemma TitleAfter(content: string, args: Args)
    requires !HasMarker(content, args.conflictId) && OneLine(args.conflictId)
    ensures GivesTitle(Annotate(content, args)) == GivesTitle(content)
    ensures TitleOf(Annotate(content, args))
         == if GivesTitle(content) then TitleOf(content)
            else TitleUnder(Above(content, args.anchor), args, TitleOf(content))
  {
    hide Annotate, AnchorLineOf, Block, Split, FrontLines, HasMarker, OneLine, AllEmpty, TitleOf, Above, BodyLines,
         ReadAll, TitleUnder, FrontTitle;
    TitleIs(content);
    TitleIs(Annotate(content, args));
    var above := Above(content, args.anchor);
    if AnchorLineOf(content, args.anchor).Some? {
      FoundAbove(content, args);
      var rest :| BodyLines(content) == above + rest
          && BodyLines(Annotate(content, args)) == above + Block(args) + rest;
      InferredInside(above, rest, args);
    } else {
      EndAbove(content, args);
      var blank :| AllEmpty(blank) && BodyLines(content) == above + blank
                   && BodyLines(Annotate(content, args)) == above + (Block(args) + [""]);
      InferredAtEnd(above, blank, args);
    }
  }

  // ---- When the title stays ------------------------------------------------

  lemma LeadTextInside(s: string)
    ensures OccursAt(s, LeadText(s), LeadingSpaces(s))
  {
    hide Piece, TrimmedLength;
    var w, p := LeadingSpaces(s), Piece(TrimStart(s));
    var t := LeadText(s);
    assert t == p[..|t|] && p == s[w..][..|p|];
    assert s[w..w + |t|] == t;
  }

  lemma {:induction false} PendingText(lines: seq<string>)
    ensures ReadAll(Pending, lines) != NoHash
    ensures ReadAll(Pending, lines).Titled? ==>
              exists i :: 0 <= i < |lines| && ReadAll(Pending, lines).title == LeadText(lines[i])
  {
    hide LeadText, Scan, Blank;
    if lines != [] {
      var n := |lines| - 1;
      PendingText(lines[..n]);
      var st := ReadAll(Pending, lines[..n]);
      if st.Titled? {
        var i :| 0 <= i < n && st.title == LeadText(lines[..n][i]);
        assert lines[i] == lines[..n][i];
      }
    }
  }

  /** An opening tag without line ends is the whole title it gives. */
  lemma TagTitle(id: string)
    requires NoLineEnd(id)
    ensures LeadText(OpenTag(id)) == OpenTag(id) != UNTITLED
  {
    var tag := OpenTag(id);
    assert NoLineEnd(tag) by {
      assert forall i :: 0 <= i < |tag| ==> tag[i] == if i < 24 then "<!-- magpie:conflict id="[i]
                                                      else if i < 24 + |id| then id[i - 24] else " -->"[i - 24 - |id|];
    }
    assert tag[0] == '<' && tag[|tag| - 1] == '>' && !IsSpace('<') && !IsSpace('>');
    PieceIs(tag, tag);
    assert UNTITLED[0] == 'U';
  }

  lemma BodyIncludes(content: string, part: string, i: nat)
    requires i < |BodyLines(content)| && OneLine(part) && part != "" && Includes(BodyLines(content)[i], part)
    ensures Includes(content, part)
  {
    hide Split, F.CutLines, F.AfterClose, Includes;
    BodyLinesAreBody(content);
    JoinSplit(F.BodyText(content));
    IncludesByLine(BodyLines(content), part);
    SuffixIncludes(content, part);
  }

  lemma SuffixIncludes(content: string, part: string)
    requires Includes(F.BodyText(content), part)
    ensures Includes(content, part)
  {
    hide F.AfterClose;
    var body := F.BodyText(content);
    BodyIsSuffix(content);
    var n := |content| - |body|;
    var i :| OccursAt(body, part, i);
    OccursInside(content[..n], body, "", part, i);
    assert content[..n] + body + "" == content;
  }

  lemma BodyIsSuffix(content: string)
    ensures |F.BodyText(content)| <= |content|
    ensures content[|content| - |F.BodyText(content)|..] == F.BodyText(content)
  {
    if "---\n" <= content {
      AfterCloseIsSuffix(content[4..]);
    }
  }

  lemma {:induction false} AfterCloseIsSuffix(s: string)
    ensures F.AfterClose(s).Some? ==> s[|s| - |F.AfterClose(s).value|..] == F.AfterClose(s).value
  {
    if |s| >= 4 && s[..4] != "\n---" {
      AfterCloseIsSuffix(s[1..]);
    }
  }

  /** A `#` that waits for its text above the marker never gets the old title back. */
  lemma WaitingTitleChanges(content: string, args: Args)
    requires !HasMarker(content, args.conflictId) && NoLineEnd(args.conflictId) && OneLine(args.conflictId)
    requires ReadAll(NoHash, Above(content, args.anchor)).Pending? && !GivesTitle(content)
    ensures TitleOf(content) != LeadText(OpenTag(args.conflictId))
  {
    hide Annotate, AnchorLineOf, Block, Split, FrontLines, AllEmpty, TitleOf, Above, BodyLines, ReadAll, FrontTitle,
         LeadText, OpenTag, Includes, LeadingSpaces;
    TitleIs(content);
    TagTitle(args.conflictId);
    TagShape(args.conflictId);
    var above, body := Above(content, args.anchor), BodyLines(content);
    var rest := RestBelow(content, args);
    ReadAllConcat(NoHash, above, rest);
    PendingText(rest);
    if ReadAll(Pending, rest).Titled? {
      var i :| 0 <= i < |rest| && ReadAll(Pending, rest).title == LeadText(rest[i]);
      assert body[|above| + i] == rest[i];
      LeadTextInside(rest[i]);
      if LeadText(rest[i]) == OpenTag(args.conflictId) {
        OccursWithin(rest[i], OpenTag(args.conflictId), LeadingSpaces(rest[i]));
        BodyIncludes(content, OpenTag(args.conflictId), |above| + i);
      }
    }
  }

  lemma RestBelow(content: string, args: Args) returns (rest: seq<string>)
    requires !HasMarker(content, args.conflictId) && OneLine(args.conflictId)
    ensures BodyLines(content) == Above(content, args.anchor) + rest
  {
    hide Annotate, AnchorLineOf, Block, Split, HasMarker, OneLine, AllEmpty, Above, BodyLines;
    if AnchorLineOf(content, args.anchor).Some? {
      FoundAbove(content, args);
      rest :| BodyLines(content) == Above(content, args.anchor) + rest;
    } else {
      EndAbove(content, args);
      rest :| BodyLines(content) == Above(content, args.anchor) + rest;
    }
  }

  /** The marker leaves the title alone: the frontmatter gives it, or its line is
      complete above the marker, or no `#` opens it there and the marker's own lines
      supply none, or the same. */
  predicate KeepsTitle(content: string, args: Args) {
    || GivesTitle(content)
    || match ReadAll(NoHash, Above(content, args.anchor))
       case Titled(_) => true
       case Pending => false
       case NoHash => ReadAll(NoHash, Block(args)) in {NoHash, Titled(TitleOf(content))}
  }

  /** And exactly then. */
  lemma TitleKeptIff(content: string, args: Args)
    requires !HasMarker(content, args.conflictId) && OneLine(args.conflictId) && NoLineEnd(args.conflictId)
    ensures TitleOf(Annotate(content, args)) == TitleOf(content) <==> KeepsTitle(content, args)
  {
    hide Annotate, AnchorLineOf, Block, HasMarker, OneLine, TitleOf, Above, ReadAll, GivesTitle, OpenTag, LeadText;
    TitleAfter(content, args);
    BlockReads(args);
    if ReadAll(NoHash, Above(content, args.anchor)).Pending? && !GivesTitle(content) {
      WaitingTitleChanges(content, args);
    }
  }

  // ---- What the marker's own lines can supply ------------------------------

  lemma PlainLineReads(line: string)
    requires NoLineEnd(line) && (line == "" || line[0] != '#')
    ensures Scan(line) == NoHash
  {
    hide LeadText, IsLineEnd;
    forall p | 0 <= p < |line|
      ensures !OpensTitle(line, p)
    {
      assert p > 0 ==> !IsLineEnd(line[p - 1]);
    }
  }

  lemma TrimEndPlain(s: string)
    requires NoLineEnd(s)
    ensures NoLineEnd(TrimEnd(s))
  {
  }

  lemma PrefixPlain(prefix: string, s: string)
    requires NoLineEnd(prefix) && NoLineEnd(s)
    ensures NoLineEnd(prefix + s)
  {
    var t := prefix + s;
    assert forall i :: 0 <= i < |t| ==> t[i] == if i < |prefix| then prefix[i] else s[i - |prefix|];
  }

  /** The summary has no line breaks but those it is split at. */
  predicate PlainSummary(summary: string) {
    forall i :: 0 <= i < |Split(summary)| ==> NoLineEnd(SummaryLine(summary, i))
  }

  lemma {:induction false} PlainCallout(summary: string, i: nat)
    requires PlainSummary(summary) && i < |Callout(summary)|
    ensures NoLineEnd(Callout(summary)[i])
  {
    hide Split, TrimEnd, IsLineEnd, DropReturns, Quoted;
    var ls := DropReturns(Split(summary));
    DroppedAt(Split(summary), i);
    PlainPrefixes();
    assert NoLineEnd(SummaryLine(summary, i));
    var prefix := if i == 0 then "> **Unresolved source conflict.** " else "> ";
    PrefixPlain(prefix, ls[i]);
    TrimEndPlain(prefix + ls[i]);
    if i > 0 {
      QuotedAt(ls[1..], i - 1);
    }
  }

  lemma PlainPrefixes()
    ensures NoLineEnd("> **Unresolved source conflict.** ") && NoLineEnd("> ") && NoLineEnd(CLOSE_TAG)
  {
  }

  lemma {:induction false} PlainLinesRead(lines: seq<string>)
    requires forall i :: 0 <= i < |lines| ==> NoLineEnd(lines[i]) && (lines[i] == "" || lines[i][0] != '#')
    ensures ReadAll(NoHash, lines) == NoHash
  {
    hide Scan, NoLineEnd;
    if lines != [] {
      PlainLinesRead(lines[..|lines| - 1]);
      PlainLineReads(lines[|lines| - 1]);
    }
  }

  /** So an ordinary marker supplies no title. */
  lemma PlainMarkerReads(args: Args)
    requires NoLineEnd(args.conflictId) && PlainSummary(args.summary)
    ensures OneLine(args.conflictId) && ReadAll(NoHash, Block(args)) == NoHash
  {
    hide NoLineEnd, IsLineEnd, Callout, ReadAll, PlainSummary, OpenTag;
    OneLineIfPlain(args.conflictId);
    MarkerShape(args);
    var b := Block(args);
    forall i | 0 <= i < |b|
      ensures NoLineEnd(b[i]) && (b[i] == "" || b[i][0] != '#')
    {
      if 2 <= i < |b| - 1 {
        PlainCallout(args.summary, i - 2);
      } else {
        PlainTags(args.conflictId);
      }
    }
    PlainLinesRead(b);
  }

  lemma OneLineIfPlain(id: string)
    requires NoLineEnd(id)
    ensures OneLine(id)
  {
  }

  lemma PlainTags(id: string)
    requires NoLineEnd(id)
    ensures NoLineEnd(OpenTag(id)) && NoLineEnd(CLOSE_TAG) && NoLineEnd("")
  {
    PlainPrefixes();
    PrefixPlain("<!-- magpie:conflict id=", id);
    PrefixPlain("<!-- magpie:conflict id=" + id, " -->");
  }
}
