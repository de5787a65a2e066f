/** Inserting and removing conflict markers under a section found by its anchor. */
module ConflictMarkers {
  import opened TextLines
  import opened Outline
  import opened Sections
  import opened AnchorLines
  import opened Titles
  import F = Frontmatter

  const CLOSE_TAG := "<!-- /magpie:conflict -->"

  function OpenTag(id: string): string {
    "<!-- magpie:conflict id=" + id + " -->"
  }

  datatype Args = Args(conflictId: string, anchor: string, summary: string)

  predicate HasMarker(content: string, id: string) {
    Includes(content, OpenTag(id))
  }

  // ---- Rendering -----------------------------------------------------------

  /** `summary.split(/\r?\n/)`. */
  function DropReturns(ls: seq<string>): (r: seq<string>)
    ensures |r| == |ls|
  {
    if |ls| <= 1 then ls
    else
      var l := ls[0];
      [if l != "" && Last(l) == '\r' then Init(l) else l] + DropReturns(ls[1..])
  }

  function Quoted(ls: seq<string>): (r: seq<string>)
    ensures |r| == |ls|
  {
    if ls == [] then [] else [TrimEnd("> " + ls[0])] + Quoted(ls[1..])
  }

  /** What stands between the two tags. */
  function Callout(summary: string): seq<string> {
    var ls := DropReturns(Split(summary));
    [TrimEnd("> **Unresolved source conflict.** " + ls[0])] + Quoted(ls[1..])
  }

  function MarkerLines(args: Args): seq<string> {
    [OpenTag(args.conflictId)] + Callout(args.summary) + [CLOSE_TAG]
  }

  function RenderMarker(args: Args): string {
    Join(MarkerLines(args))
  }

  // ---- Insert and strip ----------------------------------------------------

  /** `content.replace(/\n*$/, "")`. */
  function TrimNewlines(s: string): string {
    if s != "" && Last(s) == '\n' then TrimNewlines(Init(s)) else s
  }

  /** The lines after the frontmatter: what splitting the parsed body gives. */
  function BodyLines(content: string): seq<string> {
    F.CutLines(Split(content)).body
  }

  lemma BodyLinesAreBody(content: string)
    ensures BodyLines(content) == Split(F.BodyText(content))
    ensures |BodyLines(content)| <= |Split(content)|
  {
    F.BodyOnLines(content);
  }

  /** The line of the full document that heads the section with this anchor, if the
      document has this title. */
  function FindAnchorLine(title: string, content: string, anchor: string): Option<nat> {
    var body := BodyLines(content);
    match FindHeading(title, body, anchor)
    case None => None
    case Some(line) => Some(|Split(content)| - |body| + line)
  }

  function Insert(title: string, content: string, args: Args): string {
    if HasMarker(content, args.conflictId) then content
    else
      var lines := Split(content);
      match FindAnchorLine(title, content, args.anchor)
      case None => TrimNewlines(content) + "\n\n" + RenderMarker(args) + "\n"
      case Some(line) =>
        if line < |lines| then Join(lines[..line + 1] + ["", RenderMarker(args)] + lines[line + 1..]) else content
  }

  /** `insertConflictMarker`: the title comes from the document itself. */
  function Annotate(content: string, args: Args): string {
    Insert(TitleOf(content), content, args)
  }

  function AnchorLineOf(content: string, anchor: string): Option<nat> {
    FindAnchorLine(TitleOf(content), content, anchor)
  }

  /** The first index from `i` on that holds `x`, or the length. */
  function IndexFrom(lines: seq<string>, x: string, i: nat): (r: nat)
    requires i <= |lines|
    ensures i <= r <= |lines|
    ensures r < |lines| ==> lines[r] == x
    ensures forall m :: i <= m < r ==> lines[m] != x
    decreases |lines| - i
  {
    if i == |lines| || lines[i] == x then i else IndexFrom(lines, x, i + 1)
  }

  function StripLines(lines: seq<string>, id: string): seq<string> {
    var start := IndexFrom(lines, OpenTag(id), 0);
    var end := IndexFrom(lines, CLOSE_TAG, start);
    if end == |lines| then lines
    else lines[..if start > 0 && lines[start - 1] == "" then start - 1 else start] + lines[end + 1..]
  }

  function Strip(content: string, id: string): string {
    Join(StripLines(Split(content), id))
  }

  /** The first opening line stands after `p`, and the first closing line from there on
      after `m`. */
  predicate Stretch(lines: seq<string>, id: string, p: seq<string>, m: seq<string>, q: seq<string>) {
    lines == p + [OpenTag(id)] + m + [CLOSE_TAG] + q && OpenTag(id) !in p && CLOSE_TAG !in m
  }

  /** Without one empty line at the end, if there is one. */
  function WithoutSeparator(p: seq<string>): seq<string> {
    if p != [] && Last(p) == "" then Init(p) else p
  }

  lemma TagsDiffer(id: string)
    ensures OpenTag(id) != CLOSE_TAG
  {
    assert OpenTag(id)[5] == 'm' && CLOSE_TAG[5] == '/';
  }

  lemma StripStretch(lines: seq<string>, id: string, p: seq<string>, m: seq<string>, q: seq<string>)
    requires Stretch(lines, id, p, m, q)
    ensures StripLines(lines, id) == WithoutSeparator(p) + q
  {
    hide OpenTag, IndexFrom;
    TagsDiffer(id);
    var start, end := |p|, |p| + 1 + |m|;
    assert forall i :: 0 <= i < |m| ==> lines[start + 1 + i] == m[i];
    assert forall i :: start < i < end ==> lines[i] == m[i - start - 1];
    IndexIs(lines, OpenTag(id), 0, start);
    IndexIs(lines, CLOSE_TAG, start, end);
    assert lines[..start] == p && lines[end + 1..] == q;
    assert start > 0 ==> lines[..start - 1] == Init(p);
  }

  lemma NoStretch(lines: seq<string>, id: string)
    ensures StripLines(lines, id) != lines ==> exists p, m, q :: Stretch(lines, id, p, m, q)
  {
    hide OpenTag, IndexFrom;
    TagsDiffer(id);
    var start := IndexFrom(lines, OpenTag(id), 0);
    var end := IndexFrom(lines, CLOSE_TAG, start);
    if end < |lines| {
      var p, m, q := lines[..start], lines[start + 1..end], lines[end + 1..];
      assert lines == p + [lines[start]] + m + [lines[end]] + q;
      assert Stretch(lines, id, p, m, q);
    }
  }

  /** What stripping comes to on every text. */
  lemma StripMeans(content: string, id: string)
    ensures forall p, m, q :: Stretch(Split(content), id, p, m, q) ==>
              Strip(content, id) == Join(WithoutSeparator(p) + q)
    ensures (forall p, m, q :: !Stretch(Split(content), id, p, m, q)) ==> Strip(content, id) == content
  {
    hide OpenTag, Split, Join, StripLines, Stretch, WithoutSeparator;
    var lines := Split(content);
    forall p, m, q | Stretch(lines, id, p, m, q)
      ensures Strip(content, id) == Join(WithoutSeparator(p) + q)
    {
      StripStretch(lines, id, p, m, q);
    }
    NoStretch(lines, id);
    JoinSplit(content);
  }

  /** `stripConflictMarker` as it is written: find the opening line, scan forward
      for the closing one, take the separator line back, splice. */
  method StripConflictMarker(content: string, id: string) returns (result: string)
    ensures result == Strip(content, id)
    ensures forall p, m, q :: Stretch(Split(content), id, p, m, q) ==> result == Join(WithoutSeparator(p) + q)
    ensures (forall p, m, q :: !Stretch(Split(content), id, p, m, q)) ==> result == content
  {
    hide OpenTag, Split, Join, IndexFrom, Stretch, WithoutSeparator;
    StripMeans(content, id);
    var open := OpenTag(id);
    var lines := Split(content);
    var start := IndexFrom(lines, open, 0);
    JoinSplit(content);
    if start == |lines| {
      return content;
    }
    var end := start;
    while end < |lines| && lines[end] != CLOSE_TAG
      invariant start <= end <= |lines|
      invariant forall m :: start <= m < end ==> lines[m] != CLOSE_TAG
    {
      end := end + 1;
    }
    IndexIs(lines, CLOSE_TAG, start, end);
    if end == |lines| {
      return content;
    }
    var from := if start > 0 && lines[start - 1] == "" then start - 1 else start;
    lines := lines[..from] + lines[end + 1..];
    result := Join(lines);
  }

  method FindAnchorHeadingLine(content: string, anchor: string) returns (line: Option<nat>)
    ensures line == AnchorLineOf(content, anchor)
  {
    hide F.BodyText, F.CutLines, Split, SplitSections, HeadedOnly, Marked, Heads, IndexOfAnchor, TitleOf;
    var title := ParseTitle(content);
    var body := Split(F.BodyText(content));
    BodyLinesAreBody(content);
    var frontmatterLines := |Split(content)| - |body|;
    var sections := SplitIntoSections(title, body);
    var headingLines := CollectHeadingLines(body);
    var position := IndexOfAnchor(HeadedOnly(sections), anchor);
    if position.None? || position.value >= |headingLines| {
      return None;
    }
    line := Some(headingLines[position.value] + frontmatterLines);
  }

  /** The text without the line breaks it ends in, and these. */
  predicate Appended(content: string, t: string, ends: string) {
    content == t + ends && (t == "" || Last(t) != '\n') && forall i :: 0 <= i < |ends| ==> ends[i] == '\n'
  }

  lemma AppendedAt(content: string)
    ensures exists ends :: Appended(content, TrimNewlines(content), ends)
  {
    hide TrimNewlines;
    TrimNewlinesExact(content);
    var t := TrimNewlines(content);
    assert content == t + content[|t|..];
    assert Appended(content, t, content[|t|..]);
  }

  lemma HasMarkerMeans(content: string, id: string)
    ensures HasMarker(content, id) <==> Includes(content, "<!-- magpie:conflict id=" + id + " -->")
  {
    hide Includes;
  }

  method InsertConflictMarker(content: string, args: Args) returns (result: string)
    ensures result == Annotate(content, args)
    ensures Includes(content, "<!-- magpie:conflict id=" + args.conflictId + " -->") ==> result == content
    ensures !Includes(content, "<!-- magpie:conflict id=" + args.conflictId + " -->") ==>
              match AnchorLineOf(content, args.anchor)
              case None =>
                exists t, ends :: Appended(content, t, ends) && result == t + "\n\n" + RenderMarker(args) + "\n"
              case Some(k) =>
                var lines := Split(content);
                k < |lines| && result == Join(lines[..k + 1] + ["", RenderMarker(args)] + lines[k + 1..])
  {
    TrimNewlinesExact(content);
    HasMarkerMeans(content, args.conflictId);
    AppendedAt(content);
    FoundInRange(TitleOf(content), content, args.anchor);
    hide HasMarker, RenderMarker, FindAnchorLine, TrimNewlines, TitleOf;
    if HasMarker(content, args.conflictId) {
      return content;
    }
    var marker := RenderMarker(args);
    var line := FindAnchorHeadingLine(content, args.anchor);
    if line.None? {
      return TrimNewlines(content) + "\n\n" + marker + "\n";
    }
    var lines := Split(content);
    FoundInRange(TitleOf(content), content, args.anchor);
    lines := lines[..line.value + 1] + ["", marker] + lines[line.value + 1..];
    result := Join(lines);
  }

  lemma FoundInRange(title: string, content: string, anchor: string)
    ensures FindAnchorLine(title, content, anchor).Some? ==>
              FindAnchorLine(title, content, anchor).value < |Split(content)|
  {
    hide FindHeading;
  }

  lemma IndexIs(lines: seq<string>, x: string, i: nat, r: nat)
    requires i <= r <= |lines|
    requires r < |lines| ==> lines[r] == x
    requires forall m :: i <= m < r ==> lines[m] != x
    ensures IndexFrom(lines, x, i) == r
  {
    var f := IndexFrom(lines, x, i);
    if f < r {
      assert false;
    }
  }

  // ---- The documents on lines ----------------------------------------------

  lemma {:induction false} DroppedOneLine(ls: seq<string>)
    requires AllOneLine(ls)
    ensures AllOneLine(DropReturns(ls))
  {
    if |ls| > 1 {
      DroppedOneLine(ls[1..]);
      var r := DropReturns(ls);
      assert r[1..] == DropReturns(ls[1..]);
      assert forall i :: 1 <= i < |r| ==> r[i] == r[1..][i - 1];
    }
  }

  /** A line of the callout: it starts with `>`, so it is neither tag. */
  predicate QuoteLine(s: string) {
    s != "" && s[0] == '>' && OneLine(s)
  }

  lemma QuoteTrimmed(prefix: string, s: string)
    requires prefix != "" && prefix[0] == '>' && OneLine(prefix) && OneLine(s)
    ensures QuoteLine(TrimEnd(prefix + s))
  {
    var t := prefix + s;
    assert !IsSpace('>');
    TrimKeeps(t, 0);
    assert forall i :: 0 <= i < |t| ==> t[i] == if i < |prefix| then prefix[i] else s[i - |prefix|];
  }

  lemma {:induction false} QuotedLines(ls: seq<string>)
    requires AllOneLine(ls)
    ensures forall i :: 0 <= i < |ls| ==> QuoteLine(Quoted(ls)[i])
  {
    if ls != [] {
      QuotedLines(ls[1..]);
      QuoteTrimmed("> ", ls[0]);
    }
  }

  /** Whatever the summary says, every line of the callout is a quote line. */
  lemma CalloutQuotes(summary: string)
    ensures Callout(summary) != []
    ensures forall i :: 0 <= i < |Callout(summary)| ==> QuoteLine(Callout(summary)[i])
  {
    hide TrimEnd;
    var ls := DropReturns(Split(summary));
    DroppedOneLine(Split(summary));
    QuoteTrimmed("> **Unresolved source conflict.** ", ls[0]);
    QuotedLines(ls[1..]);
  }

  /** A summary line as the callout is to show it, without a return before its
      line break. */
  function SummaryLine(summary: string, i: nat): string
    requires i < |Split(summary)|
  {
    var l := Split(summary)[i];
    if i + 1 < |Split(summary)| && l != "" && Last(l) == '\r' then Init(l) else l
  }

  lemma {:induction false} DroppedAt(ls: seq<string>, i: nat)
    requires i < |ls|
    ensures DropReturns(ls)[i] == if i + 1 < |ls| && ls[i] != "" && Last(ls[i]) == '\r' then Init(ls[i]) else ls[i]
  {
    if |ls| > 1 && i > 0 {
      DroppedAt(ls[1..], i - 1);
    }
  }

  lemma {:induction false} QuotedAt(ls: seq<string>, i: nat)
    requires i < |ls|
    ensures Quoted(ls)[i] == TrimEnd("> " + ls[i])
  {
    if i > 0 {
      QuotedAt(ls[1..], i - 1);
    }
  }

  lemma {:induction false} TrimEndAfter(prefix: string, s: string)
    requires !Blank(s)
    ensures TrimEnd(prefix + s) == prefix + TrimEnd(s)
  {
    var t := prefix + s;
    assert t[|t| - 1] == s[|s| - 1];
    if IsSpace(s[|s| - 1]) {
      var front := s[..|s| - 1];
      assert t[..|t| - 1] == prefix + front;
      BlankConcat(front, [s[|s| - 1]]);
      assert s == front + [s[|s| - 1]];
      TrimEndAfter(prefix, front);
    }
  }

  /** The callout holds the whole summary: one line for each of its lines, and every
      line that is not blank in full, up to its trailing white space. */
  lemma CalloutHoldsSummary(summary: string, i: nat)
    requires i < |Split(summary)|
    ensures |Callout(summary)| == |Split(summary)|
    ensures !Blank(SummaryLine(summary, i)) ==>
              Callout(summary)[i]
                  == (if i == 0 then "> **Unresolved source conflict.** " else "> ") + TrimEnd(SummaryLine(summary, i))
  {
    hide Split, TrimEnd, DropReturns, Quoted;
    var ls := DropReturns(Split(summary));
    DroppedAt(Split(summary), i);
    if !Blank(ls[i]) {
      TrimEndAfter(if i == 0 then "> **Unresolved source conflict.** " else "> ", ls[i]);
    }
    if i > 0 {
      QuotedAt(ls[1..], i - 1);
    }
  }

  /** A blank line of the summary leaves its quote mark, or the heading of the callout. */
  lemma CalloutBlank(summary: string, i: nat)
    requires i < |Split(summary)| && Blank(SummaryLine(summary, i))
    ensures |Callout(summary)| == |Split(summary)|
    ensures Callout(summary)[i] == if i == 0 then "> **Unresolved source conflict.**" else ">"
  {
    hide Split, TrimEnd, DropReturns, Quoted;
    var ls := DropReturns(Split(summary));
    DroppedAt(Split(summary), i);
    if i == 0 {
      TrimmedBefore("> **Unresolved source conflict.**", " ", ls[i]);
      assert "> **Unresolved source conflict.** " == "> **Unresolved source conflict.**" + " ";
    } else {
      QuotedAt(ls[1..], i - 1);
      TrimmedBefore(">", " ", ls[i]);
      assert "> " == ">" + " ";
    }
  }

  lemma {:induction false} TrimmedBefore(prefix: string, space: string, s: string)
    requires prefix != "" && !IsSpace(prefix[|prefix| - 1]) && Blank(space) && Blank(s)
    ensures TrimEnd(prefix + space + s) == prefix
    decreases |space| + |s|
  {
    var t, tail := prefix + space + s, space + s;
    BlankConcat(space, s);
    assert t == prefix + tail;
    if tail == "" {
      assert t == prefix;
    } else {
      var n := |tail| - 1;
      TrimmedBefore(prefix, tail[..n], "");
      assert prefix + tail[..n] + "" == t[..|t| - 1];
      assert IsSpace(t[|t| - 1]);
    }
  }

  /** A marker is its opening line, the callout and its closing line. */
  lemma MarkerReads(args: Args)
    ensures MarkerLines(args) == ["<!-- magpie:conflict id=" + args.conflictId + " -->"] + Callout(args.summary)
                                 + ["<!-- /magpie:conflict -->"]
    ensures RenderMarker(args) == Join(MarkerLines(args))
  {
    hide Callout;
  }

  lemma {:induction false} TrimNewlinesExact(s: string)
    ensures var t := TrimNewlines(s);
            && t <= s && (t == "" || Last(t) != '\n')
            && forall i :: |t| <= i < |s| ==> s[i] == '\n'
  {
    if s != "" && Last(s) == '\n' {
      TrimNewlinesExact(Init(s));
    }
  }

  lemma TagShape(id: string)
    requires OneLine(id)
    ensures OneLine(OpenTag(id)) && OpenTag(id) != "" && OpenTag(id)[0] == '<' && OpenTag(id) != CLOSE_TAG
    ensures OneLine(CLOSE_TAG) && CLOSE_TAG != "" && CLOSE_TAG[0] == '<'
  {
    assert OpenTag(id)[5] == 'm' && CLOSE_TAG[5] == '/';
  }

  /** Lines that start with `<` or `>`: no heading, no fence, no frontmatter close. */
  predicate Angled(s: string) {
    s != "" && (s[0] == '<' || s[0] == '>')
  }

  lemma AngledInert(s: string)
    requires Angled(s) || s == ""
    ensures !IsFence(s) && HeadingOf(s).None? && !("---" <= s)
  {
    assert !IsSpace('<') && !IsSpace('>');
    assert s != "" ==> TrimStart(s)[0] == s[0];
  }

  lemma MarkerShape(args: Args)
    requires OneLine(args.conflictId)
    ensures var m := MarkerLines(args);
            && |m| >= 3 && AllOneLine(m)
            && (forall i :: 0 <= i < |m| ==> Angled(m[i]))
            && m[0] == OpenTag(args.conflictId)
            && (forall i :: 0 < i < |m| - 1 ==> QuoteLine(m[i]))
            && m[|m| - 1] == CLOSE_TAG
  {
    hide OpenTag, Callout;
    TagShape(args.conflictId);
    CalloutQuotes(args.summary);
  }

  /** The lines an insertion adds under a heading. */
  function Block(args: Args): seq<string> {
    [""] + MarkerLines(args)
  }

  lemma BlockInert(args: Args)
    requires OneLine(args.conflictId)
    ensures Inert(Block(args)) && F.NoDashes(Block(args)) && AllOneLine(Block(args))
  {
    hide IsFence, HeadingOf, MarkerLines;
    MarkerShape(args);
    var b := Block(args);
    forall i | 0 <= i < |b|
      ensures !IsFence(b[i]) && HeadingOf(b[i]).None? && !("---" <= b[i]) && OneLine(b[i])
    {
      AngledInert(b[i]);
    }
  }

  lemma JoinNested(a: seq<string>, m: seq<string>, b: seq<string>)
    requires a != [] && m != []
    ensures Join(a + [Join(m)] + b) == Join(a + m + b)
  {
    JoinAppend(a, [Join(m)]);
    JoinAppend(a, m);
    if b == [] {
      assert a + [Join(m)] + b == a + [Join(m)] && a + m + b == a + m;
    } else {
      JoinAppend(a + [Join(m)], b);
      JoinAppend(a + m, b);
    }
  }

  function TrimLines(lines: seq<string>): (r: seq<string>)
    requires lines != []
    ensures r != [] && r <= lines
  {
    if |lines| > 1 && Last(lines) == "" then TrimLines(Init(lines)) else lines
  }

  lemma {:induction false} TrimOnLines(lines: seq<string>)
    requires lines != [] && AllOneLine(lines)
    ensures TrimNewlines(Join(lines)) == Join(TrimLines(lines))
  {
    var s := Join(lines);
    if |lines| > 1 {
      JoinAppend(Init(lines), [Last(lines)]);
      if Last(lines) == "" {
        var front := Join(Init(lines));
        assert s == front + ['\n'];
        InitSnoc(front, '\n');
        assert Last(s) == '\n' && Init(s) == front;
        TrimOnLines(Init(lines));
      } else {
        assert Last(s) == Last(Last(lines));
      }
    } else {
      assert s != "" ==> Last(s) == Last(lines[0]);
    }
  }

  /** An insertion on lines: a block under the anchor's heading, or at the end. */
  function InsertLines(lines: seq<string>, at: Option<nat>, args: Args): seq<string>
    requires lines != [] && (at.Some? ==> at.value < |lines|)
  {
    match at
    case None => TrimLines(lines) + Block(args) + [""]
    case Some(line) => F.Put(lines, line, Block(args))
  }

  lemma InsertedOneLine(lines: seq<string>, at: Option<nat>, args: Args)
    requires lines != [] && AllOneLine(lines) && OneLine(args.conflictId) && (at.Some? ==> at.value < |lines|)
    ensures AllOneLine(InsertLines(lines, at, args))
  {
    hide Block, TrimLines;
    BlockInert(args);
  }

  lemma FallbackText(t: seq<string>, m: seq<string>)
    requires t != [] && m != []
    ensures Join(t + [""] + m + [""]) == Join(t) + "\n\n" + Join(m) + "\n"
  {
    hide Join;
    JoinAppend(t, [""] + m + [""]);
    JoinAppend([""], m + [""]);
    JoinAppend(m, [""]);
    JoinOne("");
    assert t + ([""] + m + [""]) == t + [""] + m + [""] && [""] + (m + [""]) == [""] + m + [""];
    assert Join(t) + "\n" + ("" + "\n" + (Join(m) + "\n" + "")) == Join(t) + "\n\n" + Join(m) + "\n";
  }

  lemma FallbackOnLines(lines: seq<string>, args: Args)
    requires lines != [] && AllOneLine(lines) && OneLine(args.conflictId)
    ensures Split(TrimNewlines(Join(lines)) + "\n\n" + RenderMarker(args) + "\n") == InsertLines(lines, None, args)
  {
    hide MarkerLines, TrimLines, Split, TrimNewlines, Inert, F.NoDashes, AllOneLine, Join;
    var t, m := TrimLines(lines), MarkerLines(args);
    MarkerShape(args);
    TrimOnLines(lines);
    FallbackText(t, m);
    assert t + [""] + m + [""] == InsertLines(lines, None, args);
    InsertedOneLine(lines, None, args);
    SplitJoin(InsertLines(lines, None, args));
  }

  lemma UnderHeadingOnLines(lines: seq<string>, k: nat, args: Args)
    requires k < |lines| && AllOneLine(lines) && OneLine(args.conflictId)
    ensures Split(Join(lines[..k + 1] + ["", RenderMarker(args)] + lines[k + 1..])) == InsertLines(lines, Some(k), args)
  {
    hide MarkerLines, Split, Join, Inert, F.NoDashes, AllOneLine;
    var m := MarkerLines(args);
    MarkerShape(args);
    assert lines[..k + 1] + ["", Join(m)] + lines[k + 1..] == (lines[..k + 1] + [""]) + [Join(m)] + lines[k + 1..];
    JoinNested(lines[..k + 1] + [""], m, lines[k + 1..]);
    assert (lines[..k + 1] + [""]) + m + lines[k + 1..] == F.Put(lines, k, Block(args));
    InsertedOneLine(lines, Some(k), args);
    SplitJoin(F.Put(lines, k, Block(args)));
  }

  lemma InsertOnLines(title: string, content: string, args: Args)
    requires !HasMarker(content, args.conflictId) && OneLine(args.conflictId)
    ensures var at := FindAnchorLine(title, content, args.anchor);
            && (at.Some? ==> at.value < |Split(content)|)
            && Split(Insert(title, content, args)) == InsertLines(Split(content), at, args)
  {
    hide FindAnchorLine, RenderMarker, InsertLines, HasMarker, Split, Join, TrimNewlines, AllOneLine;
    JoinSplit(content);
    if FindAnchorLine(title, content, args.anchor).None? {
      FallbackOnLines(Split(content), args);
    } else {
      FoundInRange(title, content, args.anchor);
      UnderHeadingOnLines(Split(content), FindAnchorLine(title, content, args.anchor).value, args);
    }
  }

  // ---- Strip undoes insert --------------------------------------------------

  lemma NoTagLine(content: string, id: string)
    requires !HasMarker(content, id) && OneLine(id)
    ensures OpenTag(id) !in Split(content)
  {
    var lines := Split(content);
    TagShape(id);
    JoinSplit(content);
    IncludesByLine(lines, OpenTag(id));
    if i :| 0 <= i < |lines| && lines[i] == OpenTag(id) {
      assert OccursAt(lines[i], OpenTag(id), 0);
      assert Includes(lines[i], OpenTag(id));
      assert false;
    }
  }

  /** Stripping takes a block out, wherever it is, if no earlier line is its tag. */
  lemma StripBlock(p: seq<string>, args: Args, q: seq<string>)
    requires OneLine(args.conflictId) && OpenTag(args.conflictId) !in p
    ensures StripLines(p + Block(args) + q, args.conflictId) == p + q
  {
    hide OpenTag, MarkerLines;
    TagShape(args.conflictId);
    MarkerShape(args);
    var m := MarkerLines(args);
    var all := p + Block(args) + q;
    var start, end := |p| + 1, |p| + |m|;
    assert forall i :: 0 <= i < |m| ==> all[start + i] == m[i];
    assert forall i :: start <= i <= end ==> all[i] == m[i - start];
    IndexIs(all, OpenTag(args.conflictId), 0, start);
    IndexIs(all, CLOSE_TAG, start, end);
    assert all[..start - 1] == p && all[end + 1..] == q;
  }

  predicate HasBlock(content: string, id: string) {
    var lines := Split(content);
    IndexFrom(lines, CLOSE_TAG, IndexFrom(lines, OpenTag(id), 0)) < |lines|
  }

  /** Exactly one trailing newline: the form the fallback leaves a document in. */
  predicate EndsOnce(content: string) {
    content == TrimNewlines(content) + "\n"
  }

  lemma JoinTrailing(lines: seq<string>)
    requires lines != []
    ensures Join(lines + [""]) == Join(lines) + "\n"
  {
    JoinAppend(lines, [""]);
  }

  /** What stripping a fresh insertion gives back: the document itself when the
      anchor was found, else the document with one trailing newline. */
  lemma StripInsert(title: string, content: string, args: Args)
    requires !HasMarker(content, args.conflictId) && OneLine(args.conflictId)
    ensures Strip(Insert(title, content, args), args.conflictId)
         == if FindAnchorLine(title, content, args.anchor).Some? then content else TrimNewlines(content) + "\n"
  {
    hide FindAnchorLine, Insert, StripLines, TrimLines, Block, HasMarker, Split, Join, TrimNewlines, OpenTag, OneLine,
         AllOneLine;
    var lines, at := Split(content), FindAnchorLine(title, content, args.anchor);
    InsertOnLines(title, content, args);
    NoTagLine(content, args.conflictId);
    JoinSplit(content);
    if at.None? {
      var t := TrimLines(lines);
      StripBlock(t, args, [""]);
      TrimOnLines(lines);
      JoinTrailing(t);
    } else {
      var k := at.value;
      StripBlock(lines[..k + 1], args, lines[k + 1..]);
      assert lines[..k + 1] + lines[k + 1..] == lines;
    }
  }

  lemma TagLineNeedsOneLineId(lines: seq<string>, id: string)
    requires AllOneLine(lines) && !OneLine(id)
    ensures StripLines(lines, id) == lines
  {
    var tag := OpenTag(id);
    var i :| 0 <= i < |id| && id[i] == '\n';
    assert tag[24 + i] == '\n';
    IndexIs(lines, tag, 0, |lines|);
  }

  lemma InsertChanges(title: string, content: string, args: Args)
    requires !HasMarker(content, args.conflictId)
    ensures Insert(title, content, args) != content
  {
    hide FindAnchorLine, HasMarker, RenderMarker, TrimNewlines, Split, Join;
    var lines, at := Split(content), FindAnchorLine(title, content, args.anchor);
    if at.Some? {
      FoundInRange(title, content, args.anchor);
      JoinSplit(content);
      var k := at.value;
      InsertedLonger(lines[..k + 1], RenderMarker(args), lines[k + 1..]);
      assert lines[..k + 1] + lines[k + 1..] == lines;
    } else if content == Insert(title, content, args) {
      TagInRender(content, args);
      assert false;
    }
  }

  lemma InsertedLonger(a: seq<string>, x: string, b: seq<string>)
    requires a != []
    ensures |Join(a + ["", x] + b)| > |Join(a + b)|
  {
    var mid := a + ["", x];
    JoinAppend(a, ["", x]);
    if b == [] {
      assert mid + b == mid && a + b == a;
    } else {
      JoinAppend(mid, b);
      JoinAppend(a, b);
    }
  }

  lemma TagLeads(args: Args)
    ensures OccursAt(RenderMarker(args), OpenTag(args.conflictId), 0)
  {
    hide OpenTag, Callout;
    var m := MarkerLines(args);
    assert m[0] == OpenTag(args.conflictId) && m[0] <= Join(m);
  }

  lemma TagInRender(content: string, args: Args)
    requires content == TrimNewlines(content) + "\n\n" + RenderMarker(args) + "\n"
    ensures HasMarker(content, args.conflictId)
  {
    hide OpenTag, RenderMarker, TrimNewlines, OccursAt;
    TagLeads(args);
    var start := TrimNewlines(content) + "\n\n";
    OccursInside(start, RenderMarker(args), "\n", OpenTag(args.conflictId), 0);
    OccursWithin(content, OpenTag(args.conflictId), |start|);
  }

  lemma OccursWithin(text: string, part: string, i: int)
    requires OccursAt(text, part, i)
    ensures Includes(text, part)
  {
  }

  lemma {:induction false} HasBlockStrips(content: string, id: string)
    ensures Strip(content, id) == content <==> !HasBlock(content, id)
  {
    hide OpenTag, Split, Join, IndexFrom;
    var lines := Split(content);
    JoinSplit(content);
    var start := IndexFrom(lines, OpenTag(id), 0);
    var end := IndexFrom(lines, CLOSE_TAG, start);
    if HasBlock(content, id) {
      var from := if start > 0 && lines[start - 1] == "" then start - 1 else start;
      assert lines == lines[..from] + lines[from..end + 1] + lines[end + 1..];
      JoinShrinks(lines[..from], lines[from..end + 1], lines[end + 1..]);
    }
  }

  lemma JoinShrinks(a: seq<string>, b: seq<string>, c: seq<string>)
    requires b != [] && |Last(b)| > 0
    ensures |Join(a + c)| < |Join(a + b + c)|
  {
    JoinAppendLength(a, b);
    JoinAppendLength(a + b, c);
    JoinAppendLength(a, c);
    JoinAppendLength(Init(b), [Last(b)]);
    assert a == [] && c == [] ==> a + c == [];
  }

  /** How long two joined stretches are together. */
  lemma JoinAppendLength(a: seq<string>, b: seq<string>)
    ensures |Join(a + b)| == |Join(a)| + |Join(b)| + (if a != [] && b != [] then 1 else 0)
  {
    if a == [] {
      assert a + b == b;
    } else if b == [] {
      assert a + b == a;
    } else {
      JoinAppend(a, b);
    }
  }

  lemma RoundTripUnder(title: string, content: string, args: Args)
    ensures Strip(Insert(title, content, args), args.conflictId) == content
       <==> if HasMarker(content, args.conflictId) then !HasBlock(content, args.conflictId)
            else OneLine(args.conflictId) && (FindAnchorLine(title, content, args.anchor).Some? || EndsOnce(content))
  {
    hide FindAnchorLine, StripLines, HasBlock, OneLine;
    if HasMarker(content, args.conflictId) {
      HasBlockStrips(content, args.conflictId);
    } else if OneLine(args.conflictId) {
      hide Insert;
      StripInsert(title, content, args);
    } else {
      hide Insert;
      InsertChanges(title, content, args);
      var after := Insert(title, content, args);
      TagLineNeedsOneLineId(Split(after), args.conflictId);
      JoinSplit(after);
    }
  }

  /** Strip inverts insert exactly when: the document had the marker text but no
      removable block; or it had no marker, the id is one line, and the anchor is
      found or the document ends in exactly one newline. */
  lemma RoundTripExactly(content: string, args: Args)
    ensures Strip(Annotate(content, args), args.conflictId) == content
       <==> if HasMarker(content, args.conflictId) then !HasBlock(content, args.conflictId)
            else OneLine(args.conflictId) && (AnchorLineOf(content, args.anchor).Some? || EndsOnce(content))
  {
    hide FindAnchorLine, Insert, Strip, HasBlock, TitleOf;
    RoundTripUnder(TitleOf(content), content, args);
  }
}
