/** A document's title: the frontmatter's, or one inferred from the body. */
module Titles {
  import opened TextLines
  import F = Frontmatter

  const UNTITLED := "Untitled"

  // ---- The title in the frontmatter ----------------------------------------

  predicate NoLineEnd(s: string) {
    forall i :: 0 <= i < |s| ==> !IsLineEnd(s[i])
  }

  /** What `^([A-Za-z0-9_-]+):\s*(.*)$` makes of a line whose key is `title`. */
  function TitleValue(line: string): Option<string> {
    if "title:" <= line && NoLineEnd(TrimStart(line[6..])) then Some(TrimEnd(TrimStart(line[6..]))) else None
  }

  /** Some way to match the pattern: white space, then text without a line end. */
  predicate MatchesValue(line: string, n: int) {
    6 <= n <= |line| && line[..6] == "title:" && Blank(line[6..n]) && NoLineEnd(line[n..])
  }

  lemma MatchesGiveValue(line: string, n: int)
    requires MatchesValue(line, n)
    ensures TitleValue(line) == Some(Trim(line[n..]))
  {
    hide LeadingSpaces, TrimEnd;
    var r, rest := line[6..], line[n..];
    assert line[6..n] == r[..n - 6] && rest == r[n - 6..];
    SkipsBlank(r, n - 6);
    var t := LeadingSpaces(rest);
    assert TrimStart(rest) == rest[t..];
    forall i | 0 <= i < |rest| - t
      ensures !IsLineEnd(rest[t..][i])
    {
      assert rest[t..][i] == rest[t + i];
    }
  }

  /** Every match gives the same value, and there is one whenever there is a match. */
  lemma TitleValueExact(line: string, n: int)
    ensures TitleValue(line).Some? <==> exists m :: MatchesValue(line, m)
    ensures MatchesValue(line, n) ==> TitleValue(line) == Some(Trim(line[n..]))
  {
    hide TrimEnd;
    if TitleValue(line).Some? {
      var r, w := line[6..], LeadingSpaces(line[6..]);
      assert line[6..6 + w] == r[..w] && line[6 + w..] == TrimStart(r);
      assert MatchesValue(line, 6 + w);
    }
    if m :| MatchesValue(line, m) {
      MatchesGiveValue(line, m);
    }
    if MatchesValue(line, n) {
      MatchesGiveValue(line, n);
    }
  }

  /** Leading white space that is cut off by hand is not missed. */
  lemma {:induction false} SkipsBlank(s: string, n: nat)
    requires n <= |s| && Blank(s[..n])
    ensures TrimStart(s) == TrimStart(s[n..])
  {
    if n > 0 {
      assert s[0] == s[..n][0];
      assert s[1..][..n - 1] == s[..n][1..];
      SkipsBlank(s[1..], n - 1);
      assert s[1..][n - 1..] == s[n..];
      assert TrimStart(s) == TrimStart(s[1..]);
    }
  }

  /** The value the last matching line has left in the map, or nothing. */
  function FrontTitle(lines: seq<string>): string {
    if lines == [] then ""
    else
      var value := TitleValue(lines[|lines| - 1]);
      if value.Some? then value.value else FrontTitle(lines[..|lines| - 1])
  }

  /** The last line with a value gives it, even an empty one. */
  lemma {:induction false} FrontTitleExact(lines: seq<string>, i: nat)
    requires i < |lines| && TitleValue(lines[i]).Some?
    requires forall k :: i < k < |lines| ==> TitleValue(lines[k]).None?
    ensures FrontTitle(lines) == TitleValue(lines[i]).value
  {
    hide TitleValue;
    if i < |lines| - 1 {
      FrontTitleExact(lines[..|lines| - 1], i);
    }
  }

  lemma {:induction false} NoFrontTitle(lines: seq<string>)
    requires forall k :: 0 <= k < |lines| ==> TitleValue(lines[k]).None?
    ensures FrontTitle(lines) == ""
  {
    hide TitleValue;
    if lines != [] {
      NoFrontTitle(lines[..|lines| - 1]);
    }
  }

  /** The loop that fills the map, as far as the title goes. */
  method ReadFrontTitle(lines: seq<string>) returns (title: string)
    ensures title == FrontTitle(lines)
  {
    title := "";
    for i := 0 to |lines|
      invariant title == FrontTitle(lines[..i])
    {
      assert lines[..i + 1][..i] == lines[..i];
      var value := TitleValue(lines[i]);
      if value.Some? {
        title := value.value;
      }
    }
    assert lines[..|lines|] == lines;
  }

  // ---- The title inferred from the body ------------------------------------

  /** A place where `^` matches in multi-line mode. */
  predicate LineStart(s: string, p: int) {
    0 <= p <= |s| && (p == 0 || IsLineEnd(s[p - 1]))
  }

  /** A `#` at a line start, with white space or nothing after it. */
  predicate OpensTitle(s: string, p: int) {
    0 <= p < |s| && LineStart(s, p) && s[p] == '#' && (p + 1 == |s| || IsSpace(s[p + 1]))
  }

  function FirstOpen(s: string, i: nat): (r: nat)
    requires i <= |s|
    ensures i <= r <= |s| && (r < |s| ==> OpensTitle(s, r))
    ensures forall m :: i <= m < r ==> !OpensTitle(s, m)
    decreases |s| - i
  {
    if i == |s| || OpensTitle(s, i) then i else FirstOpen(s, i + 1)
  }

  /** Up to the first line end. */
  function Piece(s: string): (r: string)
    ensures r <= s && NoLineEnd(r)
    ensures |r| < |s| ==> IsLineEnd(s[|r|])
  {
    if s == "" || IsLineEnd(s[0]) then ""
    else
      var r := Piece(s[1..]);
      assert forall i :: 0 < i <= |r| ==> ([s[0]] + r)[i] == r[i - 1];
      [s[0]] + r
  }

  /** The rest of the line of the first character that is not white space. */
  function LeadText(s: string): string {
    TrimEnd(Piece(TrimStart(s)))
  }

  /** `/^#\s+(.+)$/m.exec(body)?.[1].trim() || "Untitled"`. */
  function InferTitle(s: string): string {
    TitleFrom(s, FirstOpen(s, 0))
  }

  /** The title that the `#` at `p` opens, if there is one. */
  function TitleFrom(s: string, p: nat): string
    requires p <= |s|
  {
    if p == |s| || Blank(s[p + 1..]) then UNTITLED else LeadText(s[p + 1..])
  }

  /** The pattern matches with its `#` at `p` and its group starting at `q`. */
  predicate MatchesTitle(s: string, p: int, q: int) {
    && 0 <= p && p + 1 < q < |s|
    && LineStart(s, p) && s[p] == '#' && Blank(s[p + 1..q]) && !IsLineEnd(s[q])
  }

  lemma MatchOpens(s: string, p: int, q: int)
    requires MatchesTitle(s, p, q)
    ensures OpensTitle(s, p)
  {
    assert s[p + 1] == s[p + 1..q][0];
  }

  lemma LineEndsAreSpaces(c: char)
    ensures IsLineEnd(c) ==> IsSpace(c)
    ensures c == '#' ==> !IsSpace(c)
  {
  }

  lemma SomethingLeads(s: string)
    requires !Blank(s)
    ensures LeadingSpaces(s) < |s|
  {
    assert s[..|s|] == s;
  }

  lemma LeadTextShape(s: string)
    requires !Blank(s)
    ensures var w := LeadingSpaces(s);
            w < |s| && !IsSpace(s[w]) && Trim(Piece(s[w..])) == LeadText(s) != ""
  {
    var w := LeadingSpaces(s);
    SomethingLeads(s);
    var t := s[w..];
    LineEndsAreSpaces(t[0]);
    var r := Piece(t);
    assert r != "" && r[0] == t[0];
    assert TrimStart(r) == r;
    TrimBlank(r);
  }

  lemma SpacesIn(s: string, i: int, j: int)
    requires 0 <= i <= j <= |s| && Blank(s[i..j])
    ensures forall k :: i <= k < j ==> IsSpace(s[k])
  {
    forall k | i <= k < j
      ensures IsSpace(s[k])
    {
      assert s[k] == s[i..j][k - i];
    }
  }

  lemma TailOf(s: string, i: nat, w: nat)
    requires i + w <= |s|
    ensures s[i..][..w] == s[i..i + w] && s[i..][w..] == s[i + w..]
    ensures w > 0 ==> s[i..][0] == s[i]
    ensures i + w < |s| ==> s[i..][w] == s[i + w]
  {
  }

  lemma HashThenText(s: string, r: nat)
    requires OpensTitle(s, r) && !Blank(s[r + 1..])
    ensures var q := r + 1 + LeadingSpaces(s[r + 1..]);
            r + 1 < q < |s| && !IsSpace(s[q]) && MatchesTitle(s, r, q)
  {
    hide IsSpace, IsLineEnd, Blank, LeadingSpaces;
    var w := LeadingSpaces(s[r + 1..]);
    SomethingLeads(s[r + 1..]);
    TailOf(s, r + 1, w);
    assert s[r + 1..][0] == s[r + 1];
    LineEndsAreSpaces(s[r + 1 + w]);
  }

  lemma TitleAt(s: string, r: nat, rest: string)
    requires r < |s| && rest == s[r + 1..] && !Blank(rest)
    ensures TitleFrom(s, r) == LeadText(rest)
  {
    hide LeadText, Blank;
  }

  lemma TitleReads(s: string, r: nat, rest: string)
    requires r < |s| && rest == s[r + 1..] && !Blank(rest)
    ensures var q := r + 1 + LeadingSpaces(rest);
            q < |s| && Trim(Piece(s[q..])) == TitleFrom(s, r) != ""
  {
    hide Piece, Trim, LeadText, LeadingSpaces, Blank, IsSpace, TitleFrom;
    TitleAt(s, r, rest);
    LeadTextShape(rest);
    TailOf(s, r + 1, LeadingSpaces(rest));
  }

  lemma InferIsTitleFrom(s: string)
    ensures InferTitle(s) == TitleFrom(s, FirstOpen(s, 0))
  {
  }

  lemma OpenAt(s: string, r: nat, rest: string)
    requires OpensTitle(s, r) && rest == s[r + 1..] && !Blank(rest)
    ensures var q := r + 1 + LeadingSpaces(rest);
            && q < |s| && MatchesTitle(s, r, q) && !IsSpace(s[q])
            && Trim(Piece(s[q..])) == TitleFrom(s, r) != ""
  {
    hide Piece, Trim, LeadingSpaces, Blank, IsSpace, IsLineEnd, MatchesTitle, TitleFrom;
    HashThenText(s, r);
    TitleReads(s, r, rest);
  }

  /** The leftmost `#` with text after it matches right after its white space. */
  lemma OpenMatches(s: string, r: nat, rest: string, q: int)
    requires r == FirstOpen(s, 0) < |s| && rest == s[r + 1..] && !Blank(rest) && q == r + 1 + LeadingSpaces(rest)
    ensures q < |s| && MatchesTitle(s, r, q) && !IsSpace(s[q])
    ensures Trim(Piece(s[q..])) == InferTitle(s) != ""
  {
    hide Piece, Trim, LeadingSpaces, Blank, IsSpace, IsLineEnd, MatchesTitle, OpensTitle, TitleFrom, FirstOpen,
         InferTitle;
    InferIsTitleFrom(s);
    OpenAt(s, r, rest);
  }

  lemma NoTitle(s: string, r: nat, rest: string)
    requires r <= |s| && (r == |s| || (rest == s[r + 1..] && Blank(rest)))
    ensures TitleFrom(s, r) == UNTITLED
  {
    hide Blank, LeadText;
  }

  lemma BlankTitle(s: string, r: nat, rest: string)
    requires r == FirstOpen(s, 0) && (r == |s| || (rest == s[r + 1..] && Blank(rest)))
    ensures InferTitle(s) == UNTITLED
  {
    hide FirstOpen, Blank, TitleFrom, InferTitle;
    InferIsTitleFrom(s);
    NoTitle(s, r, rest);
  }

  lemma MatchAfterBlank(s: string, r: nat, p: int, q: int)
    requires MatchesTitle(s, p, q) && r == FirstOpen(s, 0) < |s| && Blank(s[r + 1..])
    ensures Trim(Piece(s[q..])) == ""
  {
    hide Piece, Trim, Blank, IsSpace, IsLineEnd, FirstOpen, LineStart, OpensTitle;
    MatchOpens(s, p, q);
    LineEndsAreSpaces(s[p]);
    assert s[r + 1..|s|] == s[r + 1..];
    SpacesIn(s, r + 1, |s|);
    BlankFrom(s, r + 1, p + 1);
    BlankPiece(s, p + 1, q);
  }

  lemma BlankFrom(s: string, i: nat, j: nat)
    requires i <= j <= |s| && Blank(s[i..])
    ensures Blank(s[j..])
  {
    forall k | 0 <= k < |s| - j
      ensures IsSpace(s[j..][k])
    {
      assert s[j..][k] == s[i..][j - i + k];
    }
  }

  /** A match that is first and longest is the one right after the white space. */
  lemma LongestIs(s: string, r: nat, rest: string, p: int, q: int)
    requires MatchesTitle(s, p, q) && r == FirstOpen(s, 0) < |s| && rest == s[r + 1..] && !Blank(rest)
    requires forall m, n :: MatchesTitle(s, m, n) ==> m > p || (m == p && n <= q)
    ensures p == r && q == r + 1 + LeadingSpaces(rest)
  {
    hide Piece, Trim, InferTitle, FirstOpen, LeadingSpaces, Blank, IsSpace, IsLineEnd, OpensTitle, LineStart;
    var w := r + 1 + LeadingSpaces(rest);
    MatchOpens(s, p, q);
    OpenMatches(s, r, rest, w);
    assert MatchesTitle(s, r, w);
    SpacesIn(s, p + 1, q);
  }

  lemma LongestMatch(s: string, r: nat, rest: string, p: int, q: int)
    requires MatchesTitle(s, p, q) && r == FirstOpen(s, 0) < |s| && rest == s[r + 1..] && !Blank(rest)
    requires forall m, n :: MatchesTitle(s, m, n) ==> m > p || (m == p && n <= q)
    ensures InferTitle(s) == Trim(Piece(s[q..])) != ""
  {
    hide Piece, Trim, InferTitle, FirstOpen, LeadingSpaces, Blank, IsSpace, MatchesTitle;
    LongestIs(s, r, rest, p, q);
    OpenMatches(s, r, rest, q);
  }

  /** The match the engine finds, the leftmost `#` with the longest white space
      after it, gives the title; without any match there is none. */
  lemma InferTitleExact(s: string, p: int, q: int)
    ensures (forall m, n :: !MatchesTitle(s, m, n)) ==> InferTitle(s) == UNTITLED
    ensures MatchesTitle(s, p, q) && (forall m, n :: MatchesTitle(s, m, n) ==> m > p || (m == p && n <= q)) ==>
              var text := Trim(Piece(s[q..]));
              InferTitle(s) == if text != "" then text else UNTITLED
  {
    hide Piece, Trim, InferTitle, FirstOpen, LeadingSpaces, Blank, IsSpace, IsLineEnd, OpensTitle, LineStart;
    var r := FirstOpen(s, 0);
    if r == |s| || Blank(s[r + 1..]) {
      BlankTitle(s, r, if r == |s| then "" else s[r + 1..]);
    } else {
      var rest := s[r + 1..];
      OpenMatches(s, r, rest, r + 1 + LeadingSpaces(rest));
    }
    if MatchesTitle(s, p, q) {
      MatchOpens(s, p, q);
      if Blank(s[r + 1..]) {
        MatchAfterBlank(s, r, p, q);
      } else if forall m, n :: MatchesTitle(s, m, n) ==> m > p || (m == p && n <= q) {
        LongestMatch(s, r, s[r + 1..], p, q);
      }
    }
  }

  lemma BlankPiece(s: string, i: nat, q: nat)
    requires i <= q <= |s| && Blank(s[i..])
    ensures Trim(Piece(s[q..])) == ""
  {
    var r := Piece(s[q..]);
    forall k | 0 <= k < |r|
      ensures IsSpace(r[k])
    {
      assert r[k] == s[q..][k] == s[i..][q - i + k];
    }
    TrimBlank(r);
  }

  // ---- The same, line by line ----------------------------------------------

  /** What is known of the title so far: no `#` yet, one that still waits for its
      text, or the title. */
  datatype Probe = NoHash | Pending | Titled(title: string)

  function Scan(s: string): Probe {
    var p := FirstOpen(s, 0);
    if p == |s| then NoHash else if Blank(s[p + 1..]) then Pending else Titled(LeadText(s[p + 1..]))
  }

  function Read(st: Probe, line: string): Probe {
    match st
    case NoHash => Scan(line)
    case Pending => if Blank(line) then Pending else Titled(LeadText(line))
    case Titled(_) => st
  }

  function ReadAll(st: Probe, lines: seq<string>): Probe {
    if lines == [] then st else Read(ReadAll(st, lines[..|lines| - 1]), lines[|lines| - 1])
  }

  function Named(st: Probe): string {
    if st.Titled? then st.title else UNTITLED
  }

  lemma FirstOpenIs(s: string, r: nat)
    requires r <= |s| && (r < |s| ==> OpensTitle(s, r)) && forall m :: 0 <= m < r ==> !OpensTitle(s, m)
    ensures FirstOpen(s, 0) == r
  {
    var f := FirstOpen(s, 0);
    if f < r {
      assert false;
    }
  }

  lemma OpensInJoin(a: string, b: string, m: int)
    requires 0 <= m < |a| + 1 + |b|
    ensures OpensTitle(a + "\n" + b, m) <==> OpensTitle(a, m) || OpensTitle(b, m - |a| - 1)
  {
    var s, n := a + "\n" + b, m - |a| - 1;
    assert s[m] == if m < |a| then a[m] else if m == |a| then '\n' else b[n];
    if 0 < m <= |a| {
      assert s[m - 1] == a[m - 1];
    } else if n > 0 {
      assert s[m - 1] == b[n - 1];
    }
    if m + 1 < |a| {
      assert s[m + 1] == a[m + 1];
    } else if n >= 0 && n + 1 < |b| {
      assert s[m + 1] == b[n + 1];
    }
  }

  lemma PieceStops(a: string, b: string)
    ensures Piece(a + "\n" + b) == Piece(a)
  {
    PieceIs(a + "\n" + b, Piece(a));
  }

  lemma {:induction false} PieceIs(s: string, r: string)
    requires r <= s && NoLineEnd(r) && (|r| < |s| ==> IsLineEnd(s[|r|]))
    ensures Piece(s) == r
  {
    if r != "" {
      assert s[0] == r[0];
      PieceIs(s[1..], r[1..]);
    }
  }

  lemma LeadInJoin(a: string, b: string)
    ensures !Blank(a) ==> LeadText(a + "\n" + b) == LeadText(a)
    ensures Blank(a) ==> LeadText(a + "\n" + b) == LeadText(b)
  {
    hide Piece, TrimEnd;
    var s := a + "\n" + b;
    if Blank(a) {
      BlankConcat(a, "\n");
      assert s[..|a| + 1] == a + "\n" && s[|a| + 1..] == b;
      SkipsBlank(s, |a| + 1);
    } else {
      var w := LeadingSpaces(a);
      SomethingLeads(a);
      assert s[..w] == a[..w];
      SkipsBlank(s, w);
      assert s[w..] == a[w..] + "\n" + b;
      StartsAtOnce(s[w..]);
      PieceStops(a[w..], b);
    }
  }

  lemma StartsAtOnce(s: string)
    requires s != "" && !IsSpace(s[0])
    ensures TrimStart(s) == s
  {
  }

  lemma ScanIs(s: string, p: nat, rest: string)
    requires p == FirstOpen(s, 0) && (p < |s| ==> rest == s[p + 1..])
    ensures Scan(s) == if p == |s| then NoHash else if Blank(rest) then Pending else Titled(LeadText(rest))
  {
    hide LeadText, Blank, FirstOpen;
  }

  lemma OpensJoined(a: string, b: string, p: nat)
    requires p == FirstOpen(a, 0)
    ensures FirstOpen(a + "\n" + b, 0) == if p < |a| then p else |a| + 1 + FirstOpen(b, 0)
  {
    hide OpensTitle;
    var s := a + "\n" + b;
    forall m | 0 <= m < |s|
      ensures OpensTitle(s, m) <==> OpensTitle(a, m) || OpensTitle(b, m - |a| - 1)
    {
      OpensInJoin(a, b, m);
    }
    OpensInside(a);
    OpensInside(b);
    FirstOpenIs(s, if p < |a| then p else |a| + 1 + FirstOpen(b, 0));
  }

  lemma ScanJoin(a: string, b: string)
    ensures Scan(a + "\n" + b) == Read(Scan(a), b)
  {
    hide LeadText, FirstOpen, Blank, Scan;
    var s, p := a + "\n" + b, FirstOpen(a, 0);
    OpensJoined(a, b, p);
    if p < |a| {
      var rest := a[p + 1..];
      ScanIs(a, p, rest);
      ScanIs(s, p, rest + "\n" + b);
      NewlineIsBlank();
      BlankConcat(rest, "\n");
      BlankConcat(rest + "\n", b);
      LeadInJoin(rest, b);
    } else {
      var q := FirstOpen(b, 0);
      ScanIs(a, p, "");
      ScanIs(b, q, if q < |b| then b[q + 1..] else "");
      ScanIs(s, |a| + 1 + q, if q < |b| then b[q + 1..] else "");
    }
  }

  lemma NewlineIsBlank()
    ensures Blank("\n")
  {
  }

  lemma OpensInside(s: string)
    ensures forall m :: OpensTitle(s, m) ==> 0 <= m < |s|
  {
  }

  lemma {:induction false} ScanOnLines(lines: seq<string>)
    requires lines != []
    ensures Scan(Join(lines)) == ReadAll(NoHash, lines)
  {
    hide Scan, Join;
    var n := |lines| - 1;
    if n == 0 {
      JoinOne(lines[0]);
      assert lines == [lines[0]] && lines[..0] == [];
      assert ReadAll(NoHash, []) == NoHash;
    } else {
      ScanOnLines(lines[..n]);
      JoinAppend(lines[..n], [lines[n]]);
      JoinOne(lines[n]);
      assert lines == lines[..n] + [lines[n]];
      ScanJoin(Join(lines[..n]), lines[n]);
    }
  }

  lemma JoinOne(line: string)
    ensures Join([line]) == line
  {
  }

  lemma {:induction false} ReadAllConcat(st: Probe, a: seq<string>, b: seq<string>)
    ensures ReadAll(st, a + b) == ReadAll(ReadAll(st, a), b)
  {
    hide Read;
    if b == [] {
      assert a + b == a;
    } else {
      var n := |b| - 1;
      ReadAllConcat(st, a, b[..n]);
      assert (a + b)[..|a + b| - 1] == a + b[..n];
    }
  }

  lemma {:induction false} TitledStays(st: Probe, lines: seq<string>)
    requires st.Titled?
    ensures ReadAll(st, lines) == st
  {
    if lines != [] {
      TitledStays(st, lines[..|lines| - 1]);
    }
  }

  // ---- The title of a document ---------------------------------------------

  /** The lines between the frontmatter's dashes. */
  function FrontLines(lines: seq<string>): seq<string>
    requires lines != []
  {
    if lines[0] != "---" || |lines| < 2 then []
    else
      var j := F.FirstClose(lines, 2);
      if j == |lines| then [] else lines[1..j]
  }

  /** The title, read off the lines of a document. */
  function TitleOnLines(lines: seq<string>): string
    requires lines != []
  {
    var given := FrontTitle(FrontLines(lines));
    if given != "" then given else Named(ReadAll(NoHash, F.CutLines(lines).body))
  }

  function TitleOf(content: string): string {
    TitleOnLines(Split(content))
  }

  lemma InferOnLines(content: string)
    ensures InferTitle(F.BodyText(content)) == Named(ReadAll(NoHash, F.CutLines(Split(content)).body))
  {
    hide F.BodyText, F.CutLines, Scan;
    F.BodyOnLines(content);
    JoinSplit(F.BodyText(content));
    ScanOnLines(Split(F.BodyText(content)));
    InferIsScan(F.BodyText(content));
  }

  lemma InferIsScan(s: string)
    ensures InferTitle(s) == Named(Scan(s))
  {
  }

  lemma RawLines(content: string)
    ensures FrontTitle(Split(F.RawFrontmatter(content))) == FrontTitle(FrontLines(Split(content)))
  {
    hide TitleValue, F.FirstClose, Split;
    F.RawOnLines(content);
    BlankFront();
  }

  lemma BlankFront()
    ensures Split("") == [""] && FrontTitle([""]) == "" && FrontTitle([]) == ""
  {
    assert [""][..0] == [];
  }

  /** The title is the last one the raw frontmatter gives, if that is not empty, and
      otherwise the one inferred from the body. */
  lemma TitleOfText(content: string)
    ensures var given := FrontTitle(Split(F.RawFrontmatter(content)));
            TitleOf(content) == if given != "" then given else InferTitle(F.BodyText(content))
  {
    hide F.BodyText, F.CutLines, F.RawFrontmatter, InferTitle, FrontTitle, FrontLines, Split;
    RawLines(content);
    InferOnLines(content);
  }

  /** `parseMarkdownDocument(content).metadata.title`: the text is matched, the raw
      frontmatter read line by line, and the title inferred if that gives none. */
  method ParseTitle(content: string) returns (title: string)
    ensures title == TitleOf(content)
  {
    hide F.BodyText, F.CutLines, F.RawFrontmatter, InferTitle, FrontTitle, FrontLines, Split;
    title := ReadFrontTitle(Split(F.RawFrontmatter(content)));
    TitleOfText(content);
    if title == "" {
      title := InferTitle(F.BodyText(content));
    }
  }
}
