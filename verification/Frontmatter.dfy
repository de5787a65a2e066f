/** Cutting the frontmatter off a document: on characters, as the pattern in
    `parseMarkdownDocument` does it, and on lines, as everything after it needs it;
    the two agree on every document. Lines put into the body stay in the body, as
    long as none of them could close the frontmatter. */
module Frontmatter {
  import opened TextLines

  /** The text after the first newline followed by three dashes, if there is one. */
  function AfterClose(s: string): (r: Option<string>)
    ensures r.Some? ==> |r.value| + 4 <= |s|
  {
    if |s| < 4 then None
    else if s[..4] == "\n---" then Some(s[4..])
    else AfterClose(s[1..])
  }

  /** `content.slice(frontmatterMatch[0].length)`: the document after its frontmatter. */
  function BodyText(content: string): string {
    if "---\n" <= content then
      match AfterClose(content[4..])
      case None => content
      case Some(rest) => if "\n" <= rest then rest[1..] else rest
    else content
  }

  /** `frontmatterMatch?.[1] ?? ""`: the text between the dashes. */
  function RawFrontmatter(content: string): string {
    if "---\n" <= content && AfterClose(content[4..]).Some?
    then content[4..|content| - |AfterClose(content[4..]).value| - 4]
    else ""
  }

  predicate ClosesAt(s: string, j: int) {
    0 <= j <= |s| - 4 && s[j..j + 4] == "\n---"
  }

  lemma {:induction false} AfterCloseAt(s: string, j: int)
    requires ClosesAt(s, j) && forall k :: 0 <= k < j ==> !ClosesAt(s, k)
    ensures AfterClose(s) == Some(s[j + 4..])
  {
    assert ClosesAt(s, 0) <==> s[..4] == "\n---";
    if j > 0 {
      assert !ClosesAt(s, 0);
      var t := s[1..];
      assert t[j - 1..j + 3] == s[j..j + 4];
      forall k | 0 <= k < j - 1
        ensures !ClosesAt(t, k)
      {
        assert !ClosesAt(s, k + 1);
        assert t[k..k + 4] == s[k + 1..k + 5];
      }
      AfterCloseAt(t, j - 1);
      assert t[j + 3..] == s[j + 4..];
    }
  }

  lemma {:induction false} NoClose(s: string)
    requires forall k :: !ClosesAt(s, k)
    ensures AfterClose(s) == None
  {
    if |s| >= 4 {
      assert !ClosesAt(s, 0) && s[0..4] == s[..4];
      forall k
        ensures !ClosesAt(s[1..], k)
      {
        assert !ClosesAt(s, k + 1);
        assert 0 <= k <= |s| - 5 ==> s[1..][k..k + 4] == s[k + 1..k + 5];
      }
      NoClose(s[1..]);
    }
  }

  /** `^---\n([\s\S]*?)\n---\n?` with the shortest group, ending at `j`: the group is the
      raw frontmatter, and everything behind the match is the body. */
  lemma FrontmatterExact(content: string, j: int)
    requires "---\n" <= content && j >= 4 && ClosesAt(content, j)
    requires forall k :: 4 <= k < j ==> !ClosesAt(content, k)
    ensures RawFrontmatter(content) == content[4..j]
    ensures BodyText(content)
         == content[if j + 4 < |content| && content[j + 4] == '\n' then j + 5 else j + 4..]
  {
    hide AfterClose;
    var s := content[4..];
    assert s[j - 4..j] == content[j..j + 4];
    forall k | 0 <= k < j - 4
      ensures !ClosesAt(s, k)
    {
      assert s[k..k + 4] == content[k + 4..k + 8] && !ClosesAt(content, k + 4);
    }
    AfterCloseAt(s, j - 4);
    assert s[j..] == content[j + 4..];
  }

  /** Without such a match there is no frontmatter and all of the text is the body. */
  lemma NoFrontmatter(content: string)
    requires "---\n" <= content ==> forall k :: k >= 4 ==> !ClosesAt(content, k)
    ensures RawFrontmatter(content) == "" && BodyText(content) == content
  {
    hide AfterClose;
    if "---\n" <= content {
      var s := content[4..];
      forall k
        ensures !ClosesAt(s, k)
      {
        assert !ClosesAt(content, k + 4) || k < 0;
        assert 0 <= k <= |s| - 4 ==> s[k..k + 4] == content[k + 4..k + 8];
      }
      NoClose(s);
    }
  }

  // ---- The same on lines ---------------------------------------------------

  /** The first line from `j` on that starts with three dashes, or the line count. */
  function FirstClose(lines: seq<string>, j: nat): (r: nat)
    requires j <= |lines|
    ensures j <= r <= |lines|
    ensures r < |lines| ==> "---" <= lines[r]
    ensures forall i :: j <= i < r ==> !("---" <= lines[i])
    decreases |lines| - j
  {
    if j == |lines| || "---" <= lines[j] then j else FirstClose(lines, j + 1)
  }

  lemma FirstCloseIs(lines: seq<string>, j: nat, r: nat)
    requires j <= r <= |lines|
    requires r < |lines| ==> "---" <= lines[r]
    requires forall i :: j <= i < r ==> !("---" <= lines[i])
    ensures FirstClose(lines, j) == r
  {
    var f := FirstClose(lines, j);
    if f < r {
      assert false;
    }
  }

  /** `front` lines come before `body`, whose first line may be the end of a line. */
  datatype Cut = Cut(front: nat, body: seq<string>)

  function CutLines(lines: seq<string>): (c: Cut)
    requires lines != []
    ensures c.body != [] && c.front + |c.body| == |lines|
  {
    if lines[0] != "---" || |lines| < 2 then Cut(0, lines)
    else
      var j := FirstClose(lines, 2);
      if j == |lines| then Cut(0, lines)
      else if lines[j] == "---" && j + 1 < |lines| then Cut(j + 1, lines[j + 1..])
      else Cut(j, [lines[j][3..]] + lines[j + 1..])
  }

  lemma DashesInFirstLine(ls: seq<string>)
    requires ls != [] && AllOneLine(ls)
    ensures "---" <= Join(ls) <==> "---" <= ls[0]
  {
    var s := Join(ls);
    assert ls[0] <= s;
    assert |ls| > 1 ==> s[|ls[0]|] == '\n';
  }

  lemma AfterCloseSkip(c: char, s: string)
    requires c != '\n'
    ensures AfterClose([c] + s) == AfterClose(s)
  {
    var t := [c] + s;
    assert t[1..] == s;
    assert |t| >= 4 ==> t[..4][0] == c;
  }

  lemma AfterCloseHere(s: string)
    ensures AfterClose("\n" + s) == if "---" <= s then Some(s[3..]) else AfterClose(s)
  {
    var t := "\n" + s;
    assert t[1..] == s;
    assert |t| >= 4 ==> t[..4] == "\n" + s[..3] && t[4..] == s[3..];
    if |t| >= 4 && t[..4] == "\n---" {
      assert t[..4][1..] == "---";
    }
  }

  /** What `AfterClose` finds in a text of the lines `ls`. */
  function LinesAfterClose(ls: seq<string>): Option<string>
    requires ls != []
  {
    var j := FirstClose(ls, 1);
    if j == |ls| then None else Some(Join([ls[j][3..]] + ls[j + 1..]))
  }

  lemma LinesAfterCloseFirst(a: string, b: string, rest: seq<string>)
    ensures LinesAfterClose([a] + rest) == LinesAfterClose([b] + rest)
  {
    var ls, ms := [a] + rest, [b] + rest;
    var j := FirstClose(ls, 1);
    assert forall i :: 1 <= i < |ls| ==> ms[i] == ls[i];
    FirstCloseIs(ms, 1, j);
    assert j < |ls| ==> ls[j + 1..] == ms[j + 1..];
  }

  lemma LinesAfterCloseNext(a: string, rest: seq<string>)
    requires rest != []
    ensures LinesAfterClose([a] + rest)
         == if "---" <= rest[0] then Some(Join([rest[0][3..]] + rest[1..])) else LinesAfterClose(rest)
  {
    var ls := [a] + rest;
    assert ls[1] == rest[0];
    if "---" <= rest[0] {
      assert ls[2..] == rest[1..];
    } else {
      var j := FirstClose(rest, 1);
      FirstCloseIs(ls, 1, j + 1);
      assert j < |rest| ==> ls[j + 2..] == rest[j + 1..];
    }
  }

  lemma {:induction false} AfterCloseOnLines(a: string, rest: seq<string>)
    requires OneLine(a) && AllOneLine(rest)
    ensures AfterClose(Join([a] + rest)) == LinesAfterClose([a] + rest)
    decreases |rest|, |a|
  {
    hide AfterClose, LinesAfterClose, Join;
    if a != "" {
      JoinFirst(a, rest);
      AfterCloseSkip(a[0], Join([a[1..]] + rest));
      AfterCloseOnLines(a[1..], rest);
      LinesAfterCloseFirst(a, a[1..], rest);
    } else if rest == [] {
      LonelyLine(a);
      assert [a] + rest == [a];
    } else {
      assert [rest[0]] + rest[1..] == rest;
      JoinFirst(a, rest);
      AfterCloseHere(Join(rest));
      DashesInFirstLine(rest);
      if "---" <= rest[0] {
        DropDashes(rest);
      }
      AfterCloseOnLines(rest[0], rest[1..]);
      LinesAfterCloseNext(a, rest);
    }
  }

  lemma LonelyLine(a: string)
    requires a == ""
    ensures Join([a]) == "" && AfterClose("") == LinesAfterClose([a])
  {
  }

  lemma JoinFirst(a: string, rest: seq<string>)
    ensures a != "" ==> Join([a] + rest) == [a[0]] + Join([a[1..]] + rest)
    ensures a == "" && rest != [] ==> Join([a] + rest) == "\n" + Join(rest)
  {
    assert ([a] + rest)[1..] == rest;
    if a != "" {
      assert ([a[1..]] + rest)[1..] == rest;
      assert [a[0]] + a[1..] == a;
    }
  }

  lemma DropDashes(ls: seq<string>)
    requires ls != [] && "---" <= ls[0]
    ensures "---" <= Join(ls) && Join(ls)[3..] == Join([ls[0][3..]] + ls[1..])
  {
    assert ([ls[0][3..]] + ls[1..])[1..] == ls[1..];
  }

  /** The character cut and the line cut agree, so the number of lines cut off is
      the difference of the two line counts. */
  lemma BodyOnLines(content: string)
    ensures Split(BodyText(content)) == CutLines(Split(content)).body
  {
    hide LinesAfterClose, FirstClose, AfterClose, Split;
    var lines := Split(content);
    JoinSplit(content);
    if |lines| >= 2 && lines[0] == "---" {
      var rest := lines[1..];
      assert content[4..] == Join(rest);
      assert [rest[0]] + rest[1..] == rest;
      AfterCloseOnLines(rest[0], rest[1..]);
      BodyAfterClose(lines);
    } else if "---\n" <= content {
      assert content == "---" + "\n" + content[4..];
      SplitCons("---", content[4..]);
    }
  }

  lemma BodyAfterClose(lines: seq<string>)
    requires |lines| >= 2 && AllOneLine(lines) && lines[0] == "---"
    ensures CutLines(lines).body == match LinesAfterClose(lines[1..])
                                    case None => lines
                                    case Some(t) => Split(if "\n" <= t then t[1..] else t)
  {
    var j := FirstClose(lines, 2);
    FirstCloseIs(lines[1..], 1, j - 1);
    if j < |lines| {
      var tail := [lines[j][3..]] + lines[j + 1..];
      assert lines[1..][j..] == lines[j + 1..];
      FrontNewline(tail);
      SplitJoin(tail);
      if tail[0] == "" && |tail| > 1 {
        assert tail[1..] == lines[j + 1..];
        SplitJoin(tail[1..]);
      }
    }
  }

  /** The raw frontmatter is the lines before the closing one. */
  lemma RawOnLines(content: string)
    ensures var lines := Split(content);
            if lines[0] == "---" && |lines| >= 2 && FirstClose(lines, 2) < |lines|
            then RawFrontmatter(content) == Join(lines[1..FirstClose(lines, 2)])
                 && Split(RawFrontmatter(content)) == lines[1..FirstClose(lines, 2)]
            else RawFrontmatter(content) == ""
  {
    hide FirstClose, AfterClose, Split, Join;
    var lines := Split(content);
    JoinSplit(content);
    if |lines| >= 2 && lines[0] == "---" {
      var rest, j := lines[1..], FirstClose(lines, 2);
      OpenedBy(lines);
      FirstCloseIs(rest, 1, j - 1);
      assert [rest[0]] + rest[1..] == rest;
      AfterCloseOnLines(rest[0], rest[1..]);
      if j < |lines| {
        RawIs(rest, j - 1);
        assert rest[..j - 1] == lines[1..j];
        SplitJoin(lines[1..j]);
      }
    } else if "---\n" <= content {
      assert content == "---" + "\n" + content[4..];
      SplitCons("---", content[4..]);
    }
  }

  lemma OpenedBy(lines: seq<string>)
    requires |lines| >= 2 && lines[0] == "---"
    ensures "---\n" <= Join(lines) && Join(lines)[4..] == Join(lines[1..])
  {
  }

  lemma RawIs(rest: seq<string>, k: nat)
    requires 1 <= k < |rest| && "---" <= rest[k]
    ensures var after := Join([rest[k][3..]] + rest[k + 1..]);
            |Join(rest)| >= |after| + 4 && Join(rest)[..|Join(rest)| - |after| - 4] == Join(rest[..k])
  {
    assert rest == rest[..k] + rest[k..];
    JoinAppend(rest[..k], rest[k..]);
    DropDashes(rest[k..]);
    assert rest[k..][1..] == rest[k + 1..];
  }

  lemma FrontNewline(ls: seq<string>)
    requires ls != [] && AllOneLine(ls)
    ensures "\n" <= Join(ls) <==> ls[0] == "" && |ls| > 1
    ensures ls[0] == "" && |ls| > 1 ==> Join(ls)[1..] == Join(ls[1..])
  {
    assert ls[0] != "" ==> Join(ls)[0] == ls[0][0];
  }

  // ---- Adding lines --------------------------------------------------------

  predicate NoDashes(lines: seq<string>) {
    forall i :: 0 <= i < |lines| ==> !("---" <= lines[i])
  }

  /** `lines` with `extra` put in after line `k`. */
  function Put(lines: seq<string>, k: nat, extra: seq<string>): seq<string>
    requires k < |lines|
  {
    lines[..k + 1] + extra + lines[k + 1..]
  }

  lemma PutTail(lines: seq<string>, k: nat, extra: seq<string>, m: nat, first: string)
    requires m <= k < |lines|
    ensures Put(lines, k, extra)[m..] == Put(lines[m..], k - m, extra)
    ensures [first] + Put(lines, k, extra)[m + 1..] == Put([first] + lines[m + 1..], k - m, extra)
  {
    var tail := [first] + lines[m + 1..];
    assert tail[..k - m + 1] == [first] + lines[m + 1..k + 1];
    assert tail[k - m + 1..] == lines[k + 1..];
  }

  lemma PutFirstClose(lines: seq<string>, k: nat, extra: seq<string>)
    requires |lines| >= 2 && NoDashes(extra) && 1 <= k < |lines|
    requires FirstClose(lines, 2) <= k || FirstClose(lines, 2) == |lines|
    ensures var j, more := FirstClose(lines, 2), Put(lines, k, extra);
            && |more| == |lines| + |extra| && more[0] == lines[0]
            && FirstClose(more, 2) == (if j <= k then j else |more|)
            && (j <= k ==> more[j] == lines[j])
  {
    var j, more := FirstClose(lines, 2), Put(lines, k, extra);
    if j <= k {
      FirstCloseIs(more, 2, j);
    } else {
      forall i | 2 <= i < |more|
        ensures !("---" <= more[i])
      {
        assert k < i <= k + |extra| ==> more[i] == extra[i - k - 1];
        assert i > k + |extra| ==> more[i] == lines[i - |extra|];
      }
      FirstCloseIs(more, 2, |more|);
    }
  }

  /** Lines put in behind a body line leave the frontmatter as it was. */
  lemma CutInside(lines: seq<string>, k: nat, extra: seq<string>)
    requires lines != [] && NoDashes(extra) && CutLines(lines).front <= k < |lines|
    requires lines[k] != "---"
    ensures CutLines(Put(lines, k, extra))
            == Cut(CutLines(lines).front, Put(CutLines(lines).body, k - CutLines(lines).front, extra))
  {
    hide FirstClose, NoDashes;
    if lines[0] == "---" && |lines| >= 2 {
      PutFirstClose(lines, k, extra);
      if FirstClose(lines, 2) <= k {
        CutBehindClose(lines, k, extra);
      } else {
        CutUnclosed(lines, k, extra);
      }
    }
  }

  lemma CutUnclosed(lines: seq<string>, k: nat, extra: seq<string>)
    requires |lines| >= 2 && k < |lines| && FirstClose(lines, 2) == |lines|
    requires FirstClose(Put(lines, k, extra), 2) == |Put(lines, k, extra)| >= 2
    ensures CutLines(lines) == Cut(0, lines) && CutLines(Put(lines, k, extra)) == Cut(0, Put(lines, k, extra))
  {
    hide FirstClose, Put;
  }

  lemma CutAt(lines: seq<string>, j: nat)
    requires |lines| >= 2 && lines[0] == "---" && FirstClose(lines, 2) == j < |lines|
    ensures CutLines(lines) == if lines[j] == "---" && j + 1 < |lines| then Cut(j + 1, lines[j + 1..])
                               else Cut(j, [lines[j][3..]] + lines[j + 1..])
  {
    hide FirstClose;
  }

  lemma CutBehindClose(lines: seq<string>, k: nat, extra: seq<string>)
    requires |lines| >= 2 && lines[0] == "---" && FirstClose(lines, 2) <= k < |lines| && lines[k] != "---"
    requires var j, more := FirstClose(lines, 2), Put(lines, k, extra);
             |more| == |lines| + |extra| && more[0] == lines[0] && FirstClose(more, 2) == j && more[j] == lines[j]
    ensures CutLines(Put(lines, k, extra))
            == Cut(CutLines(lines).front, Put(CutLines(lines).body, k - CutLines(lines).front, extra))
  {
    hide FirstClose, Put, CutLines;
    var j, more := FirstClose(lines, 2), Put(lines, k, extra);
    CutAt(lines, j);
    CutAt(more, j);
    PutTail(lines, k, extra, j, lines[j][3..]);
    if lines[j] == "---" {
      PutTail(lines, k, extra, j + 1, "");
    }
  }

  lemma BodyLineAt(lines: seq<string>, b: nat)
    requires lines != [] && b < |CutLines(lines).body|
    ensures CutLines(lines).body[b] != "" && CutLines(lines).body[b][0] != '-' ==>
              lines[CutLines(lines).front + b] != "---"
  {
  }

  /** The body lines of `lines`, were more lines to follow. */
  function OpenBody(lines: seq<string>): seq<string>
    requires lines != []
  {
    var n := |lines| - 1;
    if lines[0] == "---" && n >= 2 && FirstClose(lines, 2) == n && lines[n] == "---" then [] else CutLines(lines).body
  }

  lemma CutAppend(lines: seq<string>, extra: seq<string>)
    requires lines != [] && extra != [] && NoDashes(extra)
    ensures CutLines(lines + extra).body == OpenBody(lines) + extra
  {
    var all := lines + extra;
    if lines[0] == "---" {
      if |lines| < 2 {
        FirstCloseIs(all, 2, |all|);
      } else {
        AppendFirstClose(lines, extra);
        var j := FirstClose(lines, 2);
        if j < |lines| {
          hide FirstClose;
          assert all[j] == lines[j] && all[j + 1..] == lines[j + 1..] + extra;
          assert ([lines[j][3..]] + lines[j + 1..]) + extra == [lines[j][3..]] + (lines[j + 1..] + extra);
        }
      }
    }
  }

  lemma AppendFirstClose(lines: seq<string>, extra: seq<string>)
    requires |lines| >= 2 && NoDashes(extra)
    ensures FirstClose(lines + extra, 2)
            == if FirstClose(lines, 2) < |lines| then FirstClose(lines, 2) else |lines + extra|
  {
    var j := FirstClose(lines, 2);
    FirstCloseIs(lines + extra, 2, if j < |lines| then j else |lines + extra|);
  }

  lemma CutOpen(lines: seq<string>)
    requires lines != []
    ensures CutLines(lines).body == OpenBody(lines) || CutLines(lines).body == OpenBody(lines) + [""]
    ensures OpenBody(lines) != [] ==> CutLines(lines).body == OpenBody(lines)
  {
    hide FirstClose;
    var n := |lines| - 1;
    if OpenBody(lines) == [] {
      assert lines[n] == "---" && lines[n][3..] == "" && lines[n + 1..] == [];
      assert CutLines(lines).body == [""];
    }
  }
}
