/** Text as the markdown package sees it: JavaScript white space, trimming, and
    the correspondence between a string and its sequence of LF-separated lines. */
module TextLines {

  datatype Option<+T> = None | Some(value: T)

  /** The characters `\s` and `trim()` treat as white space. */
  predicate IsSpace(c: char) {
    var n := c as int;
    || 9 <= n <= 13 || n == 0x20 || n == 0xA0 || n == 0x1680 || 0x2000 <= n <= 0x200A
    || n == 0x2028 || n == 0x2029 || n == 0x202F || n == 0x205F || n == 0x3000 || n == 0xFEFF
  }

  /** The line terminators that `.` refuses to match. */
  predicate IsLineEnd(c: char) {
    c == '\n' || c == '\r' || c as int == 0x2028 || c as int == 0x2029
  }

  predicate Blank(s: string) {
    forall i :: 0 <= i < |s| ==> IsSpace(s[i])
  }

  /** How many leading characters are white space. */
  function LeadingSpaces(s: string): (n: nat)
    ensures n <= |s| && Blank(s[..n])
    ensures n < |s| ==> !IsSpace(s[n])
  {
    if s != "" && IsSpace(s[0]) then
      var n := 1 + LeadingSpaces(s[1..]);
      assert forall i :: 0 < i < n ==> s[i] == s[1..][i - 1];
      n
    else 0
  }

  function TrimStart(s: string): string {
    s[LeadingSpaces(s)..]
  }

  /** The length left once trailing white space is dropped. */
  function TrimmedLength(s: string): (n: nat)
    ensures n <= |s| && Blank(s[n..])
    ensures n > 0 ==> !IsSpace(s[n - 1])
  {
    if s != "" && IsSpace(s[|s| - 1]) then
      var n := TrimmedLength(s[..|s| - 1]);
      assert forall i :: n <= i < |s| - 1 ==> s[i] == s[..|s| - 1][n..][i - n];
      n
    else |s|
  }

  function TrimEnd(s: string): string {
    s[..TrimmedLength(s)]
  }

  function Trim(s: string): string {
    TrimEnd(TrimStart(s))
  }

  lemma TrimBlank(s: string)
    ensures Trim(s) == "" <==> Blank(s)
  {
    var n := LeadingSpaces(s);
    var t := TrimStart(s);
    if Blank(s) {
      assert n == |s|;
    } else {
      assert n < |s| && t[0] == s[n];
      assert !Blank(t);
      assert t[0..] == t;
    }
  }

  /** Whatever white space stands around a text that neither starts nor ends with any,
      that text is what is left; and every text can be taken apart so. */
  lemma TrimExact(s: string, a: string, t: string, b: string)
    requires s == a + t + b && Blank(a) && Blank(b)
    requires t != "" ==> !IsSpace(t[0]) && !IsSpace(t[|t| - 1])
    ensures Trim(s) == t
  {
    hide IsSpace, Blank;
    if t == "" {
      BlankConcat(a, b);
      assert s == a + b;
      TrimBlank(s);
    } else {
      var rest := t + b;
      assert s == a + rest && rest[0] == t[0];
      LeadIs(a, rest);
      TailIs(t, b);
    }
  }

  lemma {:induction false} LeadIs(a: string, rest: string)
    requires Blank(a) && rest != "" && !IsSpace(rest[0])
    ensures TrimStart(a + rest) == rest
  {
    if a != "" {
      assert (a + rest)[1..] == a[1..] + rest;
      LeadIs(a[1..], rest);
    } else {
      assert a + rest == rest;
    }
  }

  lemma {:induction false} TailIs(t: string, b: string)
    requires Blank(b) && t != "" && !IsSpace(t[|t| - 1])
    ensures TrimEnd(t + b) == t
  {
    hide IsSpace;
    var n := |b| - 1;
    if b != "" {
      assert (t + b)[..|t + b| - 1] == t + b[..n] && (t + b)[|t + b| - 1] == b[n];
      TailIs(t, b[..n]);
    } else {
      assert t + b == t;
    }
  }

  lemma TrimParts(s: string)
    ensures exists a, b :: s == a + Trim(s) + b && Blank(a) && Blank(b)
    ensures Trim(s) != "" ==> !IsSpace(Trim(s)[0]) && !IsSpace(Trim(s)[|Trim(s)| - 1])
  {
    hide IsSpace;
    var n := LeadingSpaces(s);
    var t := s[n..];
    var m := TrimmedLength(t);
    assert s == s[..n] + t[..m] + t[m..];
  }

  // ---- Lines ---------------------------------------------------------------

  predicate OneLine(s: string) {
    '\n' !in s
  }

  predicate AllOneLine(ls: seq<string>) {
    forall i :: 0 <= i < |ls| ==> OneLine(ls[i])
  }

  function Split(s: string): (ls: seq<string>)
    ensures |ls| >= 1 && AllOneLine(ls)
  {
    if s == "" then [""]
    else
      var rest := Split(s[1..]);
      if s[0] == '\n' then [""] + rest else [[s[0]] + rest[0]] + rest[1..]
  }

  function Join(ls: seq<string>): string {
    if |ls| == 0 then ""
    else if |ls| == 1 then ls[0]
    else ls[0] + "\n" + Join(ls[1..])
  }

  lemma {:induction false} JoinSplit(s: string)
    ensures Join(Split(s)) == s
  {
    if s != "" {
      JoinSplit(s[1..]);
      var rest := Split(s[1..]);
      if s[0] == '\n' {
        assert ([""] + rest)[1..] == rest;
      } else {
        assert ([[s[0]] + rest[0]] + rest[1..])[1..] == rest[1..];
      }
    }
  }

  lemma {:induction false} SplitOneLine(s: string)
    requires OneLine(s)
    ensures Split(s) == [s]
  {
    if s != "" {
      SplitOneLine(s[1..]);
      assert [s[0]] + s[1..] == s;
    }
  }

  lemma {:induction false} SplitCons(line: string, s: string)
    requires OneLine(line)
    ensures Split(line + "\n" + s) == [line] + Split(s)
  {
    var t := line + "\n" + s;
    if line == "" {
      assert t[1..] == s;
    } else {
      SplitCons(line[1..], s);
      assert t[1..] == line[1..] + "\n" + s;
      assert [line[0]] + line[1..] == line;
    }
  }

  lemma {:induction false} SplitJoin(ls: seq<string>)
    requires |ls| >= 1 && AllOneLine(ls)
    ensures Split(Join(ls)) == ls
  {
    if |ls| == 1 {
      SplitOneLine(ls[0]);
    } else {
      SplitJoin(ls[1..]);
      SplitCons(ls[0], Join(ls[1..]));
    }
  }

  lemma {:induction false} JoinAppend(a: seq<string>, b: seq<string>)
    requires |a| >= 1 && |b| >= 1
    ensures Join(a + b) == Join(a) + "\n" + Join(b)
  {
    if |a| == 1 {
      assert (a + b)[1..] == b;
    } else {
      JoinAppend(a[1..], b);
      assert (a + b)[1..] == a[1..] + b;
      assert a[0] + "\n" + (Join(a[1..]) + "\n" + Join(b)) == (a[0] + "\n" + Join(a[1..])) + "\n" + Join(b);
    }
  }

  predicate AllBlank(ls: seq<string>) {
    forall i :: 0 <= i < |ls| ==> Blank(ls[i])
  }

  lemma BlankConcat(s: string, t: string)
    ensures Blank(s + t) <==> Blank(s) && Blank(t)
  {
    var u := s + t;
    assert forall i :: 0 <= i < |s| ==> u[i] == s[i];
    assert forall i :: 0 <= i < |t| ==> u[|s| + i] == t[i];
    assert forall i :: |s| <= i < |u| ==> u[i] == t[i - |s|];
  }

  lemma {:induction false} BlankJoin(ls: seq<string>)
    ensures Blank(Join(ls)) <==> AllBlank(ls)
  {
    if |ls| >= 2 {
      BlankJoin(ls[1..]);
      BlankConcat(ls[0], "\n");
      BlankConcat(ls[0] + "\n", Join(ls[1..]));
      assert forall i :: 1 <= i < |ls| ==> ls[i] == ls[1..][i - 1];
      assert forall i :: 0 <= i < |ls| - 1 ==> ls[1..][i] == ls[i + 1];
    }
  }

  // ---- Substrings ----------------------------------------------------------

  predicate OccursAt(text: string, part: string, i: int) {
    0 <= i <= |text| - |part| && text[i..i + |part|] == part
  }

  /** `text.includes(part)`. */
  predicate Includes(text: string, part: string) {
    exists i :: 0 <= i <= |text| - |part| && OccursAt(text, part, i)
  }

  lemma OccursInside(a: string, text: string, c: string, part: string, i: int)
    requires OccursAt(text, part, i)
    ensures OccursAt(a + text + c, part, |a| + i)
  {
    var t := a + text + c;
    assert t[|a| + i..|a| + i + |part|] == text[i..i + |part|];
  }

  lemma OccursChar(text: string, part: string, i: int, k: int)
    requires OccursAt(text, part, i) && 0 <= k < |part|
    ensures part[k] == text[i + k]
  {
    assert text[i..i + |part|][k] == text[i + k];
  }

  lemma OccursOutside(a: string, b: string, part: string, i: int)
    requires OneLine(part) && part != "" && OccursAt(a + "\n" + b, part, i)
    ensures OccursAt(a, part, i) || OccursAt(b, part, i - |a| - 1)
  {
    var t := a + "\n" + b;
    if i + |part| <= |a| {
      assert a[i..i + |part|] == t[i..i + |part|];
    } else if i > |a| {
      assert b[i - |a| - 1..i - |a| - 1 + |part|] == t[i..i + |part|];
    } else {
      OccursChar(t, part, i, |a| - i);
      assert false;
    }
  }

  lemma IncludesAround(a: string, b: string, part: string)
    requires OneLine(part) && part != ""
    ensures Includes(a + "\n" + b, part) <==> Includes(a, part) || Includes(b, part)
  {
    var t := a + "\n" + b;
    if i :| OccursAt(a, part, i) {
      OccursInside("", a, "\n" + b, part, i);
      assert "" + a + ("\n" + b) == t;
    }
    if i :| OccursAt(b, part, i) {
      OccursInside(a + "\n", b, "", part, i);
      assert (a + "\n") + b + "" == t;
    }
    if i :| OccursAt(t, part, i) {
      OccursOutside(a, b, part, i);
    }
  }

  /** A newline-free part is in a text exactly when it is in one of its lines. */
  lemma {:induction false} IncludesByLine(ls: seq<string>, part: string)
    requires |ls| >= 1 && OneLine(part) && part != ""
    ensures Includes(Join(ls), part) <==> exists i :: 0 <= i < |ls| && Includes(ls[i], part)
  {
    if |ls| > 1 {
      IncludesByLine(ls[1..], part);
      IncludesAround(ls[0], Join(ls[1..]), part);
      assert forall i :: 1 <= i < |ls| ==> ls[i] == ls[1..][i - 1];
    }
  }
}
