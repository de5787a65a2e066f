/** The path filter's glob: a tokenizer that collapses runs of stars, and a matcher
    that rolls one row of truth values over the text. */
module Glob {
  import opened Anchors

  datatype Token = Char(value: char) | Star | GlobStar

  function LowerText(s: string): (r: string)
    ensures |r| == |s| && forall i :: 0 <= i < |s| ==> r[i] == Lower(s[i])
  {
    seq(|s|, i requires 0 <= i < |s| => Lower(s[i]))
  }

  // ---- What a pattern means ------------------------------------------------

  /** A single star stands for any run without a slash, a globstar for any run. */
  predicate Fits(token: Token, part: string) {
    match token
    case Char(c) => part == [c]
    case Star => '/' !in part
    case GlobStar => true
  }

  function Concat(parts: seq<string>): string {
    if parts == [] then [] else Concat(parts[..|parts| - 1]) + parts[|parts| - 1]
  }

  predicate Splits(tokens: seq<Token>, parts: seq<string>, text: string) {
    && |parts| == |tokens|
    && Concat(parts) == text
    && forall i :: 0 <= i < |tokens| ==> Fits(tokens[i], parts[i])
  }

  /** The text can be cut into one fitting part for each token. */
  ghost predicate Matches(tokens: seq<Token>, text: string) {
    exists parts :: Splits(tokens, parts, text)
  }

  /** The same, decided from the ends. */
  predicate Decides(tokens: seq<Token>, text: string)
    decreases |tokens| + |text|
  {
    if tokens == [] then text == []
    else
      var front, last := tokens[..|tokens| - 1], tokens[|tokens| - 1];
      match last
      case Char(c) => text != [] && text[|text| - 1] == c && Decides(front, text[..|text| - 1])
      case Star =>
        || Decides(front, text)
        || (text != [] && text[|text| - 1] != '/' && Decides(tokens, text[..|text| - 1]))
      case GlobStar => Decides(front, text) || (text != [] && Decides(tokens, text[..|text| - 1]))
  }

  lemma ConcatSnoc(parts: seq<string>, part: string)
    ensures Concat(parts + [part]) == Concat(parts) + part
  {
    assert (parts + [part])[..|parts|] == parts;
  }

  lemma {:induction false} DecidesOnlyMatches(tokens: seq<Token>, text: string) returns (parts: seq<string>)
    requires Decides(tokens, text)
    ensures Splits(tokens, parts, text)
    decreases |tokens| + |text|
  {
    if tokens == [] {
      parts := [];
    } else {
      var front, last := tokens[..|tokens| - 1], tokens[|tokens| - 1];
      if last.Char? {
        var init := DecidesOnlyMatches(front, text[..|text| - 1]);
        parts := init + [[last.value]];
        ConcatSnoc(init, [last.value]);
      } else if Decides(front, text) {
        var init := DecidesOnlyMatches(front, text);
        parts := init + [[]];
        ConcatSnoc(init, []);
      } else {
        var shorter := DecidesOnlyMatches(tokens, text[..|text| - 1]);
        parts := LastPartGrows(tokens, shorter, text);
      }
    }
  }

  lemma LastPartGrows(tokens: seq<Token>, parts: seq<string>, text: string) returns (grown: seq<string>)
    requires tokens != [] && text != [] && Splits(tokens, parts, text[..|text| - 1])
    requires tokens[|tokens| - 1].GlobStar? || (tokens[|tokens| - 1].Star? && text[|text| - 1] != '/')
    ensures Splits(tokens, grown, text)
  {
    var n := |parts| - 1;
    grown := parts[..n] + [parts[n] + [text[|text| - 1]]];
    assert grown[..n] == parts[..n];
  }

  lemma {:induction false} MatchesAreDecided(tokens: seq<Token>, parts: seq<string>, text: string)
    requires Splits(tokens, parts, text)
    ensures Decides(tokens, text)
    decreases |tokens| + |text|
  {
    if tokens != [] {
      var n := |parts| - 1;
      var front, last, part := tokens[..n], tokens[n], parts[n];
      assert Fits(last, part);
      if last.Char? || part == [] {
        assert Splits(front, parts[..n], Concat(parts[..n]));
        MatchesAreDecided(front, parts[..n], Concat(parts[..n]));
        if last.Char? {
          assert text[..|text| - 1] == Concat(parts[..n]);
        } else {
          assert text == Concat(parts[..n]);
        }
      } else {
        var shorter := parts[..n] + [part[..|part| - 1]];
        assert shorter[..n] == parts[..n];
        assert text[..|text| - 1] == Concat(shorter);
        MatchesAreDecided(tokens, shorter, text[..|text| - 1]);
      }
    }
  }

  lemma DecidesExactly(tokens: seq<Token>, text: string)
    ensures Decides(tokens, text) <==> Matches(tokens, text)
  {
    hide Decides, Splits;
    if Decides(tokens, text) {
      var parts := DecidesOnlyMatches(tokens, text);
    }
    if Matches(tokens, text) {
      var parts :| Splits(tokens, parts, text);
      MatchesAreDecided(tokens, parts, text);
    }
  }

  // ---- The rolling matcher -------------------------------------------------

  /** `row[j]` says whether the first j tokens match the text so far. */
  ghost predicate IsRow(row: seq<bool>, tokens: seq<Token>, text: string) {
    |row| == |tokens| + 1 && forall j :: 0 <= j <= |tokens| ==> row[j] == Decides(tokens[..j], text)
  }

  /** One entry of the first row, from its left neighbour. */
  lemma FirstRow(tokens: seq<Token>, j: nat)
    requires 0 < j <= |tokens|
    ensures Decides(tokens[..j], []) == (Decides(tokens[..j - 1], []) && !tokens[j - 1].Char?)
  {
    assert tokens[..j][..j - 1] == tokens[..j - 1];
  }

  /** One entry of a later row, from its left neighbour and the row before. */
  lemma NextRow(tokens: seq<Token>, j: nat, text: string, ch: char)
    requires 0 < j <= |tokens|
    ensures Decides(tokens[..j], text + [ch]) ==
              match tokens[j - 1]
              case Char(c) => Decides(tokens[..j - 1], text) && c == ch
              case Star => Decides(tokens[..j - 1], text + [ch]) || (Decides(tokens[..j], text) && ch != '/')
              case GlobStar => Decides(tokens[..j - 1], text + [ch]) || Decides(tokens[..j], text)
  {
    assert tokens[..j][..j - 1] == tokens[..j - 1];
    assert (text + [ch])[..|text|] == text;
  }

  /** Lower-cases the candidate and decides the meaning of the tokens, without ever
      going back over the text. */
  method MatchGlob(tokens: seq<Token>, candidate: string) returns (result: bool)
    ensures result <==> Matches(tokens, LowerText(candidate))
  {
    hide Decides, Matches;
    var text := LowerText(candidate);
    var n := |tokens|;
    var matched := new bool[n + 1](_ => false);
    matched[0] := true;
    EmptyTokens([]);
    assert tokens[..0] == [];
    for j := 1 to n + 1
      invariant forall k :: 0 <= k < j ==> matched[k] == Decides(tokens[..k], [])
    {
      FirstRow(tokens, j);
      matched[j] := matched[j - 1] && !tokens[j - 1].Char?;
    }
    assert text[..0] == [];
    for i := 0 to |text|
      invariant matched.Length == n + 1 && fresh(matched)
      invariant IsRow(matched[..], tokens, text[..i])
    {
      var ch := text[i];
      var next := new bool[n + 1](_ => false);
      assert text[..i + 1] == text[..i] + [ch];
      EmptyTokens(text[..i + 1]);
      for j := 1 to n + 1
        invariant forall k :: 0 <= k < j ==> next[k] == Decides(tokens[..k], text[..i + 1])
        invariant IsRow(matched[..], tokens, text[..i])
      {
        NextRow(tokens, j, text[..i], ch);
        match tokens[j - 1] {
          case Char(c) => next[j] := matched[j - 1] && c == ch;
          case Star => next[j] := next[j - 1] || (matched[j] && ch != '/');
          case GlobStar => next[j] := next[j - 1] || matched[j];
        }
      }
      matched := next;
    }
    assert text[..|text|] == text && tokens[..n] == tokens;
    DecidesExactly(tokens, text);
    result := matched[n];
  }

  lemma EmptyTokens(text: string)
    ensures Decides([], text) == (text == [])
  {
  }

  // ---- Joining patterns ----------------------------------------------------

  lemma {:induction false} ConcatConcat(a: seq<string>, b: seq<string>)
    ensures Concat(a + b) == Concat(a) + Concat(b)
  {
    if b == [] {
      assert a + b == a;
    } else {
      var n := |b| - 1;
      ConcatConcat(a, b[..n]);
      assert (a + b)[..|a + b| - 1] == a + b[..n];
    }
  }

  /** A text matches two patterns in a row when it can be cut between them. */
  lemma JoinedMatches(a: seq<Token>, b: seq<Token>, s: string, t: string)
    requires Matches(a, s) && Matches(b, t)
    ensures Matches(a + b, s + t)
  {
    var p :| Splits(a, p, s);
    var q :| Splits(b, q, t);
    ConcatConcat(p, q);
    assert Splits(a + b, p + q, s + t);
  }

  lemma MatchesAreCut(a: seq<Token>, b: seq<Token>, text: string) returns (k: nat)
    requires Matches(a + b, text)
    ensures k <= |text| && Matches(a, text[..k]) && Matches(b, text[k..])
  {
    var parts :| Splits(a + b, parts, text);
    var p, q := parts[..|a|], parts[|a|..];
    assert parts == p + q;
    ConcatConcat(p, q);
    k := |Concat(p)|;
    forall i | 0 <= i < |b|
      ensures Fits(b[i], q[i])
    {
      assert (a + b)[|a| + i] == b[i] && parts[|a| + i] == q[i];
    }
    forall i | 0 <= i < |a|
      ensures Fits(a[i], p[i])
    {
      assert (a + b)[i] == a[i] && parts[i] == p[i];
    }
    assert Splits(a, p, text[..k]) && Splits(b, q, text[k..]);
  }

  /** What the tokens match, one by one and in a row. */
  lemma MatchesMeans(token: Token, a: seq<Token>, b: seq<Token>, text: string)
    ensures Matches([], text) <==> text == []
    ensures Matches([token], text) <==>
              match token
              case Char(c) => text == [c]
              case Star => '/' !in text
              case GlobStar => true
    ensures Matches(a + b, text) <==> exists k :: 0 <= k <= |text| && Matches(a, text[..k]) && Matches(b, text[k..])
  {
    EmptyMatches(text);
    OneMatches(token, text);
    hide Matches;
    if Matches(a + b, text) {
      var k := MatchesAreCut(a, b, text);
    }
    if k :| 0 <= k <= |text| && Matches(a, text[..k]) && Matches(b, text[k..]) {
      JoinedMatches(a, b, text[..k], text[k..]);
      assert text[..k] + text[k..] == text;
    }
  }

  lemma EmptyMatches(text: string)
    ensures Matches([], text) <==> text == []
  {
    if text == [] {
      assert Splits([], [], []);
    }
  }

  lemma OneMatches(token: Token, text: string)
    ensures Matches([token], text) <==> Fits(token, text)
  {
    assert Concat([text]) == Concat([]) + text by { ConcatSnoc([], text); }
    if Fits(token, text) {
      assert Splits([token], [text], text);
    }
    if parts :| Splits([token], parts, text) {
      assert parts == [] + [parts[0]];
      ConcatSnoc([], parts[0]);
      assert parts[0] == text;
    }
  }

  // ---- Runs of stars -------------------------------------------------------

  predicate IsStarRun(run: seq<Token>) {
    forall i :: 0 <= i < |run| ==> !run[i].Char?
  }

  /** A run of stars with a globstar in it matches every text. */
  lemma StarRunMatchesAll(run: seq<Token>, text: string)
    requires IsStarRun(run) && GlobStar in run
    ensures Matches(run, text)
  {
    hide Concat;
    var g :| 0 <= g < |run| && run[g] == GlobStar;
    var before, after := seq(g, _ => ""), seq(|run| - g - 1, _ => "");
    var parts := before + [text] + after;
    AllEmpty(g);
    AllEmpty(|run| - g - 1);
    ConcatConcat(before + [text], after);
    ConcatSnoc(before, text);
    forall i | 0 <= i < |run|
      ensures Fits(run[i], parts[i])
    {
      if i != g {
        assert parts[i] == "";
      }
    }
    assert Splits(run, parts, text);
  }

  lemma {:induction false} AllEmpty(n: nat)
    ensures Concat(seq(n, _ => "")) == []
  {
    if n > 0 {
      AllEmpty(n - 1);
      assert seq(n, _ => "")[..n - 1] == seq(n - 1, _ => "");
    }
  }

  /** Anywhere in a pattern, a run of stars with a globstar in it means the same as
      one globstar. */
  lemma CollapsePreserves(before: seq<Token>, run: seq<Token>, after: seq<Token>, text: string)
    requires IsStarRun(run) && GlobStar in run
    ensures Matches(before + run + after, text) <==> Matches(before + [GlobStar] + after, text)
  {
    if Matches(before + run + after, text) {
      ReplaceRun(before, run, [GlobStar], after, text);
    }
    if Matches(before + [GlobStar] + after, text) {
      ReplaceRun(before, [GlobStar], run, after, text);
    }
  }

  lemma ReplaceRun(before: seq<Token>, run: seq<Token>, other: seq<Token>, after: seq<Token>, text: string)
    requires Matches(before + run + after, text) && IsStarRun(other) && GlobStar in other
    ensures Matches(before + other + after, text)
  {
    hide Matches;
    var k := MatchesAreCut(before + run, after, text);
    var j := MatchesAreCut(before, run, text[..k]);
    StarRunMatchesAll(other, text[..k][j..]);
    JoinedMatches(before, other, text[..k][..j], text[..k][j..]);
    assert text[..k][..j] + text[..k][j..] == text[..k];
    JoinedMatches(before + other, after, text[..k], text[k..]);
    assert text[..k] + text[k..] == text;
  }

  // ---- The tokenizer -------------------------------------------------------

  function LeadingStars(glob: string): (k: nat)
    ensures k <= |glob|
  {
    if glob != [] && glob[0] == '*' then 1 + LeadingStars(glob[1..]) else 0
  }

  function Tokenize(glob: string): seq<Token>
    decreases |glob|
  {
    if glob == [] then []
    else if glob[0] == '*' then
      var k := LeadingStars(glob);
      [if k > 1 then GlobStar else Star] + Tokenize(glob[k..])
    else [Char(Lower(glob[0]))] + Tokenize(glob[1..])
  }

  lemma StarsAt(glob: string, i: nat)
    requires i <= |glob|
    ensures LeadingStars(glob[i..]) == if i < |glob| && glob[i] == '*' then 1 + LeadingStars(glob[i + 1..]) else 0
  {
    if i < |glob| {
      assert glob[i..][1..] == glob[i + 1..];
    }
  }

  lemma TokenizeAt(glob: string, i: nat)
    requires i < |glob|
    ensures var k := LeadingStars(glob[i..]);
            Tokenize(glob[i..]) == if glob[i] == '*' then [if k > 1 then GlobStar else Star] + Tokenize(glob[i + k..])
                                   else [Char(Lower(glob[i]))] + Tokenize(glob[i + 1..])
  {
    var k := LeadingStars(glob[i..]);
    assert glob[i..][k..] == glob[i + k..] && glob[i..][1..] == glob[i + 1..];
  }

  method TokenizeGlob(glob: string) returns (tokens: seq<Token>)
    ensures tokens == Tokenize(glob)
  {
    hide Tokenize, LeadingStars, Lower;
    tokens := [];
    var i := 0;
    assert glob[0..] == glob;
    while i < |glob|
      invariant 0 <= i <= |glob|
      invariant tokens + Tokenize(glob[i..]) == Tokenize(glob)
      decreases |glob| - i
    {
      TokenizeAt(glob, i);
      ghost var from, was := i, tokens;
      if glob[i] == '*' {
        var stars := 0;
        StarsAt(glob, i);
        while i < |glob| && glob[i] == '*'
          invariant from <= i <= |glob| && i == from + stars
          invariant stars + LeadingStars(glob[i..]) == LeadingStars(glob[from..])
        {
          StarsAt(glob, i);
          stars := stars + 1;
          i := i + 1;
        }
        StarsAt(glob, i);
        tokens := tokens + [if stars > 1 then GlobStar else Star];
      } else {
        tokens := tokens + [Char(Lower(glob[i]))];
        i := i + 1;
      }
      assert tokens + Tokenize(glob[i..]) == was + Tokenize(glob[from..]);
    }
    NoTokens();
    assert glob[|glob|..] == [];
  }

  lemma NoTokens()
    ensures Tokenize([]) == []
  {
  }

  lemma {:induction false} StarsKeepCase(glob: string)
    ensures LeadingStars(LowerText(glob)) == LeadingStars(glob)
  {
    if glob != [] {
      StarsKeepCase(glob[1..]);
      assert LowerText(glob)[1..] == LowerText(glob[1..]);
    }
  }

  /** Case never matters: a pattern and its lower-cased form are the same tokens. */
  lemma {:induction false} CaseDoesNotMatter(glob: string)
    ensures Tokenize(LowerText(glob)) == Tokenize(glob)
    decreases |glob|
  {
    hide LeadingStars;
    if glob != [] {
      var low, k := LowerText(glob), LeadingStars(glob);
      assert glob[0..] == glob && low[0..] == low;
      TokenizeAt(glob, 0);
      TokenizeAt(low, 0);
      StarsKeepCase(glob);
      StarsAt(glob, 0);
      if glob[0] == '*' {
        assert low[k..] == LowerText(glob[k..]);
        CaseDoesNotMatter(glob[k..]);
      } else {
        assert low[1..] == LowerText(glob[1..]);
        CaseDoesNotMatter(glob[1..]);
      }
    }
  }

  /** The plain reading of a pattern: two stars together are a globstar, a star left
      alone is a star, and nothing is collapsed. */
  function Pairwise(glob: string): seq<Token>
    decreases |glob|
  {
    if glob == [] then []
    else if glob[0] != '*' then [Char(Lower(glob[0]))] + Pairwise(glob[1..])
    else if |glob| > 1 && glob[1] == '*' then [GlobStar] + Pairwise(glob[2..])
    else [Star] + Pairwise(glob[1..])
  }

  /** The plain reading of k stars. */
  function Stars(k: nat): seq<Token> {
    if k == 0 then [] else if k == 1 then [Star] else [GlobStar] + Stars(k - 2)
  }

  lemma {:induction false} StarsAreRun(k: nat)
    ensures IsStarRun(Stars(k)) && (k > 1 ==> GlobStar in Stars(k))
  {
    if k > 1 {
      StarsAreRun(k - 2);
    }
  }

  lemma PairwiseAt(glob: string)
    requires glob != []
    ensures Pairwise(glob) == if glob[0] != '*' then [Char(Lower(glob[0]))] + Pairwise(glob[1..])
                              else if |glob| > 1 && glob[1] == '*' then [GlobStar] + Pairwise(glob[2..])
                              else [Star] + Pairwise(glob[1..])
  {
  }

  lemma StarsTwo(k: nat)
    requires k > 1
    ensures Stars(k) == [GlobStar] + Stars(k - 2)
  {
  }

  lemma {:induction false} PairwiseStars(glob: string)
    ensures Pairwise(glob) == Stars(LeadingStars(glob)) + Pairwise(glob[LeadingStars(glob)..])
    decreases |glob|
  {
    hide Pairwise, LeadingStars;
    var k := LeadingStars(glob);
    assert glob[0..] == glob;
    StarsAt(glob, 0);
    if k > 0 {
      PairwiseAt(glob);
      StarsAt(glob, 1);
      if k > 1 {
        hide Stars;
        PairwiseStars(glob[2..]);
        StarsTwo(k);
        assert glob[2..][k - 2..] == glob[k..];
        assert [GlobStar] + (Stars(k - 2) + Pairwise(glob[k..])) == Stars(k) + Pairwise(glob[k..]);
      } else {
        assert Stars(k) == [Star];
      }
    } else {
      assert Stars(k) == [];
    }
  }

  lemma ReplaceHead(head: seq<Token>, other: seq<Token>, rest: seq<Token>, otherRest: seq<Token>, text: string)
    requires Matches(head + rest, text)
    requires forall s :: Matches(head, s) ==> Matches(other, s)
    requires forall s :: Matches(rest, s) ==> Matches(otherRest, s)
    ensures Matches(other + otherRest, text)
  {
    hide Matches;
    var k := MatchesAreCut(head, rest, text);
    JoinedMatches(other, otherRest, text[..k], text[k..]);
    assert text[..k] + text[k..] == text;
  }

  /** Collapsing the stars never changes what a pattern matches. */
  lemma {:induction false} TokenizeMeansPairwise(glob: string, text: string)
    ensures Matches(Tokenize(glob), text) <==> Matches(Pairwise(glob), text)
    decreases |glob|
  {
    hide Matches;
    if glob != [] {
      var k := LeadingStars(glob);
      var head, other, rest := HeadOf(glob);
      forall s
        ensures Matches(Tokenize(rest), s) <==> Matches(Pairwise(rest), s)
      {
        TokenizeMeansPairwise(rest, s);
      }
      if Matches(Tokenize(glob), text) {
        ReplaceHead(head, other, Tokenize(rest), Pairwise(rest), text);
      }
      if Matches(Pairwise(glob), text) {
        ReplaceHead(other, head, Pairwise(rest), Tokenize(rest), text);
      }
    }
  }

  /** The first token of a pattern, what the plain reading has there, and the rest. */
  lemma HeadOf(glob: string) returns (head: seq<Token>, other: seq<Token>, rest: string)
    requires glob != []
    ensures |rest| < |glob|
    ensures Tokenize(glob) == head + Tokenize(rest) && Pairwise(glob) == other + Pairwise(rest)
    ensures forall s :: Matches(head, s) <==> Matches(other, s)
  {
    hide Matches;
    var k := LeadingStars(glob);
    if k == 0 {
      rest := glob[1..];
      head := [Char(Lower(glob[0]))];
      other := head;
    } else {
      rest := glob[k..];
      head, other := [if k > 1 then GlobStar else Star], Stars(k);
      PairwiseStars(glob);
      StarsAreRun(k);
      if k > 1 {
        forall s
          ensures Matches(head, s) && Matches(other, s)
        {
          StarRunMatchesAll(head, s);
          StarRunMatchesAll(other, s);
        }
      }
    }
  }

  // ---- Segments ------------------------------------------------------------

  function Slashes(text: string): nat {
    if text == [] then 0 else Slashes(text[..|text| - 1]) + if text[|text| - 1] == '/' then 1 else 0
  }

  function SlashTokens(tokens: seq<Token>): nat {
    if tokens == [] then 0
    else SlashTokens(tokens[..|tokens| - 1]) + if tokens[|tokens| - 1] == Char('/') then 1 else 0
  }

  /** Without a globstar a pattern matches only paths as deep as itself. */
  lemma {:induction false} StarsStayInSegment(tokens: seq<Token>, text: string)
    requires Decides(tokens, text) && GlobStar !in tokens
    ensures Slashes(text) == SlashTokens(tokens)
    decreases |tokens| + |text|
  {
    if tokens != [] {
      var front, last := tokens[..|tokens| - 1], tokens[|tokens| - 1];
      if last.Char? {
        StarsStayInSegment(front, text[..|text| - 1]);
      } else if Decides(front, text) {
        StarsStayInSegment(front, text);
      } else {
        StarsStayInSegment(tokens, text[..|text| - 1]);
      }
    }
  }

  /** A pattern without stars matches its own text alone, whatever the case. */
  lemma {:induction false} PlainPattern(glob: string, text: string)
    requires '*' !in glob
    ensures Matches(Tokenize(glob), text) <==> text == LowerText(glob)
  {
    hide Matches;
    if glob == [] {
      EmptyMatches(text);
    } else {
      var rest := glob[1..];
      MatchesMeans(Char(Lower(glob[0])), [Char(Lower(glob[0]))], Tokenize(rest), text);
      forall t
        ensures Matches(Tokenize(rest), t) <==> t == LowerText(rest)
      {
        PlainPattern(rest, t);
      }
      forall t
        ensures Matches([Char(Lower(glob[0]))], t) <==> t == [Lower(glob[0])]
      {
        OneMatches(Char(Lower(glob[0])), t);
      }
      assert LowerText(glob) == [Lower(glob[0])] + LowerText(rest);
      if text == LowerText(glob) {
        assert text[..1] == [Lower(glob[0])] && text[1..] == LowerText(rest);
      }
    }
  }

  lemma LowerTextIs(s: string)
    ensures |LowerText(s)| == |s|
    ensures forall i :: 0 <= i < |s| ==>
              LowerText(s)[i] == if 'A' <= s[i] <= 'Z' then (s[i] as int + 32) as char else s[i]
  {
  }
}
