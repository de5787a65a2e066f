/** Section anchors: the slug of a heading path, made unique within a document. */
module Anchors {

  function Decimal(n: nat): (s: string)
    ensures |s| >= 1
    ensures forall i :: 0 <= i < |s| ==> '0' <= s[i] <= '9'
  {
    var d := [('0' as int + n % 10) as char];
    if n < 10 then d else Decimal(n / 10) + d
  }

  lemma {:induction false} DecimalInjective(m: nat, n: nat)
    requires Decimal(m) == Decimal(n)
    ensures m == n
    decreases m + n
  {
    var a, b := Decimal(m), Decimal(n);
    assert a[|a| - 1] == ('0' as int + m % 10) as char;
    assert b[|b| - 1] == ('0' as int + n % 10) as char;
    assert m % 10 == n % 10;
    assert m >= 10 ==> a[..|a| - 1] == Decimal(m / 10);
    assert n >= 10 ==> b[..|b| - 1] == Decimal(n / 10);
    if m >= 10 && n >= 10 {
      DecimalInjective(m / 10, n / 10);
    }
  }

  /** The number that digits read as. */
  function Reading(s: string): int {
    if s == "" then 0 else 10 * Reading(s[..|s| - 1]) + (s[|s| - 1] as int - '0' as int)
  }

  /** `String(n)`: digits that read as the number, without a leading zero. */
  lemma {:induction false} DecimalReads(n: nat)
    ensures Reading(Decimal(n)) == n
    ensures n > 0 ==> Decimal(n)[0] != '0'
  {
    var s := Decimal(n);
    if n >= 10 {
      DecimalReads(n / 10);
      assert s[..|s| - 1] == Decimal(n / 10);
    }
  }

  // ---- The slug rule -------------------------------------------------------

  function Lower(c: char): char {
    if 'A' <= c <= 'Z' then (c as int + 32) as char else c
  }

  predicate SlugChar(c: char) {
    'a' <= c <= 'z' || '0' <= c <= '9'
  }

  /** What the first replacement makes of one more character. */
  function AddChar(r: string, c: char): string {
    if SlugChar(c) then r + [c] else if r != "" && r[|r| - 1] == '-' then r else r + "-"
  }

  /** Every run of characters outside `[a-z0-9]` becomes one dash. */
  function Collapse(s: string): string {
    if s == "" then ""
    else
      AddChar(Collapse(s[..|s| - 1]), Lower(s[|s| - 1]))
  }

  function StripDashes(s: string): string {
    var t := if s != "" && s[0] == '-' then s[1..] else s;
    if t != "" && t[|t| - 1] == '-' then t[..|t| - 1] else t
  }

  function Slugify(value: string): string {
    StripDashes(Collapse(value))
  }

  function JoinDash(parts: seq<string>): string {
    if |parts| == 0 then ""
    else if |parts| == 1 then parts[0]
    else parts[0] + "-" + JoinDash(parts[1..])
  }

  /** The runs of slug characters of a lower-cased text, each as long as possible. */
  function SlugWords(s: string): seq<string> {
    if s == "" then []
    else
      var front, c := SlugWords(s[..|s| - 1]), Lower(s[|s| - 1]);
      if !SlugChar(c) then front
      else if front == [] || !SlugChar(Lower(s[|s| - 2])) then front + [[c]]
      else front[..|front| - 1] + [front[|front| - 1] + [c]]
  }

  predicate IsSlugWord(w: string) {
    w != "" && forall i :: 0 <= i < |w| ==> SlugChar(w[i])
  }

  lemma {:induction false} SlugWordsAreWords(s: string)
    ensures forall i :: 0 <= i < |SlugWords(s)| ==> IsSlugWord(SlugWords(s)[i])
    ensures s != "" && SlugChar(Lower(s[|s| - 1])) ==> SlugWords(s) != []
    ensures s != "" && SlugChar(Lower(s[0])) ==> SlugWords(s) != []
  {
    if s != "" {
      var front, c := s[..|s| - 1], Lower(s[|s| - 1]);
      SlugWordsAreWords(front);
      assert |s| > 1 ==> front[0] == s[0] && front[|front| - 1] == s[|s| - 2];
      if SlugChar(c) {
        var words := SlugWords(front);
        if words == [] || !SlugChar(Lower(s[|s| - 2])) {
          assert SlugWords(s) == words + [[c]] && IsSlugWord([c]);
        } else {
          var w := words[|words| - 1];
          assert IsSlugWord(w);
          LongerSlugWord(w, c);
          assert SlugWords(s) == words[..|words| - 1] + [w + [c]];
        }
      } else {
        assert SlugWords(s) == SlugWords(front);
      }
    }
  }

  lemma LongerSlugWord(w: string, c: char)
    requires IsSlugWord(w) && SlugChar(c)
    ensures IsSlugWord(w + [c])
  {
  }

  lemma {:induction false} JoinDashSnoc(parts: seq<string>, w: string)
    ensures JoinDash(parts + [w]) == if parts == [] then w else JoinDash(parts) + "-" + w
  {
    if |parts| > 0 {
      JoinDashSnoc(parts[1..], w);
      assert (parts + [w])[1..] == parts[1..] + [w];
    }
  }

  lemma JoinDashGrows(parts: seq<string>, w: string, c: char)
    ensures JoinDash(parts + [w + [c]]) == JoinDash(parts + [w]) + [c]
  {
    JoinDashSnoc(parts, w);
    JoinDashSnoc(parts, w + [c]);
  }

  predicate StartsOutside(s: string) {
    s != "" && !SlugChar(Lower(s[0]))
  }

  predicate EndsOutside(s: string) {
    s != "" && !SlugChar(Lower(s[|s| - 1]))
  }

  /** Words with a dash between them, and one at an end that has something else. */
  function Dash(lead: bool, words: seq<string>, trail: bool): string {
    (if lead then "-" else "") + JoinDash(words) + (if trail && words != [] then "-" else "")
  }

  /** What the first replacement leaves. */
  function Dashed(s: string): string {
    Dash(StartsOutside(s), SlugWords(s), EndsOutside(s))
  }

  lemma {:induction false} JoinDashEnds(parts: seq<string>)
    requires parts != [] && forall i :: 0 <= i < |parts| ==> IsSlugWord(parts[i])
    ensures var j := JoinDash(parts);
            j != "" && j[0] != '-' && j[|j| - 1] != '-'
  {
    assert IsSlugWord(parts[0]);
    if |parts| > 1 {
      JoinDashEnds(parts[1..]);
    }
  }

  function LowerAll(w: string): (r: string)
    ensures |r| == |w|
    ensures forall i :: 0 <= i < |w| ==> r[i] == if 'A' <= w[i] <= 'Z' then (w[i] as int + 32) as char else w[i]
  {
    if w == "" then "" else LowerAll(w[..|w| - 1]) + [Lower(w[|w| - 1])]
  }

  /** Words with something between every two of them, and before and after. */
  function Spell(words: seq<string>, gaps: seq<string>): string
    requires |gaps| == |words| + 1
  {
    if words == [] then gaps[0]
    else
      var n := |words| - 1;
      Spell(words[..n], gaps[..n + 1]) + words[n] + gaps[n + 1]
  }

  predicate InWord(c: char) {
    'a' <= c <= 'z' || 'A' <= c <= 'Z' || '0' <= c <= '9'
  }

  lemma InWordIs(c: char)
    ensures InWord(c) <==> SlugChar(Lower(c))
  {
  }

  /** Words of letters and digits, with runs of other characters between them. */
  predicate Spelled(words: seq<string>, gaps: seq<string>) {
    && |gaps| == |words| + 1
    && (forall i :: 0 <= i < |words| ==> words[i] != "" && forall k :: 0 <= k < |words[i]| ==> InWord(words[i][k]))
    && (forall i, k :: 0 <= i < |gaps| && 0 <= k < |gaps[i]| ==> !InWord(gaps[i][k]))
    && (forall i :: 0 < i < |words| ==> gaps[i] != "")
  }

  lemma {:induction false} GapAdds(s: string, gap: string)
    requires forall k :: 0 <= k < |gap| ==> !InWord(gap[k])
    ensures SlugWords(s + gap) == SlugWords(s)
  {
    hide SlugChar, Lower, InWord;
    var n := |gap| - 1;
    if gap == "" {
      assert s + gap == s;
    } else {
      GapAdds(s, gap[..n]);
      InWordIs(gap[n]);
      assert (s + gap)[..|s + gap| - 1] == s + gap[..n];
    }
  }

  lemma {:induction false} WordAdds(s: string, w: string)
    requires w != "" && forall k :: 0 <= k < |w| ==> InWord(w[k])
    requires s != "" ==> !InWord(s[|s| - 1])
    ensures SlugWords(s + w) == SlugWords(s) + [LowerAll(w)]
  {
    hide SlugChar, Lower, InWord, SlugWords, LowerAll;
    var n, t := |w| - 1, s + w;
    InWordIs(w[n]);
    LowerLast(w);
    assert t[..|t| - 1] == s + w[..n] && t[|t| - 1] == w[n];
    SlugWordsStep(t);
    if n == 0 {
      assert s + w[..n] == s && w[..n] == "";
      if s != "" {
        InWordIs(s[|s| - 1]);
      } else {
        NoWordsIn();
        assert SlugWords(t) == [[Lower(w[0])]];
      }
    } else {
      WordAdds(s, w[..n]);
      InWordIs(w[n - 1]);
      assert (s + w[..n])[|s| + n - 1] == w[n - 1];
      var words := SlugWords(s);
      assert SlugWords(s + w[..n]) == words + [LowerAll(w[..n])];
      assert (words + [LowerAll(w[..n])])[..|words|] == words;
    }
  }

  lemma LowerLast(w: string)
    requires w != ""
    ensures LowerAll(w) == LowerAll(w[..|w| - 1]) + [Lower(w[|w| - 1])]
    ensures |w| == 1 ==> LowerAll(w) == [Lower(w[0])]
  {
  }

  lemma NoWordsIn()
    ensures SlugWords("") == []
  {
  }

  lemma SpelledLast(words: seq<string>, gaps: seq<string>)
    requires Spelled(words, gaps) && words != []
    ensures var n := |words| - 1;
            var front := Spell(words[..n], gaps[..n + 1]);
            && Spelled(words[..n], gaps[..n + 1])
            && Spell(words, gaps) == front + words[n] + gaps[n + 1]
            && (front != "" ==> !InWord(front[|front| - 1]))
  {
    hide InWord;
  }

  lemma {:induction false} SpelledWords(words: seq<string>, gaps: seq<string>)
    requires Spelled(words, gaps)
    ensures |SlugWords(Spell(words, gaps))| == |words|
    ensures forall i :: 0 <= i < |words| ==> SlugWords(Spell(words, gaps))[i] == LowerAll(words[i])
  {
    hide InWord, SlugWords;
    if words == [] {
      NoWordsIn();
      GapAdds("", gaps[0]);
      assert "" + gaps[0] == gaps[0];
    } else {
      hide Spell;
      var n := |words| - 1;
      var front := Spell(words[..n], gaps[..n + 1]);
      SpelledLast(words, gaps);
      SpelledWords(words[..n], gaps[..n + 1]);
      WordAdds(front, words[n]);
      GapAdds(front + words[n], gaps[n + 1]);
    }
  }

  predicate AreSlugWords(words: seq<string>) {
    forall i :: 0 <= i < |words| ==> IsSlugWord(words[i])
  }

  lemma EndsInDash(lead: bool, words: seq<string>, trail: bool)
    requires AreSlugWords(words) && (words == [] ==> lead == trail)
    ensures var d := Dash(lead, words, trail);
            (d != "" && d[|d| - 1] == '-') <==> trail
  {
    hide JoinDash;
    if words == [] {
      NoWords();
    } else {
      JoinDashEnds(words);
    }
  }

  lemma DashOutside(lead: bool, words: seq<string>, trail: bool)
    requires words == [] ==> lead == trail
    ensures Dash(if words == [] then true else lead, words, true)
         == if trail then Dash(lead, words, trail) else Dash(lead, words, trail) + "-"
  {
    hide JoinDash;
    NoWords();
  }

  lemma DashNewWord(lead: bool, words: seq<string>, c: char)
    requires words == [] ==> lead
    ensures Dash(lead, words + [[c]], false) == Dash(lead, words, true) + [c]
  {
    hide JoinDash;
    NoWords();
    JoinDashSnoc(words, [c]);
  }

  lemma DashLongerWord(lead: bool, words: seq<string>, c: char)
    requires words != []
    ensures Dash(lead, words[..|words| - 1] + [words[|words| - 1] + [c]], false) == Dash(lead, words, false) + [c]
  {
    hide JoinDash;
    JoinDashGrows(words[..|words| - 1], words[|words| - 1], c);
    assert words == words[..|words| - 1] + [words[|words| - 1]];
  }

  lemma {:induction false} OnlyOutside(s: string)
    requires SlugWords(s) == []
    ensures StartsOutside(s) == EndsOutside(s) == (s != "")
  {
    hide Lower, SlugChar;
    SlugWordsAreWords(s);
  }

  /** One more slug character: a new word, or the last one longer. */
  function Grow(words: seq<string>, apart: bool, c: char): seq<string> {
    if apart || words == [] then words + [[c]] else words[..|words| - 1] + [words[|words| - 1] + [c]]
  }

  lemma SlugWordsStep(s: string)
    requires s != ""
    ensures var front, c := s[..|s| - 1], Lower(s[|s| - 1]);
            var words := SlugWords(front);
            SlugWords(s) == if SlugChar(c) then Grow(words, EndsOutside(front), c) else words
  {
    hide Lower, SlugChar;
    if |s| > 1 {
      assert s[..|s| - 1][|s| - 2] == s[|s| - 2];
    }
  }

  lemma OutsideStep(s: string)
    requires s != ""
    ensures var front, outside := s[..|s| - 1], !SlugChar(Lower(s[|s| - 1]));
            && EndsOutside(s) == outside
            && StartsOutside(s) == (if front == "" then outside else StartsOutside(front))
            && (front == "" ==> !StartsOutside(front) && !EndsOutside(front))
  {
    hide Lower, SlugChar;
  }

  /** The ends and the words of some text, or of none. */
  predicate Consistent(lead: bool, words: seq<string>, trail: bool, empty: bool) {
    && AreSlugWords(words)
    && (empty ==> !lead && !trail && words == [])
    && (!empty && words == [] ==> lead && trail)
  }

  lemma DashMoreOutside(lead: bool, words: seq<string>, trail: bool, empty: bool, c: char)
    requires Consistent(lead, words, trail, empty) && !SlugChar(c)
    ensures Dash(empty || lead, words, true) == AddChar(Dash(lead, words, trail), c)
  {
    hide Dash, AreSlugWords;
    EndsInDash(lead, words, trail);
    DashOutside(lead, words, trail);
  }

  lemma DashMoreSlug(lead: bool, words: seq<string>, trail: bool, empty: bool, c: char)
    requires Consistent(lead, words, trail, empty) && SlugChar(c)
    ensures Dash(!empty && lead, Grow(words, trail, c), false) == AddChar(Dash(lead, words, trail), c)
  {
    hide Dash, AreSlugWords;
    if empty {
      EmptyDash();
      OneDash(c);
      assert words + [[c]] == [[c]];
    } else if trail {
      DashNewWord(lead, words, c);
    } else {
      DashLongerWord(lead, words, c);
    }
  }

  lemma DashedStep(front: string, last: char)
    ensures Dashed(front + [last]) == AddChar(Dashed(front), Lower(last))
  {
    hide Lower, SlugChar, Dash, SlugWords, AreSlugWords, StartsOutside, EndsOutside, Grow, AddChar;
    var s, c := front + [last], Lower(last);
    var words, lead, trail := SlugWords(front), StartsOutside(front), EndsOutside(front);
    assert s[..|s| - 1] == front && s[|s| - 1] == last;
    SlugWordsStep(s);
    OutsideStep(s);
    SlugWordsGood(front);
    if words == [] {
      OnlyOutside(front);
    }
    if SlugChar(c) {
      DashMoreSlug(lead, words, trail, front == "", c);
    } else {
      DashMoreOutside(lead, words, trail, front == "", c);
    }
  }

  lemma SlugWordsGood(s: string)
    ensures AreSlugWords(SlugWords(s)) && (s == "" ==> SlugWords(s) == [])
  {
    SlugWordsAreWords(s);
  }

  lemma EmptyDash()
    ensures Dash(false, [], false) == ""
  {
  }

  lemma OneDash(c: char)
    ensures Dash(false, [[c]], false) == [c]
  {
  }

  lemma NoWords()
    ensures JoinDash([]) == ""
  {
  }

  lemma {:induction false} CollapseIsDashed(s: string)
    ensures Collapse(s) == Dashed(s)
  {
    hide Dash, SlugWords, AddChar, Lower;
    if s != "" {
      CollapseIsDashed(s[..|s| - 1]);
      DashedStep(s[..|s| - 1], s[|s| - 1]);
      assert s == s[..|s| - 1] + [s[|s| - 1]];
    } else {
      SlugWordsGood(s);
      EmptyDash();
    }
  }

  /** A slug is the runs of slug characters with one dash between them: no dash at
      either end, none doubled, nothing else in it. */
  lemma SlugIsWords(value: string)
    ensures Slugify(value) == JoinDash(SlugWords(value))
    ensures forall i :: 0 <= i < |SlugWords(value)| ==> IsSlugWord(SlugWords(value)[i])
  {
    hide Collapse, SlugWords, JoinDash, SlugChar, Lower;
    CollapseIsDashed(value);
    SlugWordsAreWords(value);
    if SlugWords(value) != [] {
      JoinDashEnds(SlugWords(value));
    } else {
      NoWords();
    }
  }

  /** The slug of a text, told without the machine: its words in lower case, joined. */
  lemma SlugOfSpelled(words: seq<string>, gaps: seq<string>)
    requires Spelled(words, gaps)
    ensures Slugify(Spell(words, gaps)) == JoinDash(seq(|words|, i requires 0 <= i < |words| => LowerAll(words[i])))
  {
    hide Slugify, SlugWords, JoinDash, InWord, LowerAll;
    SlugIsWords(Spell(words, gaps));
    SpelledWords(words, gaps);
    assert SlugWords(Spell(words, gaps)) == seq(|words|, i requires 0 <= i < |words| => LowerAll(words[i]));
  }

  // ---- Uniqueness ----------------------------------------------------------

  function Suffixed(anchor: string, k: nat): string {
    anchor + "-" + Decimal(k)
  }

  lemma SuffixedInjective(anchor: string, j: nat, k: nat)
    requires Suffixed(anchor, j) == Suffixed(anchor, k)
    ensures j == k
  {
    assert Suffixed(anchor, j)[|anchor| + 1..] == Decimal(j);
    assert Suffixed(anchor, k)[|anchor| + 1..] == Decimal(k);
    DecimalInjective(j, k);
  }

  /** The used anchors the suffix search can still collide with. */
  ghost function TakenFrom(used: set<string>, anchor: string, k: nat): set<string> {
    set a | a in used && exists j: nat :: j >= k && a == Suffixed(anchor, j)
  }

  lemma TakenShrinks(used: set<string>, anchor: string, k: nat)
    requires Suffixed(anchor, k) in used
    ensures TakenFrom(used, anchor, k + 1) < TakenFrom(used, anchor, k)
  {
    var here := Suffixed(anchor, k);
    assert here in TakenFrom(used, anchor, k);
    if here in TakenFrom(used, anchor, k + 1) {
      var j: nat :| j >= k + 1 && here == Suffixed(anchor, j);
      SuffixedInjective(anchor, j, k);
      assert false;
    }
  }

  /** The first suffix from `k` on that no used anchor carries; the search ends
      because decimal suffixes are injective and the used set is finite. */
  function FirstFree(used: set<string>, anchor: string, k: nat): (n: nat)
    ensures n >= k && Suffixed(anchor, n) !in used
    ensures forall j :: k <= j < n ==> Suffixed(anchor, j) in used
    decreases TakenFrom(used, anchor, k)
  {
    if Suffixed(anchor, k) in used then
      TakenShrinks(used, anchor, k);
      FirstFree(used, anchor, k + 1)
    else k
  }

  function BaseAnchor(base: string, ordinal: nat): string {
    if base != "" then base else "section-" + Decimal(ordinal)
  }

  function UniqueAnchor(used: set<string>, base: string, ordinal: nat): (anchor: string)
    ensures anchor !in used
  {
    var anchor := BaseAnchor(base, ordinal);
    if anchor in used then Suffixed(anchor, FirstFree(used, anchor, 2)) else anchor
  }

  lemma {:induction false} FirstFreeIsLeast(used: set<string>, anchor: string, k: nat, n: nat)
    requires n >= k && Suffixed(anchor, n) !in used
    requires forall j :: k <= j < n ==> Suffixed(anchor, j) in used
    ensures FirstFree(used, anchor, k) == n
    decreases n - k
  {
    if Suffixed(anchor, k) in used {
      TakenShrinks(used, anchor, k);
      FirstFreeIsLeast(used, anchor, k + 1, n);
    }
  }

  /** The splitter's own search loop. */
  method PickAnchor(used: set<string>, base: string, ordinal: nat) returns (anchor: string)
    ensures anchor == UniqueAnchor(used, base, ordinal)
  {
    anchor := BaseAnchor(base, ordinal);
    if anchor in used {
      var suffix := 2;
      while Suffixed(anchor, suffix) in used
        invariant suffix >= 2
        invariant forall j :: 2 <= j < suffix ==> Suffixed(anchor, j) in used
        decreases TakenFrom(used, anchor, suffix)
      {
        TakenShrinks(used, anchor, suffix);
        suffix := suffix + 1;
      }
      FirstFreeIsLeast(used, anchor, 2, suffix);
      anchor := Suffixed(anchor, suffix);
    }
  }
}
