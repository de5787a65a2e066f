/** A text cut at its heading lines: where the headings stand, what lies between
    them, and what becomes of both when lines are put in. A line carries the heading
    it opens, if it opens one; how lines earn their headings is not this module's
    concern. */
module Outline {
  import opened TextLines
  import opened HeadingPaths

  type Mark = m: Option<Heading> | m.Some? ==> m.value.level >= 1 witness None

  datatype Line = Line(text: string, mark: Mark)

  function Init<T>(s: seq<T>): (r: seq<T>)
    requires s != []
    ensures |r| == |s| - 1 && s == r + [s[|s| - 1]]
  {
    s[..|s| - 1]
  }

  function Last<T>(s: seq<T>): T
    requires s != []
  {
    s[|s| - 1]
  }

  lemma InitSnoc<T>(s: seq<T>, x: T)
    ensures Init(s + [x]) == s && Last(s + [x]) == x
  {
  }

  function Plain(ls: seq<Line>): (r: seq<string>)
    ensures |r| == |ls| && forall i :: 0 <= i < |ls| ==> r[i] == ls[i].text
  {
    if ls == [] then [] else Plain(Init(ls)) + [Last(ls).text]
  }

  /** The indices of the heading lines. */
  function Heads(ls: seq<Line>): (r: seq<nat>)
    ensures forall i :: 0 <= i < |r| ==> r[i] < |ls|
  {
    if ls == [] then []
    else if Last(ls).mark.Some? then Heads(Init(ls)) + [|ls| - 1]
    else Heads(Init(ls))
  }

  /** The headings on them. */
  function Headings(ls: seq<Line>): (hs: seq<Heading>)
    ensures Levelled(hs) && |hs| == |Heads(ls)|
  {
    if ls == [] then []
    else if Last(ls).mark.Some? then Headings(Init(ls)) + [Last(ls).mark.value]
    else Headings(Init(ls))
  }

  /** One more line goes to the last buffer, or opens a new one. */
  function Extend(bs: seq<seq<string>>, l: Line): (r: seq<seq<string>>)
    requires bs != []
    ensures |r| == if l.mark.Some? then |bs| + 1 else |bs|
  {
    if l.mark.Some? then bs + [[l.text]] else Init(bs) + [Last(bs) + [l.text]]
  }

  /** The text cut before every heading line: the preamble, then one buffer a heading. */
  function Buffers(ls: seq<Line>): (bs: seq<seq<string>>)
    ensures |bs| == |Heads(ls)| + 1
  {
    if ls == [] then [[]] else Extend(Buffers(Init(ls)), Last(ls))
  }

  function Flatten(bs: seq<seq<string>>): seq<string> {
    if bs == [] then [] else Flatten(Init(bs)) + Last(bs)
  }

  lemma FlattenExtend(bs: seq<seq<string>>, l: Line)
    requires bs != []
    ensures Flatten(Extend(bs, l)) == Flatten(bs) + [l.text]
  {
    if l.mark.Some? {
      InitSnoc(bs, [l.text]);
    } else {
      InitSnoc(Init(bs), Last(bs) + [l.text]);
      ConcatAssoc(Flatten(Init(bs)), Last(bs), [l.text]);
    }
  }

  /** No line is lost: the buffers, in order, are the text. */
  lemma {:induction false} BuffersCoverText(ls: seq<Line>)
    ensures Flatten(Buffers(ls)) == Plain(ls)
  {
    if ls == [] {
      assert Init<seq<string>>([[]]) == [];
    } else {
      BuffersCoverText(Init(ls));
      FlattenExtend(Buffers(Init(ls)), Last(ls));
    }
  }

  lemma {:induction false} HeadsExact(ls: seq<Line>, i: int)
    ensures i in Heads(ls) <==> 0 <= i < |ls| && ls[i].mark.Some?
  {
    if ls != [] {
      HeadsExact(Init(ls), i);
    }
  }

  /** Where the buffer of heading line `i` ends. */
  function EndOf(ls: seq<Line>, i: nat): nat
    requires i < |Heads(ls)|
  {
    if i + 1 < |Heads(ls)| then Heads(ls)[i + 1] else |ls|
  }

  lemma {:induction false} HeadingAt(ls: seq<Line>, i: nat)
    requires i < |Heads(ls)|
    ensures Heads(ls)[i] < EndOf(ls, i) <= |ls|
    ensures ls[Heads(ls)[i]].mark == Some(Headings(ls)[i])
  {
    if i < |Heads(Init(ls))| {
      HeadingAt(Init(ls), i);
    }
  }

  lemma LastLine(ls: seq<Line>)
    requires ls != []
    ensures Plain(ls) == Plain(Init(ls)) + [Last(ls).text] && Buffers(ls) == Extend(Buffers(Init(ls)), Last(ls))
  {
  }

  /** Buffer `i + 1` is the stretch of text from heading line `i` to the next one. */
  lemma {:induction false} BufferAt(ls: seq<Line>, i: nat)
    requires i < |Heads(ls)|
    ensures Heads(ls)[i] < EndOf(ls, i) <= |ls|
    ensures Buffers(ls)[i + 1] == Plain(ls)[Heads(ls)[i]..EndOf(ls, i)]
  {
    hide Heads, Buffers, Plain;
    HeadingAt(ls, i);
    HeadsLast(ls);
    LastLine(ls);
    var front := Init(ls);
    if i < |Heads(front)| {
      BufferAt(front, i);
      SliceSnoc(Plain(front), Last(ls).text, Heads(front)[i], EndOf(front, i));
    } else {
      SliceSnoc(Plain(front), Last(ls).text, |front|, |front|);
    }
  }

  /** The preamble is what stands before the first heading line. */
  lemma {:induction false} PreambleAt(ls: seq<Line>)
    ensures Buffers(ls)[0] == Plain(ls)[..if Heads(ls) == [] then |ls| else Heads(ls)[0]]
  {
    hide Heads, Buffers, Plain;
    if ls == [] {
      NothingAt();
    } else {
      PreambleAt(Init(ls));
      HeadsLast(ls);
      LastLine(ls);
    }
  }

  lemma NothingAt()
    ensures Buffers([]) == [[]] && Plain([]) == [] && Heads([]) == []
  {
  }

  lemma SliceSnoc<T>(s: seq<T>, x: T, lo: nat, hi: nat)
    requires lo <= hi <= |s|
    ensures (s + [x])[lo..hi] == s[lo..hi]
    ensures hi == |s| ==> (s + [x])[lo..hi + 1] == s[lo..hi] + [x]
  {
  }

  lemma HeadsLast(ls: seq<Line>)
    requires ls != []
    ensures Heads(ls) == if Last(ls).mark.Some? then Heads(Init(ls)) + [|ls| - 1] else Heads(Init(ls))
    ensures Heads([]) == []
  {
  }

  /** A prefix cut right behind heading line `i` ends in a buffer of that line alone. */
  lemma {:induction false} PrefixAtHead(ls: seq<Line>, i: nat)
    requires i < |Heads(ls)|
    ensures |Heads(ls[..Heads(ls)[i] + 1])| == i + 1
    ensures Last(Buffers(ls[..Heads(ls)[i] + 1])) == [ls[Heads(ls)[i]].text]
  {
    hide Buffers, Heads;
    var h := Heads(ls)[i];
    HeadsLast(ls);
    if i < |Heads(Init(ls))| {
      PrefixAtHead(Init(ls), i);
      assert ls[..h + 1] == Init(ls)[..h + 1];
    } else {
      LastIsHead(ls);
      assert ls[..h + 1] == ls;
    }
  }

  lemma LastIsHead(ls: seq<Line>)
    requires ls != [] && Last(ls).mark.Some?
    ensures Last(Heads(ls)) == |ls| - 1 && |Heads(ls)| == |Heads(Init(ls))| + 1
    ensures Last(Buffers(ls)) == [Last(ls).text]
  {
    InitSnoc(Buffers(Init(ls)), [Last(ls).text]);
  }

  // ---- Putting unmarked lines in -------------------------------------------

  predicate Unmarked(ls: seq<Line>) {
    forall i :: 0 <= i < |ls| ==> ls[i].mark == None
  }

  function Shift(hs: seq<nat>, from: nat, n: nat): (r: seq<nat>)
    ensures |r| == |hs|
    ensures forall i :: 0 <= i < |hs| ==> r[i] == if hs[i] < from then hs[i] else hs[i] + n
  {
    if hs == [] then []
    else
      var h := Last(hs);
      Shift(Init(hs), from, n) + [if h < from then h else h + n]
  }

  lemma ConcatInit<T>(s: seq<T>, t: seq<T>)
    requires t != []
    ensures Init(s + t) == s + Init(t) && Last(s + t) == Last(t)
  {
  }

  lemma {:induction false} UnmarkedTail(ls: seq<Line>, extra: seq<Line>)
    requires Unmarked(extra)
    ensures Heads(ls + extra) == Heads(ls)
    ensures Headings(ls + extra) == Headings(ls)
  {
    if extra == [] {
      assert ls + extra == ls;
    } else {
      UnmarkedTail(ls, Init(extra));
      ConcatInit(ls, extra);
    }
  }

  predicate Shifted(before: seq<Line>, after: seq<Line>, from: nat, n: nat) {
    && |after| == |before| + n && from <= |before|
    && Headings(after) == Headings(before)
    && Heads(after) == Shift(Heads(before), from, n)
  }

  lemma ShiftedSnoc(before: seq<Line>, after: seq<Line>, from: nat, n: nat, l: Line)
    requires Shifted(before, after, from, n)
    ensures Shifted(before + [l], after + [l], from, n)
  {
    hide Heads, Headings, Shift;
    MarkSnoc(before, l);
    MarkSnoc(after, l);
    ShiftSnoc(Heads(before), |before|, from, n);
  }

  lemma MarkSnoc(ls: seq<Line>, l: Line)
    ensures Heads(ls + [l]) == if l.mark.Some? then Heads(ls) + [|ls|] else Heads(ls)
    ensures Headings(ls + [l]) == if l.mark.Some? then Headings(ls) + [l.mark.value] else Headings(ls)
  {
    InitSnoc(ls, l);
  }

  lemma ShiftSnoc(hs: seq<nat>, h: nat, from: nat, n: nat)
    ensures Shift(hs + [h], from, n) == Shift(hs, from, n) + [if h < from then h else h + n]
  {
    InitSnoc(hs, h);
  }

  lemma {:induction false} ShiftNone(hs: seq<nat>, from: nat, n: nat)
    requires forall i :: 0 <= i < |hs| ==> hs[i] < from
    ensures Shift(hs, from, n) == hs
  {
  }

  lemma ConcatSnoc<T>(s: seq<T>, t: seq<T>)
    requires t != []
    ensures s + t == (s + Init(t)) + [Last(t)]
  {
  }

  lemma ConcatAssoc<T>(s: seq<T>, t: seq<T>, u: seq<T>)
    ensures s + (t + u) == (s + t) + u
  {
  }

  lemma {:induction false} UnmarkedInside(front: seq<Line>, extra: seq<Line>, rest: seq<Line>)
    requires Unmarked(extra)
    ensures Shifted(front + rest, front + extra + rest, |front|, |extra|)
  {
    if rest == [] {
      UnmarkedTail(front, extra);
      ShiftNone(Heads(front), |front|, |extra|);
      assert front + rest == front && front + extra + rest == front + extra;
    } else {
      UnmarkedInside(front, extra, Init(rest));
      ConcatSnoc(front, rest);
      ConcatSnoc(front + extra, rest);
      ShiftedSnoc(front + Init(rest), front + extra + Init(rest), |front|, |extra|, Last(rest));
    }
  }

  /** `after` is `before` with `extra` put into buffer `j` after its first `at` lines. */
  predicate Grown(before: seq<seq<string>>, after: seq<seq<string>>, j: int, at: int, extra: seq<string>) {
    && 0 <= j < |before| == |after| && 0 <= at <= |before[j]|
    && after[j] == before[j][..at] + extra + before[j][at..]
    && forall i :: 0 <= i < |before| && i != j ==> after[i] == before[i]
  }

  lemma {:induction false} BuffersTail(ls: seq<Line>, extra: seq<Line>)
    requires Unmarked(extra)
    ensures var bs := Buffers(ls);
            Buffers(ls + extra) == Init(bs) + [Last(bs) + Plain(extra)]
  {
    var bs := Buffers(ls);
    if extra == [] {
      assert ls + extra == ls;
      assert Last(bs) + Plain(extra) == Last(bs);
    } else {
      BuffersTail(ls, Init(extra));
      ConcatInit(ls, extra);
      InitSnoc(Init(bs), Last(bs) + Plain(Init(extra)));
      assert (Last(bs) + Plain(Init(extra))) + [Last(extra).text] == Last(bs) + Plain(extra);
    }
  }

  /** Unmarked lines grow the buffer they fall into and leave the others alone. */
  lemma {:induction false} BuffersInside(front: seq<Line>, extra: seq<Line>, rest: seq<Line>)
    requires Unmarked(extra)
    ensures var bs := Buffers(front);
            Grown(Buffers(front + rest), Buffers(front + extra + rest), |bs| - 1, |Last(bs)|, Plain(extra))
  {
    var bs := Buffers(front);
    if rest == [] {
      GrownTail(front, extra);
      assert front + rest == front && front + extra + rest == front + extra;
    } else {
      BuffersInside(front, extra, Init(rest));
      ConcatSnoc(front, rest);
      ConcatSnoc(front + extra, rest);
      GrownSnoc(front + Init(rest), front + extra + Init(rest), |bs| - 1, |Last(bs)|, Plain(extra), Last(rest));
    }
  }

  lemma GrownTail(front: seq<Line>, extra: seq<Line>)
    requires Unmarked(extra)
    ensures var bs := Buffers(front);
            Grown(bs, Buffers(front + extra), |bs| - 1, |Last(bs)|, Plain(extra))
  {
    var bs := Buffers(front);
    BuffersTail(front, extra);
    var n := |Last(bs)|;
    assert Last(bs)[..n] == Last(bs) && Last(bs)[n..] == [];
  }

  lemma GrownSnoc(before: seq<Line>, after: seq<Line>, j: int, at: int, extra: seq<string>, l: Line)
    requires Grown(Buffers(before), Buffers(after), j, at, extra)
    ensures Grown(Buffers(before + [l]), Buffers(after + [l]), j, at, extra)
  {
    InitSnoc(before, l);
    InitSnoc(after, l);
    GrownExtend(Buffers(before), Buffers(after), j, at, extra, l);
  }

  lemma GrownExtend(b: seq<seq<string>>, a: seq<seq<string>>, j: int, at: int, extra: seq<string>, l: Line)
    requires Grown(b, a, j, at, extra)
    ensures Grown(Extend(b, l), Extend(a, l), j, at, extra)
  {
    if l.mark.None? && j == |b| - 1 {
      var x := b[j] + [l.text];
      assert x[..at] == b[j][..at];
      assert x[at..] == b[j][at..] + [l.text];
      assert (b[j][..at] + extra + b[j][at..]) + [l.text] == b[j][..at] + extra + (b[j][at..] + [l.text]);
    }
  }
}
