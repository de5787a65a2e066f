/** The text of a cron expression and the sets of values it denotes. */
module CronFields {
  import opened TextLines
  import A = Anchors

  // ---- Numbers -------------------------------------------------------------

  predicate IsDigit(c: char) {
    '0' <= c <= '9'
  }

  predicate AllDigits(s: string) {
    forall i :: 0 <= i < |s| ==> IsDigit(s[i])
  }

  /** `^\d+$`. */
  predicate Numeral(s: string) {
    s != "" && AllDigits(s)
  }

  function ParseInt(s: string): nat
    requires AllDigits(s)
  {
    if s == "" then 0 else ParseInt(s[..|s| - 1]) * 10 + (s[|s| - 1] as int - '0' as int)
  }

  /** The first index from `i` on that holds no digit. */
  function DigitsEnd(s: string, i: nat): (r: nat)
    requires i <= |s|
    ensures i <= r <= |s| && AllDigits(s[i..r]) && (r < |s| ==> !IsDigit(s[r]))
    decreases |s| - i
  {
    if i < |s| && IsDigit(s[i]) then
      var r := DigitsEnd(s, i + 1);
      assert s[i..r] == [s[i]] + s[i + 1..r];
      r
    else i
  }

  /** The first index of the digits the text ends in. */
  function DigitsStart(s: string): (r: nat)
    ensures r <= |s| && AllDigits(s[r..]) && (r > 0 ==> !IsDigit(s[r - 1]))
  {
    if s != "" && IsDigit(s[|s| - 1]) then
      var r := DigitsStart(s[..|s| - 1]);
      assert s[r..] == s[..|s| - 1][r..] + [s[|s| - 1]];
      r
    else |s|
  }

  /** Digits are these ten, and a number's own digits read as the number. */
  lemma NumeralExact(s: string)
    ensures Numeral(s) <==> s != "" && forall i :: 0 <= i < |s| ==> s[i] in "0123456789"
  {
    var digits := "0123456789";
    forall i | 0 <= i < |s|
      ensures IsDigit(s[i]) <==> s[i] in digits
    {
      if IsDigit(s[i]) {
        assert digits[s[i] as int - '0' as int] == s[i];
      }
    }
  }

  lemma {:induction false} DecimalIsRead(n: nat)
    ensures Numeral(A.Decimal(n)) && ParseInt(A.Decimal(n)) == n
  {
    var s := A.Decimal(n);
    if n >= 10 {
      DecimalIsRead(n / 10);
      assert s[..|s| - 1] == A.Decimal(n / 10);
    }
  }

  // ---- The two patterns ----------------------------------------------------

  /** `^(.+)\/(\d+)$` with the slash at `p`. */
  predicate IsStep(part: string, p: int) {
    1 <= p < |part| && part[p] == '/' && Numeral(part[p + 1..])
  }

  function StepSlash(part: string): (r: Option<nat>)
    ensures r.Some? ==> IsStep(part, r.value)
  {
    var d := DigitsStart(part);
    if 2 <= d < |part| && part[d - 1] == '/' then Some(d - 1) else None
  }

  lemma StepSlashExact(part: string, p: int)
    ensures IsStep(part, p) <==> StepSlash(part) == Some(p)
  {
    if IsStep(part, p) {
      var d := DigitsStart(part);
      assert forall i :: p < i < |part| ==> part[i] == part[p + 1..][i - p - 1];
      assert forall i :: d <= i < |part| ==> part[i] == part[d..][i - d];
      assert !IsDigit('/');
      assert d == p + 1;
    }
  }

  /** `^(\d+)-(\d+)$` with the dash at `p`. */
  predicate IsRange(s: string, p: int) {
    1 <= p < |s| && s[p] == '-' && AllDigits(s[..p]) && Numeral(s[p + 1..])
  }

  function RangeDash(s: string): (r: Option<nat>)
    ensures r.Some? ==> IsRange(s, r.value)
  {
    var d := DigitsEnd(s, 0);
    if 1 <= d < |s| && s[d] == '-' && Numeral(s[d + 1..]) then
      assert s[..d] == s[0..d];
      Some(d)
    else None
  }

  lemma RangeDashExact(s: string, p: int)
    ensures IsRange(s, p) <==> RangeDash(s) == Some(p)
  {
    if IsRange(s, p) {
      var d := DigitsEnd(s, 0);
      assert forall i :: 0 <= i < p ==> s[i] == s[..p][i];
      assert forall i :: 0 <= i < d ==> s[i] == s[0..d][i];
      assert !IsDigit('-');
      assert d == p;
    }
  }

  // ---- A field -------------------------------------------------------------

  /** The values lo, lo + step, … up to hi. */
  datatype Progression = Progression(lo: int, hi: int, step: int)

  function Term(p: Progression, k: nat): int {
    p.lo + k * p.step
  }

  ghost predicate InProgression(v: int, p: Progression) {
    v <= p.hi && exists k: nat :: v == Term(p, k)
  }

  datatype Bounds = Bounds(lo: int, hi: int)

  /** The bounds a part has before its step: the whole range, a range or a value. */
  function ReadBounds(base: string, min: int, max: int): Option<Bounds> {
    var dash := RangeDash(base);
    if base == "*" then Some(Bounds(min, max))
    else if dash.Some? then Some(Bounds(ParseInt(base[..dash.value]), ParseInt(base[dash.value + 1..])))
    else if Numeral(base) then Some(Bounds(ParseInt(base), ParseInt(base)))
    else None
  }

  /** What one comma-separated part denotes, if it denotes anything in range. */
  function ParsePart(part: string, min: int, max: int): (r: Option<Progression>)
    ensures r.Some? ==> min <= r.value.lo <= r.value.hi <= max && r.value.step > 0
  {
    var slash := StepSlash(part);
    var base := if slash.Some? then part[..slash.value] else part;
    var step := if slash.Some? then ParseInt(part[slash.value + 1..]) else 1;
    if step <= 0 then None
    else
      match ReadBounds(base, min, max)
      case None => None
      case Some(b) => if b.lo < min || b.hi > max || b.lo > b.hi then None else Some(Progression(b.lo, b.hi, step))
  }

  // ---- The grammar, independently ------------------------------------------

  /** A star, one number, or two with a dash between them. */
  ghost predicate BaseMeans(base: string, min: int, max: int, lo: int, hi: int) {
    || (base == "*" && lo == min && hi == max)
    || (Numeral(base) && lo == hi == ParseInt(base))
    || exists a, b :: Numeral(a) && Numeral(b) && base == a + "-" + b && lo == ParseInt(a) && hi == ParseInt(b)
  }

  /** Nothing after the base, or a slash and a number. */
  ghost predicate SuffixMeans(suffix: string, step: int) {
    || (suffix == "" && step == 1)
    || exists n :: Numeral(n) && suffix == "/" + n && step == ParseInt(n)
  }

  ghost predicate PartMeans(part: string, min: int, max: int, p: Progression) {
    && min <= p.lo <= p.hi <= max && p.step > 0
    && exists base, suffix ::
         part == base + suffix && BaseMeans(base, min, max, p.lo, p.hi) && SuffixMeans(suffix, p.step)
  }

  lemma RangeIsRead(a: string, b: string)
    requires Numeral(a) && Numeral(b)
    ensures a + "-" + b != "*" && RangeDash(a + "-" + b) == Some(|a|)
    ensures (a + "-" + b)[..|a|] == a && (a + "-" + b)[|a| + 1..] == b
  {
    hide ParseInt;
    var base := a + "-" + b;
    assert base[..|a|] == a && base[|a| + 1..] == b;
    RangeDashExact(base, |a|);
    assert |base| >= 3;
  }

  lemma ReadRange(base: string)
    requires RangeDash(base).Some?
    ensures var d := RangeDash(base).value;
            Numeral(base[..d]) && Numeral(base[d + 1..]) && base == base[..d] + "-" + base[d + 1..]
  {
    hide ParseInt, RangeDash;
    var d := RangeDash(base).value;
    assert base == base[..d] + [base[d]] + base[d + 1..];
  }

  lemma NumeralHasNoDash(base: string)
    requires Numeral(base)
    ensures base != "*" && RangeDash(base).None?
  {
    hide ParseInt;
    assert !IsDigit('*') && !IsDigit('-');
    assert base[0] != '*';
  }

  lemma BoundsExact(base: string, min: int, max: int, lo: int, hi: int)
    ensures ReadBounds(base, min, max) == Some(Bounds(lo, hi)) <==> BaseMeans(base, min, max, lo, hi)
  {
    hide ParseInt, RangeDash;
    if Numeral(base) {
      NumeralHasNoDash(base);
    }
    if RangeDash(base).Some? {
      ReadRange(base);
    }
    if a, b :| Numeral(a) && Numeral(b) && base == a + "-" + b && lo == ParseInt(a) && hi == ParseInt(b) {
      RangeIsRead(a, b);
    }
  }

  lemma BaseHasNoSlash(base: string, min: int, max: int, lo: int, hi: int)
    requires BaseMeans(base, min, max, lo, hi)
    ensures base != "" && '/' !in base
  {
    assert !IsDigit('/');
    if a, b :| Numeral(a) && Numeral(b) && base == a + "-" + b && lo == ParseInt(a) && hi == ParseInt(b) {
      assert '/' !in a && '/' !in b;
    }
  }

  lemma MeaningIsRead(part: string, min: int, max: int, p: Progression, base: string, suffix: string)
    requires min <= p.lo <= p.hi <= max && p.step > 0
    requires part == base + suffix && BaseMeans(base, min, max, p.lo, p.hi) && SuffixMeans(suffix, p.step)
    ensures ParsePart(part, min, max) == Some(p)
  {
    hide ReadBounds, BaseMeans, SuffixMeans, Numeral, ParseInt, StepSlash;
    BoundsExact(base, min, max, p.lo, p.hi);
    BaseHasNoSlash(base, min, max, p.lo, p.hi);
    SuffixIsStep(base, suffix, p.step);
    assert suffix == "" ==> base == part;
    assert p == Progression(p.lo, p.hi, p.step);
  }

  lemma ReadIsMeant(part: string, min: int, max: int, p: Progression)
    requires ParsePart(part, min, max) == Some(p)
    ensures PartMeans(part, min, max, p)
  {
    hide ReadBounds, BaseMeans, ParseInt, StepSlash, SuffixMeans, Numeral, AllDigits;
    var slash := StepSlash(part);
    if slash.Some? {
      var base, suffix := part[..slash.value], part[slash.value..];
      BoundsExact(base, min, max, p.lo, p.hi);
      StepSuffix(part, slash.value);
      assert part == base + suffix;
      assert SuffixMeans(suffix, p.step);
    } else {
      BoundsExact(part, min, max, p.lo, p.hi);
      NoSuffix();
      assert part == part + "" && SuffixMeans("", p.step);
    }
  }

  lemma StepSuffix(part: string, slash: nat)
    requires IsStep(part, slash)
    ensures SuffixMeans(part[slash..], ParseInt(part[slash + 1..]))
  {
    hide ParseInt;
    var n := part[slash + 1..];
    assert part[slash..] == "/" + n;
  }

  lemma NoSuffix()
    ensures SuffixMeans("", 1)
  {
  }

  /** The parser reads exactly the grammar. */
  lemma PartMeansExact(part: string, min: int, max: int, p: Progression)
    ensures ParsePart(part, min, max) == Some(p) <==> PartMeans(part, min, max, p)
  {
    hide ParsePart, BaseMeans, SuffixMeans;
    if PartMeans(part, min, max, p) {
      var base, suffix :| part == base + suffix && BaseMeans(base, min, max, p.lo, p.hi) && SuffixMeans(suffix, p.step);
      MeaningIsRead(part, min, max, p, base, suffix);
    }
    if ParsePart(part, min, max) == Some(p) {
      ReadIsMeant(part, min, max, p);
    }
  }

  lemma SuffixIsStep(base: string, suffix: string, step: int)
    requires base != "" && '/' !in base && SuffixMeans(suffix, step)
    ensures suffix == "" ==> StepSlash(base + suffix).None? && step == 1
    ensures suffix != "" ==> StepSlash(base + suffix) == Some(|base|) && step == ParseInt((base + suffix)[|base| + 1..])
    ensures (base + suffix)[..|base|] == base
  {
    hide ParseInt;
    var part := base + suffix;
    if suffix == "" {
      assert part == base;
    } else {
      var n :| Numeral(n) && suffix == "/" + n && step == ParseInt(n);
      assert part[|base| + 1..] == n;
      StepSlashExact(part, |base|);
    }
  }

  /** `field.split(separator)`. */
  function SplitOn(s: string, separator: char): (r: seq<string>)
    ensures |r| >= 1
  {
    if s == "" then [""]
    else
      var rest := SplitOn(s[1..], separator);
      if s[0] == separator then [""] + rest else [[s[0]] + rest[0]] + rest[1..]
  }

  predicate AllParse(parts: seq<string>, min: int, max: int) {
    forall i :: 0 <= i < |parts| ==> ParsePart(parts[i], min, max).Some?
  }

  /** Some part denotes `v`. */
  ghost predicate Denoted(parts: seq<string>, min: int, max: int, v: int) {
    exists i :: 0 <= i < |parts| && DenotedBy(parts[i], min, max, v)
  }

  /** What a field denotes: nothing unless every part parses, and then the union of
      the parts' progressions. */
  ghost function FieldValues(field: string, min: int, max: int): (r: Option<set<int>>) {
    var parts := SplitOn(field, ',');
    if AllParse(parts, min, max) then Some(set v | min <= v <= max && Denoted(parts, min, max, v)) else None
  }

  /** The field parser as it is written: each part adds its values one by one. */
  method ParseCronField(field: string, min: int, max: int) returns (r: Option<set<int>>)
    ensures r == FieldValues(field, min, max)
    ensures r.Some? ==> r.value != {} && forall v :: v in r.value ==> min <= v <= max
  {
    hide ParsePart, SplitOn;
    var values: set<int> := {};
    var parts := SplitOn(field, ',');
    for i := 0 to |parts|
      invariant AllParse(parts[..i], min, max)
      invariant forall v :: v in values <==> Denoted(parts[..i], min, max, v)
      invariant i > 0 ==> values != {}
    {
      var progression := ParsePart(parts[i], min, max);
      if progression.None? {
        return None;
      }
      var p := progression.value;
      ghost var before := values;
      var value := p.lo;
      ghost var k: nat := 0;
      TermsGrow(p);
      while value <= p.hi
        invariant value == Term(p, k)
        invariant k > 0 ==> values != {}
        invariant forall v :: v in values <==> v in before || (InProgression(v, p) && v < value)
        decreases p.hi - value
      {
        values := values + {value};
        NextInProgression(p, k);
        value := value + p.step;
        k := k + 1;
      }
      DenotedSnoc(parts, i, min, max);
    }
    assert parts[..|parts|] == parts;
    DenotedInRange(parts, min, max);
    assert values == set v | min <= v <= max && Denoted(parts, min, max, v);
    r := Some(values);
  }

  lemma TermsGrow(p: Progression)
    requires p.step > 0
    ensures forall k: nat :: Term(p, k) >= p.lo
    ensures Term(p, 0) == p.lo
  {
    forall k: nat
      ensures Term(p, k) >= p.lo
    {
      assert k * p.step >= 0;
    }
  }

  lemma TermsOrdered(p: Progression, j: nat, k: nat)
    requires p.step > 0 && j < k
    ensures Term(p, k) >= Term(p, j) + p.step
  {
    assert k * p.step == j * p.step + (k - j) * p.step;
    assert (k - j) * p.step >= 1 * p.step by {
      assert (k - j - 1) * p.step >= 0;
    }
  }

  lemma DenotedInRange(parts: seq<string>, min: int, max: int)
    ensures forall v :: Denoted(parts, min, max, v) ==> min <= v <= max
  {
    hide ParsePart;
    forall v | Denoted(parts, min, max, v)
      ensures min <= v <= max
    {
      var i :| 0 <= i < |parts| && DenotedBy(parts[i], min, max, v);
      TermsGrow(ParsePart(parts[i], min, max).value);
    }
  }

  lemma NextInProgression(p: Progression, k: nat)
    requires p.step > 0 && Term(p, k) <= p.hi
    ensures Term(p, k + 1) == Term(p, k) + p.step
    ensures forall v :: (InProgression(v, p) && v < Term(p, k + 1))
                        <==> (InProgression(v, p) && v < Term(p, k)) || v == Term(p, k)
  {
    assert (k + 1) * p.step == k * p.step + p.step;
    forall v | InProgression(v, p) && Term(p, k) < v
      ensures v >= Term(p, k + 1)
    {
      var j: nat :| v == Term(p, j);
      if j < k {
        TermsOrdered(p, j, k);
      } else if j > k {
        TermsOrdered(p, k, j);
      }
    }
  }

  /** Part `i` denotes `v`. */
  ghost predicate DenotedBy(part: string, min: int, max: int, v: int) {
    ParsePart(part, min, max).Some? && InProgression(v, ParsePart(part, min, max).value)
  }

  lemma DenotedSnoc(parts: seq<string>, i: nat, min: int, max: int)
    requires i < |parts|
    ensures forall v :: Denoted(parts[..i + 1], min, max, v) <==>
                        Denoted(parts[..i], min, max, v) || DenotedBy(parts[i], min, max, v)
  {
    hide DenotedBy;
    var front := parts[..i];
    assert parts[..i + 1] == front + [parts[i]];
    forall v
      ensures Denoted(front + [parts[i]], min, max, v)
              <==> Denoted(front, min, max, v) || DenotedBy(parts[i], min, max, v)
    {
      assert (front + [parts[i]])[i] == parts[i];
      forall j | 0 <= j < i
        ensures (front + [parts[i]])[j] == front[j]
      {
      }
    }
  }

  // ---- An expression -------------------------------------------------------

  datatype Fields = Fields(minute: set<int>, hour: set<int>, dayOfMonth: set<int>, month: set<int>, dayOfWeek: set<int>,
                           domRestricted: bool, dowRestricted: bool)

  /** The words of a trimmed text split at white space. */
  function Words(s: string): seq<string> {
    if s == "" then []
    else if IsSpace(s[|s| - 1]) then Words(s[..|s| - 1])
    else
      var e := WordStart(s);
      Words(s[..e]) + [s[e..]]
  }

  /** Where the last word of a text that ends in one starts. */
  function WordStart(s: string): (e: nat)
    requires s != "" && !IsSpace(s[|s| - 1])
    ensures e < |s|
  {
    if |s| == 1 || IsSpace(s[|s| - 2]) then |s| - 1 else WordStart(s[..|s| - 1])
  }

  predicate IsWord(w: string) {
    w != "" && forall i :: 0 <= i < |w| ==> !IsSpace(w[i])
  }

  /** Gaps and words in turn, from the first gap to the last. */
  function Interleaved(gaps: seq<string>, words: seq<string>): string
    requires |gaps| == |words| + 1
  {
    var n := |words|;
    if n == 0 then gaps[0] else Interleaved(gaps[..n], words[..n - 1]) + words[n - 1] + gaps[n]
  }

  /** Only the first and the last gap may be empty. */
  predicate Spaced(gaps: seq<string>, words: seq<string>) {
    && |gaps| == |words| + 1
    && (forall i :: 0 <= i < |words| ==> IsWord(words[i]))
    && (forall i :: 0 <= i < |gaps| ==> Blank(gaps[i]))
    && (forall i :: 0 < i < |words| ==> gaps[i] != "")
  }

  predicate SpacedOut(gaps: seq<string>, words: seq<string>, s: string) {
    Spaced(gaps, words) && |gaps| == |words| + 1 && s == Interleaved(gaps, words)
  }

  lemma WordStartLast(s: string)
    requires s != "" && !IsSpace(s[|s| - 1])
    ensures |s| == 1 || IsSpace(s[|s| - 2]) ==> WordStart(s) == |s| - 1
    ensures |s| > 1 && !IsSpace(s[|s| - 2]) ==> WordStart(s) == WordStart(s[..|s| - 1])
  {
    hide IsSpace;
  }

  lemma LongerWord(w: string, c: char)
    requires (w == "" || IsWord(w)) && !IsSpace(c)
    ensures IsWord(w + [c])
  {
    hide IsSpace;
  }

  lemma {:induction false} WordStartExact(s: string)
    requires s != "" && !IsSpace(s[|s| - 1])
    ensures var e := WordStart(s); IsWord(s[e..]) && (e > 0 ==> IsSpace(s[e - 1]))
  {
    hide IsSpace, WordStart, IsWord;
    var n := |s| - 1;
    var front, c := s[..n], s[n];
    WordStartLast(s);
    if n == 0 || IsSpace(s[n - 1]) {
      LongerWord("", c);
      assert s[n..] == "" + [c];
    } else {
      assert front[|front| - 1] == s[n - 1];
      WordStartExact(front);
      var e := WordStart(front);
      LongerWord(front[e..], c);
      assert s[e..] == front[e..] + [c];
    }
  }

  lemma {:induction false} WordStartIs(t: string, w: string)
    requires IsWord(w) && (t == "" || IsSpace(t[|t| - 1]))
    ensures !IsSpace((t + w)[|t + w| - 1]) && WordStart(t + w) == |t|
  {
    hide IsSpace, WordStart;
    var s, n := t + w, |w| - 1;
    assert s[|s| - 1] == w[n];
    WordStartLast(s);
    if n > 0 {
      assert s[|s| - 2] == w[n - 1] && s[..|s| - 1] == t + w[..n];
      WordStartIs(t, w[..n]);
    } else {
      assert t != "" ==> s[|s| - 2] == t[|t| - 1];
    }
  }

  lemma {:induction false} WordsBeforeBlank(s: string, gap: string)
    requires Blank(gap)
    ensures Words(s + gap) == Words(s)
  {
    var n := |gap|;
    if n == 0 {
      assert s + gap == s;
    } else {
      assert (s + gap)[..|s + gap| - 1] == s + gap[..n - 1] && IsSpace(gap[n - 1]);
      WordsBeforeBlank(s, gap[..n - 1]);
    }
  }

  /** The gaps of a text, the last of them not empty if it ends in white space. */
  lemma {:induction false} GapsOf(s: string) returns (gaps: seq<string>)
    ensures |gaps| == |Words(s)| + 1 && Spaced(gaps, Words(s)) && s == Interleaved(gaps, Words(s))
    ensures s != "" && IsSpace(s[|s| - 1]) ==> gaps[|gaps| - 1] != ""
  {
    hide WordStart, IsSpace, Spaced, Interleaved, IsWord;
    if s == "" {
      gaps := [""];
      NoGaps();
    } else if IsSpace(s[|s| - 1]) {
      var n := |s| - 1;
      var front := GapsOf(s[..n]);
      gaps := LongerGap(front, Words(s), [s[n]]);
      assert s == s[..n] + [s[n]];
    } else {
      var e := WordStart(s);
      WordStartExact(s);
      var front := GapsOf(s[..e]);
      assert e > 0 ==> s[..e][e - 1] == s[e - 1];
      gaps := front + [""];
      AnotherWord(front, Words(s[..e]), s[e..], s[..e]);
      assert s == s[..e] + s[e..] + "";
    }
  }

  lemma NoGaps()
    ensures Spaced([""], []) && Interleaved([""], []) == ""
  {
  }

  lemma LongerGap(gaps: seq<string>, words: seq<string>, more: string) returns (grown: seq<string>)
    requires Spaced(gaps, words) && Blank(more) && more != ""
    ensures |grown| == |words| + 1 && Spaced(grown, words)
            && Interleaved(grown, words) == Interleaved(gaps, words) + more
    ensures grown[|grown| - 1] != ""
  {
    hide Blank, IsWord;
    var n := |words|;
    BlankConcat(gaps[n], more);
    grown := gaps[..n] + [gaps[n] + more];
    assert grown[..n] == gaps[..n];
    if n > 0 {
      var front := Interleaved(gaps[..n], words[..n - 1]) + words[n - 1];
      assert front + (gaps[n] + more) == front + gaps[n] + more;
    }
  }

  lemma AnotherWord(gaps: seq<string>, words: seq<string>, w: string, t: string)
    requires Spaced(gaps, words) && IsWord(w) && t == Interleaved(gaps, words)
    requires t != "" ==> gaps[|words|] != ""
    requires t == "" ==> words == []
    ensures Spaced(gaps + [""], words + [w]) && Interleaved(gaps + [""], words + [w]) == t + w + ""
  {
    hide Blank, IsWord, Interleaved;
    assert Blank("") by { BlankNothing(); }
    InterleavedSnoc(gaps, words, w, "");
  }

  lemma BlankNothing()
    ensures Blank("")
  {
  }

  lemma InterleavedSnoc(gaps: seq<string>, words: seq<string>, w: string, gap: string)
    requires |gaps| == |words| + 1
    ensures Interleaved(gaps + [gap], words + [w]) == Interleaved(gaps, words) + w + gap
  {
    assert (gaps + [gap])[..|words| + 1] == gaps && (words + [w])[..|words|] == words;
  }

  lemma {:induction false} WordsOfInterleaved(gaps: seq<string>, words: seq<string>)
    requires Spaced(gaps, words)
    ensures Words(Interleaved(gaps, words)) == words
    ensures var s := Interleaved(gaps, words); gaps[|words|] != "" ==> s != "" && IsSpace(s[|s| - 1])
  {
    hide IsSpace, Words;
    var n := |words|;
    LastGapSpace(gaps[n]);
    if n == 0 {
      WordsBeforeBlank("", gaps[0]);
      NoWords();
      assert "" + gaps[0] == gaps[0];
    } else {
      var t, w := Interleaved(gaps[..n], words[..n - 1]), words[n - 1];
      WordsOfInterleaved(gaps[..n], words[..n - 1]);
      assert n == 1 ==> t == gaps[0];
      if n == 1 {
        LastGapSpace(gaps[0]);
      }
      WordsSnoc(t, w);
      WordsBeforeBlank(t + w, gaps[n]);
      assert words == words[..n - 1] + [w];
    }
  }

  lemma NoWords()
    ensures Words("") == []
  {
  }

  lemma LastGapSpace(gap: string)
    requires Blank(gap)
    ensures gap != "" ==> IsSpace(gap[|gap| - 1])
  {
  }

  /** A word after a text that is empty or ends in white space. */
  lemma WordsSnoc(t: string, w: string)
    requires IsWord(w) && (t == "" || IsSpace(t[|t| - 1]))
    ensures Words(t + w) == Words(t) + [w]
  {
    hide WordStart, IsSpace;
    WordStartIs(t, w);
    assert (t + w)[..|t|] == t && (t + w)[|t|..] == w;
  }

  /** The words of a text are the space-free stretches between its gaps. */
  lemma WordsExact(s: string, words: seq<string>)
    ensures Words(s) == words <==> exists gaps :: SpacedOut(gaps, words, s)
  {
    hide Spaced;
    if Words(s) == words {
      var gaps := GapsOf(s);
      assert SpacedOut(gaps, words, s);
    }
    if gaps :| SpacedOut(gaps, words, s) {
      WordsOfInterleaved(gaps, words);
    }
  }

  /** `replace(/7/g, "0")`. */
  function SevensToZeros(s: string): (r: string)
    ensures |r| == |s| && forall i :: 0 <= i < |s| ==> r[i] == if s[i] == '7' then '0' else s[i]
  {
    seq(|s|, i requires 0 <= i < |s| => if s[i] == '7' then '0' else s[i])
  }

  ghost function ParseExpression(expr: string): Option<Fields> {
    var parts := Words(expr);
    if |parts| != 5 then None
    else
      var minute := FieldValues(parts[0], 0, 59);
      var hour := FieldValues(parts[1], 0, 23);
      var dayOfMonth := FieldValues(parts[2], 1, 31);
      var month := FieldValues(parts[3], 1, 12);
      var dayOfWeek := FieldValues(SevensToZeros(parts[4]), 0, 6);
      if minute.None? || hour.None? || dayOfMonth.None? || month.None? || dayOfWeek.None? then None
      else Some(Fields(minute.value, hour.value, dayOfMonth.value, month.value, dayOfWeek.value,
                       parts[2] != "*", parts[4] != "*"))
  }

  predicate Within(s: set<int>, min: int, max: int) {
    (exists v :: v in s) && forall v :: v in s ==> min <= v <= max
  }

  lemma AnyOf(s: set<int>, min: int, max: int) returns (x: int)
    requires Within(s, min, max)
    ensures x in s && min <= x <= max
  {
    x :| x in s;
  }

  predicate Full(s: set<int>, min: int, max: int) {
    forall v :: min <= v <= max ==> v in s
  }

  /** What every parsed expression guarantees of its fields. */
  predicate WellFormed(f: Fields) {
    && Within(f.minute, 0, 59) && Within(f.hour, 0, 23) && Within(f.dayOfMonth, 1, 31)
    && Within(f.month, 1, 12) && Within(f.dayOfWeek, 0, 6)
    && (!f.domRestricted ==> Full(f.dayOfMonth, 1, 31))
    && (!f.dowRestricted ==> Full(f.dayOfWeek, 0, 6))
  }

  method ParseCronExpression(expr: string) returns (fields: Option<Fields>)
    ensures fields == ParseExpression(expr)
  {
    hide FieldValues, Words, ParsePart, SevensToZeros;
    var parts := Words(expr);
    if |parts| != 5 {
      return None;
    }
    var minute := ParseCronField(parts[0], 0, 59);
    var hour := ParseCronField(parts[1], 0, 23);
    var dayOfMonth := ParseCronField(parts[2], 1, 31);
    var month := ParseCronField(parts[3], 1, 12);
    var dayOfWeek := ParseCronField(SevensToZeros(parts[4]), 0, 6);
    if minute.None? || hour.None? || dayOfMonth.None? || month.None? || dayOfWeek.None? {
      return None;
    }
    fields := Some(Fields(minute.value, hour.value, dayOfMonth.value, month.value, dayOfWeek.value,
                          parts[2] != "*", parts[4] != "*"));
  }

  lemma FieldWithin(field: string, min: int, max: int)
    ensures FieldValues(field, min, max).Some? ==> Within(FieldValues(field, min, max).value, min, max)
  {
    hide ParsePart;
    var parts := SplitOn(field, ',');
    if AllParse(parts, min, max) {
      var p := ParsePart(parts[0], min, max).value;
      TermsGrow(p);
      assert p.lo == Term(p, 0);
      assert InProgression(p.lo, p);
      assert DenotedBy(parts[0], min, max, p.lo);
      assert Denoted(parts, min, max, p.lo);
      assert p.lo in FieldValues(field, min, max).value;
    }
  }

  /** A bare star is the whole range. */
  lemma StarIsFull(min: int, max: int)
    requires min <= max
    ensures FieldValues("*", min, max).Some? && Full(FieldValues("*", min, max).value, min, max)
  {
    NoSeparator("*", ',');
    assert !IsDigit('*');
    assert DigitsStart("*") == 1 && DigitsEnd("*", 0) == 0;
    var p := Progression(min, max, 1);
    assert ParsePart("*", min, max) == Some(p);
    forall v | min <= v <= max
      ensures Denoted(["*"], min, max, v)
    {
      assert v == Term(p, v - min);
      assert DenotedBy(["*"][0], min, max, v);
    }
  }

  /** What every parsed expression guarantees. */
  lemma ParsedWellFormed(expr: string)
    ensures ParseExpression(expr).Some? ==> WellFormed(ParseExpression(expr).value)
  {
    hide FieldValues, Words;
    var parts := Words(expr);
    if |parts| == 5 {
      FieldWithin(parts[0], 0, 59);
      FieldWithin(parts[1], 0, 23);
      FieldWithin(parts[2], 1, 31);
      FieldWithin(parts[3], 1, 12);
      FieldWithin(SevensToZeros(parts[4]), 0, 6);
      StarIsFull(1, 31);
      StarIsFull(0, 6);
      assert parts[4] == "*" ==> SevensToZeros(parts[4]) == "*";
    }
  }

  lemma {:induction false} NoSeparator(s: string, separator: char)
    requires separator !in s
    ensures SplitOn(s, separator) == [s]
  {
    if s != "" {
      NoSeparator(s[1..], separator);
      assert [s[0]] + s[1..] == s;
    }
  }

  // ---- The whole grammar ---------------------------------------------------

  /** Pieces with a comma between every two. */
  function Commas(pieces: seq<string>): string
    requires pieces != []
  {
    if |pieces| == 1 then pieces[0] else pieces[0] + "," + Commas(pieces[1..])
  }

  predicate NoComma(pieces: seq<string>) {
    forall i :: 0 <= i < |pieces| ==> ',' !in pieces[i]
  }

  lemma {:induction false} SplitCommas(pieces: seq<string>)
    requires pieces != [] && NoComma(pieces)
    ensures SplitOn(Commas(pieces), ',') == pieces
  {
    hide SplitOn;
    if |pieces| == 1 {
      NoSeparator(pieces[0], ',');
    } else {
      SplitCommas(pieces[1..]);
      SplitFirst(pieces[0], Commas(pieces[1..]));
    }
  }

  lemma {:induction false} SplitFirst(piece: string, rest: string)
    requires ',' !in piece
    ensures SplitOn(piece + "," + rest, ',') == [piece] + SplitOn(rest, ',')
  {
    var s := piece + "," + rest;
    if piece == "" {
      assert s[1..] == rest;
    } else {
      SplitFirst(piece[1..], rest);
      assert s[1..] == piece[1..] + "," + rest;
      assert [s[0]] + piece[1..] == piece;
    }
  }

  lemma {:induction false} CommasOfSplit(s: string)
    ensures NoComma(SplitOn(s, ',')) && Commas(SplitOn(s, ',')) == s
  {
    if s != "" {
      CommasOfSplit(s[1..]);
      var pieces, rest := SplitOn(s, ','), SplitOn(s[1..], ',');
      if s[0] == ',' {
        assert pieces[1..] == rest;
      } else {
        assert pieces[1..] == rest[1..];
        assert forall i :: 1 <= i < |pieces| ==> pieces[i] == rest[i];
        assert ',' !in pieces[0];
      }
    }
  }

  ghost predicate HasMeaning(part: string, min: int, max: int) {
    exists p :: PartMeans(part, min, max, p)
  }

  /** The part means a progression, and `v` is one of its terms. */
  ghost predicate Reaches(part: string, min: int, max: int, v: int) {
    exists p :: PartMeans(part, min, max, p) && InProgression(v, p)
  }

  /** The field is pieces between commas, each meaning a progression in the range, and
      these are the terms. */
  ghost predicate PiecesMean(pieces: seq<string>, field: string, min: int, max: int, values: set<int>) {
    && pieces != [] && NoComma(pieces) && field == Commas(pieces)
    && (forall i :: 0 <= i < |pieces| ==> HasMeaning(pieces[i], min, max))
    && (forall v :: v in values <==> exists i :: 0 <= i < |pieces| && Reaches(pieces[i], min, max, v))
  }

  ghost predicate FieldMeans(field: string, min: int, max: int, values: set<int>) {
    exists pieces :: PiecesMean(pieces, field, min, max, values)
  }

  lemma PieceDenotes(part: string, min: int, max: int, v: int)
    ensures ParsePart(part, min, max).Some? <==> HasMeaning(part, min, max)
    ensures DenotedBy(part, min, max, v) <==> Reaches(part, min, max, v)
  {
    hide ParsePart, PartMeans, InProgression;
    forall p
      ensures ParsePart(part, min, max) == Some(p) <==> PartMeans(part, min, max, p)
    {
      PartMeansExact(part, min, max, p);
    }
    if ParsePart(part, min, max).Some? {
      assert PartMeans(part, min, max, ParsePart(part, min, max).value);
    }
  }

  lemma PiecesDenote(pieces: seq<string>, field: string, min: int, max: int, values: set<int>)
    requires pieces == SplitOn(field, ',')
    ensures FieldValues(field, min, max) == Some(values) <==> PiecesMean(pieces, field, min, max, values)
  {
    hide ParsePart, PartMeans, DenotedBy, HasMeaning, Reaches, SplitOn, Commas;
    CommasOfSplit(field);
    DenotedInRange(pieces, min, max);
    forall i, v | 0 <= i < |pieces|
      ensures ParsePart(pieces[i], min, max).Some? <==> HasMeaning(pieces[i], min, max)
      ensures DenotedBy(pieces[i], min, max, v) <==> Reaches(pieces[i], min, max, v)
    {
      PieceDenotes(pieces[i], min, max, v);
    }
    var none := 0;
    assert forall i :: 0 <= i < |pieces| ==>
             (DenotedBy(pieces[i], min, max, none) <==> Reaches(pieces[i], min, max, none));
    assert AllParse(pieces, min, max) <==> forall i :: 0 <= i < |pieces| ==> HasMeaning(pieces[i], min, max);
    assert forall v :: Denoted(pieces, min, max, v) <==>
             exists i :: 0 <= i < |pieces| && Reaches(pieces[i], min, max, v);
    hide NoComma;
    if AllParse(pieces, min, max) {
      var all := FieldValues(field, min, max).value;
      assert forall v :: v in all <==> Denoted(pieces, min, max, v);
      assert FieldValues(field, min, max) == Some(values) ==> all == values;
      if PiecesMean(pieces, field, min, max, values) {
        assert values == all;
      }
    }
  }

  /** What the field parser returns, told without it. */
  lemma FieldMeansExact(field: string, min: int, max: int, values: set<int>)
    ensures FieldValues(field, min, max) == Some(values) <==> FieldMeans(field, min, max, values)
  {
    hide FieldValues, SplitOn, Commas, HasMeaning, Reaches;
    PiecesDenote(SplitOn(field, ','), field, min, max, values);
    if pieces :| PiecesMean(pieces, field, min, max, values) {
      SplitCommas(pieces);
    }
  }

  /** Five words, each a field in its range, the last one read with zeros for its
      sevens, and the words that are not a star restrict the days. */
  ghost predicate ExpressionMeans(expr: string, f: Fields) {
    exists gaps, words ::
      && SpacedOut(gaps, words, expr) && |words| == 5
      && FieldMeans(words[0], 0, 59, f.minute) && FieldMeans(words[1], 0, 23, f.hour)
      && FieldMeans(words[2], 1, 31, f.dayOfMonth) && FieldMeans(words[3], 1, 12, f.month)
      && FieldMeans(SevensToZeros(words[4]), 0, 6, f.dayOfWeek)
      && f.domRestricted == (words[2] != "*") && f.dowRestricted == (words[4] != "*")
  }

  lemma WordsMean(words: seq<string>, f: Fields)
    requires |words| == 5
    ensures (&& FieldMeans(words[0], 0, 59, f.minute) && FieldMeans(words[1], 0, 23, f.hour)
             && FieldMeans(words[2], 1, 31, f.dayOfMonth) && FieldMeans(words[3], 1, 12, f.month)
             && FieldMeans(SevensToZeros(words[4]), 0, 6, f.dayOfWeek))
       <==> (&& FieldValues(words[0], 0, 59) == Some(f.minute) && FieldValues(words[1], 0, 23) == Some(f.hour)
             && FieldValues(words[2], 1, 31) == Some(f.dayOfMonth) && FieldValues(words[3], 1, 12) == Some(f.month)
             && FieldValues(SevensToZeros(words[4]), 0, 6) == Some(f.dayOfWeek))
  {
    hide FieldValues, FieldMeans;
    FieldMeansExact(words[0], 0, 59, f.minute);
    FieldMeansExact(words[1], 0, 23, f.hour);
    FieldMeansExact(words[2], 1, 31, f.dayOfMonth);
    FieldMeansExact(words[3], 1, 12, f.month);
    FieldMeansExact(SevensToZeros(words[4]), 0, 6, f.dayOfWeek);
  }

  /** The parser accepts exactly these expressions, with exactly these fields. */
  lemma ExpressionMeansExact(expr: string, f: Fields)
    ensures ParseExpression(expr) == Some(f) <==> ExpressionMeans(expr, f)
  {
    hide FieldValues, FieldMeans, Words, SpacedOut;
    if ParseExpression(expr) == Some(f) {
      WordsExact(expr, Words(expr));
      WordsMean(Words(expr), f);
    }
    if ExpressionMeans(expr, f) {
      var gaps, words :|
        && SpacedOut(gaps, words, expr) && |words| == 5
        && FieldMeans(words[0], 0, 59, f.minute) && FieldMeans(words[1], 0, 23, f.hour)
        && FieldMeans(words[2], 1, 31, f.dayOfMonth) && FieldMeans(words[3], 1, 12, f.month)
        && FieldMeans(SevensToZeros(words[4]), 0, 6, f.dayOfWeek)
        && f.domRestricted == (words[2] != "*") && f.dowRestricted == (words[4] != "*");
      WordsExact(expr, words);
      WordsMean(words, f);
      assert f == Fields(f.minute, f.hour, f.dayOfMonth, f.month, f.dayOfWeek, f.domRestricted, f.dowRestricted);
    }
  }
}
