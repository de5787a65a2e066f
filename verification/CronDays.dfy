/** The day-of-week field, where 7 is Sunday: what it says, and what is made of it. */
module CronDays {
  import opened TextLines
  import opened CronFields

  // ---- The digits ----------------------------------------------------------

  /** What zeroing the sevens can make of a number. */
  predicate Zeroed(n: nat, z: nat) {
    z <= n && (n < 7 ==> z == n) && (n == 7 ==> z == 0)
  }

  lemma {:induction false} ZeroedInt(s: string)
    requires AllDigits(s)
    ensures AllDigits(SevensToZeros(s)) && Zeroed(ParseInt(s), ParseInt(SevensToZeros(s)))
  {
    if s != "" {
      var n := |s| - 1;
      ZeroedInt(s[..n]);
      assert SevensToZeros(s)[..n] == SevensToZeros(s[..n]);
    }
  }

  // ---- The numbers of a part -----------------------------------------------

  datatype Numbers = Numbers(star: bool, lo: nat, hi: nat, step: nat)

  function ReadBase(base: string, step: nat): Option<Numbers> {
    var dash := RangeDash(base);
    if base == "*" then Some(Numbers(true, 0, 0, step))
    else if dash.Some? then Some(Numbers(false, ParseInt(base[..dash.value]), ParseInt(base[dash.value + 1..]), step))
    else if Numeral(base) then Some(Numbers(false, ParseInt(base), ParseInt(base), step))
    else None
  }

  /** A part's numbers, in range or not, if it has the form. */
  function NumbersOf(part: string): Option<Numbers> {
    var slash := StepSlash(part);
    if slash.Some? then ReadBase(part[..slash.value], ParseInt(part[slash.value + 1..])) else ReadBase(part, 1)
  }

  function LowOf(n: Numbers): int {
    if n.star then 0 else n.lo
  }

  function HighOf(n: Numbers, max: int): int {
    if n.star then max else n.hi
  }

  /** The parser only looks at these. */
  lemma ParseByNumbers(part: string, max: int)
    ensures ParsePart(part, 0, max)
         == match NumbersOf(part)
            case None => None
            case Some(n) =>
              if n.step > 0 && LowOf(n) <= HighOf(n, max) <= max
              then Some(Progression(LowOf(n), HighOf(n, max), n.step))
              else None
  {
    hide ParseInt, StepSlash, RangeDash;
  }

  lemma ZeroedSlash(part: string)
    ensures StepSlash(SevensToZeros(part)) == StepSlash(part)
  {
    hide StepSlash, Numeral;
    var z := SevensToZeros(part);
    forall p: nat
      ensures IsStep(z, p) <==> IsStep(part, p)
    {
      if p < |part| {
        ZeroedNumeral(part[p + 1..]);
        assert z[p + 1..] == SevensToZeros(part[p + 1..]);
      }
    }
    forall p
      ensures StepSlash(part) == Some(p) <==> StepSlash(z) == Some(p)
    {
      StepSlashExact(part, p);
      StepSlashExact(z, p);
    }
    var a, b := StepSlash(part), StepSlash(z);
    assert a.Some? ==> a == Some(a.value);
    assert b.Some? ==> b == Some(b.value);
  }

  lemma ZeroedNumeral(s: string)
    ensures Numeral(SevensToZeros(s)) <==> Numeral(s)
    ensures AllDigits(SevensToZeros(s)) <==> AllDigits(s)
    ensures |SevensToZeros(s)| == |s|
  {
    var z := SevensToZeros(s);
    assert forall i :: 0 <= i < |s| ==> (IsDigit(z[i]) <==> IsDigit(s[i]));
  }

  lemma ZeroedDash(base: string)
    ensures RangeDash(SevensToZeros(base)) == RangeDash(base)
  {
    hide RangeDash, Numeral, AllDigits;
    var z := SevensToZeros(base);
    forall p: nat
      ensures IsRange(z, p) <==> IsRange(base, p)
    {
      if p < |base| {
        ZeroedNumeral(base[..p]);
        ZeroedNumeral(base[p + 1..]);
        assert z[..p] == SevensToZeros(base[..p]) && z[p + 1..] == SevensToZeros(base[p + 1..]);
      }
    }
    forall p
      ensures RangeDash(base) == Some(p) <==> RangeDash(z) == Some(p)
    {
      RangeDashExact(base, p);
      RangeDashExact(z, p);
    }
    var a, b := RangeDash(base), RangeDash(z);
    assert a.Some? ==> a == Some(a.value);
    assert b.Some? ==> b == Some(b.value);
  }

  /** The numbers of a part and of the same part with its sevens zeroed. */
  predicate Zeroing(n: Numbers, z: Numbers) {
    z.star == n.star && Zeroed(n.lo, z.lo) && Zeroed(n.hi, z.hi) && Zeroed(n.step, z.step)
  }

  lemma ZeroedBase(base: string, step: nat, zeroStep: nat)
    requires Zeroed(step, zeroStep)
    ensures var n, z := ReadBase(base, step), ReadBase(SevensToZeros(base), zeroStep);
            (n.Some? <==> z.Some?) && (n.Some? ==> Zeroing(n.value, z.value))
  {
    hide ParseInt, RangeDash, SevensToZeros, Zeroed;
    var zeros := SevensToZeros(base);
    ZeroedDash(base);
    ZeroedNumeral(base);
    StarStays(base);
    assert Zeroed(0, 0) by { ZeroStays(); }
    if RangeDash(base).Some? {
      var d := RangeDash(base).value;
      ZeroedSlices(base, d);
      ZeroedInt(base[..d]);
      ZeroedInt(base[d + 1..]);
    } else if Numeral(base) {
      ZeroedInt(base);
    }
  }

  lemma ZeroStays()
    ensures Zeroed(0, 0)
  {
  }

  lemma StarStays(base: string)
    ensures SevensToZeros(base) == "*" <==> base == "*"
  {
    var z := SevensToZeros(base);
    if |base| == 1 {
      assert z[0] == if base[0] == '7' then '0' else base[0];
    }
  }

  lemma ZeroedSlices(s: string, d: nat)
    requires d < |s|
    ensures |SevensToZeros(s)| == |s|
    ensures SevensToZeros(s)[..d] == SevensToZeros(s[..d]) && SevensToZeros(s)[d + 1..] == SevensToZeros(s[d + 1..])
  {
  }

  lemma NumbersZeroed(part: string)
    ensures var n, z := NumbersOf(part), NumbersOf(SevensToZeros(part));
            (n.Some? <==> z.Some?) && (n.Some? ==> Zeroing(n.value, z.value))
  {
    hide ParseInt, StepSlash, SevensToZeros, ReadBase, Zeroing;
    ZeroedSlash(part);
    if StepSlash(part).Some? {
      var p := StepSlash(part).value;
      ZeroedSlices(part, p);
      ZeroedInt(part[p + 1..]);
      ZeroedBase(part[..p], ParseInt(part[p + 1..]), ParseInt(SevensToZeros(part)[p + 1..]));
    } else {
      ZeroedBase(part, 1, 1);
    }
  }

  // ---- One part ------------------------------------------------------------

  /** The part is a range of days in 0 … 7. */
  predicate Valid(part: string) {
    ParsePart(part, 0, 7).Some?
  }

  /** The parser takes it. */
  predicate Accepted(part: string) {
    ParsePart(SevensToZeros(part), 0, 6).Some?
  }

  /** The days a part means, with 7 for Sunday. */
  ghost predicate MeansDay(part: string, d: int) {
    0 <= d <= 6 && (DenotedBy(part, 0, 7, d) || (d == 0 && DenotedBy(part, 0, 7, 7)))
  }

  ghost predicate GivesDay(part: string, d: int) {
    DenotedBy(SevensToZeros(part), 0, 6, d)
  }

  /** Days of a range from 0 to 7, which has become the range from 0 to 0. */
  predicate Lost(part: string, d: int) {
    var n := NumbersOf(part);
    && n.Some? && n.value.step > 0
    && !n.value.star && n.value.lo == 0 && n.value.hi == 7 && 1 <= d <= 6 && d % n.value.step == 0
  }

  /** Days of a step that has become smaller. */
  predicate Gained(part: string, d: int) {
    var n, z := NumbersOf(part), NumbersOf(SevensToZeros(part));
    && n.Some? && z.Some? && z.value.step > 0 && z.value.step != n.value.step
    && LowOf(z.value) < d <= HighOf(z.value, 6) && (d - LowOf(z.value)) % z.value.step == 0
  }

  lemma InProgressionIff(v: int, p: Progression)
    requires p.step > 0
    ensures InProgression(v, p) <==> p.lo <= v <= p.hi && (v - p.lo) % p.step == 0
  {
    if InProgression(v, p) {
      var k: nat :| v == Term(p, k);
      TermsGrow(p);
      MultipleMod(k, p.step);
    }
    if p.lo <= v && (v - p.lo) % p.step == 0 {
      var k: nat := (v - p.lo) / p.step;
      assert v == Term(p, k);
    }
  }

  lemma {:induction false} MultipleMod(k: nat, n: int)
    requires n > 0
    ensures (k * n) % n == 0
  {
    if k > 0 {
      MultipleMod(k - 1, n);
      assert k * n == (k - 1) * n + n;
      ModStep((k - 1) * n, n);
    }
  }

  lemma ModStep(a: int, n: int)
    requires n > 0
    ensures (a + n) % n == a % n
  {
    var q, r := a / n, a % n;
    assert a + n == (q + 1) * n + r;
    ModIs(a + n, q + 1, r, n);
  }

  lemma ModIs(a: int, q: int, r: int, n: int)
    requires n > 0 && 0 <= r < n && a == q * n + r
    ensures a % n == r
  {
    var p, s := a / n, a % n;
    assert (p - q) * n == r - s;
    Apart(p - q, n);
  }

  lemma Apart(k: int, n: int)
    requires n > 0
    ensures k > 0 ==> k * n >= n
    ensures k < 0 ==> k * n <= -n
  {
    if k > 0 {
      AtLeast(k, n);
    } else if k < 0 {
      AtLeast(-k, n);
      assert k * n == -(-k * n);
    }
  }

  lemma {:induction false} AtLeast(k: int, n: int)
    requires n > 0 && k > 0
    ensures k * n >= n
  {
    if k > 1 {
      AtLeast(k - 1, n);
      assert k * n == (k - 1) * n + n;
    }
  }

  /** In numbers, what the two readings accept and which days they hold. */
  lemma PartInNumbers(part: string, d: int)
    ensures Valid(part) <==>
              && NumbersOf(part).Some?
              && var n := NumbersOf(part).value; n.step > 0 && LowOf(n) <= HighOf(n, 7) <= 7
    ensures Accepted(part) <==>
              && NumbersOf(SevensToZeros(part)).Some?
              && var z := NumbersOf(SevensToZeros(part)).value; z.step > 0 && LowOf(z) <= HighOf(z, 6) <= 6
    ensures Valid(part) ==>
              var n := NumbersOf(part).value;
              && (DenotedBy(part, 0, 7, d) <==> InSteps(d, LowOf(n), HighOf(n, 7), n.step))
              && (DenotedBy(part, 0, 7, 7) <==> HighOf(n, 7) == 7 && (7 - LowOf(n)) % n.step == 0)
    ensures Accepted(part) ==>
              var z := NumbersOf(SevensToZeros(part)).value;
              GivesDay(part, d) <==> InSteps(d, LowOf(z), HighOf(z, 6), z.step)
  {
    hide NumbersOf, SevensToZeros, ParsePart, InProgression;
    ParseByNumbers(part, 7);
    ParseByNumbers(SevensToZeros(part), 6);
    if Valid(part) {
      InProgressionIff(d, ParsePart(part, 0, 7).value);
      InProgressionIff(7, ParsePart(part, 0, 7).value);
    }
    if Accepted(part) {
      InProgressionIff(d, ParsePart(SevensToZeros(part), 0, 6).value);
    }
  }

  lemma SmallMod(x: int, n: int)
    requires 0 <= x < n
    ensures x % n == 0 <==> x == 0
  {
  }

  /** The days of a part that both readings accept differ by the lost and the gained
      days exactly. */
  lemma PartDays(part: string, d: int)
    requires Valid(part) && Accepted(part)
    ensures MeansDay(part, d) && !GivesDay(part, d) <==> Lost(part, d)
    ensures GivesDay(part, d) && !MeansDay(part, d) <==> Gained(part, d)
  {
    hide NumbersOf, SevensToZeros, Valid, Accepted, DenotedBy, GivesDay;
    PartInNumbers(part, d);
    NumbersZeroed(part);
    var n, z := NumbersOf(part).value, NumbersOf(SevensToZeros(part)).value;
    DaysInNumbers(n, z, d);
  }

  /** The days of a progression of days. */
  predicate InSteps(d: int, lo: int, hi: int, step: int)
    requires step > 0
  {
    lo <= d <= hi && (d - lo) % step == 0
  }

  /** The days that a part's numbers mean. */
  predicate MeansIn(n: Numbers, d: int)
    requires n.step > 0
  {
    && 0 <= d <= 6
    && (InSteps(d, LowOf(n), HighOf(n, 7), n.step)
        || (d == 0 && HighOf(n, 7) == 7 && (7 - LowOf(n)) % n.step == 0))
  }

  lemma DaysInNumbers(n: Numbers, z: Numbers, d: int)
    requires Zeroing(n, z) && n.step > 0 && z.step > 0
    requires LowOf(n) <= HighOf(n, 7) <= 7 && LowOf(z) <= HighOf(z, 6) <= 6
    ensures var means, gives := MeansIn(n, d), InSteps(d, LowOf(z), HighOf(z, 6), z.step);
            && (means && !gives <==> !n.star && n.lo == 0 && n.hi == 7 && 1 <= d <= 6 && d % n.step == 0)
            && (gives && !means <==> z.step != n.step && LowOf(z) < d <= HighOf(z, 6) && (d - LowOf(z)) % z.step == 0)
  {
    if !n.star && n.hi == 7 {
      WeekInNumbers(n, z, d);
    } else {
      RangeInNumbers(n, z, d);
    }
  }

  /** A range up to 7 has become Sunday. */
  lemma WeekInNumbers(n: Numbers, z: Numbers, d: int)
    requires Zeroing(n, z) && n.step > 0 && z.step > 0 && !n.star && n.hi == 7 && n.lo <= 7 && z.lo <= z.hi
    ensures var means, gives := MeansIn(n, d), InSteps(d, z.lo, z.hi, z.step);
            && (gives <==> d == 0) && (d == 0 ==> means) && z.lo == z.hi == 0
            && (means && d != 0 <==> n.lo == 0 && 1 <= d <= 6 && d % n.step == 0)
  {
    ZeroMod(z.step);
    ZeroMod(n.step);
  }

  lemma ZeroMod(n: int)
    requires n > 0
    ensures 0 % n == 0
  {
  }

  /** Any other part keeps its bounds, and its step unless that is 7 or more. */
  lemma RangeInNumbers(n: Numbers, z: Numbers, d: int)
    requires Zeroing(n, z) && n.step > 0 && z.step > 0 && (n.star || n.hi <= 6) && LowOf(n) <= HighOf(n, 7)
    ensures LowOf(z) == LowOf(n) && HighOf(z, 6) == (if n.star then 6 else n.hi)
    ensures var means, gives := MeansIn(n, d), InSteps(d, LowOf(z), HighOf(z, 6), z.step);
            && (means ==> gives)
            && (gives && !means <==> z.step != n.step && LowOf(z) < d <= HighOf(z, 6) && (d - LowOf(z)) % z.step == 0)
  {
    ZeroMod(n.step);
    ZeroMod(z.step);
    if n.step >= 7 && 0 <= d - LowOf(n) <= 6 {
      SmallMod(d - LowOf(n), n.step);
    }
  }

  // ---- One part alone ------------------------------------------------------

  /** The part says what it means, in its numbers with and without the sevens. */
  predicate PlainPart(part: string) {
    match (NumbersOf(part), NumbersOf(SevensToZeros(part)))
    case (Some(n), Some(z)) =>
      if n.step > 0 && LowOf(n) <= HighOf(n, 7) <= 7 then
        && z.step > 0
        && if n.star then z.step == n.step || z.step > 6
           else if n.hi == 7 then n.lo == 7 || (n.lo == 0 && n.step > 6)
           else z.step == n.step || n.lo + z.step > n.hi
      else
        z.step == 0 || LowOf(z) > HighOf(z, 6) || HighOf(z, 6) > 6
    case _ => true
  }

  /** Both readings reject the part, or both hold the same days. */
  ghost predicate PartAgrees(part: string) {
    && (Valid(part) <==> Accepted(part))
    && (Valid(part) ==> forall d :: MeansDay(part, d) <==> GivesDay(part, d))
  }

  /** Exactly then. */
  lemma PlainPartExact(part: string)
    ensures PlainPart(part) <==> PartAgrees(part)
  {
    hide NumbersOf, SevensToZeros, Valid, Accepted, DenotedBy, GivesDay, MeansDay;
    PartInNumbers(part, 0);
    NumbersZeroed(part);
    if Valid(part) && Accepted(part) {
      forall d
        ensures Lost(part, d) <==> MeansDay(part, d) && !GivesDay(part, d)
        ensures Gained(part, d) <==> GivesDay(part, d) && !MeansDay(part, d)
      {
        PartDays(part, d);
      }
      var n, z := NumbersOf(part).value, NumbersOf(SevensToZeros(part)).value;
      SelfMod(n.step);
      SelfMod(z.step);
      if PlainPart(part) {
        forall d
          ensures !Lost(part, d) && !Gained(part, d)
        {
          PlainKeepsDays(n, z, d);
        }
      } else {
        assert Lost(part, n.step) || Gained(part, LowOf(z) + z.step);
      }
    }
  }

  lemma SelfMod(n: int)
    requires n > 0
    ensures n % n == 0
  {
  }

  lemma PlainKeepsDays(n: Numbers, z: Numbers, d: int)
    requires Zeroing(n, z) && n.step > 0 && z.step > 0
    requires LowOf(n) <= HighOf(n, 7) <= 7 && LowOf(z) <= HighOf(z, 6) <= 6
    requires if n.star then z.step == n.step || z.step > 6
             else if n.hi == 7 then n.lo == 7 || (n.lo == 0 && n.step > 6)
             else z.step == n.step || n.lo + z.step > n.hi
    ensures !(!n.star && n.lo == 0 && n.hi == 7 && 1 <= d <= 6 && d % n.step == 0)
    ensures !(z.step != n.step && LowOf(z) < d <= HighOf(z, 6) && (d - LowOf(z)) % z.step == 0)
  {
    if 0 <= d < n.step {
      SmallMod(d, n.step);
    }
    if 0 <= d - LowOf(z) < z.step {
      SmallMod(d - LowOf(z), z.step);
    }
  }

  // ---- A list of parts -----------------------------------------------------

  ghost predicate Means(parts: seq<string>, d: int) {
    exists i :: 0 <= i < |parts| && MeansDay(parts[i], d)
  }

  ghost predicate Gives(parts: seq<string>, d: int) {
    exists i :: 0 <= i < |parts| && GivesDay(parts[i], d)
  }

  /** What a day-of-week field means: nothing unless every part is valid, and then
      the days of its parts. */
  ghost function Intended(field: string): Option<set<int>> {
    var parts := SplitOn(field, ',');
    if AllParse(parts, 0, 7) then Some(set d | 0 <= d <= 6 && Means(parts, d)) else None
  }

  /** What the parser makes of it. */
  ghost function DaysOf(field: string): Option<set<int>> {
    FieldValues(SevensToZeros(field), 0, 6)
  }

  predicate SomeNot(parts: seq<string>, p: string -> bool) {
    exists i :: 0 <= i < |parts| && !p(parts[i])
  }

  /** Every day some part loses is given by another part, and every day some part
      gains is meant by another. */
  ghost predicate Covered(parts: seq<string>) {
    forall i, d :: 0 <= i < |parts| ==>
          (Lost(parts[i], d) ==> Gives(parts, d)) && (Gained(parts[i], d) ==> Means(parts, d))
  }

  /** Some part is not accepted and some part is not valid; or all are both, and the
      lost and gained days are covered. */
  ghost predicate PlainField(parts: seq<string>) {
    if SomeNot(parts, Accepted) then SomeNot(parts, Valid) else !SomeNot(parts, Valid) && Covered(parts)
  }

  lemma {:induction false} ZeroedParts(field: string)
    ensures var parts, zeros := SplitOn(field, ','), SplitOn(SevensToZeros(field), ',');
            |zeros| == |parts| && forall i :: 0 <= i < |parts| ==> zeros[i] == SevensToZeros(parts[i])
  {
    hide SevensToZeros, SplitOn;
    if field == "" {
      ZeroedNothing();
    } else {
      var rest := field[1..];
      ZeroedParts(rest);
      ZeroedFirst(field);
      SplitFirst(field, ',');
      SplitFirst(SevensToZeros(field), ',');
      ZeroedSnoc(field[0], SplitOn(rest, ',')[0]);
      ZeroedNothing();
    }
  }

  lemma ZeroedNothing()
    ensures SevensToZeros("") == "" && SplitOn("", ',') == [""]
  {
  }

  lemma SplitFirst(s: string, separator: char)
    requires s != ""
    ensures var rest := SplitOn(s[1..], separator);
            SplitOn(s, separator) == if s[0] == separator then [""] + rest else [[s[0]] + rest[0]] + rest[1..]
  {
  }

  lemma ZeroedFirst(field: string)
    requires field != ""
    ensures var z := SevensToZeros(field);
            z != "" && z[0] == (if field[0] == '7' then '0' else field[0]) && z[1..] == SevensToZeros(field[1..])
  {
  }

  lemma ZeroedSnoc(c: char, s: string)
    ensures SevensToZeros([c] + s) == [if c == '7' then '0' else c] + SevensToZeros(s)
  {
  }

  /** Both sets of a field, through its parts. */
  lemma DaysByPart(field: string)
    ensures var parts := SplitOn(field, ',');
            && (DaysOf(field).None? <==> SomeNot(parts, Accepted))
            && (Intended(field).None? <==> SomeNot(parts, Valid))
            && (DaysOf(field).Some? ==> forall d :: d in DaysOf(field).value <==> Gives(parts, d))
            && (Intended(field).Some? ==> forall d :: d in Intended(field).value <==> Means(parts, d))
  {
    hide ParsePart, SplitOn, SevensToZeros;
    var parts, zeros := SplitOn(field, ','), SplitOn(SevensToZeros(field), ',');
    ZeroedParts(field);
    DenotedInRange(zeros, 0, 6);
    if DaysOf(field).Some? {
      forall d
        ensures d in DaysOf(field).value <==> Gives(parts, d)
      {
        if i :| 0 <= i < |parts| && GivesDay(parts[i], d) {
          assert DenotedBy(zeros[i], 0, 6, d);
        }
      }
    }
  }

  lemma PartsDiffer(parts: seq<string>, i: nat, d: int)
    requires !SomeNot(parts, Valid) && !SomeNot(parts, Accepted) && i < |parts|
    ensures Lost(parts[i], d) <==> MeansDay(parts[i], d) && !GivesDay(parts[i], d)
    ensures Gained(parts[i], d) <==> GivesDay(parts[i], d) && !MeansDay(parts[i], d)
  {
    hide Valid, Accepted, Lost, Gained, GivesDay, MeansDay;
    PartDays(parts[i], d);
  }

  lemma CoveredExact(parts: seq<string>)
    requires !SomeNot(parts, Valid) && !SomeNot(parts, Accepted)
    ensures Covered(parts) <==> forall d :: Gives(parts, d) <==> Means(parts, d)
  {
    hide Valid, Accepted, Lost, Gained, GivesDay, MeansDay, SomeNot;
    forall i, d | 0 <= i < |parts|
      ensures Lost(parts[i], d) <==> MeansDay(parts[i], d) && !GivesDay(parts[i], d)
      ensures Gained(parts[i], d) <==> GivesDay(parts[i], d) && !MeansDay(parts[i], d)
    {
      PartsDiffer(parts, i, d);
    }
    if Covered(parts) {
      forall d
        ensures Gives(parts, d) <==> Means(parts, d)
      {
        if i :| 0 <= i < |parts| && GivesDay(parts[i], d) {
          assert MeansDay(parts[i], d) || Gained(parts[i], d);
        }
        if i :| 0 <= i < |parts| && MeansDay(parts[i], d) {
          assert GivesDay(parts[i], d) || Lost(parts[i], d);
        }
      }
    }
  }

  lemma SameSets(s: set<int>, t: set<int>)
    ensures s == t <==> forall d :: d in s <==> d in t
  {
    if forall d :: d in s <==> d in t {
      assert forall d :: d in s ==> d in t;
      assert s <= t && t <= s;
    }
  }

  /** A day-of-week field is parsed as the days it means, or rejected for not meaning
      any, exactly when it is plain. */
  lemma PlainFieldExact(field: string)
    ensures DaysOf(field) == Intended(field) <==> PlainField(SplitOn(field, ','))
  {
    hide DaysOf, Intended, SplitOn, Valid, Accepted, SomeNot, Covered, Gives, Means;
    var parts := SplitOn(field, ',');
    DaysByPart(field);
    if DaysOf(field).Some? && Intended(field).Some? {
      CoveredExact(parts);
      SameSets(DaysOf(field).value, Intended(field).value);
    }
  }

  /** Parts that are plain one by one make a plain field. */
  lemma PlainParts(field: string)
    requires !SomeNot(SplitOn(field, ','), PlainPart)
    ensures DaysOf(field) == Intended(field)
  {
    hide PlainPart, DaysOf, Intended, SplitOn, Valid, Accepted, Lost, Gained, GivesDay, MeansDay;
    var parts := SplitOn(field, ',');
    PlainFieldExact(field);
    forall i | 0 <= i < |parts|
      ensures PartAgrees(parts[i])
    {
      PlainPartExact(parts[i]);
    }
    forall i, d | 0 <= i < |parts| && Valid(parts[i])
      ensures !Lost(parts[i], d) && !Gained(parts[i], d)
    {
      PartDays(parts[i], d);
    }
  }

  lemma OnePart(part: string, d: int)
    ensures Gives([part], d) <==> GivesDay(part, d)
    ensures Means([part], d) <==> MeansDay(part, d)
  {
    hide GivesDay, MeansDay;
    assert [part][0] == part;
  }

  lemma OneNot(part: string, p: string -> bool)
    ensures SomeNot([part], p) <==> !p(part)
  {
    assert [part][0] == part;
  }

  /** And of a single part the numbers alone decide. */
  lemma PlainAlone(field: string)
    requires ',' !in field
    ensures DaysOf(field) == Intended(field) <==> PlainPart(field)
  {
    hide PlainPart, DaysOf, Intended, Valid, Accepted, GivesDay, MeansDay, Gives, Means, SplitOn, SomeNot;
    NoSeparator(field, ',');
    DaysByPart(field);
    PlainPartExact(field);
    OneNot(field, Accepted);
    OneNot(field, Valid);
    forall d
      ensures Gives([field], d) <==> GivesDay(field, d)
      ensures Means([field], d) <==> MeansDay(field, d)
    {
      OnePart(field, d);
    }
    if DaysOf(field).Some? && Intended(field).Some? {
      SameSets(DaysOf(field).value, Intended(field).value);
    }
  }

  // ---- What this says of written fields ------------------------------------

  /** Without a digit 7 a field always says what it means. */
  lemma SevenFree(field: string)
    requires '7' !in field
    ensures SevensToZeros(field) == field && DaysOf(field) == Intended(field)
  {
    hide PlainPart, DaysOf, Intended, SplitOn;
    var parts := SplitOn(field, ',');
    assert SevensToZeros(field) == field;
    ZeroedParts(field);
    forall i | 0 <= i < |parts|
      ensures PlainPart(parts[i])
    {
      UnchangedIsPlain(parts[i]);
    }
    PlainParts(field);
  }

  lemma UnchangedIsPlain(part: string)
    requires SevensToZeros(part) == part
    ensures PlainPart(part)
  {
    hide NumbersOf;
    NumbersZeroed(part);
  }

  lemma Digit(c: char)
    requires IsDigit(c)
    ensures Numeral([c]) && ParseInt([c]) == c as int - '0' as int
  {
    assert [c][..0] == "";
  }

  /** A part that is one range. */
  lemma RangeNumbers(a: string, b: string)
    requires Numeral(a) && Numeral(b)
    ensures NumbersOf(a + "-" + b) == Some(Numbers(false, ParseInt(a), ParseInt(b), 1))
  {
    hide ParseInt, RangeDash, StepSlash;
    RangeIsRead(a, b);
    NoSlash(a + "-" + b);
  }

  lemma NoSlash(part: string)
    requires forall i :: 0 <= i < |part| ==> part[i] != '/'
    ensures StepSlash(part).None?
  {
  }

  lemma NumeralNumbers(s: string)
    requires Numeral(s)
    ensures NumbersOf(s) == Some(Numbers(false, ParseInt(s), ParseInt(s), 1)) && ',' !in s
  {
    hide ParseInt, StepSlash;
    NumeralHasNoDash(s);
    NoSlash(s);
  }

  lemma GivesSunday(part: string)
    requires ',' !in part && NumbersOf(SevensToZeros(part)) == Some(Numbers(false, 0, 0, 1))
    ensures DaysOf(part) == Some({0})
  {
    hide NumbersOf, SevensToZeros, Accepted, GivesDay, DaysOf, SplitOn, Gives, SomeNot;
    NoSeparator(part, ',');
    DaysByPart(part);
    OneNot(part, Accepted);
    PartInNumbers(part, 0);
    forall d
      ensures Gives([part], d) <==> d == 0
    {
      OnePart(part, d);
      PartInNumbers(part, d);
    }
    SameSets(DaysOf(part).value, {0});
  }

  /** Every range up to 7 is rejected, but for one from 0, which is read as Sunday. */
  lemma RangeToSeven(lo: string)
    requires Numeral(lo)
    ensures DaysOf(lo + "-7") == if ParseInt(SevensToZeros(lo)) == 0 then Some({0}) else None
  {
    hide ParseInt, NumbersOf, Accepted, SevensToZeros, DaysOf, SplitOn, SomeNot;
    var field, zeros := lo + "-7", SevensToZeros(lo);
    ZeroedNumeral(lo);
    ToSeven(lo);
    Digit('0');
    RangeNumbers(zeros, "0");
    if ParseInt(zeros) == 0 {
      GivesSunday(field);
    } else {
      NoSeparator(field, ',');
      DaysByPart(field);
      OneNot(field, Accepted);
      PartInNumbers(field, 0);
    }
  }

  lemma ToSeven(lo: string)
    requires Numeral(lo)
    ensures SevensToZeros(lo + "-7") == SevensToZeros(lo) + "-" + "0" && ',' !in lo + "-7"
  {
    var s := lo + "-7";
    assert forall i :: 0 <= i < |s| ==> s[i] == if i < |lo| then lo[i] else "-7"[i - |lo|];
  }

  /** `0-7` is to be every day and becomes Sunday alone. */
  lemma WholeWeekIsSunday()
    ensures DaysOf("0-7") == Some({0}) && Intended("0-7") == Some({0, 1, 2, 3, 4, 5, 6})
  {
    hide ParseInt, NumbersOf, SevensToZeros, DaysOf, Intended;
    Digit('0');
    Digit('7');
    assert "0" + "-7" == "0-7" && "0" + "-" + "7" == "0-7";
    StaysZero("0");
    RangeToSeven("0");
    RangeNumbers("0", "7");
    MeansWeek("0-7");
  }

  lemma MeansWeek(part: string)
    requires ',' !in part && NumbersOf(part) == Some(Numbers(false, 0, 7, 1))
    ensures Intended(part) == Some({0, 1, 2, 3, 4, 5, 6})
  {
    hide NumbersOf, SevensToZeros, Valid, MeansDay, Intended, SplitOn, Means, SomeNot, DenotedBy;
    NoSeparator(part, ',');
    DaysByPart(part);
    OneNot(part, Valid);
    PartInNumbers(part, 0);
    forall d
      ensures Means([part], d) <==> 0 <= d <= 6
    {
      MeansEveryDay(part, d);
    }
    IsWeek(Intended(part).value);
  }

  lemma IsWeek(s: set<int>)
    requires forall d :: d in s <==> 0 <= d <= 6
    ensures s == {0, 1, 2, 3, 4, 5, 6}
  {
    SameSets(s, {0, 1, 2, 3, 4, 5, 6});
  }

  lemma MeansEveryDay(part: string, d: int)
    requires NumbersOf(part) == Some(Numbers(false, 0, 7, 1))
    ensures Means([part], d) <==> 0 <= d <= 6
  {
    hide NumbersOf, SevensToZeros, MeansDay, Means, DenotedBy;
    OnePart(part, d);
    PartInNumbers(part, d);
    MeansDayIs(part, d);
  }

  lemma MeansDayIs(part: string, d: int)
    ensures MeansDay(part, d) <==> 0 <= d <= 6 && (DenotedBy(part, 0, 7, d) || (d == 0 && DenotedBy(part, 0, 7, 7)))
  {
  }

  lemma StaysZero(s: string)
    requires s == "0"
    ensures SevensToZeros(s) == s
  {
  }

  /** 7 alone is Sunday, as meant. */
  lemma SevenIsSunday()
    ensures DaysOf("7") == Some({0}) == Intended("7")
  {
    hide ParseInt, NumbersOf, SevensToZeros, Accepted, GivesDay, DaysOf, Intended, PlainPart, SplitOn, Gives, SomeNot;
    assert SevensToZeros("7") == "0" by {
      SevenZeroed();
    }
    Digit('7');
    Digit('0');
    NumeralNumbers("7");
    NumeralNumbers("0");
    assert PlainPart("7") by {
      IsPlainPart("7");
    }
    PlainAlone("7");
    GivesSunday("7");
  }

  lemma SevenZeroed()
    ensures SevensToZeros("7") == "0" && SevensToZeros("70") == "00"
  {
  }

  lemma IsPlainPart(part: string)
    requires NumbersOf(part) == Some(Numbers(false, 7, 7, 1))
             && NumbersOf(SevensToZeros(part)) == Some(Numbers(false, 0, 0, 1))
    ensures PlainPart(part)
  {
    hide NumbersOf, SevensToZeros;
  }

  /** And 70, which is no day, is Sunday too. */
  lemma SeventyIsSunday()
    ensures DaysOf("70") == Some({0}) && Intended("70") == None
  {
    hide ParseInt, NumbersOf, SevensToZeros, Valid, DaysOf, Intended, SplitOn, SomeNot;
    SevenZeroed();
    assert ParseInt("70") == 70 && ParseInt("00") == 0 by {
      TwoDigits("70");
      TwoDigits("00");
    }
    assert Numeral("70") && Numeral("00");
    NumeralNumbers("70");
    NumeralNumbers("00");
    GivesSunday("70");
    NoSeparator("70", ',');
    DaysByPart("70");
    OneNot("70", Valid);
    PartInNumbers("70", 0);
  }

  lemma TwoDigits(s: string)
    requires |s| == 2 && AllDigits(s)
    ensures ParseInt(s) == (s[0] as int - '0' as int) * 10 + (s[1] as int - '0' as int)
  {
    assert s[..1] == [s[0]];
    Digit(s[0]);
  }

  /** A step of 7 anywhere in a field is a step of 0, and rejects the field. */
  lemma StepOfSevenRejected(field: string, i: nat, base: string)
    requires i < |SplitOn(field, ',')| && SplitOn(field, ',')[i] == base + "/7"
    ensures DaysOf(field) == None
  {
    hide SplitOn, Accepted, SevensToZeros, DaysOf;
    DaysByPart(field);
    StepOfSevenPart(base + "/7", base);
    assert !Accepted(SplitOn(field, ',')[i]);
  }

  lemma StepOfSevenPart(part: string, base: string)
    requires part == base + "/7"
    ensures !Accepted(part)
  {
    hide ParseInt, SevensToZeros, StepSlash, Accepted, ReadBase;
    PartInNumbers(part, 0);
    NumbersZeroed(part);
    Digit('7');
    if base == "" {
      OnlyStep(part);
    } else {
      assert part[|base| + 1..] == "7";
      StepSlashExact(part, |base|);
      BaseStep(part[..|base|], 7);
    }
  }

  lemma BaseStep(base: string, step: nat)
    ensures ReadBase(base, step).Some? ==> ReadBase(base, step).value.step == step
  {
    hide ParseInt, RangeDash;
  }

  lemma OnlyStep(part: string)
    requires part == "/7"
    ensures NumbersOf(part).None?
  {
    assert part[0] == '/' && !IsDigit('/') && DigitsEnd(part, 0) == 0 && DigitsStart(part) == 1;
  }
}
