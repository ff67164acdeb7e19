/**
  Strict parsing of UTC instants (licensing/local-instant.ts) over the time arithmetic of
  ECMA-262 (sections 21.4.1 and 21.4.3.4), with its reading of the years 0 to 99 as 1900 to
  1999. A text is accepted exactly if it names a real date and time of the year 100 or later.
*/
module UtcInstants {
  import opened Wrappers
  import opened TextFormats

  const MS_PER_DAY := 86_400_000

  /** The numbers written in a text, or read back from an epoch time. */
  datatype Fields = Fields(year: int, month: int, day: int, hour: int, minute: int, second: int, millis: int)

  // ----- the calendar (ECMA-262, section 21.4.1) ----------------------------------------------

  predicate IsLeap(y: int) { y % 4 == 0 && (y % 100 != 0 || y % 400 == 0) }

  function DayFromYear(y: int): int {
    365 * (y - 1970) + (y - 1969) / 4 - (y - 1901) / 100 + (y - 1601) / 400
  }

  function DaysInYear(y: int): int { if IsLeap(y) then 366 else 365 }

  /** The first day of a month within its year; month 12 stands for the end of the year. */
  function MonthStart(month: int, leap: bool): int
    requires 0 <= month <= 12
  {
    [0, 31, 59, 90, 120, 151, 181, 212, 243, 273, 304, 334, 365][month] + if leap && month > 1 then 1 else 0
  }

  function DaysInMonth(y: int, month: int): int
    requires 0 <= month < 12
  {
    MonthStart(month + 1, IsLeap(y)) - MonthStart(month, IsLeap(y))
  }

  function YearUp(y: int, day: int): (r: int)
    requires DayFromYear(y) <= day
    ensures DayFromYear(r) <= day < DayFromYear(r + 1)
    decreases day - DayFromYear(y)
  {
    YearLength(y);
    if DayFromYear(y + 1) <= day then YearUp(y + 1, day) else y
  }

  function YearDown(y: int, day: int): (r: int)
    requires day < DayFromYear(y + 1)
    ensures DayFromYear(r) <= day < DayFromYear(r + 1)
    decreases DayFromYear(y + 1) - day
  {
    YearLength(y);
    if day < DayFromYear(y) then YearDown(y - 1, day) else y
  }

  /** YearFromTime: the year that contains the day. */
  function YearOfDay(day: int): (r: int)
    ensures DayFromYear(r) <= day < DayFromYear(r + 1)
  {
    if DayFromYear(1970) <= day then YearUp(1970, day) else YearDown(1969, day)
  }

  /** MonthFromTime: the month that contains a day of the year. */
  function MonthFrom(month: int, dayInYear: int, leap: bool): (r: int)
    requires 0 <= month < 12 && MonthStart(month, leap) <= dayInYear < MonthStart(12, leap)
    ensures 0 <= r < 12 && MonthStart(r, leap) <= dayInYear < MonthStart(r + 1, leap)
    decreases 12 - month
  {
    if month == 11 || dayInYear < MonthStart(month + 1, leap) then month else MonthFrom(month + 1, dayInYear, leap)
  }

  /** MakeDay, for a month that may lie outside its year. */
  function MakeDay(year: int, month: int, date: int): int {
    var y, m := year + month / 12, month % 12;
    DayFromYear(y) + MonthStart(m, IsLeap(y)) + date - 1
  }

  function MakeFullYear(year: int): int { if 0 <= year <= 99 then 1900 + year else year }

  /** Date.UTC */
  function EpochMs(f: Fields): int {
    MakeDay(MakeFullYear(f.year), f.month - 1, f.day) * MS_PER_DAY
    + f.hour * 3_600_000 + f.minute * 60_000 + f.second * 1_000 + f.millis
  }

  /** The getUTC… functions of a Date. */
  function Decode(t: int): Fields {
    var day, ms := t / MS_PER_DAY, t % MS_PER_DAY;
    var year := YearOfDay(day);
    YearLength(year);
    var dayInYear := day - DayFromYear(year);
    var month := MonthFrom(0, dayInYear, IsLeap(year));
    Fields(year, month + 1, dayInYear - MonthStart(month, IsLeap(year)) + 1,
           ms / 3_600_000, ms / 60_000 % 60, ms / 1_000 % 60, ms % 1_000)
  }

  // ----- parsing ------------------------------------------------------------------------------

  function DigitsValue(s: string): (n: nat)
    requires AllDigits(s)
  {
    if s == "" then 0 else 10 * DigitsValue(s[..|s| - 1]) + (s[|s| - 1] as int - '0' as int)
  }

  /** `padEnd(3, '0')` */
  function PadMillis(fraction: string): (millis: string)
    requires |fraction| <= 3 && AllDigits(fraction)
    ensures |millis| == 3 && AllDigits(millis)
  {
    fraction + seq(3 - |fraction|, _ => '0')
  }

  /** The digits after the point, if there is one. */
  function Fraction(s: string): (fraction: string)
    requires MatchesUtcInstant(s)
    ensures |fraction| <= 3 && AllDigits(fraction)
  {
    if |s| == 20 then "" else s[20..|s| - 1]
  }

  function FieldsOf(s: string): Fields
    requires MatchesUtcInstant(s)
  {
    Fields(DigitsValue(s[..19][..4]), DigitsValue(s[..19][5..7]), DigitsValue(s[..19][8..10]),
           DigitsValue(s[..19][11..13]), DigitsValue(s[..19][14..16]), DigitsValue(s[..19][17..]),
           DigitsValue(PadMillis(Fraction(s))))
  }

  /** `parseLicenceUtcInstant`: the epoch time, if reading it back gives the fields of the text. */
  function Parse(s: string): Option<int> {
    if s == "" || |s| > 64 || !MatchesUtcInstant(s) then None
    else
      var epochMs := EpochMs(FieldsOf(s));
      if Decode(epochMs) == FieldsOf(s) then Some(epochMs) else None
  }

  // ----- what is accepted ---------------------------------------------------------------------

  /** A date of the Gregorian calendar and a time of day. */
  predicate IsReal(f: Fields) {
    && 1 <= f.month <= 12 && 1 <= f.day <= DaysInMonth(f.year, f.month - 1)
    && 0 <= f.hour < 24 && 0 <= f.minute < 60 && 0 <= f.second < 60 && 0 <= f.millis < 1_000
  }

  lemma YearLength(y: int)
    ensures DayFromYear(y + 1) - DayFromYear(y) == DaysInYear(y)
    ensures MonthStart(12, IsLeap(y)) == DaysInYear(y)
  {
    assert (y - 1968) / 4 - (y - 1969) / 4 == if y % 4 == 0 then 1 else 0;
    assert (y - 1900) / 100 - (y - 1901) / 100 == if y % 100 == 0 then 1 else 0;
    assert (y - 1600) / 400 - (y - 1601) / 400 == if y % 400 == 0 then 1 else 0;
  }

  lemma {:induction false} YearsAscend(y: int, z: int)
    requires y <= z
    ensures DayFromYear(y) <= DayFromYear(z) && DayFromYear(z) - DayFromYear(y) >= 365 * (z - y)
    decreases z - y
  {
    if y < z {
      YearLength(y);
      YearsAscend(y + 1, z);
    }
  }

  lemma YearIsUnique(y: int, day: int)
    requires DayFromYear(y) <= day < DayFromYear(y + 1)
    ensures YearOfDay(day) == y
  {
    hide YearOfDay, DayFromYear;
    var r := YearOfDay(day);
    if r < y { YearsAscend(r + 1, y); }
    if y < r { YearsAscend(y + 1, r); }
  }

  lemma MonthsAscend(a: int, b: int, leap: bool)
    requires 0 <= a < b <= 12
    ensures MonthStart(a + 1, leap) <= MonthStart(b, leap)
  {
  }

  lemma MonthIsUnique(month: int, dayInYear: int, leap: bool)
    requires 0 <= month < 12 && MonthStart(month, leap) <= dayInYear < MonthStart(month + 1, leap)
    ensures 0 <= dayInYear < MonthStart(12, leap)
    ensures MonthFrom(0, dayInYear, leap) == month
  {
    hide MonthFrom, MonthStart;
    MonthBounds(month, leap);
    var r := MonthFrom(0, dayInYear, leap);
    if r < month { MonthsAscend(r, month, leap); }
    if month < r { MonthsAscend(month, r, leap); }
  }

  lemma MonthBounds(month: int, leap: bool)
    requires 0 <= month < 12
    ensures 0 == MonthStart(0, leap) <= MonthStart(month, leap)
    ensures MonthStart(month + 1, leap) <= MonthStart(12, leap)
  {
  }

  /** Whatever the epoch time, its fields are a real date and time. */
  lemma DecodedIsReal(t: int)
    ensures IsReal(Decode(t))
  {
    hide YearOfDay, MonthFrom;
    var day, ms := t / MS_PER_DAY, t % MS_PER_DAY;
    YearLength(YearOfDay(day));
  }

  function DayOf(f: Fields): int { MakeDay(MakeFullYear(f.year), f.month - 1, f.day) }

  function TimeOf(f: Fields): int { f.hour * 3_600_000 + f.minute * 60_000 + f.second * 1_000 + f.millis }

  lemma TimeIsRead(f: Fields)
    requires IsReal(f)
    ensures var ms := TimeOf(f);
            && 0 <= ms < MS_PER_DAY
            && ms / 3_600_000 == f.hour && ms / 60_000 % 60 == f.minute
            && ms / 1_000 % 60 == f.second && ms % 1_000 == f.millis
  {
    var ms := TimeOf(f);
    assert ms / 1_000 == f.hour * 3_600 + f.minute * 60 + f.second;
    assert ms / 60_000 == f.hour * 60 + f.minute;
  }

  lemma RealIsDecoded(f: Fields)
    requires IsReal(f) && f.year >= 100
    ensures Decode(EpochMs(f)) == f
  {
    hide YearOfDay, MonthFrom, TimeOf, DayFromYear;
    var leap := IsLeap(f.year);
    var day := DayOf(f);
    TimeIsRead(f);
    assert EpochMs(f) == day * MS_PER_DAY + TimeOf(f) by { EpochSplits(f); }
    assert EpochMs(f) / MS_PER_DAY == day && EpochMs(f) % MS_PER_DAY == TimeOf(f);
    assert (f.month - 1) / 12 == 0 && (f.month - 1) % 12 == f.month - 1;
    var dayInYear := MonthStart(f.month - 1, leap) + f.day - 1;
    MonthIsUnique(f.month - 1, dayInYear, leap);
    YearLength(f.year);
    YearIsUnique(f.year, day);
  }

  lemma EpochSplits(f: Fields)
    ensures EpochMs(f) == DayOf(f) * MS_PER_DAY + TimeOf(f)
  {
  }

  /** Two-digit years land in the twentieth century, so they never read back as themselves. */
  lemma EarlyYearIsNotDecoded(f: Fields)
    requires 0 <= f.year <= 99 && f.month >= 0 && f.day >= 0 && TimeOf(f) >= 0
    ensures Decode(EpochMs(f)).year > 99
  {
    hide YearOfDay, MonthFrom, TimeOf;
    EpochSplits(f);
    var y := MakeFullYear(f.year) + (f.month - 1) / 12;
    assert y >= 1899;
    assert DayOf(f) >= DayFromYear(y) - 1;
    YearsAscend(1899, y);
    var day := EpochMs(f) / MS_PER_DAY;
    assert day >= DayFromYear(1899) - 1;
    var r := YearOfDay(day);
    if r <= 99 {
      YearsAscend(r + 1, 100);
      YearsAscend(100, 1899);
    }
  }

  /** Exactly the real dates and times from the year 100 on are accepted. */
  lemma AcceptedExactly(s: string)
    ensures Parse(s).Some? <==> MatchesUtcInstant(s) && FieldsOf(s).year >= 100 && IsReal(FieldsOf(s))
  {
    hide Decode, EpochMs, IsReal, FieldsOf;
    if MatchesUtcInstant(s) {
      var f := FieldsOf(s);
      FieldsAreNonNegative(s);
      DecodedIsReal(EpochMs(f));
      if f.year >= 100 {
        if IsReal(f) { RealIsDecoded(f); }
      } else {
        EarlyYearIsNotDecoded(f);
      }
    }
  }

  lemma FieldsAreNonNegative(s: string)
    requires MatchesUtcInstant(s)
    ensures var f := FieldsOf(s);
            f.year >= 0 && f.month >= 0 && f.day >= 0 && TimeOf(f) >= 0
  {
    hide DigitsValue, MatchesDateTime;
  }

  // ----- order --------------------------------------------------------------------------------

  /** Lexicographic order: the first fields that differ decide. */
  predicate Precedes(f: seq<int>, g: seq<int>)
    requires |f| == |g|
  {
    f != [] && (f[0] < g[0] || (f[0] == g[0] && Precedes(f[1..], g[1..])))
  }

  function FieldList(f: Fields): seq<int> { [f.year, f.month, f.day, f.hour, f.minute, f.second, f.millis] }

  /** The fields of one instant come before those of another, from the year down to the millisecond. */
  predicate Before(f: Fields, g: Fields) { Precedes(FieldList(f), FieldList(g)) }

  predicate DateBefore(f: Fields, g: Fields) {
    || f.year < g.year
    || (f.year == g.year && (f.month < g.month || (f.month == g.month && f.day < g.day)))
  }

  predicate TimeBefore(f: Fields, g: Fields) {
    || f.hour < g.hour
    || (f.hour == g.hour && (f.minute < g.minute
    || (f.minute == g.minute && (f.second < g.second || (f.second == g.second && f.millis < g.millis)))))
  }

  predicate SameDate(f: Fields, g: Fields) { f.year == g.year && f.month == g.month && f.day == g.day }

  lemma PrecedesStep(x: int, xs: seq<int>, y: int, ys: seq<int>)
    requires |xs| == |ys|
    ensures Precedes([x] + xs, [y] + ys) <==> x < y || (x == y && Precedes(xs, ys))
  {
    assert ([x] + xs)[1..] == xs && ([y] + ys)[1..] == ys;
  }

  /** The order of the seven fields, unfolded. */
  lemma BeforeIs(f: Fields, g: Fields)
    ensures Before(f, g) <==> DateBefore(f, g) || (SameDate(f, g) && TimeBefore(f, g))
  {
    var time, time' := [f.hour, f.minute, f.second, f.millis], [g.hour, g.minute, g.second, g.millis];
    TimePrecedes(f, g);
    hide Precedes;
    assert FieldList(f) == [f.year] + ([f.month] + ([f.day] + time));
    assert FieldList(g) == [g.year] + ([g.month] + ([g.day] + time'));
    PrecedesStep(f.year, [f.month] + ([f.day] + time), g.year, [g.month] + ([g.day] + time'));
    PrecedesStep(f.month, [f.day] + time, g.month, [g.day] + time');
    PrecedesStep(f.day, time, g.day, time');
  }

  lemma TimePrecedes(f: Fields, g: Fields)
    ensures Precedes([f.hour, f.minute, f.second, f.millis], [g.hour, g.minute, g.second, g.millis])
       <==> TimeBefore(f, g)
  {
    assert !Precedes([], []);
    hide Precedes;
    assert [f.hour, f.minute, f.second, f.millis] == [f.hour] + ([f.minute] + ([f.second] + ([f.millis] + [])));
    assert [g.hour, g.minute, g.second, g.millis] == [g.hour] + ([g.minute] + ([g.second] + ([g.millis] + [])));
    PrecedesStep(f.hour, [f.minute] + ([f.second] + ([f.millis] + [])),
                 g.hour, [g.minute] + ([g.second] + ([g.millis] + [])));
    PrecedesStep(f.minute, [f.second] + ([f.millis] + []), g.minute, [g.second] + ([g.millis] + []));
    PrecedesStep(f.second, [f.millis] + [], g.second, [g.millis] + []);
    PrecedesStep(f.millis, [], g.millis, []);
  }

  /** On times of day the order of the fields is the order of their milliseconds. */
  lemma EarlierTimeIsLess(f: Fields, g: Fields)
    requires IsReal(f) && IsReal(g) && TimeBefore(f, g)
    ensures TimeOf(f) < TimeOf(g)
  {
    hide MonthStart, IsLeap;
  }

  lemma EarlierIsLess(f: Fields, g: Fields)
    requires IsReal(f) && IsReal(g) && f.year >= 100 && g.year >= 100 && Before(f, g)
    ensures EpochMs(f) < EpochMs(g)
  {
    hide DayFromYear, MonthStart, TimeOf, Precedes, Before;
    TimeIsRead(f);
    TimeIsRead(g);
    EpochSplits(f);
    EpochSplits(g);
    DayInYear(f);
    DayInYear(g);
    BeforeIs(f, g);
    if f.year < g.year {
      YearsAscend(f.year + 1, g.year);
    } else if f.month < g.month {
      MonthsAscend(f.month - 1, g.month - 1, IsLeap(f.year));
    } else if f.day == g.day {
      EarlierTimeIsLess(f, g);
    }
  }

  /** The day of a real date, and that it lies in its year and month. */
  lemma DayInYear(f: Fields)
    requires IsReal(f) && f.year >= 100
    ensures DayOf(f) == DayFromYear(f.year) + MonthStart(f.month - 1, IsLeap(f.year)) + f.day - 1
    ensures MonthStart(f.month - 1, IsLeap(f.year)) + f.day <= MonthStart(f.month, IsLeap(f.year))
    ensures DayFromYear(f.year) <= DayOf(f) < DayFromYear(f.year + 1)
  {
    hide DayFromYear;
    assert (f.month - 1) / 12 == 0 && (f.month - 1) % 12 == f.month - 1;
    YearLength(f.year);
    assert MonthStart(f.month, IsLeap(f.year)) <= MonthStart(12, IsLeap(f.year));
  }

  /** On accepted texts, the order of the epoch times is the order of the written fields. */
  lemma EpochOrderIsFieldOrder(s: string, t: string)
    requires Parse(s).Some? && Parse(t).Some?
    ensures Parse(s).value < Parse(t).value <==> Before(FieldsOf(s), FieldsOf(t))
    ensures Parse(s) == Parse(t) <==> FieldsOf(s) == FieldsOf(t)
  {
    hide Decode, EpochMs, IsReal, FieldsOf, Before;
    AcceptedExactly(s);
    AcceptedExactly(t);
    var f, g := FieldsOf(s), FieldsOf(t);
    if Before(f, g) { EarlierIsLess(f, g); }
    if Before(g, f) { EarlierIsLess(g, f); }
    if !Before(f, g) && !Before(g, f) { SameFields(f, g); }
  }

  lemma SameFields(f: Fields, g: Fields)
    requires !Before(f, g) && !Before(g, f)
    ensures f == g
  {
    hide Before;
    BeforeIs(f, g);
    BeforeIs(g, f);
  }

  // ----- writing an accepted instant back -----------------------------------------------------

  /** A number in `width` decimal digits. */
  function Decimals(n: int, width: nat): string
    requires n >= 0
  {
    if width == 0 then "" else Decimals(n / 10, width - 1) + [(n % 10 + '0' as int) as char]
  }

  /** toISOString, for a year of four digits. */
  function Format(f: Fields): string
    requires f.year >= 0 && f.month >= 0 && f.day >= 0 && f.hour >= 0 && f.minute >= 0 && f.second >= 0 && f.millis >= 0
  {
    Decimals(f.year, 4) + "-" + Decimals(f.month, 2) + "-" + Decimals(f.day, 2) + "T"
    + Decimals(f.hour, 2) + ":" + Decimals(f.minute, 2) + ":" + Decimals(f.second, 2)
    + "." + Decimals(f.millis, 3) + "Z"
  }

  lemma {:induction false} DigitsAreWrittenBack(s: string)
    requires AllDigits(s)
    ensures Decimals(DigitsValue(s), |s|) == s
  {
    if s != "" {
      var front, last := s[..|s| - 1], s[|s| - 1];
      DigitsAreWrittenBack(front);
      DigitIsWrittenBack(DigitsValue(front), last);
      assert s == front + [last];
    }
  }

  lemma DigitIsWrittenBack(n: nat, digit: char)
    requires IsDigit(digit)
    ensures var m := 10 * n + (digit as int - '0' as int);
            m / 10 == n && (m % 10 + '0' as int) as char == digit
  {
  }

  /** An accepted text, completed to milliseconds, is what its epoch time is written as. */
  lemma AcceptedIsWrittenBack(s: string)
    requires Parse(s).Some?
    ensures var f := Decode(Parse(s).value);
            && f == FieldsOf(s)
            && Format(f) == s[..19] + "." + PadMillis(Fraction(s)) + "Z"
  {
    hide Decode, EpochMs, IsReal, DigitsValue, Decimals, PadMillis, Fraction;
    var d := s[..19];
    DateTimeParts(d);
    DigitsAreWrittenBack(d[..4]);
    DigitsAreWrittenBack(d[5..7]);
    DigitsAreWrittenBack(d[8..10]);
    DigitsAreWrittenBack(d[11..13]);
    DigitsAreWrittenBack(d[14..16]);
    DigitsAreWrittenBack(d[17..]);
    DigitsAreWrittenBack(PadMillis(Fraction(s)));
  }

  lemma DateTimeParts(d: string)
    requires MatchesDateTime(d)
    ensures d == d[..4] + "-" + d[5..7] + "-" + d[8..10] + "T" + d[11..13] + ":" + d[14..16] + ":" + d[17..]
  {
  }

  // ----- which digits are which field ---------------------------------------------------------

  function Digit(s: string, i: nat): int
    requires i < |s|
  {
    s[i] as int - '0' as int
  }

  function TwoDigits(s: string, i: nat): int
    requires i + 1 < |s|
  {
    10 * Digit(s, i) + Digit(s, i + 1)
  }

  lemma TwoAreRead(s: string, i: nat)
    requires i + 2 <= |s| && AllDigits(s[i..i + 2])
    ensures DigitsValue(s[i..i + 2]) == TwoDigits(s, i)
  {
    var two := s[i..i + 2];
    OneIsRead(s[i]) by { assert two[0] == s[i]; }
    assert two[..1] == [s[i]];
  }

  lemma OneIsRead(c: char)
    requires IsDigit(c)
    ensures AllDigits([c]) && DigitsValue([c]) == c as int - '0' as int
  {
    assert [c][..0] == [];
  }

  /** The digits of a text that are each field of its instant. */
  lemma FieldsAreDigits(s: string)
    requires MatchesUtcInstant(s)
    ensures var f := FieldsOf(s);
            && f.year == 100 * TwoDigits(s, 0) + TwoDigits(s, 2) && f.month == TwoDigits(s, 5)
            && f.day == TwoDigits(s, 8) && f.hour == TwoDigits(s, 11) && f.minute == TwoDigits(s, 14)
            && f.second == TwoDigits(s, 17)
            && f.millis == (if |s| == 20 then 0 else 100 * Digit(s, 20))
                           + (if |s| > 22 then 10 * Digit(s, 21) else 0) + (if |s| > 23 then Digit(s, 22) else 0)
  {
    var d := s[..19];
    TwoAreRead(d, 5);
    TwoAreRead(d, 8);
    TwoAreRead(d, 11);
    TwoAreRead(d, 14);
    TwoAreRead(d, 17);
    assert d[17..] == d[17..19];
    YearIsRead(d);
    MillisAreRead(s);
    hide DigitsValue, Digit;
    assert forall i :: 0 <= i < 19 ==> Digit(d, i) == Digit(s, i) by { SameDigits(s); }
  }

  lemma SameDigits(s: string)
    requires |s| >= 19
    ensures forall i :: 0 <= i < 19 ==> Digit(s[..19], i) == Digit(s, i)
  {
  }

  lemma YearIsRead(d: string)
    requires |d| == 19 && AllDigits(d[..4])
    ensures DigitsValue(d[..4]) == 100 * TwoDigits(d, 0) + TwoDigits(d, 2)
  {
    var year := d[..4];
    assert year[..3][..2] == d[0..2] && year[..3][2] == d[2] && year[3] == d[3];
    assert AllDigits(d[0..2]) by { assert forall i :: 0 <= i < 2 ==> d[0..2][i] == year[i]; }
    TwoAreRead(d, 0);
  }

  lemma MillisAreRead(s: string)
    requires MatchesUtcInstant(s)
    ensures DigitsValue(PadMillis(Fraction(s)))
         == (if |s| == 20 then 0 else 100 * Digit(s, 20)) + (if |s| > 22 then 10 * Digit(s, 21) else 0)
            + (if |s| > 23 then Digit(s, 22) else 0)
  {
    hide MatchesDateTime;
    var millis := PadMillis(Fraction(s));
    assert |s| == 20 || |s| == 22 || |s| == 23 || |s| == 24;
    TwoAreRead(millis, 0);
    assert millis[..2] == millis[0..2];
    assert DigitsValue(millis) == 10 * DigitsValue(millis[..2]) + Digit(millis, 2);
  }

  // ----- the calendar, day by day -------------------------------------------------------------

  /** The length of a month of the Gregorian calendar. */
  function MonthLength(year: int, month: int): int {
    if month == 2 then if year % 4 == 0 && (year % 100 != 0 || year % 400 == 0) then 29 else 28
    else if month == 4 || month == 6 || month == 9 || month == 11 then 30
    else 31
  }

  /** The same time on the next day. */
  function NextDay(f: Fields): Fields {
    if f.day < MonthLength(f.year, f.month) then f.(day := f.day + 1)
    else if f.month < 12 then f.(month := f.month + 1, day := 1)
    else f.(year := f.year + 1, month := 1, day := 1)
  }

  /** What is real is what the calendar and the clock have. */
  lemma RealExactly(f: Fields)
    ensures IsReal(f) <==>
              && 1 <= f.month <= 12 && 1 <= f.day <= MonthLength(f.year, f.month)
              && 0 <= f.hour <= 23 && 0 <= f.minute <= 59 && 0 <= f.second <= 59 && 0 <= f.millis <= 999
  {
  }

  /**
    The epoch times are those of the calendar: the epoch is midnight of the first of January 1970,
    each day is 86 400 000 ms after the day before, and the time of day is added to its midnight.
    These three determine the epoch time of every date.
  */
  lemma EpochIsCalendar(f: Fields)
    requires IsReal(f) && f.year >= 100
    ensures EpochMs(Fields(1970, 1, 1, 0, 0, 0, 0)) == 0
    ensures EpochMs(NextDay(f)) == EpochMs(f) + 86_400_000 && IsReal(NextDay(f)) && NextDay(f).year >= 100
    ensures EpochMs(f) - EpochMs(f.(hour := 0, minute := 0, second := 0, millis := 0))
         == ((f.hour * 60 + f.minute) * 60 + f.second) * 1_000 + f.millis
  {
    hide DayFromYear, TimeOf;
    EpochSplits(f);
    EpochSplits(NextDay(f));
    NextDayFollows(f);
    var midnight := f.(hour := 0, minute := 0, second := 0, millis := 0);
    EpochSplits(midnight);
    assert DayOf(f) == DayOf(midnight);
    assert DayFromYear(1970) == 0 by { EpochYear(); }
    TimesOfDay(f, midnight);
  }

  lemma TimesOfDay(f: Fields, midnight: Fields)
    requires midnight == f.(hour := 0, minute := 0, second := 0, millis := 0)
    ensures TimeOf(f) - TimeOf(midnight) == ((f.hour * 60 + f.minute) * 60 + f.second) * 1_000 + f.millis
    ensures TimeOf(NextDay(f)) == TimeOf(f)
  {
  }

  lemma DayInMonth(f: Fields)
    requires 1 <= f.month <= 12 && f.year >= 100
    ensures DayOf(f) == DayFromYear(f.year) + MonthStart(f.month - 1, IsLeap(f.year)) + f.day - 1
  {
    hide DayFromYear;
    assert (f.month - 1) / 12 == 0 && (f.month - 1) % 12 == f.month - 1;
  }

  lemma NextDayFollows(f: Fields)
    requires IsReal(f) && f.year >= 100
    ensures DayOf(NextDay(f)) == DayOf(f) + 1 && IsReal(NextDay(f)) && NextDay(f).year >= 100
  {
    hide DayFromYear, DayOf;
    RealExactly(f);
    RealExactly(NextDay(f));
    DayInMonth(f);
    DayInMonth(NextDay(f));
    YearLength(f.year);
  }

  lemma EpochYear()
    ensures DayFromYear(1970) == 0
  {
  }
}
