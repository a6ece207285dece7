/**
 * Gregorian calendar arithmetic as JavaScript's `Date` does it for the calendar views,
 * and the `YYYY-MM-DD` keys (the ISO 8601 calendar-date extended format) they use to
 * name a day.
 */
module Dates {
  import opened Opt
  import opened Text

  /** A date as the three numbers of a `YYYY-MM-DD` key; `month` counts from 1. */
  datatype CivilDate = CivilDate(year: int, month: int, day: int)

  /** A displayed month; `month0` counts from 0, as `Date.getMonth` does. */
  datatype YearMonth = YearMonth(year: int, month0: int)

  /** Strict chronological order of dates. */
  predicate Before(a: CivilDate, b: CivilDate) {
    || a.year < b.year
    || (a.year == b.year && a.month < b.month)
    || (a.year == b.year && a.month == b.month && a.day < b.day)
  }

  predicate IsLeapYear(y: int) {
    y % 4 == 0 && (y % 100 != 0 || y % 400 == 0)
  }

  /** The number of days of month `month0` of year `y` in the Gregorian calendar. */
  function DaysInMonth(y: int, month0: int): (n: int)
    requires 0 <= month0 < 12
    ensures 28 <= n <= 31
  {
    if month0 == 1 then (if IsLeapYear(y) then 29 else 28)
    else if month0 == 3 || month0 == 5 || month0 == 8 || month0 == 10 then 30
    else 31
  }

  /**
   * The day number of a date of the proleptic Gregorian calendar, counted from
   * 1970-01-01 (negative before it); `m` counts from 1. The year is counted from March
   * so that the leap day falls last, and whole 400-year eras of 146097 days are split off.
   */
  function DaysFromCivil(y: int, m: int, d: int): int
    requires 1 <= m <= 12
  {
    var y' := if m <= 2 then y - 1 else y;
    var era := y' / 400;
    var yoe := y' % 400;
    var mp := if m > 2 then m - 3 else m + 9;
    var doy := (153 * mp + 2) / 5 + d - 1;
    var doe := yoe * 365 + yoe / 4 - yoe / 100 + doy;
    era * 146097 + doe - 719468
  }

  /** `getDay()` of a day number: 0 is Sunday, and 1970-01-01 was a Thursday. */
  function Weekday(days: int): (w: int)
    ensures 0 <= w < 7
  {
    (days + 4) % 7
  }

  /** The month after the given one, December rolling over to January of the next year. */
  function NextMonth(ym: YearMonth): YearMonth {
    if ym.month0 == 11 then YearMonth(ym.year + 1, 0) else YearMonth(ym.year, ym.month0 + 1)
  }

  /** The month before the given one, January rolling back to December of the previous year. */
  function PrevMonth(ym: YearMonth): YearMonth {
    if ym.month0 == 0 then YearMonth(ym.year - 1, 11) else YearMonth(ym.year, ym.month0 - 1)
  }

  /** Both moves keep the month in 0..11 and undo each other. */
  lemma NavigationRoundTrip(ym: YearMonth)
    requires 0 <= ym.month0 < 12
    ensures 0 <= NextMonth(ym).month0 < 12 && 0 <= PrevMonth(ym).month0 < 12
    ensures PrevMonth(NextMonth(ym)) == ym && NextMonth(PrevMonth(ym)) == ym
  {
  }

  /**
   * `new Date(y, m, d)` reads a year 0..99 as 1900 + y. (A date string is not
   * affected: `new Date("0099-01-01")` is in year 99.)
   */
  function JsYear(y: int): int {
    if 0 <= y <= 99 then 1900 + y else y
  }

  /**
   * `new Date(y, m + 1, 0).getDate()`: day 0 of the next month is the last day of
   * month `m`, so this is the length of month `m` (see MonthLength).
   */
  function DaysInMonthJs(ym: YearMonth): (n: int)
    requires 0 <= ym.month0 < 12
    ensures 28 <= n <= 31
  {
    DaysInMonth(JsYear(ym.year), ym.month0)
  }

  /** `new Date(y, m, 1).getDay()`: the weekday of the month's first day, Sunday = 0. */
  function FirstWeekdayJs(ym: YearMonth): (w: int)
    requires 0 <= ym.month0 < 12
    ensures 0 <= w < 7
  {
    Weekday(DaysFromCivil(JsYear(ym.year), ym.month0 + 1, 1))
  }

  /** Going from the first of March back to the first of February crosses 28 days, 29 in a leap year. */
  lemma FebruaryLength(y: int)
    ensures DaysFromCivil(y, 3, 1) == DaysFromCivil(y, 2, 1) + (if IsLeapYear(y) then 29 else 28)
  {
    var era, r := y / 400, y % 400;
    LeapByRemainder(y);
    PreviousYearOfEra(y);
    assert DaysFromCivil(y, 3, 1) == era * 146097 + r * 365 + r / 4 - r / 100 - 719468;
    if r == 0 {
      assert DaysFromCivil(y, 2, 1) == (era - 1) * 146097 + 399 * 365 + 399 / 4 - 399 / 100 + 337 - 719468;
    } else {
      assert DaysFromCivil(y, 2, 1) == era * 146097 + (r - 1) * 365 + (r - 1) / 4 - (r - 1) / 100 + 337 - 719468;
      YearOfEraStep(r);
    }
  }

  /** The year before `y` is the last year of the previous era when `y` starts one, else one year earlier in the same era. */
  lemma PreviousYearOfEra(y: int)
    ensures y % 400 == 0 ==> (y - 1) / 400 == y / 400 - 1 && (y - 1) % 400 == 399
    ensures y % 400 != 0 ==> (y - 1) / 400 == y / 400 && (y - 1) % 400 == y % 400 - 1
  {
  }

  /** The leap rule reads the same on the year's place in its 400-year era. */
  lemma LeapByRemainder(y: int)
    ensures IsLeapYear(y) <==> y % 400 == 0 || (y % 400 % 4 == 0 && y % 400 % 100 != 0)
  {
    var era, r := y / 400, y % 400;
    assert y == r + 4 * (100 * era) && y == r + 100 * (4 * era);
    ShiftMod4(r, 100 * era);
    ShiftMod100(r, 4 * era);
  }

  /** Adding whole weeks, fours or hundreds leaves the remainder as it was. */
  lemma ShiftMod7(b: int, q: int)
    ensures (b + 7 * q) % 7 == b % 7
  {
  }

  lemma ShiftMod4(b: int, q: int)
    ensures (b + 4 * q) % 4 == b % 4
  {
  }

  lemma ShiftMod100(b: int, q: int)
    ensures (b + 100 * q) % 100 == b % 100
  {
  }

  /** One more year of an era adds 365 days, plus one when it is a leap year of the era. */
  lemma YearOfEraStep(r: int)
    requires 1 <= r < 400
    ensures r * 365 + r / 4 - r / 100 - ((r - 1) * 365 + (r - 1) / 4 - (r - 1) / 100)
         == 365 + (if r % 4 == 0 then 1 else 0) - (if r % 100 == 0 then 1 else 0)
  {
    assert r / 4 - (r - 1) / 4 == if r % 4 == 0 then 1 else 0;
    assert r / 100 - (r - 1) / 100 == if r % 100 == 0 then 1 else 0;
  }

  /**
   * The first day of the next month comes exactly DaysInMonth days after the first day
   * of this month: the day before it (day 0 of the next month) is day DaysInMonth.
   */
  lemma MonthLength(ym: YearMonth)
    requires 0 <= ym.month0 < 12
    ensures var n := NextMonth(ym);
      DaysFromCivil(n.year, n.month0 + 1, 1) == DaysFromCivil(ym.year, ym.month0 + 1, 1) + DaysInMonth(ym.year, ym.month0)
  {
    if ym.month0 == 1 {
      FebruaryLength(ym.year);
    } else if ym.month0 < 6 {
      EarlyMonthLength(ym.year, ym.month0);
    } else {
      LateMonthLength(ym.year, ym.month0);
    }
  }

  /** MonthLength for January and March to June, one month at a time. */
  lemma EarlyMonthLength(y: int, month0: int)
    requires 0 <= month0 < 6 && month0 != 1
    ensures DaysFromCivil(y, month0 + 2, 1) == DaysFromCivil(y, month0 + 1, 1) + DaysInMonth(y, month0)
  {
    if month0 == 0 {
    } else if month0 == 2 {
    } else if month0 == 3 {
    } else if month0 == 4 {
    } else {
    }
  }

  /** MonthLength for July to December, December running into January of the next year. */
  lemma LateMonthLength(y: int, month0: int)
    requires 6 <= month0 < 12
    ensures var n := NextMonth(YearMonth(y, month0));
      DaysFromCivil(n.year, n.month0 + 1, 1) == DaysFromCivil(y, month0 + 1, 1) + DaysInMonth(y, month0)
  {
    if month0 == 6 {
    } else if month0 == 7 {
    } else if month0 == 8 {
    } else if month0 == 9 {
    } else if month0 == 10 {
    } else {
    }
  }

  /** The next month starts on the weekday reached by counting this month's days on from its first. */
  lemma NextFirstWeekday(ym: YearMonth)
    requires 0 <= ym.month0 < 12
    ensures var n := NextMonth(ym);
      Weekday(DaysFromCivil(n.year, n.month0 + 1, 1))
        == (Weekday(DaysFromCivil(ym.year, ym.month0 + 1, 1)) + DaysInMonth(ym.year, ym.month0)) % 7
  {
    MonthLength(ym);
    var a := DaysFromCivil(ym.year, ym.month0 + 1, 1) + 4;
    var n := DaysInMonth(ym.year, ym.month0);
    assert a + n == (a % 7 + n) + 7 * (a / 7);
    ShiftMod7(a % 7 + n, a / 7);
  }

  /** The key `${year}-${MM}-${DD}` built for a day; `month0` counts from 0 and is shown plus one. */
  function DateKey(year: int, month0: int, day: int): string {
    IntToString(year) + KeySuffix(month0, day)
  }

  /** The `-MM-DD` part of a key. */
  function KeySuffix(month0: int, day: int): string {
    "-" + Pad2(IntToString(month0 + 1)) + "-" + Pad2(IntToString(day))
  }

  /** For a month 0..11 and a day 1..99 the `-MM-DD` part is six characters that spell both. */
  lemma KeySuffixParts(month0: int, day: int)
    requires 0 <= month0 < 12 && 1 <= day <= 99
    ensures var t := KeySuffix(month0, day);
      && |t| == 6 && t[0] == '-' && t[3] == '-' && AllDigits(t[1..3]) && AllDigits(t[4..])
      && RadixValue(t[1..3], 10) == month0 + 1 && RadixValue(t[4..], 10) == day
  {
    var m, d := Pad2(IntToString(month0 + 1)), Pad2(IntToString(day));
    Pad2Digits(month0 + 1);
    Pad2Digits(day);
    var t := KeySuffix(month0, day);
    assert t == ['-'] + m + ['-'] + d;
    assert t[1..3] == m && t[4..] == d;
  }

  /** Four digits, a dash, two digits, a dash, two digits. */
  predicate IsKeyShape(s: string) {
    && |s| == 10
    && AllDigits(s[..4]) && s[4] == '-' && AllDigits(s[5..7]) && s[7] == '-' && AllDigits(s[8..])
  }

  /** The date a key of the right shape spells. */
  function ParseKey(s: string): CivilDate
    requires IsKeyShape(s)
  {
    CivilDate(RadixValue(s[..4], 10), RadixValue(s[5..7], 10), RadixValue(s[8..], 10))
  }

  /**
   * A key that `new Date(...)` reads as a real day: the right shape, a month 1..12 and
   * a day that exists in that month. Anything else is an Invalid Date, whose fields are NaN.
   */
  predicate IsValidKey(s: string) {
    && IsKeyShape(s)
    && var d := ParseKey(s);
    && 1 <= d.month <= 12
    && 1 <= d.day <= DaysInMonth(d.year, d.month - 1)
  }

  /** `getMonth()` and `getFullYear()` of the date a key is parsed to; None for an Invalid Date. */
  function MonthOfKey(s: string): (r: Option<YearMonth>)
    ensures r.Some? ==> 0 <= r.value.month0 < 12
  {
    if IsValidKey(s) then Some(YearMonth(ParseKey(s).year, ParseKey(s).month - 1)) else None
  }

  /**
   * For keys of the right shape, the string order `<` is chronological order and
   * string equality is equality of dates.
   */
  lemma KeyOrder(a: string, b: string)
    requires IsKeyShape(a) && IsKeyShape(b)
    ensures StrLess(a, b) <==> Before(ParseKey(a), ParseKey(b))
    ensures a == b <==> ParseKey(a) == ParseKey(b)
  {
    assert a == a[..4] + a[4..] && b == b[..4] + b[4..];
    assert a[4..] == [a[4]] + a[5..] && b[4..] == [b[4]] + b[5..];
    assert a[5..] == a[5..7] + a[7..] && b[5..] == b[5..7] + b[7..];
    assert a[7..] == [a[7]] + a[8..] && b[7..] == [b[7]] + b[8..];
    StrLessConcat(a[..4], b[..4], a[4..], b[4..]);
    StrLessConcat([a[4]], [b[4]], a[5..], b[5..]);
    StrLessConcat(a[5..7], b[5..7], a[7..], b[7..]);
    StrLessConcat([a[7]], [b[7]], a[8..], b[8..]);
    StrLessIrreflexive([a[4]]);
    StrLessIrreflexive([a[7]]);
    DigitOrder(a[..4], b[..4]);
    DigitOrder(a[5..7], b[5..7]);
    DigitOrder(a[8..], b[8..]);
  }

  /** A number 0..99 written with `padStart(2, '0')` is two digits that read back as the number. */
  lemma Pad2Digits(k: int)
    requires 0 <= k <= 99
    ensures var p := Pad2(IntToString(k)); |p| == 2 && AllDigits(p) && RadixValue(p, 10) == k
  {
    if k < 10 {
      var p := Pad2(NatToString(k));
      assert p == ['0', DigitChar(k)];
      assert p[..1] == ['0'];
      assert ['0'][..0] == [];
      assert RadixValue(p, 10) == k;
    } else {
      var p, a := NatToString(k), DigitChar(k / 10);
      assert NatToString(k / 10) == [a];
      assert p == [a, DigitChar(k % 10)];
      assert p[..1] == [a];
      assert RadixValue([a], 10) == k / 10 by {
        assert [a][..0] == [];
      }
      assert RadixValue(p, 10) == RadixValue([a], 10) * 10 + k % 10;
    }
  }

  /** A year 1000..9999 is written with four digits. */
  lemma FourDigitYear(y: int)
    requires 1000 <= y <= 9999
    ensures |IntToString(y)| == 4 && AllDigits(IntToString(y)) && RadixValue(IntToString(y), 10) == y
  {
    NatToStringValue(y);
    assert NatToString(y / 1000) == [DigitChar(y / 1000)];
    assert NatToString(y / 100) == NatToString(y / 1000) + [DigitChar(y / 100 % 10)];
    assert NatToString(y / 10) == NatToString(y / 100) + [DigitChar(y / 10 % 10)];
  }

  /**
   * For a four-digit year, a month 0..11 and a day 1..99, the key has the
   * `YYYY-MM-DD` shape and spells that date, with the month shown plus one.
   */
  lemma DateKeyParses(year: int, month0: int, day: int)
    requires 1000 <= year <= 9999 && 0 <= month0 < 12 && 1 <= day <= 99
    ensures IsKeyShape(DateKey(year, month0, day))
    ensures ParseKey(DateKey(year, month0, day)) == CivilDate(year, month0 + 1, day)
  {
    var y, t := IntToString(year), KeySuffix(month0, day);
    FourDigitYear(year);
    KeySuffixParts(month0, day);
    var k := DateKey(year, month0, day);
    assert k[..4] == y && k[4..] == t;
    assert k[4] == t[0] && k[5..7] == t[1..3] && k[7] == t[3] && k[8..] == t[4..];
  }

  /**
   * Keys of days of the same shape are equal exactly when they name the same day,
   * for any year (the year is the part before the last six characters).
   */
  lemma DateKeyInjective(y1: int, m1: int, d1: int, y2: int, m2: int, d2: int)
    requires 0 <= m1 < 12 && 0 <= m2 < 12 && 1 <= d1 <= 99 && 1 <= d2 <= 99
    ensures DateKey(y1, m1, d1) == DateKey(y2, m2, d2) <==> y1 == y2 && m1 == m2 && d1 == d2
  {
    if DateKey(y1, m1, d1) == DateKey(y2, m2, d2) {
      var t1, t2 := KeySuffix(m1, d1), KeySuffix(m2, d2);
      KeySuffixParts(m1, d1);
      KeySuffixParts(m2, d2);
      SplitSuffix(IntToString(y1), t1, IntToString(y2), t2);
      ParseIntOfIntToString(y1);
      ParseIntOfIntToString(y2);
    }
  }

  /** Equal texts that end in equally long parts have equal beginnings and equal endings. */
  lemma SplitSuffix(a1: string, s1: string, a2: string, s2: string)
    requires a1 + s1 == a2 + s2 && |s1| == |s2|
    ensures a1 == a2 && s1 == s2
  {
    assert a1 == (a1 + s1)[..|a1|] && a2 == (a2 + s2)[..|a2|];
    assert s1 == (a1 + s1)[|a1|..] && s2 == (a2 + s2)[|a2|..];
  }
}
