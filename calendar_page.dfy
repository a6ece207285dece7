/**
 * The calendar page: a month grid over all pillars, a dot on each day that has an
 * entry in any pillar, month navigation, today's ring, and the day whose detail is
 * open. The clock is an input: the constructor is given today's date.
 */
module CalendarPage {
  import opened Opt
  import opened Dates
  import opened PillarTypes

  /** `'prev' | 'next'`. */
  datatype Direction = Prev | Next

  /** Entry `b` of pillar `a` exists. */
  predicate IsEntry(pillars: seq<Pillar>, a: int, b: int) {
    0 <= a < |pillars| && 0 <= b < |pillars[a].entries|
  }

  /** Entry `b` of pillar `a` exists and its date, read as a local date, is in the shown month. */
  predicate EntryInMonth(pillars: seq<Pillar>, a: int, b: int, shown: YearMonth) {
    IsEntry(pillars, a, b) && MonthOfKey(pillars[a].entries[b].date) == Some(shown)
  }

  /**
   * Some entry of some pillar carries the date `k`, and `k` read as a local date falls
   * in the shown month.
   */
  ghost predicate HasEntryInMonth(pillars: seq<Pillar>, shown: YearMonth, k: string) {
    && MonthOfKey(k) == Some(shown)
    && exists a, b :: IsEntry(pillars, a, b) && pillars[a].entries[b].date == k
  }

  /**
   * `getDaysWithEntries`, with each entry date read as local midnight (as the month
   * calendar of a single pillar does): the dates of all entries, over all pillars,
   * that fall in the shown month.
   */
  method DaysWithEntries(pillars: seq<Pillar>, shown: YearMonth) returns (days: set<string>)
    ensures forall k :: k in days <==> HasEntryInMonth(pillars, shown, k)
  {
    days := {};
    var i := 0;
    while i < |pillars|
      invariant 0 <= i <= |pillars|
      invariant forall k :: k in days ==> HasEntryInMonth(pillars, shown, k)
      invariant forall a, b :: 0 <= a < i && EntryInMonth(pillars, a, b, shown) ==> pillars[a].entries[b].date in days
    {
      var entries := pillars[i].entries;
      var j := 0;
      while j < |entries|
        invariant 0 <= j <= |entries|
        invariant forall k :: k in days ==> HasEntryInMonth(pillars, shown, k)
        invariant forall a, b :: 0 <= a < i && EntryInMonth(pillars, a, b, shown) ==> pillars[a].entries[b].date in days
        invariant forall b :: 0 <= b < j && MonthOfKey(entries[b].date) == Some(shown) ==> entries[b].date in days
      {
        if MonthOfKey(entries[j].date) == Some(shown) {
          assert IsEntry(pillars, i, j);
          days := days + {entries[j].date};
        }
        j := j + 1;
      }
      i := i + 1;
    }
  }

  /**
   * With the local reading, a day of the shown month gets its dot exactly when some
   * pillar has an entry dated that day.
   */
  lemma DotIffEntry(pillars: seq<Pillar>, shown: YearMonth, day: int)
    requires 1000 <= shown.year <= 9999 && 0 <= shown.month0 < 12
    requires 1 <= day <= DaysInMonth(shown.year, shown.month0)
    ensures var k := DateKey(shown.year, shown.month0, day);
      HasEntryInMonth(pillars, shown, k) <==> exists a, b :: IsEntry(pillars, a, b) && pillars[a].entries[b].date == k
  {
    DateKeyParses(shown.year, shown.month0, day);
  }

  /**
   * What `getMonth()` / `getFullYear()` report for `new Date(date)` AS WRITTEN: a
   * date-only text is read as UTC midnight, which west of UTC is still the evening of
   * the day before in local time; east of UTC (or at UTC) it is the same day.
   */
  function EntryMonthAsWritten(date: string, westOfUtc: bool): (r: Option<YearMonth>)
    ensures r.Some? ==> 0 <= r.value.month0 < 12
    ensures r.Some? <==> MonthOfKey(date).Some?
    ensures !westOfUtc ==> r == MonthOfKey(date)
    ensures westOfUtc && MonthOfKey(date).Some? ==>
      r == if ParseKey(date).day == 1 then Some(PrevMonth(MonthOfKey(date).value)) else MonthOfKey(date)
  {
    if !IsValidKey(date) then None
    else
      var d := ParseKey(date);
      var ym := YearMonth(d.year, d.month - 1);
      if westOfUtc && d.day == 1 then Some(PrevMonth(ym)) else Some(ym)
  }

  /** `getDaysWithEntries` as written, reading each entry date as UTC midnight. */
  function DaysWithEntriesAsWritten(pillars: seq<Pillar>, shown: YearMonth, westOfUtc: bool): set<string> {
    set a, b | 0 <= a < |pillars| && 0 <= b < |pillars[a].entries| && EntryMonthAsWritten(pillars[a].entries[b].date, westOfUtc) == Some(shown)
      :: pillars[a].entries[b].date
  }

  /**
   * As written, west of UTC the first day of the shown month never gets its dot,
   * whatever the pillars hold.
   */
  lemma FirstDayLosesDot(pillars: seq<Pillar>, shown: YearMonth)
    requires 1000 <= shown.year <= 9999 && 0 <= shown.month0 < 12
    ensures DateKey(shown.year, shown.month0, 1) !in DaysWithEntriesAsWritten(pillars, shown, true)
  {
    var k := DateKey(shown.year, shown.month0, 1);
    DateKeyParses(shown.year, shown.month0, 1);
    NavigationRoundTrip(shown);
    assert EntryMonthAsWritten(k, true) == Some(PrevMonth(shown)) != Some(shown);
  }

  /** An entry on 1 April 2026: the local reading shows its dot, the UTC reading west of UTC does not. */
  lemma FirstOfAprilExample()
    ensures var k := DateKey(2026, 3, 1);
      var pillars := [Pillar("1", "Saúde", "", "", "", 5, Stable, [DailyEntry(k, 5, "")])];
      && HasEntryInMonth(pillars, YearMonth(2026, 3), k)
      && k !in DaysWithEntriesAsWritten(pillars, YearMonth(2026, 3), true)
  {
    var k := DateKey(2026, 3, 1);
    var pillars := [Pillar("1", "Saúde", "", "", "", 5, Stable, [DailyEntry(k, 5, "")])];
    DateKeyParses(2026, 3, 1);
    assert IsEntry(pillars, 0, 0);
    FirstDayLosesDot(pillars, YearMonth(2026, 3));
  }

  /** `isToday`: the day, month and year of the cell are today's. */
  predicate IsToday(shown: YearMonth, day: int, today: CivilDate) {
    day == today.day && shown.month0 == today.month - 1 && shown.year == today.year
  }

  /** The cell is today's exactly when its key is today's key. */
  lemma TodayIffSameKey(shown: YearMonth, day: int, today: CivilDate)
    requires 0 <= shown.month0 < 12 && 1 <= day <= 99
    requires 1 <= today.month <= 12 && 1 <= today.day <= 99
    ensures IsToday(shown, day, today)
        <==> DateKey(shown.year, shown.month0, day) == DateKey(today.year, today.month - 1, today.day)
  {
    DateKeyInjective(shown.year, shown.month0, day, today.year, today.month - 1, today.day);
  }

  /** The page's state: the open day and the month shown. */
  class CalendarView {
    var selectedDate: Option<string>
    var currentMonth: int
    var currentYear: int

    /** No day open; the month shown is today's. */
    constructor (today: CivilDate)
      requires 1 <= today.month <= 12
      ensures selectedDate == None && currentMonth == today.month - 1 && currentYear == today.year
      ensures 0 <= currentMonth < 12
    {
      selectedDate := None;
      currentMonth := today.month - 1;
      currentYear := today.year;
    }

    /** The month shown as a value. */
    function Shown(): YearMonth
      reads this
    {
      YearMonth(currentYear, currentMonth)
    }

    /** `handleDayClick`: opens the detail of the day's key. */
    method HandleDayClick(day: int)
      modifies this
      ensures selectedDate == Some(DateKey(currentYear, currentMonth, day))
      ensures currentMonth == old(currentMonth) && currentYear == old(currentYear)
    {
      selectedDate := Some(DateKey(currentYear, currentMonth, day));
    }

    /** `onClose` of the detail: no day open. */
    method CloseDetail()
      modifies this
      ensures selectedDate == None
      ensures currentMonth == old(currentMonth) && currentYear == old(currentYear)
    {
      selectedDate := None;
    }

    /**
     * `navigateMonth`: one month back or forward, wrapping the year at January and
     * December.
     */
    method NavigateMonth(direction: Direction)
      requires 0 <= currentMonth < 12
      modifies this
      ensures 0 <= currentMonth < 12
      ensures direction == Prev ==> Shown() == PrevMonth(old(Shown()))
      ensures direction == Next ==> Shown() == NextMonth(old(Shown()))
      ensures selectedDate == old(selectedDate)
    {
      if direction == Prev {
        if currentMonth == 0 {
          currentMonth := 11;
          currentYear := currentYear - 1;
        } else {
          currentMonth := currentMonth - 1;
        }
      } else {
        if currentMonth == 11 {
          currentMonth := 0;
          currentYear := currentYear + 1;
        } else {
          currentMonth := currentMonth + 1;
        }
      }
    }
  }
}
