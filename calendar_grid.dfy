/**
 * The Sunday-first month grid both calendar views build: blank cells up to the
 * weekday of the 1st, then one cell per day, and no padding after the last day.
 */
module CalendarGrid {
  import opened Opt
  import opened Dates

  /** The two `for` loops that fill `calendarDays`: `null` cells first, then the day numbers. */
  method BuildGrid(startingDayOfWeek: nat, daysInMonth: nat) returns (cells: seq<Option<int>>)
    ensures |cells| == startingDayOfWeek + daysInMonth
    ensures forall i :: 0 <= i < startingDayOfWeek ==> cells[i] == None
    ensures forall i :: startingDayOfWeek <= i < |cells| ==> cells[i] == Some(i - startingDayOfWeek + 1)
  {
    cells := [];
    var i := 0;
    while i < startingDayOfWeek
      invariant 0 <= i <= startingDayOfWeek
      invariant |cells| == i
      invariant forall k :: 0 <= k < i ==> cells[k] == None
    {
      cells := cells + [None];
      i := i + 1;
    }
    var day := 1;
    while day <= daysInMonth
      invariant 1 <= day <= daysInMonth + 1
      invariant |cells| == startingDayOfWeek + day - 1
      invariant forall k :: 0 <= k < startingDayOfWeek ==> cells[k] == None
      invariant forall k :: startingDayOfWeek <= k < |cells| ==> cells[k] == Some(k - startingDayOfWeek + 1)
    {
      cells := cells + [Some(day)];
      day := day + 1;
    }
  }

  /**
   * `cells` is the grid of month `ym`: as many blanks as the weekday of its 1st, then
   * its days 1, 2, ... up to its length.
   */
  predicate IsMonthGrid(ym: YearMonth, cells: seq<Option<int>>)
    requires 0 <= ym.month0 < 12
  {
    && |cells| == FirstWeekdayJs(ym) + DaysInMonthJs(ym)
    && (forall i :: 0 <= i < FirstWeekdayJs(ym) ==> cells[i] == None)
    && (forall i :: FirstWeekdayJs(ym) <= i < |cells| ==> cells[i] == Some(i - FirstWeekdayJs(ym) + 1))
  }

  /** The grid of a displayed month, sized by the JavaScript date arithmetic of the view. */
  method MonthGrid(ym: YearMonth) returns (cells: seq<Option<int>>)
    requires 0 <= ym.month0 < 12
    ensures IsMonthGrid(ym, cells)
  {
    cells := BuildGrid(FirstWeekdayJs(ym), DaysInMonthJs(ym));
  }

  /**
   * In the seven-column grid, the cell of day `d` stands in the column of that day's
   * weekday (for a year outside 0..99, which `new Date` takes as given).
   */
  lemma DayInWeekdayColumn(ym: YearMonth, d: int)
    requires 0 <= ym.month0 < 12 && !(0 <= ym.year <= 99) && 1 <= d <= DaysInMonthJs(ym)
    ensures (FirstWeekdayJs(ym) + d - 1) % 7 == Weekday(DaysFromCivil(ym.year, ym.month0 + 1, d))
  {
    var a := DaysFromCivil(ym.year, ym.month0 + 1, 1) + 4;
    assert DaysFromCivil(ym.year, ym.month0 + 1, d) + 4 == a + d - 1;
    assert FirstWeekdayJs(ym) == a % 7;
    assert a + d - 1 == (a % 7 + d - 1) + 7 * (a / 7);
    ShiftMod7(a % 7 + d - 1, a / 7);
  }

  /** April 2026 starts on a Wednesday and has 30 days: 3 blank cells and 33 cells in all. */
  lemma April2026()
    ensures FirstWeekdayJs(YearMonth(2026, 3)) == 3 && DaysInMonthJs(YearMonth(2026, 3)) == 30
  {
    assert DaysFromCivil(2026, 4, 1) == 20544;
  }
}
