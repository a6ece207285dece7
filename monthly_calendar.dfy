/**
 * The month calendar of one pillar: the scores of the current month by day, the
 * colour bands, the future-day rule, and the select / edit / save / cancel cycle of
 * the day editor. The clock is an input: the current month and `localToday` (the
 * local date as a `YYYY-MM-DD` key) are given to the constructor.
 *
 * Entry dates are read as local midnight (`date + 'T00:00:00'`); the model reads the
 * year and month straight from the key, which is what that parse yields.
 */
module MonthlyCalendar {
  import opened Opt
  import opened Text
  import opened Dates
  import opened PillarTypes
  import CalendarGrid

  /** The colour bands of `getScoreColor`. */
  datatype Band = NoData | Low | Mid | High

  /** `getScoreColor`: no score, 3 or less, 6 or less, and the rest. */
  function ScoreBand(score: Option<int>): (b: Band)
    ensures b == NoData <==> score.None?
    ensures b == Low <==> score.Some? && score.value <= 3
    ensures b == Mid <==> score.Some? && 4 <= score.value <= 6
    ensures b == High <==> score.Some? && score.value >= 7
  {
    match score
    case None => NoData
    case Some(s) => if s <= 3 then Low else if s <= 6 then Mid else High
  }

  /** The class each band paints a day with. */
  function BandClass(b: Band): string {
    match b
    case NoData => "bg-warmGray-50 text-warmGray-400 border border-warmGray-100 hover:bg-warmGray-100"
    case Low => "bg-terracotta-400 text-white shadow-soft"
    case Mid => "bg-petroleum-400 text-white shadow-soft"
    case High => "bg-sage-500 text-white shadow-soft"
  }

  /** `isFutureDate(day)`: the day's key is after `localToday` in string order. */
  predicate IsFutureDate(shown: YearMonth, localToday: string, day: int) {
    StrLess(localToday, DateKey(shown.year, shown.month0, day))
  }

  /** For a four-digit year the string comparison of `isFutureDate` is the chronological one. */
  lemma FutureIsChronological(shown: YearMonth, localToday: string, day: int)
    requires IsKeyShape(localToday)
    requires 1000 <= shown.year <= 9999 && 0 <= shown.month0 < 12 && 1 <= day <= 99
    ensures IsFutureDate(shown, localToday, day)
        <==> Before(ParseKey(localToday), CivilDate(shown.year, shown.month0 + 1, day))
  {
    DateKeyParses(shown.year, shown.month0, day);
    KeyOrder(localToday, DateKey(shown.year, shown.month0, day));
  }

  /** An entry of the displayed month: its date parses to that month and year. */
  predicate InMonth(e: DailyEntry, shown: YearMonth) {
    MonthOfKey(e.date) == Some(shown)
  }

  /** Entry `i` is the last of the first `n` entries dated `k`. */
  predicate LastOfDate(entries: seq<DailyEntry>, n: int, i: int, k: string)
    requires n <= |entries|
  {
    0 <= i < n && entries[i].date == k && forall j :: i < j < n ==> entries[j].date != k
  }

  /**
   * `scoresMap`: the entries of the displayed month keyed by date; for a date given
   * twice the later entry wins, since `map.set` overwrites.
   */
  method BuildScoresMap(entries: seq<DailyEntry>, shown: YearMonth) returns (scores: map<string, DailyEntry>)
    ensures IsScoresMap(entries, shown, scores)
  {
    scores := map[];
    var n := 0;
    while n < |entries|
      invariant 0 <= n <= |entries|
      invariant KeysCover(entries, shown, n, scores) && HoldsLast(entries, shown, n, scores)
    {
      var entry := entries[n];
      var next := scores;
      if InMonth(entry, shown) {
        next := scores[entry.date := entry];
      }
      KeysStep(entries, shown, n, scores, next);
      LastStep(entries, shown, n, scores, next);
      scores := next;
      n := n + 1;
    }
    ScoresComplete(entries, shown, scores);
  }

  /**
   * `scores` is the `scoresMap` of `entries` for month `shown`: a date is a key iff an
   * entry of that month has it, and it holds the last such entry.
   */
  ghost predicate IsScoresMap(entries: seq<DailyEntry>, shown: YearMonth, scores: map<string, DailyEntry>) {
    && (forall k :: k in scores <==> exists i :: 0 <= i < |entries| && entries[i].date == k && InMonth(entries[i], shown))
    && (forall k :: k in scores ==>
          exists i :: LastOfDate(entries, |entries|, i, k) && scores[k] == entries[i] && InMonth(entries[i], shown))
  }

  /** Every entry of the month among the first `n` has its date in `scores`. */
  ghost predicate KeysCover(entries: seq<DailyEntry>, shown: YearMonth, n: int, scores: map<string, DailyEntry>)
    requires 0 <= n <= |entries|
  {
    forall i :: 0 <= i < n && InMonth(entries[i], shown) ==> entries[i].date in scores
  }

  /** Each date in `scores` holds the last entry of the month with that date among the first `n`. */
  ghost predicate HoldsLast(entries: seq<DailyEntry>, shown: YearMonth, n: int, scores: map<string, DailyEntry>)
    requires 0 <= n <= |entries|
  {
    forall k :: k in scores ==> exists i :: LastOfDate(entries, n, i, k) && scores[k] == entries[i] && InMonth(entries[i], shown)
  }

  /** One turn of the `scoresMap` loop keeps KeysCover. */
  lemma KeysStep(entries: seq<DailyEntry>, shown: YearMonth, n: int, scores: map<string, DailyEntry>, next: map<string, DailyEntry>)
    requires 0 <= n < |entries| && KeysCover(entries, shown, n, scores)
    requires next == if InMonth(entries[n], shown) then scores[entries[n].date := entries[n]] else scores
    ensures KeysCover(entries, shown, n + 1, next)
  {
    assert scores.Keys <= next.Keys;
  }

  /** One turn of the `scoresMap` loop keeps HoldsLast. */
  lemma LastStep(entries: seq<DailyEntry>, shown: YearMonth, n: int, scores: map<string, DailyEntry>, next: map<string, DailyEntry>)
    requires 0 <= n < |entries| && HoldsLast(entries, shown, n, scores)
    requires next == if InMonth(entries[n], shown) then scores[entries[n].date := entries[n]] else scores
    ensures HoldsLast(entries, shown, n + 1, next)
  {
    var e := entries[n];
    forall k | k in next
      ensures exists i :: LastOfDate(entries, n + 1, i, k) && next[k] == entries[i] && InMonth(entries[i], shown)
    {
      if InMonth(e, shown) && k == e.date {
        assert LastOfDate(entries, n + 1, n, k);
      } else {
        LastKept(entries, shown, n, scores, k);
      }
    }
  }

  /** A date the entry at `n` does not overwrite keeps its last entry. */
  lemma LastKept(entries: seq<DailyEntry>, shown: YearMonth, n: int, scores: map<string, DailyEntry>, k: string)
    requires 0 <= n < |entries| && HoldsLast(entries, shown, n, scores) && k in scores
    requires InMonth(entries[n], shown) ==> k != entries[n].date
    ensures exists i :: LastOfDate(entries, n + 1, i, k) && scores[k] == entries[i] && InMonth(entries[i], shown)
  {
    var i :| LastOfDate(entries, n, i, k) && scores[k] == entries[i] && InMonth(entries[i], shown);
    assert entries[i].date == k;
    assert LastOfDate(entries, n + 1, i, k);
  }

  /** Every date in the finished map is the date of an entry of the month. */
  lemma ScoresComplete(entries: seq<DailyEntry>, shown: YearMonth, scores: map<string, DailyEntry>)
    requires HoldsLast(entries, shown, |entries|, scores)
    ensures forall k :: k in scores ==> exists i :: 0 <= i < |entries| && entries[i].date == k && InMonth(entries[i], shown)
  {
    forall k | k in scores
      ensures exists i :: 0 <= i < |entries| && entries[i].date == k && InMonth(entries[i], shown)
    {
      var i :| LastOfDate(entries, |entries|, i, k) && scores[k] == entries[i] && InMonth(entries[i], shown);
    }
  }

  /** A day that is not after an earlier today is not after a later one either. */
  lemma ClockForward(before: string, after: string, key: string)
    requires before == after || StrLess(before, after)
    ensures !StrLess(before, key) ==> !StrLess(after, key)
  {
    if before != after && StrLess(after, key) {
      StrLessTransitive(before, after, key);
    }
  }

  /** What `onScoreUpdate(date, score, notes)` is called with. */
  datatype ScoreUpdate = ScoreUpdate(date: string, score: int, notes: string)

  /** `selectedDay` is set and not 0 (0 would be falsy). */
  predicate IsSelected(selectedDay: Option<int>) {
    selectedDay.Some? && selectedDay.value != 0
  }

  /**
   * The guard of `handleSave`: a selected day, a callback, and a score text that
   * `parseInt` reads as a number 0..10; then the call it makes.
   */
  function SaveRequest(shown: YearMonth, selectedDay: Option<int>, hasCallback: bool,
                       editingScore: string, editingNotes: string): (r: Option<ScoreUpdate>)
    ensures r.Some? <==> (IsSelected(selectedDay) && hasCallback
                          && ParseInt(editingScore).Some? && 0 <= ParseInt(editingScore).value <= 10)
    ensures r.Some? ==> 0 <= r.value.score <= 10 && ParseInt(editingScore) == Some(r.value.score)
    ensures r.Some? ==> (r.value.date == DateKey(shown.year, shown.month0, selectedDay.value)
                         && r.value.notes == editingNotes)
  {
    if !IsSelected(selectedDay) || !hasCallback then None
    else match ParseInt(editingScore)
      case None => None
      case Some(score) =>
        if score < 0 || score > 10 then None
        else Some(ScoreUpdate(DateKey(shown.year, shown.month0, selectedDay.value), score, editingNotes))
  }

  /** A save goes to the selected day, so it is not after today when that day is not. */
  lemma SavedDayIsSelected(shown: YearMonth, localToday: string, selectedDay: Option<int>,
                           hasCallback: bool, score: string, notes: string)
    requires SaveRequest(shown, selectedDay, hasCallback, score, notes).Some?
    ensures selectedDay.Some?
    ensures !IsFutureDate(shown, localToday, selectedDay.value)
            ==> !StrLess(localToday, SaveRequest(shown, selectedDay, hasCallback, score, notes).value.date)
  {
  }

  /** A blank score field (what clicking a day without an entry leaves) is never saved. */
  lemma BlankScoreIsRefused(shown: YearMonth, selectedDay: Option<int>, hasCallback: bool, s: string, notes: string)
    requires IsBlank(s)
    ensures SaveRequest(shown, selectedDay, hasCallback, s, notes) == None
  {
    BlankParsesToNaN(s);
  }

  /**
   * Saving a day right after clicking it, without editing, sends back the entry's own
   * score and notes under the day's key: the preloaded `score.toString()` parses back.
   */
  lemma UneditedSaveResends(shown: YearMonth, day: int, e: DailyEntry)
    requires day != 0 && 0 <= e.score <= 10
    ensures SaveRequest(shown, Some(day), true, IntToString(e.score), e.notes)
         == Some(ScoreUpdate(DateKey(shown.year, shown.month0, day), e.score, e.notes))
  {
    ParseIntOfIntToString(e.score);
  }

  /**
   * The selection keeps only the day number, while the month is read from the clock
   * on every render. A day picked on the last evening of a month becomes, once the
   * clock passes midnight, the same day number of the next month, and a save sends
   * that later day (or a key such as `2026-04-31` that names no date).
   */
  lemma StaleSelectionSaved(shown: YearMonth, day: int, score: string, notes: string)
    requires 1000 <= shown.year < 9999 && 0 <= shown.month0 < 12
    requires 2 <= day <= DaysInMonth(shown.year, shown.month0)
    requires ParseInt(score).Some? && 0 <= ParseInt(score).value <= 10
    ensures !IsFutureDate(shown, DateKey(shown.year, shown.month0, DaysInMonth(shown.year, shown.month0)), day)
    ensures var n := NextMonth(shown);
      && SaveRequest(n, Some(day), true, score, notes).Some?
      && SaveRequest(n, Some(day), true, score, notes).value.date == DateKey(n.year, n.month0, day)
      && IsFutureDate(n, DateKey(n.year, n.month0, 1), day)
  {
    var last := DaysInMonth(shown.year, shown.month0);
    var n := NextMonth(shown);
    NavigationRoundTrip(shown);
    DateKeyParses(shown.year, shown.month0, last);
    FutureIsChronological(shown, DateKey(shown.year, shown.month0, last), day);
    DateKeyParses(n.year, n.month0, 1);
    FutureIsChronological(n, DateKey(n.year, n.month0, 1), day);
  }

  /**
   * Day 31 picked on 31 March 2026 and saved after midnight goes out under the key
   * `DateKey(2026, 3, 31)`, that is `2026-04-31`, which is after the new today and
   * names no date.
   */
  lemma MidnightRolloverExample()
    ensures !IsFutureDate(YearMonth(2026, 2), DateKey(2026, 2, 31), 31)
    ensures SaveRequest(YearMonth(2026, 3), Some(31), true, "5", "") == Some(ScoreUpdate(DateKey(2026, 3, 31), 5, ""))
    ensures IsFutureDate(YearMonth(2026, 3), DateKey(2026, 3, 1), 31)
    ensures !IsValidKey(DateKey(2026, 3, 31))
  {
    ParseIntOfIntToString(5);
    assert IntToString(5) == "5";
    StaleSelectionSaved(YearMonth(2026, 2), 31, "5", "");
    DateKeyParses(2026, 3, 31);
  }

  /**
   * The save guard with the future-day test repeated against the current clock: a
   * selection that a month change has pushed after today is refused, and any other
   * save is the one `handleSave` makes.
   */
  function GuardedSaveRequest(shown: YearMonth, localToday: string, selectedDay: Option<int>,
                              hasCallback: bool, score: string, notes: string): (r: Option<ScoreUpdate>)
    ensures r.Some? ==> !StrLess(localToday, r.value.date)
    ensures r.Some? ==> r == SaveRequest(shown, selectedDay, hasCallback, score, notes)
    ensures selectedDay.Some? && !IsFutureDate(shown, localToday, selectedDay.value)
            ==> r == SaveRequest(shown, selectedDay, hasCallback, score, notes)
  {
    if selectedDay.Some? && IsFutureDate(shown, localToday, selectedDay.value) then None
    else SaveRequest(shown, selectedDay, hasCallback, score, notes)
  }

  /** The guarded save refuses the stale selection of `StaleSelectionSaved`. */
  lemma GuardRefusesStale(shown: YearMonth, day: int, score: string, notes: string)
    requires 1000 <= shown.year < 9999 && 0 <= shown.month0 < 12
    requires 2 <= day <= DaysInMonth(shown.year, shown.month0)
    requires ParseInt(score).Some? && 0 <= ParseInt(score).value <= 10
    ensures var n := NextMonth(shown);
      GuardedSaveRequest(n, DateKey(n.year, n.month0, 1), Some(day), true, score, notes) == None
  {
    StaleSelectionSaved(shown, day, score, notes);
  }

  /**
   * The calendar component's state. The props and the clock are read again on every
   * render (`Render`); the `useState` fields live across renders.
   */
  class MonthlyCalendarView {
    var entries: seq<DailyEntry>
    var shown: YearMonth
    var localToday: string
    var hasCallback: bool
    var scoresMap: map<string, DailyEntry>
    var calendarDays: seq<Option<int>>

    var selectedDay: Option<int>
    var editingScore: string
    var editingNotes: string
    var isEditing: bool
    var saving: bool

    /** The first render: the month shown is the one `today` is in, and the editor is closed. */
    constructor (entries: seq<DailyEntry>, today: YearMonth, localToday: string, hasCallback: bool)
      requires 0 <= today.month0 < 12
      ensures this.entries == entries && shown == today && this.localToday == localToday && this.hasCallback == hasCallback
      ensures Derived()
      ensures selectedDay == None && editingScore == "" && editingNotes == "" && !isEditing && !saving
      ensures NoFutureSelection()
    {
      this.entries := entries;
      shown := today;
      this.localToday := localToday;
      this.hasCallback := hasCallback;
      var scores := BuildScoresMap(entries, today);
      var days := CalendarGrid.MonthGrid(today);
      scoresMap := scores;
      calendarDays := days;
      selectedDay := None;
      editingScore := "";
      editingNotes := "";
      isEditing := false;
      saving := false;
    }

    /** `scoresMap` and `calendarDays` are the ones of `entries` and the shown month. */
    ghost predicate Derived()
      reads this`entries, this`shown, this`scoresMap, this`calendarDays
    {
      && 0 <= shown.month0 < 12
      && IsScoresMap(entries, shown, scoresMap)
      && CalendarGrid.IsMonthGrid(shown, calendarDays)
    }

    /**
     * A later render: the props and the clock are read again and the derived values
     * rebuilt, while the editor state is kept. A selection made before stays not in the
     * future when the month is the same and the clock has not gone back.
     */
    method Render(entries: seq<DailyEntry>, today: YearMonth, localToday: string, hasCallback: bool)
      requires 0 <= today.month0 < 12
      modifies this`entries, this`shown, this`localToday, this`hasCallback, this`scoresMap, this`calendarDays
      ensures this.entries == entries && shown == today && this.localToday == localToday && this.hasCallback == hasCallback
      ensures Derived()
      ensures old(NoFutureSelection()) && today == old(shown)
              && (localToday == old(this.localToday) || StrLess(old(this.localToday), localToday))
              ==> NoFutureSelection()
    {
      var before := this.localToday;
      this.entries := entries;
      shown := today;
      this.localToday := localToday;
      this.hasCallback := hasCallback;
      var scores := BuildScoresMap(entries, today);
      var days := CalendarGrid.MonthGrid(today);
      scoresMap := scores;
      calendarDays := days;
      if selectedDay.Some? && (before == localToday || StrLess(before, localToday)) {
        ClockForward(before, localToday, DateKey(today.year, today.month0, selectedDay.value));
      }
    }

    /** The selected day, if any, is not after today: only a click selects a day, and it skips future ones. */
    predicate NoFutureSelection()
      reads this`selectedDay, this`shown, this`localToday
    {
      selectedDay.Some? ==> !IsFutureDate(shown, localToday, selectedDay.value)
    }

    /** `scoresMap.get(dateString)` for a day of the shown month. */
    function EntryOf(day: int): Option<DailyEntry>
      reads this`shown, this`scoresMap
    {
      var key := DateKey(shown.year, shown.month0, day);
      if key in scoresMap then Some(scoresMap[key]) else None
    }

    /**
     * `handleDayClick`: a future day changes nothing; any other day is selected for
     * editing with its entry's score text and notes, or empty fields without an entry.
     */
    method HandleDayClick(day: int)
      modifies this`selectedDay, this`isEditing, this`editingScore, this`editingNotes
      ensures IsFutureDate(shown, localToday, day) ==>
        && selectedDay == old(selectedDay) && isEditing == old(isEditing)
        && editingScore == old(editingScore) && editingNotes == old(editingNotes)
      ensures !IsFutureDate(shown, localToday, day) ==>
        && selectedDay == Some(day) && isEditing
        && editingScore == (if EntryOf(day).Some? then IntToString(EntryOf(day).value.score) else "")
        && editingNotes == (if EntryOf(day).Some? then EntryOf(day).value.notes else "")
      ensures saving == old(saving)
      ensures old(NoFutureSelection()) ==> NoFutureSelection()
    {
      if IsFutureDate(shown, localToday, day) {
        return;
      }
      var entry := EntryOf(day);
      selectedDay := Some(day);
      isEditing := true;
      editingScore := if entry.Some? then IntToString(entry.value.score) else "";
      editingNotes := if entry.Some? then entry.value.notes else "";
    }

    /**
     * `handleSave`, with `succeeds` standing for whether `onScoreUpdate` returns or
     * throws. A refused save changes nothing; a successful one closes the editor and
     * clears the selection; a failed one leaves the editor open. The score and notes
     * texts are kept either way, and `saving` is false again afterwards.
     */
    method HandleSave(succeeds: bool) returns (call: Option<ScoreUpdate>)
      modifies this`selectedDay, this`isEditing, this`saving
      ensures call == SaveRequest(shown, old(selectedDay), hasCallback, old(editingScore), old(editingNotes))
      ensures call.Some? && succeeds ==> !isEditing && selectedDay == None
      ensures call.None? || !succeeds ==> isEditing == old(isEditing) && selectedDay == old(selectedDay)
      ensures editingScore == old(editingScore) && editingNotes == old(editingNotes)
      ensures call.Some? ==> !saving
      ensures call.None? ==> saving == old(saving)
      ensures old(NoFutureSelection()) ==> NoFutureSelection()
      ensures old(NoFutureSelection()) && call.Some? ==> !StrLess(localToday, call.value.date)
    {
      var day := selectedDay;
      call := SaveRequest(shown, day, hasCallback, editingScore, editingNotes);
      if call.Some? {
        SavedDayIsSelected(shown, localToday, day, hasCallback, editingScore, editingNotes);
        AfterCall(succeeds);
      }
    }

    /**
     * What follows `await onScoreUpdate(...)`: on success the editor closes and the
     * selection is cleared, on failure both stay; the `finally` resets `saving`.
     */
    method AfterCall(succeeds: bool)
      modifies this`selectedDay, this`isEditing, this`saving
      ensures succeeds ==> !isEditing && selectedDay == None
      ensures !succeeds ==> isEditing == old(isEditing) && selectedDay == old(selectedDay)
      ensures !saving
      ensures old(NoFutureSelection()) ==> NoFutureSelection()
    {
      // `setSaving(true)` before the call is undone by the `finally` once it returns.
      saving := true;
      if succeeds {
        isEditing, selectedDay := false, None;
      }
      saving := false;
    }

    /** `handleCancel`: back to no selection and empty fields. */
    method HandleCancel()
      modifies this`selectedDay, this`isEditing, this`editingScore, this`editingNotes
      ensures selectedDay == None && !isEditing && editingScore == "" && editingNotes == ""
      ensures saving == old(saving) && NoFutureSelection()
    {
      isEditing := false;
      selectedDay := None;
      editingScore := "";
      editingNotes := "";
    }
  }
}
