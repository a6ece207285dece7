# Life-pillar tracker: view logic in Dafny

The application tracks "life pillars" (money, health, relationships and so on). Each pillar is scored 0 to 10 per day, with optional notes. This project models the logic embedded in its views and hooks:

- **Pillar derivation** (`UseCards`). Stored score rows become the pillar's dated entries. From them come the current score and a three-valued trend (`up`, `down`, `stable`). Colour and description come from the category, with a default.
- **Calendar grid** (`CalendarGrid`). A Sunday-first grid of blank cells, then days 1..N. The first weekday and the month length come from the Gregorian arithmetic of `new Date(y, m, d)` (`Dates`).
- **Monthly calendar of a pillar** (`MonthlyCalendar`):
  - the scores of the shown month, keyed by `YYYY-MM-DD`;
  - the colour bands;
  - the "future day" test, which compares key strings;
  - the select / edit / save / cancel cycle, with its 0..10 validation.
- **Calendar page** (`CalendarPage`):
  - the days that have an entry in any pillar;
  - month navigation with year wrap-around;
  - the date key of a clicked day;
  - the "today" ring.
- **Reflection feed** (`Reflections`):
  - favourite toggling;
  - the search / pillar / date filter;
  - the latest reflection of each pillar;
  - grouping by date;
  - newest-first ordering of the dates.
- **Day detail** (`DayDetail`). Each pillar's entry for one date, whether any exists, and the non-blank notes.
- **Pillar card and detail** (`PillarCard`, `PillarDetail`):
  - score tone and trend icon;
  - the week and month windows;
  - the 0..10 score input;
  - the notes-edit toggle.
- **Diary page** (`DiaryPillar`). Header gradient by first matching colour word, and the blank-input save guard.

The JavaScript behaviour these rely on is written out in `Text`:
- `trim` with the ECMAScript whitespace set;
- `includes`;
- `toLowerCase` on ASCII;
- string `<`;
- `String(n)` and `padStart(2, '0')`;
- `parseInt`: leading whitespace, sign, `0x` prefix, longest digit run, `NaN` as `None`.

`Seqs` holds `Array.prototype.filter`.

State that a component updates in place is a class with `modifies` clauses:
- `MonthlyCalendarView`;
- `CalendarView`;
- `ReflectionsView`;
- `PillarDetailView`;
- `DiaryForm`.

Loops over lists are methods with loop invariants, proved against specification functions. The clock is an input: "today", the local-date key and the shown month are parameters of the constructor, and the monthly calendar takes them again on every later render (`Render`). Callbacks that may throw are an input `succeeds`.

The save handler of the monthly calendar does not itself refuse a future date. Only the click handler does. Within one month and with the clock moving forward, this is enough: no day can be selected except by a click, and a re-render keeps the selection not in the future (`MonthlyCalendar.MonthlyCalendarView.Render`, `HandleSave`). Across a change of month it is not, because the selection keeps only a day number (see Findings).

## Model

| member | source | states |
|---|---|---|
| UseCards.ToEntries | src/hooks/useCards.ts:29-37 | no rows (a failed query) give no entries; otherwise one entry per row, in order, with date, score, and notes or `""` |
| UseCards.TrendOf | src/hooks/useCards.ts:41-47 | `up` iff the last score beats the one before, `down` iff it is lower, `stable` iff there are fewer than two entries or the two are equal |
| UseCards.ComputeTrend | src/hooks/useCards.ts:41-47 | the `let trend` reassignments compute exactly `TrendOf` |
| UseCards.AppendEntry | src/hooks/useCards.ts:39-47 | a newly appended entry becomes the current score, and the trend compares it with the previous current score |
| UseCards.CategoryColor | src/hooks/useCards.ts:77-87 | a mapped category gets its gradient, any other gets the sage default, and the result is never empty |
| UseCards.CategoryDescription | src/hooks/useCards.ts:89-99 | a mapped category gets its text, any other gets the default text |
| UseCards.SameCategories | src/hooks/useCards.ts:77-99 | both tables cover the same six categories |
| UseCards.BuildPillars | src/hooks/useCards.ts:21-22 | one pillar per card, in card order, each with its own card's entries, score, trend, colour and description |
| Dates.DaysInMonth | src/components/MonthlyCalendar.tsx:33-34 | every month has 28 to 31 days |
| Dates.Weekday | src/components/MonthlyCalendar.tsx:35 | `getDay()` is a weekday 0..6 |
| Dates.FebruaryLength | src/components/MonthlyCalendar.tsx:32-34 | the first of March comes 28 or 29 days after the first of February, 29 exactly in a Gregorian leap year |
| Dates.MonthLength | src/components/MonthlyCalendar.tsx:32-34 | the first of the next month is `DaysInMonth` days after the first of this month, so `new Date(y, m + 1, 0).getDate()` is that month length |
| Dates.NextFirstWeekday | src/components/MonthlyCalendar.tsx:32-35 | the next month starts on this month's first weekday moved on by its length, mod 7 |
| Dates.NavigationRoundTrip | src/pages/Calendar.tsx:79-95 | next and previous month keep the month in 0..11 and undo each other |
| Dates.DaysInMonthJs | src/pages/Calendar.tsx:19-21 | the grid's month length, with a year 0..99 read as 1900 + y |
| Dates.FirstWeekdayJs | src/pages/Calendar.tsx:19-22 | the grid's first weekday, with the same year rule |
| Dates.MonthOfKey | src/components/MonthlyCalendar.tsx:41-42 | the month read from a key is in 0..11, and an invalid key gives none |
| Dates.KeyOrder | src/components/MonthlyCalendar.tsx:60 | for `YYYY-MM-DD` keys, string `<` is chronological order and string equality is date equality |
| Dates.DateKeyParses | src/components/MonthlyCalendar.tsx:59 | for a four-digit year the built key has the `YYYY-MM-DD` shape and spells year, month + 1 and day |
| Dates.DateKeyInjective | src/pages/Calendar.tsx:62-65 | two built keys are equal exactly when year, month and day are |
| CalendarGrid.BuildGrid | src/components/MonthlyCalendar.tsx:72-82 | the grid has `start + days` cells: blanks first, then cell i holds day i - start + 1 |
| CalendarGrid.MonthGrid | src/pages/Calendar.tsx:50-60 | the shown month's grid uses its first weekday and length |
| CalendarGrid.DayInWeekdayColumn | src/components/MonthlyCalendar.tsx:72-82 | each day's cell sits in the column of that day's weekday |
| CalendarGrid.April2026 | src/components/MonthlyCalendar.tsx:32-35 | April 2026 has 3 leading blanks and 30 days |
| MonthlyCalendar.ScoreBand | src/components/MonthlyCalendar.tsx:50-55 | no score, 3 or less, 4..6 and 7 or more each get exactly one band |
| MonthlyCalendar.FutureIsChronological | src/components/MonthlyCalendar.tsx:58-61 | for a four-digit year, the string test of `isFutureDate` is "after today" on the calendar |
| MonthlyCalendar.BuildScoresMap | src/components/MonthlyCalendar.tsx:38-47 | a date is a key iff some entry with that date is in the shown month, and its value is the last such entry |
| MonthlyCalendar.SaveRequest | src/components/MonthlyCalendar.tsx:99-111 | a save goes out iff a non-zero day is selected, a callback exists and the score text parses to 0..10; it sends the day's key, that score and the notes |
| MonthlyCalendar.BlankScoreIsRefused | src/components/MonthlyCalendar.tsx:102-106 | a blank score field is never saved |
| MonthlyCalendar.UneditedSaveResends | src/components/MonthlyCalendar.tsx:90-111 | clicking a day with an entry and saving unedited sends back that entry's score and notes |
| MonthlyCalendar.ClockForward | src/components/MonthlyCalendar.tsx:58-61 | a day not after an earlier today is not after a later today |
| MonthlyCalendar.StaleSelectionSaved | src/components/MonthlyCalendar.tsx:24-29 | as written, a day picked on the last day of a month is saved, after the month changes, under the same day number of the next month, a date after the new today |
| MonthlyCalendar.MidnightRolloverExample | src/components/MonthlyCalendar.tsx:99-111 | day 31 picked on 2026-03-31 and saved after midnight goes out as the key of 2026-04-31, after today and not a real date |
| MonthlyCalendar.GuardedSaveRequest | src/components/MonthlyCalendar.tsx:99-111 | with the future-day test repeated at save time, a save never targets a day after today, and otherwise it is the save `handleSave` makes |
| MonthlyCalendar.GuardRefusesStale | src/components/MonthlyCalendar.tsx:58-61 | the guarded save refuses the stale selection of the month change |
| MonthlyCalendar.MonthlyCalendarView.constructor | src/components/MonthlyCalendar.tsx:18-47 | empty editor; `scoresMap` holds, for each date of an entry in the shown month, the last such entry; the grid of the shown month |
| MonthlyCalendar.MonthlyCalendarView.Render | src/components/MonthlyCalendar.tsx:24-47 | props and clock read again, `scoresMap` and the grid rebuilt from them, the editor kept; a selection not in the future stays so when the month is the same and the clock has not gone back |
| MonthlyCalendar.MonthlyCalendarView.HandleDayClick | src/components/MonthlyCalendar.tsx:84-97 | a future day changes nothing; otherwise the day is selected for editing, preloaded with its entry's score text and notes or empty fields |
| MonthlyCalendar.MonthlyCalendarView.HandleSave | src/components/MonthlyCalendar.tsx:99-120 | the call equals `SaveRequest`; success closes the editor and clears the selection; failure or refusal leaves them; `saving` ends false; when the selection was not in the future under the current clock, the saved day is not after today |
| MonthlyCalendar.MonthlyCalendarView.AfterCall | src/components/MonthlyCalendar.tsx:109-119 | after the call, success closes the editor and clears the selection, failure keeps both, and `saving` ends false |
| MonthlyCalendar.MonthlyCalendarView.HandleCancel | src/components/MonthlyCalendar.tsx:122-127 | selection and editor fields are cleared |
| CalendarPage.DaysWithEntries | src/pages/Calendar.tsx:26-37 | a date is in the set iff some pillar's entry has that date and the date, read locally, is in the shown month |
| CalendarPage.DotIffEntry | src/pages/Calendar.tsx:169-170 | a day of the shown month gets its dot exactly when some pillar has an entry dated that day |
| CalendarPage.EntryMonthAsWritten | src/pages/Calendar.tsx:30-31 | the UTC reading agrees with the local one east of UTC and on valid keys only; west of UTC it gives the previous month for day 1 and the key's own month for any other day |
| CalendarPage.FirstDayLosesDot | src/pages/Calendar.tsx:26-37 | as written, west of UTC the first of the shown month never gets its dot |
| CalendarPage.FirstOfAprilExample | src/pages/Calendar.tsx:26-37 | an entry on 2026-04-01 is found by the local reading and missed by the UTC reading |
| CalendarPage.TodayIffSameKey | src/pages/Calendar.tsx:171 | a cell is today's exactly when its key is today's key |
| CalendarPage.CalendarView.constructor | src/pages/Calendar.tsx:12-14 | no day open, today's month shown, the month in 0..11 |
| CalendarPage.CalendarView.HandleDayClick | src/pages/Calendar.tsx:62-65 | the clicked day's key is opened and the month is kept |
| CalendarPage.CalendarView.CloseDetail | src/pages/Calendar.tsx:196-200 | the detail is closed |
| CalendarPage.CalendarView.NavigateMonth | src/pages/Calendar.tsx:79-95 | `prev` and `next` move to the previous and next month, wrapping the year, and the month stays in 0..11 |
| Reflections.WithFavoriteToggled | src/pages/Reflections.tsx:110-118 | only reflections with that id have their flag flipped; everything else and the length are kept |
| Reflections.ToggleTwice | src/pages/Reflections.tsx:110-118 | toggling twice restores the list |
| Reflections.FilteredContents | src/pages/Reflections.tsx:121-128 | a reflection is kept iff the search text (ignoring case) is in its content or pillar name and the pillar and date filters are empty or equal; the kept ones keep their order |
| Reflections.NoFilterKeepsAll | src/pages/Reflections.tsx:121-128 | with all filters empty every reflection is kept |
| Reflections.LatestFor | src/pages/Reflections.tsx:134-139 | a pillar's slot is empty iff no reflection has that pillar; otherwise it holds one of that pillar's reflections |
| Reflections.LatestIsLatest | src/pages/Reflections.tsx:134-139 | no reflection of that pillar is strictly later than the slot's |
| Reflections.LatestKeepsFirstOfTies | src/pages/Reflections.tsx:134-139 | with real dates, every earlier reflection of that pillar is strictly earlier, so on a tie the first one stays |
| Reflections.LatestSlots | src/pages/Reflections.tsx:141-144 | one slot per pillar option, in the options' order |
| Reflections.LatestByPillar | src/pages/Reflections.tsx:131-145 | the one-pass dictionary fill yields exactly `LatestSlots` |
| Reflections.InOwnGroup | src/pages/Reflections.tsx:150-157 | each reflection is in the group of its own date and no other |
| Reflections.GroupByDate | src/pages/Reflections.tsx:150-157 | one group per date that occurs, holding that date's reflections in order; the keys are listed once each |
| Reflections.SortDatesDesc | src/pages/Reflections.tsx:160-162 | the dates are a permutation of the keys in strictly newest-first order |
| Reflections.SortedDatesAreKeys | src/pages/Reflections.tsx:160-162 | the sorted list holds exactly the group keys, each once |
| Reflections.DescendingIsStringOrder | src/pages/Reflections.tsx:160-162 | newest first is the reverse of the keys' string order |
| Reflections.ReflectionsView.constructor | src/pages/Reflections.tsx:100-104 | empty filters, nothing expanded |
| Reflections.ReflectionsView.ToggleFavorite | src/pages/Reflections.tsx:110-118 | the list becomes `WithFavoriteToggled` of the old list and the filters are kept |
| Reflections.ReflectionsView.ClearFilters | src/pages/Reflections.tsx:174-178 | the three filters become `""`, so every reflection is shown |
| DayDetail.FindByDate | src/components/DayDetailModal.tsx:30 | none iff no entry has the date; otherwise the first entry that has it |
| DayDetail.GetDayEntries | src/components/DayDetailModal.tsx:26-38 | one row per pillar, in order, holding that pillar's first entry for the date or none |
| DayDetail.HasAnyEntries | src/components/DayDetailModal.tsx:41 | true iff some row has an entry |
| DayDetail.AnyEntryIffDated | src/components/DayDetailModal.tsx:26-41 | some row has an entry iff some pillar has an entry on that date |
| DayDetail.NotesToShowMembers | src/components/DayDetailModal.tsx:120-122 | a row is listed iff it has an entry whose notes contain a non-whitespace character |
| DayDetail.NoReflectionMessage | src/components/DayDetailModal.tsx:120-143 | the list of reflections is empty iff no row has non-blank notes |
| DayDetail.ContentOf | src/components/DayDetailModal.tsx:66-143 | the "no record" message iff no row has an entry; otherwise the details, whose reflections are the rows with non-blank notes and whose "no reflection" line shows iff no row has non-blank notes |
| DayDetail.NotesNeedEntries | src/components/DayDetailModal.tsx:66-122 | listed reflections only appear when the day has an entry |
| PillarCard.ScoreTone | src/components/PillarCard.tsx:23-27 | 8 or more is emerald, 6 up to 8 is yellow, below 6 is red, and exactly one applies |
| PillarCard.ToneMonotone | src/components/PillarCard.tsx:23-27 | a higher score never gets a worse tone |
| PillarCard.IconOf | src/components/PillarCard.tsx:12-21 | `up` gives the rising icon, `down` the falling one, anything else the flat one |
| PillarCard.IconFollowsScores | src/components/PillarCard.tsx:12-21 | on a built pillar the icon rises or falls exactly as the last two scores do |
| PillarDetail.FilteredEntries | src/components/PillarDetail.tsx:23-25 | the last min(7, n) or min(30, n) entries, as a suffix |
| PillarDetail.WeekInsideMonth | src/components/PillarDetail.tsx:23-25 | the week window is the tail of the month window, and both end with the latest entry |
| PillarDetail.AcceptedScore | src/components/PillarDetail.tsx:27-32 | a score is taken iff `parseInt` gives a number 0..10, and it is that number |
| PillarDetail.TypedScoreAccepted | src/components/PillarDetail.tsx:27-32 | typing the digits of 0..10 sets exactly that score |
| PillarDetail.BlankScoreIgnored | src/components/PillarDetail.tsx:27-32 | a blank input is not taken |
| PillarDetail.PillarDetailView.constructor | src/components/PillarDetail.tsx:18-21 | month window, last entry's notes or `""`, and the current score |
| PillarDetail.PillarDetailView.SetTimeframe | src/components/PillarDetail.tsx:51-58 | only the timeframe changes |
| PillarDetail.PillarDetailView.HandleScoreChange | src/components/PillarDetail.tsx:27-32 | the score becomes the accepted value, or stays as it was; a score in 0..10 stays in 0..10 |
| PillarDetail.PillarDetailView.ToggleEditingNotes | src/components/PillarDetail.tsx:133 | the editing flag flips and nothing else changes |
| DiaryPillar.GradientClass | src/pages/DiaryPillar.tsx:74-82 | the result is always the gradient of one of the six colour words |
| DiaryPillar.GradientPrecedence | src/pages/DiaryPillar.tsx:74-82 | the first colour word found, in the order emerald, purple, blue, pink, indigo, green, decides; with none found the gradient is emerald |
| DiaryPillar.CategoryGradient | src/pages/DiaryPillar.tsx:74-82 | each of the six categories gets its own colour's gradient; the sage default gets emerald |
| DiaryPillar.SaveRequest | src/pages/DiaryPillar.tsx:84-90 | a save goes out iff the pillar id is present and not both texts are blank after trimming; it sends the texts as typed |
| DiaryPillar.EnabledIffSaves | src/pages/DiaryPillar.tsx:162 | with an id and no save under way, the button is enabled exactly when pressing it saves |
| DiaryPillar.WhitespaceNotSaved | src/pages/DiaryPillar.tsx:85 | two whitespace-only texts are never saved |
| DiaryPillar.DiaryForm.constructor | src/pages/DiaryPillar.tsx:15-18 | empty texts, not saving |
| DiaryPillar.DiaryForm.HandleSave | src/pages/DiaryPillar.tsx:84-97 | the call equals `SaveRequest`; success clears both texts and disables the button; failure or refusal keeps them; `saving` ends false |
| Text.BlankIffAllWhitespace | src/pages/DiaryPillar.tsx:85 | `trim()` is empty iff every character is whitespace |
| Text.ContainsIffOccurs | src/pages/Reflections.tsx:122-123 | `includes` holds iff the needle occurs at some index |
| Text.ToLower | src/pages/Reflections.tsx:122-123 | same length, each character lowered on its own |
| Text.StrLessTransitive | src/components/MonthlyCalendar.tsx:60 | string `<` is transitive |
| Text.StrLessTotal | src/components/MonthlyCalendar.tsx:60 | of two different strings one is `<` the other |
| Text.NatToString | src/components/MonthlyCalendar.tsx:59 | `String(n)` is a non-empty digit string with no leading zero except for 0 |
| Text.NatToStringValue | src/components/MonthlyCalendar.tsx:59 | the digits of `String(n)` read back as n |
| Text.DigitOrder | src/components/MonthlyCalendar.tsx:60 | for digit strings of one length, string `<` is numeric `<` |
| Text.ParseIntOfIntToString | src/components/MonthlyCalendar.tsx:95-102 | `parseInt(String(n))` is n for every integer |
| Text.BlankParsesToNaN | src/components/MonthlyCalendar.tsx:102-103 | `parseInt` of a blank text is `NaN` |
| Seqs.FilterMembers | src/pages/Reflections.tsx:121 | an element is kept iff it is in the list and passes the test |
| Seqs.FilterConcat | src/pages/Reflections.tsx:121 | filtering keeps order: the filter of a concatenation is the concatenation of the filters |

## Left out

- Database I/O (the queries of `fetchCards`, the score, reflection and diary writes) is not modelled. The rows a query returns are inputs (`UseCards.BuildPillars` takes `rowsOf`). The one-row-per-day guarantee belongs to the database.
- The clock, `getTimezoneOffset` and `toISOString` are not modelled. Today's date, the local-date key and the shown month are parameters, given again to each `MonthlyCalendarView.Render`. A render happens whenever React decides. The model proves what holds for any sequence of renders, but not when they happen. West or east of UTC is a boolean (`CalendarPage.EntryMonthAsWritten`).
- MonthlyCalendar.SaveRequest and MonthlyCalendarView.HandleSave: the messages of a refused or failed save are not modelled. These are the `alert` for a score outside 0..10, and the `console.error` and `alert` after a throw. A refusal for a missing day or callback is silent, and the model gives it the same `None` as an invalid score. A failed save is told apart only by `succeeds` being false, with the editor kept open.
- Text.StrLess: characters are code points, where JavaScript's `<` compares UTF-16 code units. The two orders differ only for characters above U+FFFF, which date keys never contain.
- `new Date(text)` is modelled only for keys of the exact `YYYY-MM-DD` shape with a real month and day. Any other text is an Invalid Date. Engines differ on texts such as `2026-02-30` or `2026-4-1`, so that difference is not modelled.
- Reflections.Matches: `toLowerCase` is modelled on ASCII letters only. Unicode case mapping (for example of accented capitals) is not modelled.
- Text.Trim: strings are sequences of code points, not UTF-16 units. Whitespace is the ECMAScript set, which contains no surrogates, so `trim` agrees.
- Scores are integers. A fractional score stored by the database would be banded and compared the same way, but the model does not cover it.
- UseCards.CategoryColor: JavaScript would also look up inherited property names such as `constructor` on the colour table, giving a non-string value. The model treats only the six own keys as mapped. Likewise `Reflections.LatestFor` treats pillar ids as plain keys.
- Reflections.SortDatesDesc: requires every date to be a distinct real date key. With an Invalid Date the comparator returns `NaN`, and the order `sort` produces is then engine-dependent.
- Display formatting is not modelled: month and weekday names, `toLocaleDateString`, progress-bar widths (floating point), the chart, icons and routing.
- The asynchronous handlers are each one atomic step. Interleavings of awaits are not modelled, nor is `saving` being visible as true during the await.
- The favourite toggle on the diary page only logs, so it is not modelled.
- Mock data files and random data are not modelled.

## Findings

| source | as written | input that shows it | evidently intended | confidence | as-written member | corrected member |
|---|---|---|---|---|---|---|
| src/pages/Calendar.tsx:30 | `new Date(entry.date)` reads a date-only key as UTC midnight. West of UTC that is the evening before in local time, so `getMonth()` of an entry on the 1st is the previous month and that day gets no dot. | An entry dated `2026-04-01`, April 2026 shown, time zone UTC-3 | Read the key as local midnight, as `src/components/MonthlyCalendar.tsx:41` does, so a day has a dot iff it has an entry | medium (not executed) | CalendarPage.FirstDayLosesDot | CalendarPage.DaysWithEntries |
| src/components/MonthlyCalendar.tsx:99-111 | Only the day number is kept as the selection. The month comes from `new Date()` at each render. `handleSave` does not repeat the future-day test. | Day 31 clicked on 2026-03-31; after midnight a keystroke re-renders, and the save sends `2026-04-31`, a key after today that names no date | The save goes only to a day that is not after today (the click handler's own rule), so a stale selection is refused | low (not executed) | MonthlyCalendar.StaleSelectionSaved | MonthlyCalendar.GuardedSaveRequest |
