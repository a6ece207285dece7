/**
 * The detail of one day over all pillars: each pillar's entry for the date (or none),
 * whether any pillar has one, and the non-blank notes listed as the day's reflections.
 */
module DayDetail {
  import opened Opt
  import opened Text
  import opened Seqs
  import opened PillarTypes

  /** The score and notes shown for a pillar on the day. */
  datatype DayEntry = DayEntry(score: int, notes: string)

  /** One row of the detail: a pillar and its entry for the day, if any. */
  datatype DayItem = DayItem(pillar: Pillar, entry: Option<DayEntry>)

  /** `entries.find(e => e.date === date)`: the first entry with that date. */
  function FindByDate(entries: seq<DailyEntry>, date: string): (r: Option<DailyEntry>)
    ensures r.None? <==> forall i :: 0 <= i < |entries| ==> entries[i].date != date
    ensures r.Some? ==> exists i :: FirstWithDate(entries, date, i) && entries[i] == r.value
  {
    if |entries| == 0 then None
    else if entries[0].date == date then
      assert FirstWithDate(entries, date, 0);
      Some(entries[0])
    else
      var r := FindByDate(entries[1..], date);
      if r.Some? then
        var i :| FirstWithDate(entries[1..], date, i) && entries[1..][i] == r.value;
        assert FirstWithDate(entries, date, i + 1);
        r
      else r
  }

  /** Entry `i` has the date and no entry before it does. */
  predicate FirstWithDate(entries: seq<DailyEntry>, date: string, i: int) {
    0 <= i < |entries| && entries[i].date == date && forall j :: 0 <= j < i ==> entries[j].date != date
  }

  /** The row of one pillar. */
  function ItemFor(pillar: Pillar, date: string): DayItem {
    var e := FindByDate(pillar.entries, date);
    DayItem(pillar, if e.Some? then Some(DayEntry(e.value.score, e.value.notes)) else None)
  }

  /** `getDayEntries`: one row per pillar, in the pillars' order. */
  method GetDayEntries(pillars: seq<Pillar>, date: string) returns (items: seq<DayItem>)
    ensures |items| == |pillars|
    ensures forall i :: 0 <= i < |pillars| ==> items[i] == ItemFor(pillars[i], date)
  {
    items := [];
    var n := 0;
    while n < |pillars|
      invariant 0 <= n <= |pillars|
      invariant |items| == n
      invariant forall i :: 0 <= i < n ==> items[i] == ItemFor(pillars[i], date)
    {
      items := items + [ItemFor(pillars[n], date)];
      n := n + 1;
    }
  }

  /** `hasAnyEntries`: `some` row has an entry. */
  function HasAnyEntries(items: seq<DayItem>): (b: bool)
    ensures b <==> exists i :: 0 <= i < |items| && items[i].entry.Some?
  {
    if |items| == 0 then false
    else
      assert items[0] == items[..1][0];
      items[0].entry.Some? || (assert forall i :: 0 <= i < |items| - 1 ==> items[1..][i] == items[i + 1]; HasAnyEntries(items[1..]))
  }

  /** The rows of the day's pillars have an entry exactly when some pillar has one on that date. */
  lemma {:induction false} AnyEntryIffDated(pillars: seq<Pillar>, date: string, items: seq<DayItem>)
    requires |items| == |pillars|
    requires forall i :: 0 <= i < |pillars| ==> items[i] == ItemFor(pillars[i], date)
    ensures HasAnyEntries(items)
        <==> exists i, j :: 0 <= i < |pillars| && 0 <= j < |pillars[i].entries| && pillars[i].entries[j].date == date
  {
    forall i | 0 <= i < |items| && items[i].entry.Some?
      ensures exists j :: 0 <= j < |pillars[i].entries| && pillars[i].entries[j].date == date
    {
      var k :| FirstWithDate(pillars[i].entries, date, k) && pillars[i].entries[k] == FindByDate(pillars[i].entries, date).value;
    }
  }

  /** `entry && entry.notes.trim() !== ''`. */
  predicate HasNotes(item: DayItem) {
    item.entry.Some? && !IsBlank(item.entry.value.notes)
  }

  /** The filter callback of the reflections list. */
  function HasNotesTest(): DayItem -> bool {
    (item: DayItem) => HasNotes(item)
  }

  /** The day's reflections: the rows whose entry has non-blank notes, in pillar order. */
  function NotesToShow(items: seq<DayItem>): seq<DayItem> {
    Filter(items, HasNotesTest())
  }

  /** A row is listed exactly when it has an entry whose notes are not all whitespace. */
  lemma NotesToShowMembers(items: seq<DayItem>, item: DayItem)
    ensures item in NotesToShow(items) <==> (item in items && item.entry.Some?
      && exists k :: 0 <= k < |item.entry.value.notes| && !IsWhitespace(item.entry.value.notes[k]))
  {
    FilterMembers(items, HasNotesTest(), item);
    if item.entry.Some? {
      BlankIffAllWhitespace(item.entry.value.notes);
    }
  }

  /** The reflections list is empty exactly when no row has non-blank notes. */
  lemma NoReflectionMessage(items: seq<DayItem>)
    ensures |NotesToShow(items)| == 0 <==> forall i :: 0 <= i < |items| ==> !HasNotes(items[i])
  {
    if |NotesToShow(items)| == 0 {
      forall i | 0 <= i < |items|
        ensures !HasNotes(items[i])
      {
        FilterMembers(items, HasNotesTest(), items[i]);
      }
    } else {
      var x := NotesToShow(items)[0];
      FilterMembers(items, HasNotesTest(), x);
    }
  }

  /**
   * What the body of the detail shows: "no record on this day" when no row has an
   * entry; otherwise the rows, the reflections list and, when that list is empty, the
   * "no reflection recorded" line.
   */
  datatype DayContent = NoRecord | Details(reflections: seq<DayItem>, noReflectionLine: bool)

  /** The `hasAnyEntries ? ... : ...` branch of the detail and the line under the list. */
  function ContentOf(items: seq<DayItem>): (c: DayContent)
    ensures c.NoRecord? <==> forall i :: 0 <= i < |items| ==> items[i].entry.None?
    ensures c.Details? ==> c.reflections == NotesToShow(items)
    ensures c.Details? ==> (c.noReflectionLine <==> forall i :: 0 <= i < |items| ==> !HasNotes(items[i]))
  {
    if !HasAnyEntries(items) then NoRecord
    else
      NoReflectionMessage(items);
      Details(NotesToShow(items), |NotesToShow(items)| == 0)
  }

  /** A listed reflection needs an entry, so it only appears when some row has one. */
  lemma NotesNeedEntries(items: seq<DayItem>)
    requires |NotesToShow(items)| > 0
    ensures HasAnyEntries(items)
  {
    var x := NotesToShow(items)[0];
    FilterMembers(items, HasNotesTest(), x);
  }
}
