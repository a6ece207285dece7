/**
 * The detail page of one pillar: the week or month window of its entries, the
 * score input that only takes 0..10, and the notes editor toggle.
 */
module PillarDetail {
  import opened Opt
  import opened Text
  import opened PillarTypes

  /** `'week' | 'month'`. */
  datatype Timeframe = Week | Month

  /** How many of the latest entries each timeframe shows. */
  function WindowSize(t: Timeframe): nat {
    match t
    case Week => 7
    case Month => 30
  }

  /** `entries.slice(-k)`: the last `k` entries, or all of them when there are fewer. */
  function FilteredEntries(entries: seq<DailyEntry>, t: Timeframe): (r: seq<DailyEntry>)
    ensures |r| == if |entries| < WindowSize(t) then |entries| else WindowSize(t)
    ensures r == entries[|entries| - |r|..]
  {
    var start := |entries| - WindowSize(t);
    entries[if start < 0 then 0 else start..]
  }

  /** The week shows the latest part of the month's window, and both end with the latest entry. */
  lemma WeekInsideMonth(entries: seq<DailyEntry>)
    ensures var week, month := FilteredEntries(entries, Week), FilteredEntries(entries, Month);
      && |week| <= |month|
      && week == month[|month| - |week|..]
      && (|entries| > 0 ==> week[|week| - 1] == month[|month| - 1] == entries[|entries| - 1])
  {
  }

  /** The score `handleScoreChange` takes from the input text: `parseInt` of it, if 0..10. */
  function AcceptedScore(text: string): (r: Option<int>)
    ensures r.Some? <==> ParseInt(text).Some? && 0 <= ParseInt(text).value <= 10
    ensures r.Some? ==> r == ParseInt(text)
  {
    match ParseInt(text)
    case Some(v) => if v >= 0 && v <= 10 then Some(v) else None
    case None => None
  }

  /** Typing a score 0..10 as digits sets exactly that score. */
  lemma TypedScoreAccepted(n: int)
    requires 0 <= n <= 10
    ensures AcceptedScore(IntToString(n)) == Some(n)
  {
    ParseIntOfIntToString(n);
  }

  /** An empty or blank input is not a score. */
  lemma BlankScoreIgnored(text: string)
    requires IsBlank(text)
    ensures AcceptedScore(text) == None
  {
    BlankParsesToNaN(text);
  }

  /** The page's state for one pillar. */
  class PillarDetailView {
    const pillar: Pillar
    var timeframe: Timeframe
    var editingNotes: bool
    var notes: string
    var todayScore: int

    /** The month window, notes of the last entry (or none), and the pillar's current score. */
    constructor (pillar: Pillar)
      ensures this.pillar == pillar && timeframe == Month && !editingNotes
      ensures notes == if |pillar.entries| > 0 then pillar.entries[|pillar.entries| - 1].notes else ""
      ensures todayScore == pillar.currentScore
    {
      this.pillar := pillar;
      timeframe := Month;
      editingNotes := false;
      notes := if |pillar.entries| > 0 then pillar.entries[|pillar.entries| - 1].notes else "";
      todayScore := pillar.currentScore;
    }

    /** The entries the chart shows. */
    function Shown(): seq<DailyEntry>
      reads this
    {
      FilteredEntries(pillar.entries, timeframe)
    }

    /** The week / month buttons. */
    method SetTimeframe(t: Timeframe)
      modifies this
      ensures timeframe == t
      ensures editingNotes == old(editingNotes) && notes == old(notes) && todayScore == old(todayScore)
    {
      timeframe := t;
    }

    /**
     * `handleScoreChange`: the score changes only to a parsed value 0..10; text that is
     * not a number, or out of range, leaves it as it was. A score in range stays in range.
     */
    method HandleScoreChange(text: string)
      modifies this
      ensures todayScore == if AcceptedScore(text).Some? then AcceptedScore(text).value else old(todayScore)
      ensures 0 <= old(todayScore) <= 10 ==> 0 <= todayScore <= 10
      ensures timeframe == old(timeframe) && editingNotes == old(editingNotes) && notes == old(notes)
    {
      var value := ParseInt(text);
      if value.Some? && value.value >= 0 && value.value <= 10 {
        todayScore := value.value;
      }
    }

    /** The edit / save button of the notes. */
    method ToggleEditingNotes()
      modifies this
      ensures editingNotes == !old(editingNotes)
      ensures timeframe == old(timeframe) && notes == old(notes) && todayScore == old(todayScore)
    {
      editingNotes := !editingNotes;
    }
  }
}
