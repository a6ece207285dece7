/**
 * The reflection feed: favourite toggling, the search / pillar / date filter, the
 * latest reflection of each pillar, grouping by date and the newest-first order of
 * the date groups.
 */
module Reflections {
  import opened Opt
  import opened Text
  import opened Dates
  import opened Seqs

  datatype Reflection = Reflection(
    id: string,
    date: string,
    pillarId: string,
    pillarName: string,
    pillarIcon: string,
    content: string,
    isFavorite: bool)

  /** An entry of the pillar selector. */
  datatype PillarOption = PillarOption(id: string, name: string, icon: string)

  /** The seven pillars of the selector, in the order the page lists them. */
  const PillarOptions: seq<PillarOption> := [
    PillarOption("dinheiro", "Dinheiro", "\U{1F4B0}"),
    PillarOption("espiritualidade", "Espiritualidade", "\U{1F54A}\U{FE0F}"),
    PillarOption("tempo", "Tempo", "\U{23F0}"),
    PillarOption("relacionamento", "Relacionamento", "\U{2764}\U{FE0F}"),
    PillarOption("conhecimento", "Conhecimento", "\U{1F4DA}"),
    PillarOption("saude", "Sa\U{FA}de", "\U{1F4AA}"),
    PillarOption("social", "Social", "\U{1F465}")
  ]

  /** `toggleFavorite(id)`: every reflection with that id has its favourite flag flipped. */
  function WithFavoriteToggled(rs: seq<Reflection>, id: string): (r: seq<Reflection>)
    ensures |r| == |rs|
    ensures forall i :: 0 <= i < |rs| && rs[i].id == id ==>
      r[i] == rs[i].(isFavorite := !rs[i].isFavorite)
    ensures forall i :: 0 <= i < |rs| && rs[i].id != id ==> r[i] == rs[i]
  {
    seq(|rs|, i requires 0 <= i < |rs| =>
      if rs[i].id == id then rs[i].(isFavorite := !rs[i].isFavorite) else rs[i])
  }

  /** Toggling the same id twice gives the list back. */
  lemma ToggleTwice(rs: seq<Reflection>, id: string)
    ensures WithFavoriteToggled(WithFavoriteToggled(rs, id), id) == rs
  {
    var once := WithFavoriteToggled(rs, id);
    assert forall i :: 0 <= i < |rs| ==> once[i].id == rs[i].id;
  }

  /** The three filter criteria of the feed. */
  predicate Matches(r: Reflection, searchTerm: string, selectedPillar: string, selectedDate: string) {
    && (Contains(ToLower(r.content), ToLower(searchTerm)) || Contains(ToLower(r.pillarName), ToLower(searchTerm)))
    && (selectedPillar == "" || r.pillarId == selectedPillar)
    && (selectedDate == "" || r.date == selectedDate)
  }

  /** The filter callback for one setting of the criteria. */
  function MatchesAll(searchTerm: string, selectedPillar: string, selectedDate: string): Reflection -> bool {
    (r: Reflection) => Matches(r, searchTerm, selectedPillar, selectedDate)
  }

  /** `filteredReflections`. */
  function Filtered(rs: seq<Reflection>, searchTerm: string, selectedPillar: string, selectedDate: string): seq<Reflection> {
    Filter(rs, MatchesAll(searchTerm, selectedPillar, selectedDate))
  }

  /**
   * A reflection is listed exactly when the search text (ignoring case) is in its
   * content or pillar name, and the pillar and date filters are empty or equal; and
   * the listed ones keep their order.
   */
  lemma FilteredContents(rs: seq<Reflection>, searchTerm: string, selectedPillar: string, selectedDate: string, r: Reflection)
    ensures r in Filtered(rs, searchTerm, selectedPillar, selectedDate)
        <==> r in rs && Matches(r, searchTerm, selectedPillar, selectedDate)
    ensures forall a, b :: rs == a + b ==>
      Filtered(rs, searchTerm, selectedPillar, selectedDate)
        == Filtered(a, searchTerm, selectedPillar, selectedDate) + Filtered(b, searchTerm, selectedPillar, selectedDate)
  {
    FilterMembers(rs, MatchesAll(searchTerm, selectedPillar, selectedDate), r);
    forall a, b | rs == a + b
      ensures Filtered(rs, searchTerm, selectedPillar, selectedDate)
        == Filtered(a, searchTerm, selectedPillar, selectedDate) + Filtered(b, searchTerm, selectedPillar, selectedDate)
    {
      FilterConcat(a, b, MatchesAll(searchTerm, selectedPillar, selectedDate));
    }
  }

  /** With all three filters empty, the whole list is shown. */
  lemma NoFilterKeepsAll(rs: seq<Reflection>)
    ensures Filtered(rs, "", "", "") == rs
  {
    forall i | 0 <= i < |rs|
      ensures Matches(rs[i], "", "", "")
    {
      ContainsEmpty(ToLower(rs[i].content));
    }
    FilterAll(rs, MatchesAll("", "", ""));
  }

  /**
   * `new Date(a) > new Date(b)`: both texts are real dates and `a` is the later day.
   * An Invalid Date compares false with anything.
   */
  predicate DateLater(a: string, b: string) {
    IsValidKey(a) && IsValidKey(b) && Before(ParseKey(b), ParseKey(a))
  }

  /**
   * The slot `latestByPillar[id]` after the `forEach` over `rs`: a reflection of that
   * pillar replaces the slot's holder when the slot is empty or it is strictly later.
   */
  function LatestFor(rs: seq<Reflection>, id: string): (m: Option<Reflection>)
    ensures m.None? <==> forall i :: 0 <= i < |rs| ==> rs[i].pillarId != id
    ensures m.Some? ==> m.value in rs && m.value.pillarId == id
  {
    if |rs| == 0 then None
    else
      var prev := LatestFor(rs[..|rs| - 1], id);
      var r := rs[|rs| - 1];
      if r.pillarId == id && (prev.None? || DateLater(r.date, prev.value.date)) then Some(r) else prev
  }

  /** No reflection of the pillar is strictly later than the one its slot holds. */
  lemma {:induction false} LatestIsLatest(rs: seq<Reflection>, id: string)
    requires LatestFor(rs, id).Some?
    ensures forall i :: 0 <= i < |rs| && rs[i].pillarId == id ==> !DateLater(rs[i].date, LatestFor(rs, id).value.date)
  {
    var init := rs[..|rs| - 1];
    var prev := LatestFor(init, id);
    if prev.Some? {
      LatestIsLatest(init, id);
    }
    assert forall i :: 0 <= i < |init| ==> rs[i] == init[i];
  }

  /** A date later than `b` is later than any real date that is not later than `b`. */
  lemma LaterThanLatest(a: string, b: string, c: string)
    requires DateLater(a, b) && IsValidKey(c) && !DateLater(c, b)
    ensures DateLater(a, c)
  {
  }

  /** Every reflection of the pillar before index `k` is strictly earlier than the one at `k`. */
  predicate FirstOfLatest(rs: seq<Reflection>, id: string, k: int) {
    0 <= k < |rs| && forall j :: 0 <= j < k && rs[j].pillarId == id ==> DateLater(rs[k].date, rs[j].date)
  }

  /**
   * When all of a pillar's reflections have real dates, its slot holds the first of
   * the latest ones: every reflection of that pillar before it in the list is
   * strictly earlier (so a tie keeps the one met first).
   */
  lemma {:induction false} LatestKeepsFirstOfTies(rs: seq<Reflection>, id: string)
    requires forall i :: 0 <= i < |rs| && rs[i].pillarId == id ==> IsValidKey(rs[i].date)
    requires LatestFor(rs, id).Some?
    ensures exists k :: FirstOfLatest(rs, id, k) && rs[k] == LatestFor(rs, id).value
  {
    var init := rs[..|rs| - 1];
    var prev := LatestFor(init, id);
    var last := |rs| - 1;
    assert forall i :: 0 <= i < |init| ==> rs[i] == init[i];
    if prev.Some? {
      LatestKeepsFirstOfTies(init, id);
      var k :| FirstOfLatest(init, id, k) && init[k] == prev.value;
      if LatestFor(rs, id) == prev {
        assert FirstOfLatest(rs, id, k);
      } else {
        LatestIsLatest(init, id);
        forall j | 0 <= j < last && rs[j].pillarId == id
          ensures DateLater(rs[last].date, rs[j].date)
        {
          LaterThanLatest(rs[last].date, prev.value.date, init[j].date);
        }
        assert FirstOfLatest(rs, id, last);
      }
    } else {
      assert FirstOfLatest(rs, id, last);
    }
  }

  /** One slot per pillar option: its latest reflection, or none. */
  function LatestSlots(rs: seq<Reflection>, options: seq<PillarOption>): (slots: seq<Option<Reflection>>)
    ensures |slots| == |options|
    ensures forall i :: 0 <= i < |options| ==> slots[i] == LatestFor(rs, options[i].id)
  {
    seq(|options|, i requires 0 <= i < |options| => LatestFor(rs, options[i].id))
  }

  /**
   * `getLatestReflectionsByPillar`: fills a dictionary from pillar id to its latest
   * reflection in one pass, then reads one slot per pillar option.
   */
  method LatestByPillar(rs: seq<Reflection>, options: seq<PillarOption>) returns (slots: seq<Option<Reflection>>)
    ensures slots == LatestSlots(rs, options)
  {
    var latest: map<string, Reflection> := map[];
    var n := 0;
    while n < |rs|
      invariant 0 <= n <= |rs|
      invariant forall id :: id in latest <==> LatestFor(rs[..n], id).Some?
      invariant forall id :: id in latest ==> latest[id] == LatestFor(rs[..n], id).value
    {
      var r := rs[n];
      assert rs[..n + 1][..n] == rs[..n];
      if r.pillarId !in latest || DateLater(r.date, latest[r.pillarId].date) {
        latest := latest[r.pillarId := r];
      }
      n := n + 1;
    }
    assert rs[..n] == rs;
    slots := [];
    var i := 0;
    while i < |options|
      invariant 0 <= i <= |options|
      invariant |slots| == i
      invariant forall k :: 0 <= k < i ==> slots[k] == LatestFor(rs, options[k].id)
    {
      var id := options[i].id;
      slots := slots + [if id in latest then Some(latest[id]) else None];
      i := i + 1;
    }
  }

  /** The filter callback of one date group. */
  function DateIs(date: string): Reflection -> bool {
    (r: Reflection) => r.date == date
  }

  /** The group of one date: the reflections of that date, in list order. */
  function ByDate(rs: seq<Reflection>, date: string): seq<Reflection> {
    Filter(rs, DateIs(date))
  }

  /** Each reflection is in the group of its own date and in no other. */
  lemma InOwnGroup(rs: seq<Reflection>, r: Reflection, date: string)
    ensures r in ByDate(rs, date) <==> r in rs && r.date == date
  {
    FilterMembers(rs, DateIs(date), r);
  }

  /** The dates the reflections carry. */
  ghost predicate HasDate(rs: seq<Reflection>, date: string) {
    exists i :: 0 <= i < |rs| && rs[i].date == date
  }

  /**
   * `groupedReflections` and `Object.keys` of it: a group per date that occurs, holding
   * that date's reflections in order, and the dates in the order they first occur.
   */
  method GroupByDate(rs: seq<Reflection>) returns (groups: map<string, seq<Reflection>>, dates: seq<string>)
    ensures GroupsOf(rs, groups)
    ensures forall d :: d in dates <==> d in groups
    ensures forall i, j :: 0 <= i < j < |dates| ==> dates[i] != dates[j]
  {
    groups := map[];
    dates := [];
    var n := 0;
    while n < |rs|
      invariant 0 <= n <= |rs|
      invariant GroupsOf(rs[..n], groups)
      invariant forall d :: d in dates <==> d in groups
      invariant forall i, j :: 0 <= i < j < |dates| ==> dates[i] != dates[j]
    {
      var r := rs[n];
      GroupsExtend(rs, n, groups);
      if r.date in groups {
        groups := groups[r.date := groups[r.date] + [r]];
      } else {
        groups := groups[r.date := [r]];
        dates := dates + [r.date];
      }
      n := n + 1;
    }
    assert rs[..n] == rs;
  }

  /** The groups hold exactly the dates of `rs`, each with its reflections in order. */
  ghost predicate GroupsOf(rs: seq<Reflection>, groups: map<string, seq<Reflection>>) {
    && (forall d :: d in groups <==> HasDate(rs, d))
    && (forall d :: d in groups ==> groups[d] == ByDate(rs, d))
  }

  /** Adding the next reflection to the end of its date's group (a new one if need be) keeps the groups right. */
  lemma GroupsExtend(rs: seq<Reflection>, n: int, groups: map<string, seq<Reflection>>)
    requires 0 <= n < |rs| && GroupsOf(rs[..n], groups)
    ensures GroupsOf(rs[..n + 1], groups[rs[n].date := (if rs[n].date in groups then groups[rs[n].date] else []) + [rs[n]]])
  {
    var r := rs[n];
    if r.date !in groups {
      NoDateEmptyGroup(rs[..n], r.date);
    }
    var g := groups[r.date := (if r.date in groups then groups[r.date] else []) + [r]];
    forall d
      ensures d in g <==> HasDate(rs[..n + 1], d)
      ensures d in g ==> g[d] == ByDate(rs[..n + 1], d)
    {
      GroupStep(rs, n, d);
      if d != r.date {
        assert (d in g <==> d in groups) && (d in g ==> g[d] == groups[d]);
      }
    }
  }

  /** A date no reflection carries has an empty group. */
  lemma NoDateEmptyGroup(rs: seq<Reflection>, date: string)
    requires !HasDate(rs, date)
    ensures ByDate(rs, date) == []
  {
    FilterNone(rs, DateIs(date));
  }

  /** One more reflection adds its date and joins the end of that date's group. */
  lemma GroupStep(rs: seq<Reflection>, n: int, date: string)
    requires 0 <= n < |rs|
    ensures HasDate(rs[..n + 1], date) <==> HasDate(rs[..n], date) || rs[n].date == date
    ensures ByDate(rs[..n + 1], date) == ByDate(rs[..n], date) + (if rs[n].date == date then [rs[n]] else [])
  {
    FilterStep(rs, n, DateIs(date));
    assert rs[..n + 1][n] == rs[n];
    assert forall i :: 0 <= i < n ==> rs[..n + 1][i] == rs[..n][i];
  }

  /** `b` comes before `a` in the newest-first order: `new Date(b) - new Date(a) < 0`. */
  predicate NewerFirst(a: string, b: string)
    requires IsKeyShape(a) && IsKeyShape(b)
  {
    Before(ParseKey(b), ParseKey(a))
  }

  /** Every text is a real date key. */
  predicate AllValid(ds: seq<string>) {
    forall i :: 0 <= i < |ds| ==> IsValidKey(ds[i])
  }

  /** Every text has the `YYYY-MM-DD` shape. */
  predicate AllShaped(ds: seq<string>) {
    forall i :: 0 <= i < |ds| ==> IsKeyShape(ds[i])
  }

  /** Strictly newest first. */
  predicate Descending(ds: seq<string>)
    requires AllShaped(ds)
  {
    forall i, j :: 0 <= i < j < |ds| ==> NewerFirst(ds[i], ds[j])
  }

  /** No text twice. */
  predicate Distinct(ds: seq<string>) {
    forall i, j :: 0 <= i < j < |ds| ==> ds[i] != ds[j]
  }

  /** A newest-first list with a newer text in front is still newest first. */
  lemma DescendingCons(h: string, t: seq<string>)
    requires IsKeyShape(h) && AllShaped(t) && Descending(t)
    requires forall x :: x in t ==> NewerFirst(h, x)
    ensures AllShaped([h] + t) && Descending([h] + t)
  {
    var r := [h] + t;
    forall i, j | 0 <= i < j < |r|
      ensures NewerFirst(r[i], r[j])
    {
      assert r[j] == t[j - 1];
      if i > 0 {
        assert r[i] == t[i - 1];
      }
    }
  }

  /** Puts `d` into a newest-first list of other dates, at its place. */
  function InsertDesc(d: string, ds: seq<string>): (r: seq<string>)
    requires IsKeyShape(d) && AllShaped(ds) && Descending(ds) && d !in ds
    ensures AllShaped(r) && Descending(r)
    ensures forall x :: x in r <==> x == d || x in ds
    ensures multiset(r) == multiset(ds) + multiset{d}
  {
    if |ds| == 0 then [d]
    else if NewerFirst(d, ds[0]) then
      NewestInFront(d, ds);
      [d] + ds
    else
      assert ds == [ds[0]] + ds[1..];
      var rest := InsertDesc(d, ds[1..]);
      InsertBehindHead(d, ds, rest);
      [ds[0]] + rest
  }

  /** A date newer than the head of a newest-first list goes in front of it. */
  lemma NewestInFront(d: string, ds: seq<string>)
    requires IsKeyShape(d) && AllShaped(ds) && Descending(ds) && |ds| > 0 && NewerFirst(d, ds[0])
    ensures AllShaped([d] + ds) && Descending([d] + ds)
  {
    forall x | x in ds
      ensures NewerFirst(d, x)
    {
      var k :| 0 <= k < |ds| && ds[k] == x;
      if k > 0 {
        assert NewerFirst(ds[0], ds[k]);
      }
    }
    DescendingCons(d, ds);
  }

  /**
   * A date that is not newer than the head (and not equal to it) goes behind it: the
   * head stays in front of the rest with the date put in.
   */
  lemma InsertBehindHead(d: string, ds: seq<string>, rest: seq<string>)
    requires IsKeyShape(d) && AllShaped(ds) && Descending(ds) && |ds| > 0 && d !in ds && !NewerFirst(d, ds[0])
    requires AllShaped(rest) && Descending(rest) && forall x :: x in rest <==> x == d || x in ds[1..]
    ensures AllShaped([ds[0]] + rest) && Descending([ds[0]] + rest)
  {
    KeyOrder(d, ds[0]);
    assert NewerFirst(ds[0], d);
    forall x | x in ds[1..]
      ensures NewerFirst(ds[0], x)
    {
      var k :| 0 <= k < |ds[1..]| && ds[1..][k] == x;
      assert ds[k + 1] == x;
    }
    DescendingCons(ds[0], rest);
  }

  /** Sorts texts of the key shape newest first. */
  function SortShapedDesc(ds: seq<string>): (r: seq<string>)
    requires AllShaped(ds) && Distinct(ds)
    ensures AllShaped(r) && Descending(r)
    ensures multiset(r) == multiset(ds)
  {
    if |ds| == 0 then []
    else
      assert ds == [ds[0]] + ds[1..];
      var rest := SortShapedDesc(ds[1..]);
      assert ds[0] !in multiset(rest);
      InsertDesc(ds[0], rest)
  }

  /**
   * `sortedDates`: the group dates newest first. For distinct real date keys the
   * comparator orders them strictly, so the result is this one list.
   */
  function SortDatesDesc(ds: seq<string>): (r: seq<string>)
    requires AllValid(ds) && Distinct(ds)
    ensures AllShaped(r) && Descending(r)
    ensures multiset(r) == multiset(ds)
  {
    assert AllShaped(ds);
    SortShapedDesc(ds)
  }

  /** The sorted dates are exactly the given ones, each once. */
  lemma SortedDatesAreKeys(ds: seq<string>)
    requires AllValid(ds) && Distinct(ds)
    ensures forall d :: d in SortDatesDesc(ds) <==> d in ds
    ensures |SortDatesDesc(ds)| == |ds| && Distinct(SortDatesDesc(ds))
  {
    var r := SortDatesDesc(ds);
    assert forall d :: d in r <==> d in multiset(r);
    assert forall d :: d in ds <==> d in multiset(ds);
    assert |r| == |multiset(r)| == |multiset(ds)| == |ds|;
    forall i, j | 0 <= i < j < |r|
      ensures r[i] != r[j]
    {
      KeyOrder(r[j], r[i]);
    }
  }

  /** Newest first is the reverse of the texts' own `<` order. */
  lemma DescendingIsStringOrder(ds: seq<string>)
    requires AllShaped(ds) && Descending(ds)
    ensures forall i, j :: 0 <= i < j < |ds| ==> StrLess(ds[j], ds[i])
  {
    forall i, j | 0 <= i < j < |ds|
      ensures StrLess(ds[j], ds[i])
    {
      KeyOrder(ds[j], ds[i]);
    }
  }

  /** The feed's state. */
  class ReflectionsView {
    var searchTerm: string
    var selectedPillar: string
    var selectedDate: string
    var reflections: seq<Reflection>
    var expandedReflection: Option<string>

    /** Empty filters over the given reflections, none expanded. */
    constructor (initial: seq<Reflection>)
      ensures searchTerm == "" && selectedPillar == "" && selectedDate == ""
      ensures reflections == initial && expandedReflection == None
    {
      searchTerm := "";
      selectedPillar := "";
      selectedDate := "";
      reflections := initial;
      expandedReflection := None;
    }

    /** The list shown under the current filters. */
    function Shown(): seq<Reflection>
      reads this
    {
      Filtered(reflections, searchTerm, selectedPillar, selectedDate)
    }

    /** `toggleFavorite`: only the favourite flags of that id change. */
    method ToggleFavorite(id: string)
      modifies this
      ensures reflections == WithFavoriteToggled(old(reflections), id)
      ensures searchTerm == old(searchTerm) && selectedPillar == old(selectedPillar)
      ensures selectedDate == old(selectedDate) && expandedReflection == old(expandedReflection)
    {
      reflections := WithFavoriteToggled(reflections, id);
    }

    /** `clearFilters`: the three filters back to empty, so every reflection is shown. */
    method ClearFilters()
      modifies this
      ensures searchTerm == "" && selectedPillar == "" && selectedDate == ""
      ensures reflections == old(reflections) && expandedReflection == old(expandedReflection)
      ensures Shown() == reflections
    {
      selectedPillar := "";
      selectedDate := "";
      searchTerm := "";
      NoFilterKeepsAll(reflections);
    }
  }
}
