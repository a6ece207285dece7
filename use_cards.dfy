/**
 * The pure part of the `useCards` hook: turning the stored `cards` and `notas` rows
 * into pillars, with the current score, the trend and the colour and description
 * chosen by category. The queries themselves are not modelled: the rows they return
 * are inputs.
 */
module UseCards {
  import opened Opt
  import opened PillarTypes

  /** A row of the `notas` table: the date, the score and the optional note. */
  datatype NotaRow = NotaRow(data: string, nota: int, anotacao: Option<string>)

  /** A row of the `cards` table. */
  datatype CardRow = CardRow(id: string, nome: string, icone: string, categoria: string)

  /** `nota.anotacao || ''` */
  function NoteText(anotacao: Option<string>): string {
    match anotacao
    case Some(s) => s
    case None => ""
  }

  /**
   * `notasData?.map(nota => ({ date: nota.data, score: nota.nota, notes: nota.anotacao || '' })) || []`:
   * no rows (a failed query) give no entries; otherwise one entry per row, in row order.
   */
  function ToEntries(rows: Option<seq<NotaRow>>): (entries: seq<DailyEntry>)
    ensures rows.None? ==> entries == []
    ensures rows.Some? ==> |entries| == |rows.value|
    ensures rows.Some? ==> forall i :: 0 <= i < |entries| ==>
      && entries[i].date == rows.value[i].data
      && entries[i].score == rows.value[i].nota
      && entries[i].notes == NoteText(rows.value[i].anotacao)
  {
    match rows
    case None => []
    case Some(rs) => seq(|rs|, i requires 0 <= i < |rs| => DailyEntry(rs[i].data, rs[i].nota, NoteText(rs[i].anotacao)))
  }

  /** `currentScore`: the score of the last entry, 0 when there is none. */
  function CurrentScore(entries: seq<DailyEntry>): int {
    if |entries| > 0 then entries[|entries| - 1].score else 0
  }

  /** The trend of the last two entries, `stable` with fewer than two. */
  function TrendOf(entries: seq<DailyEntry>): (t: Trend)
    ensures t == Up <==> |entries| >= 2 && entries[|entries| - 1].score > entries[|entries| - 2].score
    ensures t == Down <==> |entries| >= 2 && entries[|entries| - 1].score < entries[|entries| - 2].score
    ensures t == Stable <==> |entries| < 2 || entries[|entries| - 1].score == entries[|entries| - 2].score
  {
    if |entries| < 2 then Stable
    else if entries[|entries| - 1].score > entries[|entries| - 2].score then Up
    else if entries[|entries| - 1].score < entries[|entries| - 2].score then Down
    else Stable
  }

  /** The `let trend` computation: start at `stable` and overwrite it for two or more entries. */
  method ComputeTrend(entries: seq<DailyEntry>) returns (trend: Trend)
    ensures trend == TrendOf(entries)
  {
    trend := Stable;
    if |entries| >= 2 {
      var lastScore := entries[|entries| - 1].score;
      var previousScore := entries[|entries| - 2].score;
      if lastScore > previousScore {
        trend := Up;
      } else if lastScore < previousScore {
        trend := Down;
      }
    }
  }

  /**
   * Recording a new latest entry: it becomes the current score, and the trend
   * compares it with the current score before it (`stable` for the first entry).
   */
  lemma AppendEntry(entries: seq<DailyEntry>, e: DailyEntry)
    ensures CurrentScore(entries + [e]) == e.score
    ensures entries == [] ==> TrendOf(entries + [e]) == Stable
    ensures entries != [] ==>
      && (TrendOf(entries + [e]) == Up <==> e.score > CurrentScore(entries))
      && (TrendOf(entries + [e]) == Down <==> e.score < CurrentScore(entries))
      && (TrendOf(entries + [e]) == Stable <==> e.score == CurrentScore(entries))
  {
    var s := entries + [e];
    assert s[|s| - 1] == e;
    if entries != [] {
      assert s[|s| - 2] == entries[|entries| - 1];
    }
  }

  /** The colour classes `from-W-500 to-W-600` of a Tailwind colour word `W`. */
  function Shade(word: string): string {
    "from-" + word + "-500 to-" + word + "-600"
  }

  /** The category-to-gradient table of `getColorByCategory`. */
  const ColorMap: map<string, string> := map[
    "financeiro" := Shade("emerald"),
    "espiritual" := Shade("purple"),
    "produtividade" := Shade("blue"),
    "social" := Shade("pink"),
    "educacao" := Shade("indigo"),
    "saude" := Shade("green")
  ]

  const DefaultColor: string := Shade("sage")

  /** The category-to-text table of `getDescriptionByCategory`. */
  const DescriptionMap: map<string, string> := map[
    "financeiro" := "Gerencie sua vida financeira e investimentos",
    "espiritual" := "Cultive sua conexão espiritual e paz interior",
    "produtividade" := "Organize seu tempo e aumente sua eficiência",
    "social" := "Fortaleça seus relacionamentos e conexões",
    "educacao" := "Desenvolva conhecimentos e habilidades",
    "saude" := "Cuide do seu bem-estar físico e mental"
  ]

  const DefaultDescription: string := "Desenvolva este aspecto da sua vida"

  /** `colorMap[categoria] || default`; no mapped value is empty, so `||` falls back only for a missing key. */
  function CategoryColor(categoria: string): (color: string)
    ensures categoria in ColorMap ==> color == ColorMap[categoria]
    ensures categoria !in ColorMap ==> color == DefaultColor
    ensures color != ""
  {
    if categoria in ColorMap && ColorMap[categoria] != "" then ColorMap[categoria] else DefaultColor
  }

  /** `descriptionMap[categoria] || default` */
  function CategoryDescription(categoria: string): (description: string)
    ensures categoria in DescriptionMap ==> description == DescriptionMap[categoria]
    ensures categoria !in DescriptionMap ==> description == DefaultDescription
    ensures description != ""
  {
    if categoria in DescriptionMap && DescriptionMap[categoria] != "" then DescriptionMap[categoria] else DefaultDescription
  }

  /** Both tables know the same six categories. */
  lemma SameCategories()
    ensures ColorMap.Keys == DescriptionMap.Keys
    ensures |ColorMap.Keys| == 6
  {
  }

  /** The pillar built for one card from that card's rows. */
  function BuildPillar(card: CardRow, rows: Option<seq<NotaRow>>): Pillar {
    var entries := ToEntries(rows);
    Pillar(card.id, card.nome, card.icone, CategoryColor(card.categoria), CategoryDescription(card.categoria),
           CurrentScore(entries), TrendOf(entries), entries)
  }

  /**
   * `cardsData.map(...)`: one pillar per card, in the cards' order; each pillar's entries
   * are its own card's rows (`rowsOf` stands for the `notas` query by card id).
   */
  function BuildPillars(cards: seq<CardRow>, rowsOf: string -> Option<seq<NotaRow>>): (pillars: seq<Pillar>)
    ensures |pillars| == |cards|
    ensures forall i :: 0 <= i < |cards| ==>
      && pillars[i].id == cards[i].id
      && pillars[i].name == cards[i].nome
      && pillars[i].icon == cards[i].icone
      && pillars[i].entries == ToEntries(rowsOf(cards[i].id))
      && pillars[i].currentScore == CurrentScore(pillars[i].entries)
      && pillars[i].trend == TrendOf(pillars[i].entries)
      && pillars[i].color == CategoryColor(cards[i].categoria)
      && pillars[i].description == CategoryDescription(cards[i].categoria)
  {
    if cards == [] then [] else [BuildPillar(cards[0], rowsOf(cards[0].id))] + BuildPillars(cards[1..], rowsOf)
  }
}
