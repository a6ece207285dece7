/** The summary card of a pillar: the colour of its score and the icon of its trend. */
module PillarCard {
  import opened PillarTypes
  import UseCards

  /** The three text colours of `getScoreColor`. */
  datatype Tone = Emerald | Yellow | Red

  /** `getScoreColor`: 8 and up, 6 and up, and the rest; every score gets exactly one. */
  function ScoreTone(score: int): (t: Tone)
    ensures t == Emerald <==> score >= 8
    ensures t == Yellow <==> 6 <= score < 8
    ensures t == Red <==> score < 6
  {
    if score >= 8 then Emerald else if score >= 6 then Yellow else Red
  }

  /** The class each tone stands for. */
  function ToneClass(t: Tone): string {
    match t
    case Emerald => "text-emerald-600"
    case Yellow => "text-yellow-600"
    case Red => "text-red-500"
  }

  /** The tones in order of how good the score is. */
  function ToneRank(t: Tone): int {
    match t
    case Red => 0
    case Yellow => 1
    case Emerald => 2
  }

  /** A higher score never gets a worse tone. */
  lemma ToneMonotone(a: int, b: int)
    requires a <= b
    ensures ToneRank(ScoreTone(a)) <= ToneRank(ScoreTone(b))
  {
  }

  /** The three icons of `getTrendIcon`. */
  datatype TrendIcon = TrendingUp | TrendingDown | Minus

  /** `getTrendIcon`: `up`, `down`, and anything else. */
  function IconOf(trend: Trend): (icon: TrendIcon)
    ensures icon == TrendingUp <==> trend == Up
    ensures icon == TrendingDown <==> trend == Down
    ensures icon == Minus <==> trend == Stable
  {
    match trend
    case Up => TrendingUp
    case Down => TrendingDown
    case _ => Minus
  }

  /**
   * On a pillar built from its entries, the arrow points up exactly when the last
   * score beats the one before, down when it falls short, and is flat otherwise.
   */
  lemma IconFollowsScores(entries: seq<DailyEntry>)
    ensures var icon := IconOf(UseCards.TrendOf(entries));
      && (icon == TrendingUp <==> |entries| >= 2 && entries[|entries| - 1].score > entries[|entries| - 2].score)
      && (icon == TrendingDown <==> |entries| >= 2 && entries[|entries| - 1].score < entries[|entries| - 2].score)
      && (icon == Minus <==> |entries| < 2 || entries[|entries| - 1].score == entries[|entries| - 2].score)
  {
  }
}
