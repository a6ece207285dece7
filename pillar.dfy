/** The records the views pass around: a pillar with its dated entries. */
module PillarTypes {
  /** One day's score and note for a pillar; `date` is a `YYYY-MM-DD` key. */
  datatype DailyEntry = DailyEntry(date: string, score: int, notes: string)

  /** How the latest score moved against the one before it. */
  datatype Trend = Up | Down | Stable

  /** A life pillar as the views show it; `entries` are in ascending date order. */
  datatype Pillar = Pillar(
    id: string,
    name: string,
    icon: string,
    color: string,
    description: string,
    currentScore: int,
    trend: Trend,
    entries: seq<DailyEntry>)
}
