/** Days as integers: day `d` is the milliseconds [d * DAY_MS, (d + 1) * DAY_MS) since the epoch, in UTC. */
module Calendar {
  const DAY_MS := 86_400_000

  function DayOf(t: int): int {
    t / DAY_MS
  }

  /** A day is the 86,400,000 milliseconds from its midnight. */
  lemma DayMeans(ms: int)
    ensures DayOf(ms) * 86_400_000 <= ms < (DayOf(ms) + 1) * 86_400_000
  {
  }
}
