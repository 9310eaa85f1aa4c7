/** A concrete board: three laps, two of them tied. */
module LeaderboardExamples {
  import opened Entries
  import opened Leaderboard
  import LapTimeExamples

  /** Laps b and c tie at 83456 ms and a is 544 ms behind them: the tied
      second lap shows "-" like the leader, and a shows "+0.544". */
  lemma TiedBoard(a: LapEntry, b: LapEntry, c: LapEntry)
    requires b.lapTimeMs == 83456 && c.lapTimeMs == 83456 && a.lapTimeMs == 84000
    ensures Standings([b, c, a]) == [(1, "-"), (2, "-"), (3, "+0.544")]
  {
    LapTimeExamples.GapBelowSecondExample();
  }

  /** A single lap is placed 1 with no gap. */
  lemma SingleLapBoard(a: LapEntry)
    ensures Standings([a]) == [(1, "-")]
  {
  }
}
