/** The three listings that put the stored laps on the board: the JSON
    listing (`get_all_laps`), the CSV export (`export_csv`) and the data
    behind the printable export (`export_pdf_data`). Each receives the laps
    from the store sorted by `lapTimeMs`, keeps the first 1000, and numbers
    them from 1 with the gap to the first one. */
module Leaderboard {
  import opened Results
  import opened PyBuiltins
  import opened Gap
  import opened Entries

  /** The cap the store query puts on a listing (`to_list(1000)`). */
  const ListLimit: nat := 1000

  /** The laps fastest first: what the store's sort on `lapTimeMs`
      guarantees. Equal times come in no particular order. */
  predicate SortedByTime(entries: seq<LapEntry>)
  {
    forall i, j :: 0 <= i < j < |entries| ==> entries[i].lapTimeMs <= entries[j].lapTimeMs
  }

  /** The laps `to_list(1000)` hands over: the sorted result cut to 1000. */
  function Fetched(found: seq<LapEntry>): (entries: seq<LapEntry>)
    ensures |entries| == if |found| <= ListLimit then |found| else ListLimit
    ensures entries == found[..|entries|]
  {
    if |found| <= ListLimit then found else found[..ListLimit]
  }

  /** The time every gap is measured from: the first lap's, or 0 when there
      is none. */
  function LeaderTime(entries: seq<LapEntry>): int
  {
    if |entries| > 0 then entries[0].lapTimeMs else 0
  }

  /** The place and gap of each listed lap, as all three listings compute
      them: the lap at position i is placed i + 1 and its gap is measured
      against the first lap's time. */
  function Standings(found: seq<LapEntry>): seq<(int, string)>
  {
    var entries := Fetched(found);
    seq(|entries|, i requires 0 <= i < |entries| => (i + 1, FormatGap(LeaderTime(entries), entries[i].lapTimeMs)))
  }

  /** The places and gaps of a list of responses. */
  function RankGaps(result: seq<LapEntryResponse>): seq<(int, string)>
  {
    seq(|result|, i requires 0 <= i < |result| => (result[i].rank, result[i].gap))
  }

  /** `get_all_laps`: every fetched lap as a response carrying its own
      fields, its place and its gap. */
  method GetAllLaps(found: seq<LapEntry>) returns (result: seq<LapEntryResponse>)
    ensures |result| == |Fetched(found)|
    ensures RankGaps(result) == Standings(found)
    ensures forall i :: 0 <= i < |result| ==> Carries(result[i], found[i])
  {
    var entries := Fetched(found);
    result := [];
    var leaderTime := if |entries| > 0 then entries[0].lapTimeMs else 0;
    var idx := 0;
    while idx < |entries|
      invariant 0 <= idx <= |entries|
      invariant |result| == idx
      invariant forall k :: 0 <= k < idx ==>
        result[k] == ToResponse(entries[k], k + 1, FormatGap(leaderTime, entries[k].lapTimeMs))
    {
      var entry := entries[idx];
      result := result + [ToResponse(entry, idx + 1, FormatGap(leaderTime, entry.lapTimeMs))];
      idx := idx + 1;
    }
    var places := RankGaps(result);
    assert |places| == |Standings(found)|;
    forall i | 0 <= i < |places| ensures places[i] == Standings(found)[i] {
      StandingAt(found, i);
    }
    assert places == Standings(found);
  }

  /** The header row of the CSV export. */
  const CsvHeader: seq<string> := ["Rank", "Driver", "Team", "Lap Time", "Gap"]

  /** The cells `csv.writer` writes for one lap: the place as decimal text
      and a missing team as an empty cell. */
  function CsvRow(entry: LapEntry, rank: int, gap: string): seq<string>
  {
    [Str(rank), entry.driverName, entry.team.GetOr(""), entry.lapTimeDisplay, gap]
  }

  /** `export_csv`: the header, then one row per fetched lap, whose place
      and gap cells are those of the JSON listing. */
  method ExportCsv(found: seq<LapEntry>) returns (rows: seq<seq<string>>)
    ensures |rows| == |Fetched(found)| + 1 && rows[0] == CsvHeader
    ensures forall i :: 1 <= i < |rows| ==>
      rows[i] == CsvRow(found[i - 1], Standings(found)[i - 1].0, Standings(found)[i - 1].1)
  {
    var entries := Fetched(found);
    rows := [CsvHeader];
    var leaderTime := if |entries| > 0 then entries[0].lapTimeMs else 0;
    var idx := 0;
    while idx < |entries|
      invariant 0 <= idx <= |entries|
      invariant |rows| == idx + 1 && rows[0] == CsvHeader
      invariant forall k :: 1 <= k <= idx ==>
        rows[k] == CsvRow(entries[k - 1], k, FormatGap(leaderTime, entries[k - 1].lapTimeMs))
    {
      var entry := entries[idx];
      var gap := FormatGap(leaderTime, entry.lapTimeMs);
      rows := rows + [CsvRow(entry, idx + 1, gap)];
      idx := idx + 1;
    }
    forall i | 1 <= i < |rows| ensures rows[i] == CsvRow(found[i - 1], Standings(found)[i - 1].0, Standings(found)[i - 1].1) {
      StandingAt(found, i - 1);
    }
  }

  /** One lap of the printable export; a missing team stays `null`. */
  datatype PdfEntry = PdfEntry(rank: int, driverName: string, team: Option<string>, lapTimeDisplay: string, gap: string)

  /** The body `export_pdf_data` returns; `exportedAt` comes from the clock. */
  datatype PdfExport = PdfExport(entries: seq<PdfEntry>, exportedAt: string)

  /** `export_pdf_data`: one record per fetched lap with the JSON listing's
      place and gap, stamped with the time of export. */
  method ExportPdfData(found: seq<LapEntry>, exportedAt: string) returns (data: PdfExport)
    ensures data.exportedAt == exportedAt
    ensures |data.entries| == |Fetched(found)|
    ensures forall i :: 0 <= i < |data.entries| ==>
      var p, e := data.entries[i], found[i];
      (p.rank, p.gap) == Standings(found)[i] &&
      p.driverName == e.driverName && p.team == e.team && p.lapTimeDisplay == e.lapTimeDisplay
  {
    var entries := Fetched(found);
    var result: seq<PdfEntry> := [];
    var leaderTime := if |entries| > 0 then entries[0].lapTimeMs else 0;
    var idx := 0;
    while idx < |entries|
      invariant 0 <= idx <= |entries|
      invariant |result| == idx
      invariant forall k :: 0 <= k < idx ==>
        result[k] == PdfEntry(k + 1, entries[k].driverName, entries[k].team, entries[k].lapTimeDisplay,
                              FormatGap(leaderTime, entries[k].lapTimeMs))
    {
      var entry := entries[idx];
      result := result + [PdfEntry(idx + 1, entry.driverName, entry.team, entry.lapTimeDisplay,
                                   FormatGap(leaderTime, entry.lapTimeMs))];
      idx := idx + 1;
    }
    forall i | 0 <= i < |result| ensures (result[i].rank, result[i].gap) == Standings(found)[i] {
      StandingAt(found, i);
    }
    data := PdfExport(result, exportedAt);
  }

  /** The numbers 1..n. */
  function OneTo(n: nat): (r: set<int>)
    ensures forall k :: k in r <==> 1 <= k <= n
  {
    if n == 0 then {} else OneTo(n - 1) + {n}
  }

  /** An empty store gives an empty board. */
  lemma NoLapsNoStandings()
    ensures Standings([]) == []
  {
  }

  /** The places are exactly 1..N, each once, in order, with N the number of
      fetched laps (at most 1000).
      The proof is not by induction: `{:induction false}` keeps Dafny from
      adding an induction hypothesis the body does not use. */
  lemma {:induction false} RanksAreOneToN(found: seq<LapEntry>)
    ensures |Standings(found)| == if |found| <= ListLimit then |found| else ListLimit
    ensures forall i, j :: 0 <= i < j < |Standings(found)| ==> Standings(found)[i].0 < Standings(found)[j].0
    ensures (set i | 0 <= i < |Standings(found)| :: Standings(found)[i].0) == OneTo(|Standings(found)|)
  {
    var s := Standings(found);
    var n := |s|;
    forall i | 0 <= i < n ensures s[i].0 == i + 1 {
      StandingAt(found, i);
    }
    var ranks := set i | 0 <= i < n :: s[i].0;
    forall k | k in OneTo(n) ensures k in ranks {
      assert s[k - 1].0 == k;
    }
    forall k | k in ranks ensures k in OneTo(n) {
      var i :| 0 <= i < n && s[i].0 == k;
    }
  }

  /** The place and gap of the lap at position i: i + 1, and the gap from
      the first lap's time to its own. */
  lemma StandingAt(found: seq<LapEntry>, i: nat)
    requires i < |Fetched(found)|
    ensures |Standings(found)| == |Fetched(found)|
    ensures Standings(found)[i] == (i + 1, FormatGap(LeaderTime(Fetched(found)), found[i].lapTimeMs))
  {
  }

  /** The first lap is placed 1 and has no gap. */
  lemma LeaderHasNoGap(found: seq<LapEntry>)
    requires |found| > 0
    ensures Standings(found)[0] == (1, "-")
  {
  }

  /** A lap shows "-" exactly when its time equals the first lap's, so a lap
      tied with the leader shows "-" too, whatever its place. */
  lemma DashExactlyOnTies(found: seq<LapEntry>, i: nat)
    requires i < |Fetched(found)|
    ensures (Standings(found)[i].1 == "-") <==> (found[i].lapTimeMs == found[0].lapTimeMs)
  {
  }

  /** On a sorted listing every gap reads back as the lap's time minus the
      leader's, and is laid out as `+0.mmm`, `+S.mmm` or `+M:SS.mmm` by
      its size.
      The proof is not by induction: `{:induction false}` keeps Dafny from
      adding an induction hypothesis the body does not use. */
  lemma {:induction false} GapsMeasureFromLeader(found: seq<LapEntry>)
    requires SortedByTime(found)
    ensures forall i :: 0 <= i < |Standings(found)| ==>
      GapValue(Standings(found)[i].1) == Some(found[i].lapTimeMs - found[0].lapTimeMs)
    ensures forall i :: 0 <= i < |Standings(found)| && found[0].lapTimeMs < found[i].lapTimeMs ==>
      GapLayout(Standings(found)[i].1, found[i].lapTimeMs - found[0].lapTimeMs)
  {
    forall i | 0 <= i < |Standings(found)| {
      GapAt(found, i);
    }
  }

  /** The gap of one lap of a sorted listing, read back and laid out. */
  lemma GapAt(found: seq<LapEntry>, i: nat)
    requires SortedByTime(found) && i < |Standings(found)|
    ensures GapValue(Standings(found)[i].1) == Some(found[i].lapTimeMs - found[0].lapTimeMs)
    ensures found[0].lapTimeMs < found[i].lapTimeMs ==>
      GapLayout(Standings(found)[i].1, found[i].lapTimeMs - found[0].lapTimeMs)
  {
    var leader, time := found[0].lapTimeMs, found[i].lapTimeMs;
    assert Standings(found)[i].1 == FormatGap(leader, time);
    assert leader <= time;
    GapRoundTrip(leader, time);
    if leader < time {
      GapShape(leader, time);
    }
  }

  /** Laps listed later never show a smaller gap: on a sorted listing the
      gaps, read back, do not decrease down the board. */
  lemma GapsNonDecreasing(found: seq<LapEntry>, i: nat, j: nat)
    requires SortedByTime(found) && i <= j < |Standings(found)|
    ensures GapValue(Standings(found)[i].1).Some? && GapValue(Standings(found)[j].1).Some?
    ensures GapValue(Standings(found)[i].1).value <= GapValue(Standings(found)[j].1).value
  {
    GapsMeasureFromLeader(found);
  }
}
