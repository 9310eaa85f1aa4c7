/** How the board marks the top three: the class of the rank badge
    (`RankBadge`) and of the row (`EntryRow`). */
module RankBadges {
  import opened PyBuiltins
  import opened Leaderboard

  /** The badge class: a colour of its own for places 1, 2 and 3, the
      default one for every other place. */
  function RankBadgeClass(rank: int): (c: string)
    ensures 1 <= rank <= 3 ==> c == "rank-badge rank-" + Str(rank)
    ensures !(1 <= rank <= 3) ==> c == "rank-badge rank-default"
  {
    if rank == 1 then "rank-badge rank-1"
    else if rank == 2 then "rank-badge rank-2"
    else if rank == 3 then "rank-badge rank-3"
    else "rank-badge rank-default"
  }

  /** The row class: `top-<rank>` for every place up to 3, nothing after
      the space otherwise (`entry.rank <= 3 ? top-${entry.rank} : ''`). */
  function EntryRowClass(rank: int): (c: string)
    ensures rank <= 3 ==> c == "entry-row top-" + Str(rank)
    ensures rank > 3 ==> c == "entry-row "
  {
    "entry-row " + (if rank <= 3 then "top-" + Str(rank) else "")
  }

  /** Whether a row class marks the row as one of the top places. */
  predicate IsTopRow(c: string)
  {
    |c| > 14 && c[10..14] == "top-"
  }

  /** On the board, where places start at 1, a row is marked as a top row
      exactly when its badge has a colour of its own, and the badge's
      colour names the place.
      The proof is not by induction: `{:induction false}` keeps Dafny from
      adding an induction hypothesis the body does not use. */
  lemma {:induction false} BadgeMatchesRow(rank: int)
    requires rank >= 1
    ensures IsTopRow(EntryRowClass(rank)) <==> RankBadgeClass(rank) != "rank-badge rank-default"
    ensures IsTopRow(EntryRowClass(rank)) <==> rank <= 3
  {
    var c := EntryRowClass(rank);
    if rank <= 3 {
      assert c[10..14] == "top-";
      assert |Str(rank)| > 0;
    } else {
      assert |c| == 10;
    }
  }

  /** On any listing, exactly the first three rows are marked as top rows,
      and only they have a coloured badge. */
  lemma PodiumRows(found: seq<Entries.LapEntry>, i: nat)
    requires i < |Standings(found)|
    ensures IsTopRow(EntryRowClass(Standings(found)[i].0)) <==> i < 3
    ensures (RankBadgeClass(Standings(found)[i].0) != "rank-badge rank-default") <==> i < 3
  {
    BadgeMatchesRow(Standings(found)[i].0);
  }
}
