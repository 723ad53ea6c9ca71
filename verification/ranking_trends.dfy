/**
 The pure helpers of the ranking-trend view: the change icon and style class,
 the dense rank series of the line chart, the latest-year change table and
 the tooltip ordering key.
 */
module RankingTrends {
  import opened Options
  import opened Seqs
  import opened Dataset
  import opened DataLoader

  const NewIcon := "\U{1F195}"
  const UpIcon := "\U{2191}"
  const DownIcon := "\U{2193}"
  const SameIcon := "\U{2192}"

  /** The arrow shown beside a rank change; a newly charted character gets its own badge. */
  function RankChangeIcon(change: Option<int>): (r: string)
    ensures r == NewIcon <==> change.None?
    ensures r == UpIcon <==> change.Some? && change.value > 0
    ensures r == DownIcon <==> change.Some? && change.value < 0
    ensures r == SameIcon <==> change == Some(0)
  {
    if change.None? then NewIcon
    else if change.value > 0 then UpIcon
    else if change.value < 0 then DownIcon
    else SameIcon
  }

  /** The style class of a rank change; a newly charted character gets none. */
  function RankChangeClass(change: Option<int>): (r: string)
    ensures r == "" <==> change.None?
    ensures r == "rank-up" <==> change.Some? && change.value > 0
    ensures r == "rank-down" <==> change.Some? && change.value < 0
    ensures r == "rank-same" <==> change == Some(0)
  {
    if change.None? then ""
    else if change.value > 0 then "rank-up"
    else if change.value < 0 then "rank-down"
    else "rank-same"
  }

  /** Icon and class make the same four-way distinction: two changes share an icon exactly when they share a class. */
  lemma IconAgreesWithClass(a: Option<int>, b: Option<int>)
    ensures RankChangeIcon(a) == RankChangeIcon(b) <==> RankChangeClass(a) == RankChangeClass(b)
  {
  }

  /** One value per year: the history's rank for that year, or None (`null`) when it has none. */
  function DenseRanks(years: seq<int>, history: seq<HistoryPoint>): (r: seq<Option<int>>)
    ensures |r| == |years|
    ensures forall i :: 0 <= i < |years| ==>
              (r[i].None? <==> forall k :: 0 <= k < |history| ==> history[k].year != years[i])
    ensures forall i :: 0 <= i < |years| && r[i].Some? ==>
              HistoryPoint(years[i], r[i].value, LookupYear(history, years[i]).value.votes) in history
  {
    seq(|years|, i requires 0 <= i < |years| =>
      match LookupYear(history, years[i])
      case None => None
      case Some(h) => Some(h.rank))
  }

  /**
   The series the line chart draws for character `c`: at the `i`-th available
   year, the rank of the character's first entry of that year, or None when
   the year does not list it.
   */
  lemma DenseRanksOfCharacter(ds: Store, c: CharacterId, i: int)
    requires 0 <= i < |AvailableYears(ds)|
    ensures var years := AvailableYears(ds);
            DenseRanks(years, History(ds, c))[i] ==
              match FindEntry(ds.rankings[years[i]], c)
              case None => None
              case Some(e) => Some(e.rank)
  {
    HistoryAt(ds, c, AvailableYears(ds)[i]);
  }

  /** Rows kept in the change table. */
  const ChangeTableSize: nat := 30

  /** The two greatest years, (latest, previous), or None when fewer than two years exist. */
  function ComparedYears(ds: Store): (r: Option<(int, int)>)
    ensures r.None? <==> |ds.rankings| < 2
    ensures r.Some? ==> && r.value.0 in ds.rankings && r.value.1 in ds.rankings
                        && r.value.1 < r.value.0
                        && forall y :: y in ds.rankings ==> y == r.value.0 || y <= r.value.1
  {
    var years := AvailableYears(ds);
    if |years| < 2 then None
    else
      var n := |years|;
      TopTwoOfIncreasing(years);
      Some((years[n - 1], years[n - 2]))
  }

  /**
   The change table: the latest year compared against the one before it,
   cut to its first 30 rows; empty while fewer than two years exist.
   */
  function LatestChanges(ds: Store): (r: seq<Change>)
    ensures ComparedYears(ds).None? ==> r == []
    ensures ComparedYears(ds).Some? ==>
              var (latest, previous) := ComparedYears(ds).value;
              var all := RankingChanges(ds, latest, previous);
              && |r| == (if |all| < ChangeTableSize then |all| else ChangeTableSize)
              && |all| == |ds.rankings[latest]|
              && forall i :: 0 <= i < |r| ==> r[i] == all[i]
  {
    match ComparedYears(ds)
    case None => []
    case Some((latest, previous)) =>
      var all := RankingChanges(ds, latest, previous);
      if |all| < ChangeTableSize then all else all[..ChangeTableSize]
  }

  /** Key used when no entry (or a falsy rank) is found for a character. */
  const AbsentRankKey: int := 999

  /** The tooltip's sort key: the rank of the character's first entry, with 999 for a missing entry and, because 0 is falsy, for a rank of 0. */
  function TooltipRankKey(ranking: seq<Entry>, c: CharacterId): (r: int)
    ensures (forall i :: 0 <= i < |ranking| ==> ranking[i].characterId != c) ==> r == AbsentRankKey
    ensures forall i :: (0 <= i < |ranking| && ranking[i].characterId == c &&
                         forall j :: 0 <= j < i ==> ranking[j].characterId != c) ==>
              r == (if ranking[i].rank == 0 then AbsentRankKey else ranking[i].rank)
  {
    match FindEntry(ranking, c)
    case None => AbsentRankKey
    case Some(e) => if e.rank == 0 then AbsentRankKey else e.rank
  }

  /**
   In a well-formed year whose ranks stay below 999, the tooltip lists listed
   characters by rank and after them every unlisted one.
   */
  lemma TooltipOrdersByRank(ranking: seq<Entry>, i: int, j: int, absent: CharacterId)
    requires ValidRanking(ranking)
    requires forall k :: 0 <= k < |ranking| ==> ranking[k].rank < AbsentRankKey
    requires 0 <= i < |ranking| && 0 <= j < |ranking|
    requires forall k :: 0 <= k < |ranking| ==> ranking[k].characterId != absent
    ensures TooltipRankKey(ranking, ranking[i].characterId) < TooltipRankKey(ranking, ranking[j].characterId) <==> i < j
    ensures TooltipRankKey(ranking, ranking[i].characterId) < TooltipRankKey(ranking, absent)
  {
    FirstOccurrence(ranking, i);
    FirstOccurrence(ranking, j);
  }

  /** In a list without repeated characters, each entry is the first one for its character. */
  lemma FirstOccurrence(ranking: seq<Entry>, i: int)
    requires ValidRanking(ranking)
    requires 0 <= i < |ranking|
    ensures forall j :: 0 <= j < i ==> ranking[j].characterId != ranking[i].characterId
  {
  }
}
