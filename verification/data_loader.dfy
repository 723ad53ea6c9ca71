/**
 The query layer over the two tables. Every query is total: an unknown year
 or character yields an empty list or None, never a failure.
 */
module DataLoader {
  import opened Options
  import opened Seqs
  import opened Dataset

  /** The catalog as loaded: same records, same order, nothing filtered. */
  function Characters(ds: Store): (r: seq<Character>)
    ensures r == ds.characters
  {
    ds.characters
  }

  /** The ranking table as loaded. */
  function YearlyRankings(ds: Store): (r: Rankings)
    ensures r == ds.rankings
  {
    ds.rankings
  }

  /** The stored per-year totals, not recomputed from the entries. */
  function TotalVotesByYear(ds: Store): (r: map<int, int>)
    ensures r == ds.totalVotes
  {
    ds.totalVotes
  }

  /** The stored list of a year, or the empty list for a year the table does not hold. */
  function RankingByYear(ds: Store, year: int): (r: seq<Entry>)
    ensures year in ds.rankings ==> r == ds.rankings[year]
    ensures year !in ds.rankings ==> r == []
  {
    if year in ds.rankings then ds.rankings[year] else []
  }

  /** The first entry of `ranking` for character `c`. */
  function FindEntry(ranking: seq<Entry>, c: CharacterId): (r: Option<Entry>)
    ensures r.None? <==> forall i :: 0 <= i < |ranking| ==> ranking[i].characterId != c
    ensures r.Some? ==> r.value.characterId == c
    ensures r.Some? ==> exists i :: 0 <= i < |ranking| && ranking[i] == r.value &&
                                    forall j :: 0 <= j < i ==> ranking[j].characterId != c
  {
    Find(ranking, (e: Entry) => e.characterId == c)
  }

  /** The first catalog record whose id is `c`, or None (undefined). */
  function CharacterInfo(ds: Store, c: CharacterId): (r: Option<Character>)
    ensures r.None? <==> forall i :: 0 <= i < |ds.characters| ==> ds.characters[i].id != c
    ensures r.Some? ==> r.value.id == c
    ensures r.Some? ==> exists i :: 0 <= i < |ds.characters| && ds.characters[i] == r.value &&
                                    forall j :: 0 <= j < i ==> ds.characters[j].id != c
  {
    Find(ds.characters, (ch: Character) => ch.id == c)
  }

  /** The display name of `c`: the first matching record's name, or the literal "Unknown". */
  function CharacterName(ds: Store, c: CharacterId): (r: string)
    ensures (forall i :: 0 <= i < |ds.characters| ==> ds.characters[i].id != c) ==> r == "Unknown"
    ensures forall i :: (0 <= i < |ds.characters| && ds.characters[i].id == c &&
                         forall j :: 0 <= j < i ==> ds.characters[j].id != c) ==> r == ds.characters[i].name
  {
    var info := CharacterInfo(ds, c);
    if info.Some? then info.value.name else "Unknown"
  }

  /** The years of the ranking table in ascending order. */
  function AvailableYears(ds: Store): (r: seq<int>)
    ensures StrictlyIncreasing(r)
    ensures forall y :: y in r <==> y in ds.rankings
    ensures |r| == |ds.rankings|
  {
    SortedElements(ds.rankings.Keys)
  }

  /** Years of a history list are strictly ascending. */
  predicate YearsAscending(h: seq<HistoryPoint>) {
    forall i, j :: 0 <= i < j < |h| ==> h[i].year < h[j].year
  }

  /** The history restricted to `years`, walked in the given (ascending) order. */
  function HistoryOver(ds: Store, years: seq<int>, c: CharacterId): (r: seq<HistoryPoint>)
    requires forall y :: y in years ==> y in ds.rankings
    requires StrictlyIncreasing(years)
    ensures YearsAscending(r)
    ensures forall i :: 0 <= i < |r| ==>
              r[i].year in years && FindEntry(ds.rankings[r[i].year], c) == Some(Entry(c, r[i].rank, r[i].votes))
    ensures forall y :: y in years && FindEntry(ds.rankings[y], c).Some? ==>
              exists i :: 0 <= i < |r| && r[i].year == y
    decreases |years|
  {
    if |years| == 0 then []
    else
      var first := years[0];
      var tail := years[1..];
      assert forall y :: y in years <==> y == first || y in tail;
      assert forall y :: y in tail ==> first < y;
      var rest := HistoryOver(ds, tail, c);
      var e := FindEntry(ds.rankings[first], c);
      var head := if e.Some? then [HistoryPoint(first, e.value.rank, e.value.votes)] else [];
      HistoryStepAscending(first, tail, head, rest);
      HistoryStepSound(ds, first, tail, c, head, rest);
      HistoryStepComplete(ds, first, tail, c, head, rest);
      head + rest
  }

  /** Prefixing the first year's point to the rest of the history keeps the years ascending. */
  lemma HistoryStepAscending(first: int, tail: seq<int>, head: seq<HistoryPoint>, rest: seq<HistoryPoint>)
    requires forall y :: y in tail ==> first < y
    requires head == [] || (|head| == 1 && head[0].year == first)
    requires YearsAscending(rest)
    requires forall i :: 0 <= i < |rest| ==> rest[i].year in tail
    ensures YearsAscending(head + rest)
  {
  }

  /** Every point of the prefixed history comes from the first entry of its year. */
  lemma HistoryStepSound(ds: Store, first: int, tail: seq<int>, c: CharacterId, head: seq<HistoryPoint>, rest: seq<HistoryPoint>)
    requires first in ds.rankings
    requires forall y :: y in tail ==> y in ds.rankings
    requires head == [] || (|head| == 1 && head[0].year == first &&
                            FindEntry(ds.rankings[first], c) == Some(Entry(c, head[0].rank, head[0].votes)))
    requires forall i :: 0 <= i < |rest| ==>
               rest[i].year in tail && FindEntry(ds.rankings[rest[i].year], c) == Some(Entry(c, rest[i].rank, rest[i].votes))
    ensures forall i :: 0 <= i < |head + rest| ==>
              ((head + rest)[i].year == first || (head + rest)[i].year in tail) &&
              FindEntry(ds.rankings[(head + rest)[i].year], c) == Some(Entry(c, (head + rest)[i].rank, (head + rest)[i].votes))
  {
  }

  /** Every year that lists the character has a point in the prefixed history. */
  lemma HistoryStepComplete(ds: Store, first: int, tail: seq<int>, c: CharacterId, head: seq<HistoryPoint>, rest: seq<HistoryPoint>)
    requires first in ds.rankings
    requires forall y :: y in tail ==> y in ds.rankings
    requires FindEntry(ds.rankings[first], c).Some? ==> |head| == 1 && head[0].year == first
    requires forall y :: y in tail && FindEntry(ds.rankings[y], c).Some? ==>
               exists i :: 0 <= i < |rest| && rest[i].year == y
    ensures forall y :: (y == first || y in tail) && FindEntry(ds.rankings[y], c).Some? ==>
              exists i :: 0 <= i < |head + rest| && (head + rest)[i].year == y
  {
    var r := head + rest;
    forall y | (y == first || y in tail) && FindEntry(ds.rankings[y], c).Some?
      ensures exists i :: 0 <= i < |r| && r[i].year == y
    {
      if y == first {
        assert r[0].year == y;
      } else {
        var k :| 0 <= k < |rest| && rest[k].year == y;
        assert r[|head| + k] == rest[k];
      }
    }
  }

  /**
   The sparse ranking history of `c`: one point per year whose list mentions
   `c`, taken from the first such entry, ascending by year.
   */
  function History(ds: Store, c: CharacterId): (r: seq<HistoryPoint>)
    ensures YearsAscending(r)
    ensures forall i :: 0 <= i < |r| ==>
              r[i].year in ds.rankings && FindEntry(ds.rankings[r[i].year], c) == Some(Entry(c, r[i].rank, r[i].votes))
    ensures forall y :: y in ds.rankings ==>
              (FindEntry(ds.rankings[y], c).Some? <==> exists i :: 0 <= i < |r| && r[i].year == y)
  {
    HistoryOver(ds, AvailableYears(ds), c)
  }

  /** The first point of a history that belongs to `year`, or None when it has none. */
  function LookupYear(history: seq<HistoryPoint>, year: int): (r: Option<HistoryPoint>)
    ensures r.None? <==> forall i :: 0 <= i < |history| ==> history[i].year != year
    ensures r.Some? ==> r.value.year == year && r.value in history
  {
    Find(history, (h: HistoryPoint) => h.year == year)
  }

  /**
   Looking a year up in a character's history gives exactly that year's first
   entry for the character, and nothing for a year that does not list it.
   */
  lemma HistoryAt(ds: Store, c: CharacterId, year: int)
    ensures year !in ds.rankings ==> LookupYear(History(ds, c), year).None?
    ensures year in ds.rankings ==>
              LookupYear(History(ds, c), year) ==
                (match FindEntry(ds.rankings[year], c)
                 case None => None
                 case Some(e) => Some(HistoryPoint(year, e.rank, e.votes)))
  {
    var h := History(ds, c);
    var found := LookupYear(h, year);
    if found.Some? {
      var k :| 0 <= k < |h| && h[k] == found.value;
      assert FindEntry(ds.rankings[year], c) == Some(Entry(c, h[k].rank, h[k].votes));
    }
  }

  /** The entry with its catalog record joined in. */
  function Join(ds: Store, e: Entry): Ranked {
    Ranked(e.characterId, e.rank, e.votes, CharacterInfo(ds, e.characterId))
  }

  /** The first `n` entries of `year` (all of them when there are fewer), each joined with its record. */
  function TopCharacters(ds: Store, year: int, n: nat): (r: seq<Ranked>)
    ensures year !in ds.rankings ==> r == []
    ensures year in ds.rankings ==>
              |r| == (if n < |ds.rankings[year]| then n else |ds.rankings[year]|)
    ensures year in ds.rankings ==> forall i :: 0 <= i < |r| ==>
              && r[i].characterId == ds.rankings[year][i].characterId
              && r[i].rank == ds.rankings[year][i].rank
              && r[i].votes == ds.rankings[year][i].votes
              && r[i].character == CharacterInfo(ds, ds.rankings[year][i].characterId)
  {
    if year !in ds.rankings then []
    else
      var ranking := ds.rankings[year];
      var top := if n < |ranking| then ranking[..n] else ranking;
      seq(|top|, i requires 0 <= i < |top| => Join(ds, top[i]))
  }

  /** One current-year entry compared against the previous year's list. */
  function ChangeOf(ds: Store, current: Entry, previousRanking: seq<Entry>): Change {
    var previous := FindEntry(previousRanking, current.characterId);
    Change(
      current.characterId,
      current.rank,
      current.votes,
      CharacterInfo(ds, current.characterId),
      if previous.Some? then Some(previous.value.rank) else None,
      if previous.Some? then Some(previous.value.rank - current.rank) else None)
  }

  /**
   One element per entry of `currentYear`, in its order; `previousRank` and
   `change` are None exactly when the character is not listed in `previousYear`.
   */
  function RankingChanges(ds: Store, currentYear: int, previousYear: int): (r: seq<Change>)
    ensures currentYear !in ds.rankings || previousYear !in ds.rankings ==> r == []
    ensures currentYear in ds.rankings && previousYear in ds.rankings ==>
              |r| == |ds.rankings[currentYear]|
    ensures currentYear in ds.rankings && previousYear in ds.rankings ==> forall i :: 0 <= i < |r| ==>
              && r[i].characterId == ds.rankings[currentYear][i].characterId
              && r[i].rank == ds.rankings[currentYear][i].rank
              && r[i].votes == ds.rankings[currentYear][i].votes
              && r[i].character == CharacterInfo(ds, r[i].characterId)
    ensures currentYear in ds.rankings && previousYear in ds.rankings ==> forall i :: 0 <= i < |r| ==>
              && (r[i].previousRank.None? <==>
                    forall j :: 0 <= j < |ds.rankings[previousYear]| ==>
                      ds.rankings[previousYear][j].characterId != r[i].characterId)
              && r[i].change.None? == r[i].previousRank.None?
              && (r[i].previousRank.Some? ==>
                    && FindEntry(ds.rankings[previousYear], r[i].characterId).value.rank == r[i].previousRank.value
                    && r[i].change.value == r[i].previousRank.value - r[i].rank)
  {
    if currentYear !in ds.rankings || previousYear !in ds.rankings then []
    else
      var current := ds.rankings[currentYear];
      var previous := ds.rankings[previousYear];
      seq(|current|, i requires 0 <= i < |current| => ChangeOf(ds, current[i], previous))
  }

  /** A character listed only in the previous year does not appear in the comparison. */
  lemma DroppedOutNotCompared(ds: Store, currentYear: int, previousYear: int, c: CharacterId)
    requires currentYear in ds.rankings
    requires forall i :: 0 <= i < |ds.rankings[currentYear]| ==> ds.rankings[currentYear][i].characterId != c
    ensures forall k :: 0 <= k < |RankingChanges(ds, currentYear, previousYear)| ==>
              RankingChanges(ds, currentYear, previousYear)[k].characterId != c
  {
  }

  /**
   In a year whose list names no character twice, the history point of that
   year is the character's one entry there.
   */
  lemma HistoryOfValidRanking(ds: Store, c: CharacterId, year: int, j: int)
    requires year in ds.rankings && ValidRanking(ds.rankings[year])
    requires 0 <= j < |ds.rankings[year]| && ds.rankings[year][j].characterId == c
    ensures FindEntry(ds.rankings[year], c) == Some(ds.rankings[year][j])
    ensures LookupYear(History(ds, c), year) ==
              Some(HistoryPoint(year, ds.rankings[year][j].rank, ds.rankings[year][j].votes))
  {
    var ranking := ds.rankings[year];
    var e := FindEntry(ranking, c).value;
    var k :| 0 <= k < |ranking| && ranking[k] == e && forall m :: 0 <= m < k ==> ranking[m].characterId != c;
    if k != j {
      assert false;
    }
    HistoryAt(ds, c, year);
  }
}
