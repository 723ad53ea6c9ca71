/** Two worked examples on a small dataset: a rank comparison and a sparse history. */
module Scenarios {
  import opened Options
  import opened Seqs
  import opened Dataset
  import opened DataLoader

  /**
   One catalogued character (id 1) and one uncatalogued character (id 2)
   that is listed only in 2025.
   */
  const Sample := Store(
    [Character(1, "A", 1974)],
    map[2024 := [Entry(1, 1, 100)], 2025 := [Entry(1, 2, 90), Entry(2, 5, 50)]],
    map[2024 := 100, 2025 := 140])

  /**
   Character 1 fell from first to second place (change -1); character 2 is
   newly charted, so its previous rank and change are absent, not 0, and its
   unresolved record stays absent instead of failing the query.
   */
  lemma ChangeExample()
    ensures RankingChanges(Sample, 2025, 2024) == [
      Change(1, 2, 90, Some(Character(1, "A", 1974)), Some(1), Some(-1)),
      Change(2, 5, 50, None, None, None)]
  {
    var r := RankingChanges(Sample, 2025, 2024);
    assert |r| == 2;
    assert Sample.rankings[2024][0].characterId != 2;
  }

  /** The first two points of an ascending history have increasing years. */
  lemma FirstTwoAscending(h: seq<HistoryPoint>)
    ensures YearsAscending(h) && |h| >= 2 ==> h[0].year < h[1].year
  {
  }

  /** An ascending history whose points all carry one year has at most one point. */
  lemma OnePointPerYear(h: seq<HistoryPoint>, year: int)
    requires YearsAscending(h)
    requires forall i :: 0 <= i < |h| ==> h[i].year == year
    ensures |h| <= 1
  {
    FirstTwoAscending(h);
  }

  /** A character listed in exactly one year has a one-point history. */
  lemma SingleYearHistory(ds: Store, c: CharacterId, year: int, e: Entry)
    requires year in ds.rankings && FindEntry(ds.rankings[year], c) == Some(e)
    requires forall y :: y in ds.rankings && y != year ==> FindEntry(ds.rankings[y], c).None?
    ensures History(ds, c) == [HistoryPoint(year, e.rank, e.votes)]
  {
    AtMostOnePoint(ds, c, year);
    PointOfYear(ds, c, year, e);
    Singleton(History(ds, c), HistoryPoint(year, e.rank, e.votes));
  }

  /** The year that lists the character contributes its point. */
  lemma PointOfYear(ds: Store, c: CharacterId, year: int, e: Entry)
    requires year in ds.rankings && FindEntry(ds.rankings[year], c) == Some(e)
    ensures HistoryPoint(year, e.rank, e.votes) in History(ds, c)
  {
    HistoryAt(ds, c, year);
  }

  lemma Singleton(h: seq<HistoryPoint>, p: HistoryPoint)
    requires |h| <= 1 && p in h
    ensures h == [p]
  {
  }

  /** When only `year` lists the character, its history has at most one point. */
  lemma AtMostOnePoint(ds: Store, c: CharacterId, year: int)
    requires forall y :: y in ds.rankings && y != year ==> FindEntry(ds.rankings[y], c).None?
    ensures |History(ds, c)| <= 1
  {
    var h := History(ds, c);
    assert forall i :: 0 <= i < |h| ==> h[i].year == year;
    OnePointPerYear(h, year);
  }

  /** The history of character 2 has its 2025 point only; 2024 is omitted, not filled with zeros. */
  lemma SparseHistoryExample()
    ensures History(Sample, 2) == [HistoryPoint(2025, 5, 50)]
  {
    assert FindEntry(Sample.rankings[2024], 2).None?;
    assert FindEntry(Sample.rankings[2025], 2) == Some(Entry(2, 5, 50));
    SingleYearHistory(Sample, 2, 2025, Entry(2, 5, 50));
  }
}
