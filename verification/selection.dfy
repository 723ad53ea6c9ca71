/**
 The character selection both trend views keep: its default value (the top
 five of the latest year) and the checkbox toggle that updates it.
 */
module Selection {
  import opened Options
  import opened Seqs
  import opened Dataset
  import opened DataLoader

  /** The greatest year; None stands for the negative infinity the maximum of an empty year list gives. */
  function LatestYear(ds: Store): (r: Option<int>)
    ensures r.None? <==> ds.rankings == map[]
    ensures r.Some? ==> r.value in ds.rankings && forall y :: y in ds.rankings ==> y <= r.value
  {
    var years := AvailableYears(ds);
    if |years| == 0 then None
    else
      assert forall y :: y in ds.rankings ==> y <= years[|years| - 1];
      Some(years[|years| - 1])
  }

  /**
   The latest year's list. With no years the source looks up the key
   "-Infinity", which is never present, so the list is empty.
   */
  function LatestRanking(ds: Store): (r: seq<Entry>)
    ensures ds.rankings == map[] ==> r == []
    ensures ds.rankings != map[] ==> exists y :: y in ds.rankings && r == ds.rankings[y] &&
                                                 forall k :: k in ds.rankings ==> k <= y
  {
    match LatestYear(ds)
    case None => []
    case Some(y) => RankingByYear(ds, y)
  }

  /** Number of characters selected by default. */
  const DefaultSelectionSize: nat := 5

  /** The ids of the first five entries of the latest year, in list order. */
  function DefaultSelection(ds: Store): (r: seq<CharacterId>)
    ensures var latest := LatestRanking(ds);
      && |r| == (if |latest| < DefaultSelectionSize then |latest| else DefaultSelectionSize)
      && forall i :: 0 <= i < |r| ==> r[i] == latest[i].characterId
  {
    var latest := LatestRanking(ds);
    var top := if |latest| < DefaultSelectionSize then latest else latest[..DefaultSelectionSize];
    seq(|top|, i requires 0 <= i < |top| => top[i].characterId)
  }

  /**
   The checkbox updater: a selected id is removed (every occurrence of it),
   an unselected one is appended at the end.
   */
  function Toggle(selected: seq<CharacterId>, id: CharacterId): (r: seq<CharacterId>)
    ensures id in r <==> id !in selected
    ensures forall x :: x != id ==> (x in r <==> x in selected)
    ensures RemoveAll(r, id) == RemoveAll(selected, id)
    ensures id !in selected ==> r == selected + [id]
  {
    if id in selected then
      var r := RemoveAll(selected, id);
      RemoveAllAbsent(r, id);
      r
    else
      RemoveAllAppended(selected, id);
      selected + [id]
  }

  /** Toggling an unselected id twice gives the selection back. */
  lemma ToggleTwiceRestores(selected: seq<CharacterId>, id: CharacterId)
    requires id !in selected
    ensures Toggle(Toggle(selected, id), id) == selected
  {
    RemoveAllAppended(selected, id);
    RemoveAllAbsent(selected, id);
  }
}
