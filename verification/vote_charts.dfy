/**
 The pure helpers of the vote-chart view: the colour list of the bar chart,
 the bar chart's labels and values, the dense vote series of the trend chart
 and its series label.
 */
module VoteCharts {
  import opened Options
  import opened Seqs
  import opened Dataset
  import opened DataLoader
  import opened Selection
  import Palette

  /** The vote view's colour list for `n` series: one palette colour per series, cycling through the ten. */
  function GenerateColors(n: nat): (r: seq<string>)
    ensures |r| == n
    ensures forall i :: 0 <= i < n ==> r[i] == Palette.Colors[i % |Palette.Colors|]
  {
    if n == 0 then [] else GenerateColors(n - 1) + [Palette.ColorAt(n - 1)]
  }

  /**
   The trend chart colours series `index` with `generateColors(count)[index]`;
   that is the colour the ranking view gives the same position, and it
   repeats every ten series.
   */
  lemma TrendColorsMatchRankingView(count: nat, index: nat)
    requires index < count
    ensures GenerateColors(count)[index] == Palette.ColorAt(index)
    ensures index + 10 < count ==> GenerateColors(count)[index + 10] == GenerateColors(count)[index]
  {
    assert |Palette.Colors| == 10;
    assert (index + 10) % 10 == index % 10;
  }

  /** The bar chart of the top list: one bar per item, labelled with its character's name. */
  datatype BarChart = BarChart(labels: seq<string>, votes: seq<int>, colors: seq<string>)

  /** The bar chart reads each joined record's name, so every record must have resolved. */
  function YearlyComparison(items: seq<Ranked>): (r: BarChart)
    requires Resolved(items)
    ensures |r.labels| == |items| && |r.votes| == |items| && |r.colors| == |items|
    ensures forall i :: 0 <= i < |items| ==>
              r.labels[i] == items[i].character.value.name && r.votes[i] == items[i].votes
    ensures forall i :: 0 <= i < |items| ==> r.colors[i] == Palette.ColorAt(i)
  {
    BarChart(
      seq(|items|, i requires 0 <= i < |items| => items[i].character.value.name),
      seq(|items|, i requires 0 <= i < |items| => items[i].votes),
      GenerateColors(|items|))
  }

  /**
   Built from `TopCharacters(ds, year, n)`, bar `i` is the `i`-th entry of the
   year: its character's display name and its votes.
   */
  lemma BarChartOfTopList(ds: Store, year: int, n: nat)
    requires year in ds.rankings
    requires Resolved(TopCharacters(ds, year, n))
    ensures var chart := YearlyComparison(TopCharacters(ds, year, n));
            forall i :: 0 <= i < |chart.labels| ==>
              && i < |ds.rankings[year]|
              && chart.labels[i] == CharacterName(ds, ds.rankings[year][i].characterId)
              && chart.votes[i] == ds.rankings[year][i].votes
  {
    var top := TopCharacters(ds, year, n);
    forall i | 0 <= i < |top|
      ensures top[i].character.value.name == CharacterName(ds, ds.rankings[year][i].characterId)
    {
      var c := ds.rankings[year][i].characterId;
      var info := CharacterInfo(ds, c);
      var k :| 0 <= k < |ds.characters| && ds.characters[k] == info.value &&
               forall j :: 0 <= j < k ==> ds.characters[j].id != c;
    }
  }

  /** One value per year: the history's votes for that year, or 0 when it has none. */
  function DenseVotes(years: seq<int>, history: seq<HistoryPoint>): (r: seq<int>)
    ensures |r| == |years|
    ensures forall i :: 0 <= i < |years| && (forall k :: 0 <= k < |history| ==> history[k].year != years[i]) ==>
              r[i] == 0
    ensures forall i :: 0 <= i < |years| && LookupYear(history, years[i]).Some? ==>
              HistoryPoint(years[i], LookupYear(history, years[i]).value.rank, r[i]) in history
  {
    seq(|years|, i requires 0 <= i < |years| =>
      match LookupYear(history, years[i])
      case None => 0
      case Some(h) => h.votes)
  }

  /**
   The series the trend chart draws for character `c`: at the `i`-th
   available year, the votes of the character's first entry of that year, or
   0 when the year does not list it.
   */
  lemma DenseVotesOfCharacter(ds: Store, c: CharacterId, i: int)
    requires 0 <= i < |AvailableYears(ds)|
    ensures var years := AvailableYears(ds);
            DenseVotes(years, History(ds, c))[i] ==
              match FindEntry(ds.rankings[years[i]], c)
              case None => 0
              case Some(e) => e.votes
  {
    HistoryAt(ds, c, AvailableYears(ds)[i]);
  }

  /** The trend chart's series label: the record's name, with "Unknown" for a missing record and also for an empty name. */
  function SeriesLabel(ds: Store, c: CharacterId): (r: string)
    ensures CharacterInfo(ds, c).None? ==> r == "Unknown"
    ensures CharacterInfo(ds, c).Some? && CharacterInfo(ds, c).value.name == "" ==> r == "Unknown"
    ensures CharacterInfo(ds, c).Some? && CharacterInfo(ds, c).value.name != "" ==>
              r == CharacterInfo(ds, c).value.name
  {
    match CharacterInfo(ds, c)
    case None => "Unknown"
    case Some(ch) => if ch.name == "" then "Unknown" else ch.name
  }

  /** This label differs from the display name only for a record whose name is empty. */
  lemma SeriesLabelVersusName(ds: Store, c: CharacterId)
    ensures SeriesLabel(ds, c) != CharacterName(ds, c) <==>
              CharacterInfo(ds, c).Some? && CharacterInfo(ds, c).value.name == ""
  {
    var info := CharacterInfo(ds, c);
    if info.Some? {
      var k :| 0 <= k < |ds.characters| && ds.characters[k] == info.value &&
               forall j :: 0 <= j < k ==> ds.characters[j].id != c;
    }
  }

  /**
   The default selection is the id column of the latest year's top five, the
   list `TopCharacters` gives for that year.
   */
  lemma DefaultSelectionIsTopFive(ds: Store)
    requires ds.rankings != map[]
    ensures var latest := LatestYear(ds).value;
            var top := TopCharacters(ds, latest, DefaultSelectionSize);
            && |DefaultSelection(ds)| == |top|
            && forall i :: 0 <= i < |top| ==> DefaultSelection(ds)[i] == top[i].characterId
  {
  }
}
