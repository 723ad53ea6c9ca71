# Sanrio character ranking dashboard — Dafny model

This project models the data layer of a browser dashboard that presents a
fixed dataset of yearly character popularity-contest results. The layer is
a set of pure queries over two read-only tables: a character catalog
(`id`, `name`, `debut_year`) and a map from year to that year's ranking
list of `{character_id, rank, votes}`. The model also covers the small pure
helpers that three chart views compute from those queries. These are the
rank-change icon and class, the checkbox toggle, the default selection, the
dense per-year series, the latest-year change table, the tooltip ordering
key, the generation buckets with their statistics, the colour cycle and the
bar chart columns.

Modules, one per source unit:

- `Options`: `Option`, which stands for JavaScript's `null` / `undefined`.
- `Seqs`: what the array methods the source relies on do. This covers
  `find`, `filter(x => x !== v)` and the ascending sort of the numeric year
  keys. `FirstIndex` is the position search that `Find` is built on.
- `Dataset`: the records. `Store` holds both tables; the JavaScript module
  reads them from globals, the model passes them in explicitly.
- `DataLoader`: the query layer (`src/utils/dataLoader.js`).
- `Selection`: the default top-five selection and the checkbox toggle. Both
  chart views have these, written twice in the source.
- `Palette`: the ten series colours.
- `RankingTrends`, `CharacterAnalysis`, `VoteCharts`: the helpers of the
  three views.
- `Scenarios`: two worked examples on a three-entry dataset.

Modelling decisions:

- Year keys are integers. The ranking document's textual keys are taken as
  already converted when the document is loaded.
- Character ids are integers. The source only compares them with `===`.
- `getCharacterRankingHistory` visits `Object.keys` in whatever order they
  come and then sorts the points by year. Years are distinct keys, so
  sorting by year has exactly one outcome. The model therefore visits the
  years in ascending order, which gives the same list.
- `Math.max(...years)` over an empty year list is `-Infinity`. The key
  `"-Infinity"` is never present, so the latest ranking is then empty. The
  model states this as `LatestYear` returning `None`.
- The average rank of a generation bucket is a float in the source. The
  model keeps it as the pair (sum of ranks, count), and as `Zero` when the
  bucket is empty.

Where the code differs from a plain reading of its intent, the model
follows the code:

- The tooltip key is `?.rank || 999`, so a rank of `0` also sorts as
  absent.
- The vote chart's series label is `character?.name || "Unknown"`. An empty
  name therefore also shows as `"Unknown"`. `getCharacterName` behaves
  differently: it returns the empty name.
- `getTopCharacters` and `calculateRankingChanges` pass on an unresolved
  catalog record as absent and do not fail.
- `calculateRankingChanges` leaves out characters that appear only in the
  previous year.

## Model

| member | source | states |
|---|---|---|
| DataLoader.Characters | src/utils/dataLoader.js:5-7 | the catalog is returned as loaded: same records in the same order, none filtered |
| DataLoader.YearlyRankings | src/utils/dataLoader.js:10-12 | the ranking table is returned as loaded |
| DataLoader.TotalVotesByYear | src/utils/dataLoader.js:15-17 | the stored per-year totals are returned as they are, not recomputed from the entries |
| DataLoader.RankingByYear | src/utils/dataLoader.js:20-22 | a known year gives its stored list unchanged; an unknown year gives the empty list |
| DataLoader.FindEntry | src/utils/dataLoader.js:31-33 | the result is absent exactly when no entry has the id; otherwise it is the entry with the id at the lowest index |
| DataLoader.CharacterInfo | src/utils/dataLoader.js:53-55 | absent exactly when no catalog record has the id; otherwise the record with the id at the lowest index |
| DataLoader.CharacterName | src/utils/dataLoader.js:47-50 | the literal "Unknown" when no record has the id; otherwise the name of the first record with the id |
| DataLoader.AvailableYears | src/utils/dataLoader.js:58-62 | strictly ascending, the same elements as the ranking table's key set, one element per key |
| Seqs.SortedElements | src/utils/dataLoader.js:59-61 | a set of years listed strictly ascending, with exactly its elements and no repeats |
| Seqs.Find | src/utils/dataLoader.js:54 | the behaviour of `Array.prototype.find`: absent exactly when nothing matches; otherwise an element that matches and that no earlier element matches |
| DataLoader.HistoryOver | src/utils/dataLoader.js:29-41 | walking ascending years keeps the output ascending. Each point comes from the first entry for the character in its year. Every year that lists the character yields a point |
| DataLoader.History | src/utils/dataLoader.js:25-44 | ascending by year. A year has a point exactly when its list names the character. The point's rank and votes are those of the first such entry. Other years are left out, not zero-filled |
| DataLoader.LookupYear | src/components/RankingTrends.js:79 | the lookup is absent exactly when no point has the year; otherwise it returns a point of the history with that year |
| DataLoader.HistoryAt | src/utils/dataLoader.js:25-44 | looking a year up in the history gives that year's first entry as (year, rank, votes), and nothing for an unknown year or one that does not list the character |
| DataLoader.HistoryOfValidRanking | src/utils/dataLoader.js:29-40 | in a year that lists no character twice, the history point is the character's only entry there |
| DataLoader.TopCharacters | src/utils/dataLoader.js:65-73 | empty for an unknown year. Otherwise it has min(n, list length) elements, and element i is entry i of the year with its first catalog record joined in (absent if none) |
| DataLoader.RankingChanges | src/utils/dataLoader.js:76-95 | empty if either year is unknown. Otherwise it has one element per current-year entry, in order, keeping id, rank and votes and joining the record. previousRank is absent exactly when the previous year does not list the character. Otherwise it is the rank of that year's first entry for the character, and change = previousRank - rank |
| DataLoader.DroppedOutNotCompared | src/utils/dataLoader.js:82-94 | a character missing from the current year never appears in the comparison, whatever the previous year holds |
| Scenarios.ChangeExample | src/utils/dataLoader.js:76-95 | a character that fell from rank 1 to rank 2 gets change -1. A newly charted, uncatalogued character gets absent previousRank, change and character |
| Scenarios.SingleYearHistory | src/utils/dataLoader.js:25-44 | a character listed in exactly one year has a one-point history holding that year's rank and votes |
| Scenarios.SparseHistoryExample | src/utils/dataLoader.js:29-43 | a character absent in 2024 and ranked 5th with 50 votes in 2025 has the single point (2025, 5, 50) |
| Selection.LatestYear | src/components/RankingTrends.js:37 | absent exactly when there are no years; otherwise a year of the table that no other year exceeds |
| Selection.LatestRanking | src/components/RankingTrends.js:37-38 | the list of the greatest year, or empty when there are no years |
| Selection.DefaultSelection | src/components/RankingTrends.js:39-43 | the ids of the first min(5, length) entries of the latest year's list, in list order |
| VoteCharts.DefaultSelectionIsTopFive | src/components/VoteCharts.js:40-46 | the default selection is the id column of the latest year's five-entry top list |
| Seqs.RemoveAll | src/components/RankingTrends.js:159 | the id no longer occurs. Every other value is kept with its multiplicity (the multiset of the input with the id's count set to zero). The result is a subsequence of the input, so order is kept |
| Selection.Toggle | src/components/RankingTrends.js:156-164 | membership of the toggled id flips. Every other id keeps its membership. With the toggled id removed, the old and new selections are equal, so all other ids keep their order and multiplicity. A new id is appended at the end |
| Selection.ToggleTwiceRestores | src/components/VoteCharts.js:216-224 | toggling an unselected id twice gives back the original selection |
| RankingTrends.RankChangeIcon | src/components/RankingTrends.js:166-171 | a total four-way split: absent gives the "new" badge, positive the up arrow, negative the down arrow, zero the right arrow; each icon for exactly its case |
| RankingTrends.RankChangeClass | src/components/RankingTrends.js:173-178 | absent gives "", positive "rank-up", negative "rank-down", zero "rank-same"; each class for exactly its case |
| RankingTrends.IconAgreesWithClass | src/components/RankingTrends.js:166-178 | two changes share an icon exactly when they share a class |
| RankingTrends.DenseRanks | src/components/RankingTrends.js:78-81 | one value per year. The value is absent exactly when the history has no point for that year; otherwise it is the rank of a point of that year |
| RankingTrends.DenseRanksOfCharacter | src/components/RankingTrends.js:76-81 | at each available year, the line chart's value is the rank of the character's first entry there, or null when that year does not list the character |
| RankingTrends.ComparedYears | src/components/RankingTrends.js:46-49 | absent exactly when fewer than two years exist; otherwise (latest, previous) are the greatest year and the greatest year below it |
| RankingTrends.LatestChanges | src/components/RankingTrends.js:46-55 | empty with fewer than two years. Otherwise the first min(30, n) rows of the latest year's comparison against the previous year, in order |
| RankingTrends.TooltipRankKey | src/components/RankingTrends.js:121-124 | 999 when the year does not list the character; otherwise the rank of its first entry, except that a falsy rank 0 also gives 999 |
| RankingTrends.TooltipOrdersByRank | src/components/RankingTrends.js:118-126 | in a well-formed year with ranks below 999, listed characters order by their position in the list and come before every unlisted character |
| CharacterAnalysis.BucketsPartitionAges | src/components/CharacterAnalysis.js:108-121 | every age passes exactly one of the four bucket filters |
| CharacterAnalysis.Bucket | src/components/CharacterAnalysis.js:105-125 | a bucket holds exactly the items whose age passes its filter, in their top-list order |
| CharacterAnalysis.RowGeneration | src/components/CharacterAnalysis.js:226-231 | the row's if/else label is the label of exactly the bucket whose filter accepts the age |
| CharacterAnalysis.LabelsNameBuckets | src/components/CharacterAnalysis.js:107-122 | each bucket heading begins with that bucket's row label, and different buckets have different labels |
| CharacterAnalysis.ItemInOneBucket | src/components/CharacterAnalysis.js:225-231 | an item is in a bucket exactly when its row label names that bucket |
| CharacterAnalysis.BucketSizesAddUp | src/components/CharacterAnalysis.js:171-196 | the four bucket sizes add up to the length of the top list |
| CharacterAnalysis.BucketVotesAddUp | src/components/CharacterAnalysis.js:177-180 | the four bucket vote totals add up to the votes of the whole top list |
| CharacterAnalysis.Summarize | src/components/CharacterAnalysis.js:171-180 | a card shows its bucket's size and vote total. The vote total is 0 for an empty bucket. The average is reported as 0 for an empty bucket and as (sum of ranks, count) otherwise |
| CharacterAnalysis.GenerationSummaries | src/components/CharacterAnalysis.js:171-203 | four cards in bucket order; their counts add up to the list length and their vote totals to the list's votes |
| Palette.ColorAt | src/components/RankingTrends.js:58-72 | the ranking view's series colour is always a palette colour, and the first ten series get the ten palette colours in order |
| Palette.ColorCycle | src/components/RankingTrends.js:71 | colours repeat with the palette's length: series i and i + 10 get the same colour |
| VoteCharts.GenerateColors | src/components/VoteCharts.js:50-65 | exactly n colours, colour i being palette entry i mod 10 |
| VoteCharts.TrendColorsMatchRankingView | src/components/VoteCharts.js:97 | series i gets the colour the ranking view gives position i, and colours repeat every ten series |
| VoteCharts.YearlyComparison | src/components/VoteCharts.js:68-81 | for fully resolved items: labels, values and colours have one element per item, and position i comes from item i and palette entry i |
| VoteCharts.BarChartOfTopList | src/components/VoteCharts.js:69-73 | built from the top list, bar i carries the display name and votes of entry i of the year |
| VoteCharts.DenseVotes | src/components/VoteCharts.js:89-92 | one value per year. The value is 0 when the history has no point for that year; otherwise it is the votes of a point of that year |
| VoteCharts.DenseVotesOfCharacter | src/components/VoteCharts.js:86-92 | at each available year, the trend chart's value is the votes of the character's first entry there, or 0 when that year does not list the character |
| VoteCharts.SeriesLabel | src/components/VoteCharts.js:88-95 | "Unknown" for a missing record or an empty name; otherwise the record's name |
| VoteCharts.SeriesLabelVersusName | src/components/VoteCharts.js:95 | this label differs from the display name exactly when the record exists and its name is empty |

## Left out

- Rendering is not modelled: JSX markup, Chart.js registration and option objects, React state and effect plumbing, mouse handlers and CSS. None of it computes anything that can be checked.
- Loading the two JSON documents is not modelled. The tables are parameters, and year keys are integers from the start.
- `src/components/TotalVotes.js` is not part of this model. Its growth rates and statistics are floating-point percentages, and they divide by a previous total that can be zero.
- Number and text formatting is not modelled: `toLocaleString`, `toFixed`, the `color.replace("0.6", "1")` border tweak, the "-" shown for a zero average, and the change magnitude text.
- Both tooltips sort their items in place inside Chart.js callbacks. Only the ranking view's sort key is modelled. The vote view orders by the plotted value, which is data held by the chart library.
- The scatter points of the analysis view and the 30-entry checkbox list of both trend views are not modelled. They only reshape data for display.
- `src/App.js` tab switching is not modelled, because it is navigation only.
- `getTopCharacters`'s default `topN = 10` is not modelled separately: every caller in the views passes an explicit count.
- DataLoader.LookupYear: states only that the returned point has the year, not that it is the first such point. Within a history the years are distinct, so there is only one; `DataLoader.HistoryAt` states the full result.
- RankingTrends.DenseRanks: states the value only through some point of that year. `RankingTrends.DenseRanksOfCharacter` gives the exact value for a history.
- VoteCharts.DenseVotes: states the value only through some point of that year. `VoteCharts.DenseVotesOfCharacter` gives the exact value for a history.
- CharacterAnalysis.Bucket: requires `Dataset.Resolved`, so it covers only top lists whose every catalog record resolved. The source reads the debut year off an absent record and throws a TypeError (src/components/CharacterAnalysis.js:36, 109 and 226); that failing case is excluded, not modelled.
- CharacterAnalysis.BucketSizesAddUp: requires `Dataset.Resolved`, so it covers only top lists whose every catalog record resolved. The source reads the debut year off an absent record and throws a TypeError (src/components/CharacterAnalysis.js:36, 109 and 226); that failing case is excluded, not modelled.
- CharacterAnalysis.BucketVotesAddUp: requires `Dataset.Resolved`, so it covers only top lists whose every catalog record resolved. The source reads the debut year off an absent record and throws a TypeError (src/components/CharacterAnalysis.js:36, 109 and 226); that failing case is excluded, not modelled.
- CharacterAnalysis.ItemInOneBucket: requires `Dataset.Resolved`, so it covers only top lists whose every catalog record resolved. The source reads the debut year off an absent record and throws a TypeError (src/components/CharacterAnalysis.js:36, 109 and 226); that failing case is excluded, not modelled.
- CharacterAnalysis.GenerationSummaries: requires `Dataset.Resolved`, so it covers only top lists whose every catalog record resolved. The source reads the debut year off an absent record and throws a TypeError (src/components/CharacterAnalysis.js:36, 109 and 226); that failing case is excluded, not modelled.
- VoteCharts.YearlyComparison: requires `Dataset.Resolved`, so it covers only top lists whose every catalog record resolved. The source reads the name off an absent record and throws a TypeError (src/components/VoteCharts.js:69); that failing case is excluded, not modelled.
- VoteCharts.BarChartOfTopList: requires `Dataset.Resolved`, so it covers only top lists whose every catalog record resolved. The source reads the name off an absent record and throws a TypeError (src/components/VoteCharts.js:69); that failing case is excluded, not modelled.
- Well-formedness of a year's list is a hypothesis, not a check (`Dataset.ValidRanking`: positive ranks, strictly ascending ranks, no repeated character). The source never validates its data.
