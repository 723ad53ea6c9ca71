/**
 The generation breakdown of the character-analysis view: the top list of a
 year split into four buckets by age (year minus debut year), the per-row
 generation label, and each bucket's count, vote total and average rank.
 */
module CharacterAnalysis {
  import opened Options
  import opened Seqs
  import opened Dataset

  /** The buckets, in the order the view lists them. */
  datatype Generation = Newcomer | MidCareer | Veteran | Legend

  const Generations: seq<Generation> := [Newcomer, MidCareer, Veteran, Legend]

  /** The heading of each bucket. */
  function Title(g: Generation): string {
    match g
    case Newcomer => "新世代 (0-10年)"
    case MidCareer => "中堅世代 (11-25年)"
    case Veteran => "ベテラン世代 (26-40年)"
    case Legend => "レジェンド世代 (41年以上)"
  }

  /** The label of each bucket in the detail table. */
  function Label(g: Generation): string {
    match g
    case Newcomer => "新世代"
    case MidCareer => "中堅世代"
    case Veteran => "ベテラン世代"
    case Legend => "レジェンド世代"
  }

  function Age(year: int, item: Ranked): int
    requires item.character.Some?
  {
    year - item.character.value.debutYear
  }

  /** The bucket filters, each with its own bounds. */
  predicate InBucket(g: Generation, age: int) {
    match g
    case Newcomer => age <= 10
    case MidCareer => age > 10 && age <= 25
    case Veteran => age > 25 && age <= 40
    case Legend => age > 40
  }

  /** Every age satisfies exactly one of the four filters. */
  lemma BucketsPartitionAges(age: int)
    ensures exists g :: InBucket(g, age)
    ensures forall g, h :: InBucket(g, age) && InBucket(h, age) ==> g == h
  {
    if age <= 10 { assert InBucket(Newcomer, age); }
    else if age <= 25 { assert InBucket(MidCareer, age); }
    else if age <= 40 { assert InBucket(Veteran, age); }
    else { assert InBucket(Legend, age); }
  }

  /**
   The generation of a detail-table row, from the if/else chain on its age:
   it is the label of exactly the bucket whose filter accepts that age.
   */
  function RowGeneration(age: int): (r: string)
    ensures forall g :: r == Label(g) <==> InBucket(g, age)
  {
    if age <= 10 then "新世代"
    else if age <= 25 then "中堅世代"
    else if age <= 40 then "ベテラン世代"
    else "レジェンド世代"
  }

  /** Each bucket's heading begins with its label, and distinct buckets have distinct labels. */
  lemma LabelsNameBuckets(g: Generation, h: Generation)
    ensures |Label(g)| <= |Title(g)| && Title(g)[..|Label(g)|] == Label(g)
    ensures Label(g) == Label(h) ==> g == h
  {
  }

  /** One bucket: the items whose age passes its filter, in top-list order. */
  function Bucket(items: seq<Ranked>, year: int, g: Generation): (r: seq<Ranked>)
    requires Resolved(items)
    ensures IsSubsequence(r, items)
    ensures forall x :: x in r <==> x in items && InBucket(g, Age(year, x))
  {
    if |items| == 0 then []
    else
      var rest := Bucket(items[1..], year, g);
      assert forall x :: x in items <==> x == items[0] || x in items[1..];
      if InBucket(g, Age(year, items[0])) then [items[0]] + rest else rest
  }

  /** Sum of the votes of `items`. */
  function SumVotes(items: seq<Ranked>): int {
    if |items| == 0 then 0 else items[0].votes + SumVotes(items[1..])
  }

  /** Sum of the ranks of `items`. */
  function SumRanks(items: seq<Ranked>): int {
    if |items| == 0 then 0 else items[0].rank + SumRanks(items[1..])
  }

  /** The bucket sizes add up to the length of the top list. */
  lemma {:induction false} BucketSizesAddUp(items: seq<Ranked>, year: int)
    requires Resolved(items)
    ensures |Bucket(items, year, Newcomer)| + |Bucket(items, year, MidCareer)| +
            |Bucket(items, year, Veteran)| + |Bucket(items, year, Legend)| == |items|
  {
    if |items| > 0 {
      assert Resolved(items[1..]) by {
        assert forall x :: x in items[1..] ==> x in items;
      }
      BucketSizesAddUp(items[1..], year);
      BucketsPartitionAges(Age(year, items[0]));
    }
  }

  /** The bucket vote totals add up to the votes of the whole top list. */
  lemma {:induction false} BucketVotesAddUp(items: seq<Ranked>, year: int)
    requires Resolved(items)
    ensures SumVotes(Bucket(items, year, Newcomer)) + SumVotes(Bucket(items, year, MidCareer)) +
            SumVotes(Bucket(items, year, Veteran)) + SumVotes(Bucket(items, year, Legend)) == SumVotes(items)
  {
    if |items| > 0 {
      assert Resolved(items[1..]) by {
        assert forall x :: x in items[1..] ==> x in items;
      }
      BucketVotesAddUp(items[1..], year);
      BucketsPartitionAges(Age(year, items[0]));
    }
  }

  /** An item lies in exactly one bucket: the one its age selects. */
  lemma ItemInOneBucket(items: seq<Ranked>, year: int, x: Ranked, g: Generation)
    requires Resolved(items)
    requires x in items
    ensures x in Bucket(items, year, g) <==> InBucket(g, Age(year, x))
    ensures x in Bucket(items, year, g) <==> RowGeneration(Age(year, x)) == Label(g)
  {
  }

  /** The average rank as (sum of ranks, count); an empty bucket reports 0 instead. */
  datatype AverageRank = Zero | Mean(rankSum: int, count: nat)

  /** What each bucket's card shows. */
  datatype Summary = Summary(title: string, count: nat, averageRank: AverageRank, totalVotes: int)

  function Summarize(g: Generation, members: seq<Ranked>): (r: Summary)
    ensures r.title == Title(g) && r.count == |members|
    ensures r.totalVotes == SumVotes(members)
    ensures |members| == 0 ==> r.averageRank == Zero && r.totalVotes == 0
    ensures |members| > 0 ==> r.averageRank == Mean(SumRanks(members), |members|)
  {
    Summary(Title(g), |members|, if |members| > 0 then Mean(SumRanks(members), |members|) else Zero, SumVotes(members))
  }

  /** The four bucket cards of the view, in order. */
  function GenerationSummaries(items: seq<Ranked>, year: int): (r: seq<Summary>)
    requires Resolved(items)
    ensures |r| == |Generations|
    ensures forall k :: 0 <= k < |r| ==> r[k] == Summarize(Generations[k], Bucket(items, year, Generations[k]))
    ensures r[0].count + r[1].count + r[2].count + r[3].count == |items|
    ensures r[0].totalVotes + r[1].totalVotes + r[2].totalVotes + r[3].totalVotes == SumVotes(items)
  {
    BucketSizesAddUp(items, year);
    BucketVotesAddUp(items, year);
    seq(|Generations|, k requires 0 <= k < |Generations| => Summarize(Generations[k], Bucket(items, year, Generations[k])))
  }
}
