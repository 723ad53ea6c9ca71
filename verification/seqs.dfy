/**
 Sequence and set operations that mirror the JavaScript array methods the
 dashboard relies on (`find`, `filter`, sorting of numeric keys).
 */
module Seqs {
  import opened Options

  /** `s` is strictly ascending, and therefore free of duplicates. */
  predicate StrictlyIncreasing(s: seq<int>) {
    forall i, j :: 0 <= i < j < |s| ==> s[i] < s[j]
  }

  /** `r` can be obtained from `s` by deleting elements: it keeps their relative order. */
  predicate IsSubsequence<T(==)>(r: seq<T>, s: seq<T>)
    decreases |s|
  {
    && |r| <= |s|
    && (|r| == 0
        || (r[0] == s[0] && IsSubsequence(r[1..], s[1..]))
        || IsSubsequence(r, s[1..]))
  }

  /** The position of the first element satisfying `p`, or None when no element does. */
  function FirstIndex<T>(s: seq<T>, p: T -> bool): (r: Option<nat>)
    ensures r.Some? ==> r.value < |s| && p(s[r.value]) && forall j :: 0 <= j < r.value ==> !p(s[j])
    ensures r.None? ==> forall j :: 0 <= j < |s| ==> !p(s[j])
  {
    if |s| == 0 then None
    else if p(s[0]) then Some(0)
    else match FirstIndex(s[1..], p)
      case None => None
      case Some(i) => Some(i + 1)
  }

  /** The array search the dashboard uses: the first element satisfying `p`, or None (undefined) when there is none. */
  function Find<T>(s: seq<T>, p: T -> bool): (r: Option<T>)
    ensures r.None? <==> forall j :: 0 <= j < |s| ==> !p(s[j])
    ensures r.Some? ==> exists i :: 0 <= i < |s| && s[i] == r.value && p(s[i]) && forall j :: 0 <= j < i ==> !p(s[j])
  {
    match FirstIndex(s, p)
    case None => None
    case Some(i) => Some(s[i])
  }

  /** Filtering out one value: every occurrence of `v` dropped, every other element kept, repeats included, in order. */
  function RemoveAll<T(==,!new)>(s: seq<T>, v: T): (r: seq<T>)
    ensures v !in r
    ensures forall x :: x != v ==> (x in r <==> x in s)
    ensures multiset(r) == multiset(s)[v := 0]
    ensures IsSubsequence(r, s)
  {
    if |s| == 0 then []
    else
      assert s == [s[0]] + s[1..];
      if s[0] == v then RemoveAll(s[1..], v)
      else [s[0]] + RemoveAll(s[1..], v)
  }

  lemma {:induction false} RemoveAllAbsent<T(!new)>(s: seq<T>, v: T)
    requires v !in s
    ensures RemoveAll(s, v) == s
  {
    if |s| > 0 {
      assert s[0] != v;
      assert v !in s[1..];
      RemoveAllAbsent(s[1..], v);
      assert s == [s[0]] + s[1..];
    }
  }

  lemma {:induction false} RemoveAllAppended<T(!new)>(s: seq<T>, v: T)
    ensures RemoveAll(s + [v], v) == RemoveAll(s, v)
  {
    if |s| == 0 {
      assert s + [v] == [v];
      assert ([v])[1..] == [];
    } else {
      assert (s + [v])[0] == s[0];
      assert (s + [v])[1..] == s[1..] + [v];
      RemoveAllAppended(s[1..], v);
    }
  }

  /** Set extensionality, in the direction that yields an element of a non-empty set. */
  lemma NoElementMeansEmpty(s: set<int>)
    ensures (forall x :: x !in s) ==> s == {}
  {
    if forall x :: x !in s {
      assert s == {};
    }
  }

  /** Every non-empty finite set of integers has a least element. */
  lemma MinExists(s: set<int>)
    requires s != {}
    ensures exists m :: m in s && forall x :: x in s ==> m <= x
  {
    NoElementMeansEmpty(s);
    var y :| y in s;
    var t := s - {y};
    NoElementMeansEmpty(t);
    if t == {} {
      assert forall x :: x in s ==> x !in t;
    } else {
      MinExists(t);
      var m :| m in t && forall x :: x in t ==> m <= x;
      var least := if y < m then y else m;
      forall x | x in s ensures least <= x {
        if x != y { assert x in t; }
      }
      assert least in s;
    }
  }

  /** The least element of a non-empty set. */
  function Min(s: set<int>): (m: int)
    requires s != {}
    ensures m in s
    ensures forall x :: x in s ==> m <= x
  {
    MinExists(s);
    var m :| m in s && forall x :: x in s ==> m <= x;
    m
  }

  /** The elements of `s` listed in ascending order, as the numeric sort of the year keys gives them. */
  function SortedElements(s: set<int>): (r: seq<int>)
    ensures StrictlyIncreasing(r)
    ensures forall x :: x in r <==> x in s
    ensures |r| == |s|
    decreases |s|
  {
    if s == {} then []
    else
      var m := Min(s);
      var rest := SortedElements(s - {m});
      assert forall k :: 0 <= k < |rest| ==> m < rest[k] by {
        forall k | 0 <= k < |rest| ensures m < rest[k] {
          assert rest[k] in s - {m};
        }
      }
      [m] + rest
  }

  /** In an ascending sequence every element is the last one or at most the second-to-last one. */
  lemma TopTwoOfIncreasing(s: seq<int>)
    requires StrictlyIncreasing(s)
    requires |s| >= 2
    ensures forall y :: y in s ==> y == s[|s| - 1] || y <= s[|s| - 2]
  {
    forall y | y in s ensures y == s[|s| - 1] || y <= s[|s| - 2] {
      var k :| 0 <= k < |s| && s[k] == y;
      if k < |s| - 2 {
        assert s[k] < s[|s| - 2];
      }
    }
  }
}
