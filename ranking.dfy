/**
 * The ranking behind "Top 5 End Slots": `Counter(end_slots).most_common(5)`
 * over the ends recorded for one start, with each entry's share of them.
 * `most_common` orders by count, highest first; equal counts keep the
 * Counter's key order, which is the order of first appearance, because the
 * ordering is stable. Modelled as a stable insertion sort by count.
 */
module Ranking {
  import opened Counting
  import opened History
  import opened Statistics

  /** One `(element, count)` pair of `most_common`. */
  datatype Common = Common(slot: int, count: nat)

  /** One row of the top-5 list: end slot, its count and its share of the start's rounds. */
  datatype Ranked = Ranked(slot: int, count: nat, percentage: real)

  /** The position of the first occurrence of x in xs. */
  function FirstIndex(xs: seq<int>, x: int): (i: nat)
    requires x in xs
    ensures i < |xs| && xs[i] == x
    ensures forall j :: 0 <= j < i ==> xs[j] != x
    decreases |xs|
  {
    var n := |xs| - 1;
    if x in xs[..n] then FirstIndex(xs[..n], x) else n
  }

  /** The keys of `Counter(xs)` in iteration order: each element once, by first appearance. */
  function CounterKeys(xs: seq<int>): (d: seq<int>)
    ensures forall x :: x in d <==> x in xs
    ensures forall i, j :: 0 <= i < j < |d| ==> FirstIndex(xs, d[i]) < FirstIndex(xs, d[j])
    decreases |xs|
  {
    if xs == [] then []
    else
      var init, last := xs[..|xs| - 1], xs[|xs| - 1];
      assert xs == init + [last];
      var d := CounterKeys(init);
      if last in init then d else d + [last]
  }

  /** `Counter(xs).items()` in iteration order. */
  function CounterItems(xs: seq<int>): (items: seq<Common>)
    ensures |items| == |CounterKeys(xs)|
  {
    var d := CounterKeys(xs);
    seq(|d|, i requires 0 <= i < |d| => Common(d[i], Occurrences(xs, d[i])))
  }

  /** Insert e after every entry whose count is at least its own (a stable insertion step). */
  function InsertByCount(s: seq<Common>, e: Common): (r: seq<Common>)
    ensures |r| == |s| + 1
    decreases |s|
  {
    if s == [] || s[0].count < e.count then [e] + s else [s[0]] + InsertByCount(s[1..], e)
  }

  /** Stable sort by count, highest first. */
  function SortByCount(items: seq<Common>): (r: seq<Common>)
    ensures |r| == |items|
    decreases |items|
  {
    if items == [] then []
    else InsertByCount(SortByCount(items[..|items| - 1]), items[|items| - 1])
  }

  /** `Counter(xs).most_common(n)` */
  function MostCommon(xs: seq<int>, n: nat): seq<Common> {
    var sorted := SortByCount(CounterItems(xs));
    sorted[..if n < |sorted| then n else |sorted|]
  }

  /** a ranks before b: a higher count, or an equal count and an earlier first appearance in xs. */
  predicate Ahead(xs: seq<int>, a: Common, b: Common) {
    a.count > b.count
    || (a.count == b.count && a.slot in xs && b.slot in xs && FirstIndex(xs, a.slot) < FirstIndex(xs, b.slot))
  }

  /** Every entry ranks before every later entry. */
  predicate RankedBy(xs: seq<int>, s: seq<Common>) {
    forall i, j :: 0 <= i < j < |s| ==> Ahead(xs, s[i], s[j])
  }

  /** The slots a ranking lists. */
  function SlotsOf(r: seq<Common>): set<int> {
    set i | 0 <= i < |r| :: r[i].slot
  }

  /**
   * r is the top-n ranking of xs: at most n entries, empty exactly when
   * there is nothing to rank, distinct elements of xs with their true
   * counts, ranked by count and then first appearance, and no element left
   * out ranks before one listed.
   */
  ghost predicate IsTopRanking(xs: seq<int>, n: nat, r: seq<Common>) {
    && |r| <= n
    && (r == [] <==> xs == [] || n == 0)
    && (forall i :: 0 <= i < |r| ==> r[i].slot in xs && r[i].count == Occurrences(xs, r[i].slot) && r[i].count > 0)
    && (forall i, j :: 0 <= i < j < |r| ==> r[i].slot != r[j].slot)
    && RankedBy(xs, r)
    && (forall x :: x in xs && x !in SlotsOf(r) ==>
          |r| == n && forall i :: 0 <= i < |r| ==> Ahead(xs, r[i], Common(x, Occurrences(xs, x))))
  }

  /** Insertion adds exactly the inserted entry. */
  lemma {:induction false} InsertByCountMultiset(s: seq<Common>, e: Common)
    ensures multiset(InsertByCount(s, e)) == multiset(s) + multiset{e}
    decreases |s|
  {
    if s != [] && s[0].count >= e.count {
      InsertByCountMultiset(s[1..], e);
      assert s == [s[0]] + s[1..];
    }
  }

  /** An entry that ranks before every entry of a ranked list can head it. */
  lemma RankedCons(xs: seq<int>, a: Common, t: seq<Common>)
    requires RankedBy(xs, t)
    requires forall j :: 0 <= j < |t| ==> Ahead(xs, a, t[j])
    ensures RankedBy(xs, [a] + t)
  {
    var r := [a] + t;
    forall i, j | 0 <= i < j < |r|
      ensures Ahead(xs, r[i], r[j])
    {
      if i == 0 {
        assert r[j] == t[j - 1];
      } else {
        assert r[i] == t[i - 1] && r[j] == t[j - 1];
      }
    }
  }

  /** Inserting an entry that appeared after all others keeps the list ranked. */
  lemma {:induction false} InsertByCountRanked(xs: seq<int>, s: seq<Common>, e: Common)
    requires RankedBy(xs, s)
    requires e.slot in xs
    requires forall i :: 0 <= i < |s| ==> s[i].slot in xs && FirstIndex(xs, s[i].slot) < FirstIndex(xs, e.slot)
    ensures RankedBy(xs, InsertByCount(s, e))
    decreases |s|
  {
    if s == [] || s[0].count < e.count {
      forall j | 0 <= j < |s|
        ensures Ahead(xs, e, s[j])
      {
        if j > 0 {
          assert Ahead(xs, s[0], s[j]);
        }
      }
      RankedCons(xs, e, s);
    } else {
      var tail := s[1..];
      assert RankedBy(xs, tail) by {
        forall i, j | 0 <= i < j < |tail|
          ensures Ahead(xs, tail[i], tail[j])
        {
          assert tail[i] == s[i + 1] && tail[j] == s[j + 1];
        }
      }
      InsertByCountRanked(xs, tail, e);
      InsertByCountMultiset(tail, e);
      var t := InsertByCount(tail, e);
      forall j | 0 <= j < |t|
        ensures Ahead(xs, s[0], t[j])
      {
        assert t[j] in multiset(t);
        if t[j] != e {
          assert t[j] in multiset(tail);
          var k :| 0 <= k < |tail| && tail[k] == t[j];
          assert Ahead(xs, s[0], s[k + 1]);
        }
      }
      RankedCons(xs, s[0], t);
    }
  }

  /** Sorting entries listed in order of first appearance ranks them and keeps exactly the same entries. */
  lemma {:induction false} SortByCountRanked(xs: seq<int>, items: seq<Common>)
    requires forall i :: 0 <= i < |items| ==> items[i].slot in xs
    requires forall i, j :: 0 <= i < j < |items| ==> FirstIndex(xs, items[i].slot) < FirstIndex(xs, items[j].slot)
    ensures multiset(SortByCount(items)) == multiset(items)
    ensures RankedBy(xs, SortByCount(items))
    decreases |items|
  {
    if items != [] {
      var init, last := items[..|items| - 1], items[|items| - 1];
      assert items == init + [last];
      SortByCountRanked(xs, init);
      var s := SortByCount(init);
      InsertByCountMultiset(s, last);
      forall i | 0 <= i < |s|
        ensures s[i].slot in xs && FirstIndex(xs, s[i].slot) < FirstIndex(xs, last.slot)
      {
        assert s[i] in multiset(init);
        var k :| 0 <= k < |init| && init[k] == s[i];
        assert items[k] == s[i];
      }
      InsertByCountRanked(xs, s, last);
    }
  }

  /** The counter items list the elements of xs by first appearance, each with its count. */
  lemma CounterItemsOrdered(xs: seq<int>)
    ensures var items := CounterItems(xs);
      && (forall i :: 0 <= i < |items| ==> items[i].slot in xs && items[i].count == Occurrences(xs, items[i].slot))
      && (forall i, j :: 0 <= i < j < |items| ==> FirstIndex(xs, items[i].slot) < FirstIndex(xs, items[j].slot))
      && (forall x :: x in xs ==> Common(x, Occurrences(xs, x)) in items)
      && (xs == [] ==> items == [])
  {
    var d := CounterKeys(xs);
    var items := CounterItems(xs);
    forall x | x in xs
      ensures Common(x, Occurrences(xs, x)) in items
    {
      var k :| 0 <= k < |d| && d[k] == x;
      assert items[k] == Common(x, Occurrences(xs, x));
    }
    if xs == [] {
      assert d == [];
    }
  }

  /** The sorted counter items: ranked, with true counts, one for every element of xs. */
  lemma SortedCounterItems(xs: seq<int>)
    ensures var sorted := SortByCount(CounterItems(xs));
      && RankedBy(xs, sorted)
      && (forall i :: 0 <= i < |sorted| ==>
            sorted[i].slot in xs && sorted[i].count == Occurrences(xs, sorted[i].slot) && sorted[i].count > 0)
      && (forall x :: x in xs ==> Common(x, Occurrences(xs, x)) in sorted)
      && (xs == [] ==> sorted == [])
  {
    var items := CounterItems(xs);
    CounterItemsOrdered(xs);
    SortByCountRanked(xs, items);
    var sorted := SortByCount(items);
    forall i | 0 <= i < |sorted|
      ensures sorted[i].slot in xs && sorted[i].count == Occurrences(xs, sorted[i].slot) && sorted[i].count > 0
    {
      assert sorted[i] in multiset(items);
    }
    forall x | x in xs
      ensures Common(x, Occurrences(xs, x)) in sorted
    {
      assert Common(x, Occurrences(xs, x)) in multiset(items);
    }
  }

  /** A prefix of at most n entries of a complete ranking of xs is its top-n ranking. */
  lemma RankedPrefixIsTop(xs: seq<int>, n: nat, sorted: seq<Common>)
    requires RankedBy(xs, sorted)
    requires forall i :: 0 <= i < |sorted| ==>
      sorted[i].slot in xs && sorted[i].count == Occurrences(xs, sorted[i].slot) && sorted[i].count > 0
    requires forall x :: x in xs ==> Common(x, Occurrences(xs, x)) in sorted
    requires xs == [] ==> sorted == []
    ensures IsTopRanking(xs, n, sorted[..if n < |sorted| then n else |sorted|])
  {
    var m := if n < |sorted| then n else |sorted|;
    var r := sorted[..m];
    forall i, j | 0 <= i < j < |r|
      ensures r[i].slot != r[j].slot
    {
      assert Ahead(xs, sorted[i], sorted[j]);
    }
    assert |r| <= n;
    if xs != [] {
      assert Common(xs[0], Occurrences(xs, xs[0])) in sorted;
      assert n > 0 ==> r != [];
    }
    assert r == [] <==> xs == [] || n == 0;
    assert forall i :: 0 <= i < |r| ==> r[i] == sorted[i];
    assert RankedBy(xs, r);
    forall x | x in xs && x !in SlotsOf(r)
      ensures |r| == n && forall i :: 0 <= i < |r| ==> Ahead(xs, r[i], Common(x, Occurrences(xs, x)))
    {
      var p :| 0 <= p < |sorted| && sorted[p] == Common(x, Occurrences(xs, x));
      forall k | 0 <= k < m
        ensures sorted[k].slot != x
      {
        assert r[k].slot in SlotsOf(r);
      }
      forall i | 0 <= i < |r|
        ensures Ahead(xs, r[i], Common(x, Occurrences(xs, x)))
      {
        assert Ahead(xs, sorted[i], sorted[p]);
      }
    }
  }

  /** `most_common(n)` is the top-n ranking of the list. */
  lemma MostCommonIsTopRanking(xs: seq<int>, n: nat)
    ensures IsTopRanking(xs, n, MostCommon(xs, n))
  {
    SortedCounterItems(xs);
    RankedPrefixIsTop(xs, n, SortByCount(CounterItems(xs)));
  }

  /** The ranking without percentages. */
  function Counts(r: seq<Ranked>): seq<Common> {
    seq(|r|, i requires 0 <= i < |r| => Common(r[i].slot, r[i].count))
  }

  /**
   * The top-5 rows for a start (lines 378-380 and 407): the most common ends
   * recorded for it, each with `count / len(end_slots) * 100`.
   */
  function TopEndSlots(mapping: map<int, seq<int>>, start: int): seq<Ranked> {
    var ends := Get(mapping, start, []);
    var top := MostCommon(ends, 5);
    seq(|top|, i requires 0 <= i < |top| =>
      Ranked(top[i].slot, top[i].count, if ends != [] then Share(top[i].count, |ends|) else 0.0))
  }

  /** An entry of `most_common` is an element of the list with its true, positive count. */
  lemma MostCommonEntry(xs: seq<int>, n: nat, i: nat)
    requires i < |MostCommon(xs, n)|
    ensures MostCommon(xs, n)[i].slot in xs
    ensures MostCommon(xs, n)[i].count == Occurrences(xs, MostCommon(xs, n)[i].slot) > 0
  {
    MostCommonIsTopRanking(xs, n);
  }

  /** The top-5 rows rank the start's ends as `most_common(5)` does. */
  lemma TopEndSlotsRanking(mapping: map<int, seq<int>>, start: int)
    ensures IsTopRanking(Get(mapping, start, []), 5, Counts(TopEndSlots(mapping, start)))
  {
    MostCommonIsTopRanking(Get(mapping, start, []), 5);
    assert Counts(TopEndSlots(mapping, start)) == MostCommon(Get(mapping, start, []), 5);
  }

  /** Each percentage is the entry's share of the start's rounds, above 0 and at most 100. */
  lemma TopEndSlotsShares(mapping: map<int, seq<int>>, start: int, i: nat)
    requires i < |TopEndSlots(mapping, start)|
    ensures var e := TopEndSlots(mapping, start)[i];
      && e.percentage == e.count as real / |Get(mapping, start, [])| as real * 100.0
      && 0.0 < e.percentage <= 100.0
  {
    var ends := Get(mapping, start, []);
    var top := MostCommon(ends, 5);
    MostCommonEntry(ends, 5, i);
    var x, c := top[i].slot, top[i].count;
    OccurrencesAtMostLength(ends, x);
    assert ends != [];
    var e := TopEndSlots(mapping, start)[i];
    assert e.count == c && e.percentage == Share(c, |ends|);
    PercentagesBounded(e.percentage, c, |ends|);
  }

  /** A positive count within the total has a share above 0 and at most 100. */
  lemma PercentagesBounded(p: real, c: nat, total: nat)
    requires 0 < c <= total && p == Share(c, total)
    ensures 0.0 < p <= 100.0
  {
    assert c as real / total as real <= 1.0;
  }

}
