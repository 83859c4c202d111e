/**
 * Counters over slot ids: a `defaultdict(int)` that is only ever incremented,
 * and `collections.Counter` of a list, which are the same thing once the
 * list is known. Sums are taken over an id range.
 */
module Counting {

  /** `m.get(k, d)`: the entry of k, or the default d for a missing key. */
  function Get<V>(m: map<int, V>, k: int, d: V): V {
    if k in m then m[k] else d
  }

  /** How many times x occurs in xs. */
  function Occurrences(xs: seq<int>, x: int): nat {
    multiset(xs)[x]
  }

  /** An element occurs at most as often as the list is long. */
  lemma {:induction false} OccurrencesAtMostLength(xs: seq<int>, x: int)
    ensures Occurrences(xs, x) <= |xs|
    decreases |xs|
  {
    if xs != [] {
      var init := xs[..|xs| - 1];
      assert xs == init + [xs[|xs| - 1]];
      assert multiset(xs) == multiset(init) + multiset{xs[|xs| - 1]};
      OccurrencesAtMostLength(init, x);
    }
  }

  /** `Counter(xs)`, built as `counter[x] += 1` for each x of xs in turn. */
  function Tally(xs: seq<int>): map<int, nat> {
    if xs == [] then map[]
    else
      var m := Tally(xs[..|xs| - 1]);
      var x := xs[|xs| - 1];
      m[x := Get(m, x, 0) + 1]
  }

  /** Appending x to the list is `counter[x] += 1` on its tally, every other entry unchanged. */
  lemma TallySnoc(xs: seq<int>, x: int)
    ensures Tally(xs + [x]) == Tally(xs)[x := Get(Tally(xs), x, 0) + 1]
  {
    assert (xs + [x])[..|xs|] == xs;
  }

  /** The tally holds exactly the elements that occur, each with its number of occurrences. */
  lemma {:induction false} TallyKeys(xs: seq<int>, x: int)
    ensures x in Tally(xs) <==> Occurrences(xs, x) > 0
    ensures Get(Tally(xs), x, 0) == Occurrences(xs, x)
    decreases |xs|
  {
    if xs != [] {
      var init, last := xs[..|xs| - 1], xs[|xs| - 1];
      assert xs == init + [last];
      assert multiset(xs) == multiset(init) + multiset{last};
      TallyKeys(init, x);
    }
  }

  /** Sum of `m.get(k, 0)` over the keys lo <= k < hi. */
  function SumOver(m: map<int, nat>, lo: int, hi: int): nat
    decreases hi - lo
  {
    if lo >= hi then 0 else Get(m, lo, 0) + SumOver(m, lo + 1, hi)
  }

  /** Every range sum of the empty counter is 0. */
  lemma {:induction false} SumOverEmpty(lo: int, hi: int)
    ensures SumOver(map[], lo, hi) == 0
    decreases hi - lo
  {
    if lo < hi {
      SumOverEmpty(lo + 1, hi);
    }
  }

  /** Incrementing one entry raises the range sum by one exactly when the key is in range. */
  lemma {:induction false} SumOverIncrement(m: map<int, nat>, x: int, lo: int, hi: int)
    ensures SumOver(m[x := Get(m, x, 0) + 1], lo, hi) == SumOver(m, lo, hi) + (if lo <= x < hi then 1 else 0)
    decreases hi - lo
  {
    if lo < hi {
      SumOverIncrement(m, x, lo + 1, hi);
    }
  }

  /** The counts of a list whose elements lie in [lo, hi) add up to its length. */
  lemma {:induction false} TallySum(xs: seq<int>, lo: int, hi: int)
    requires forall i :: 0 <= i < |xs| ==> lo <= xs[i] < hi
    ensures SumOver(Tally(xs), lo, hi) == |xs|
    decreases |xs|
  {
    if xs == [] {
      SumOverEmpty(lo, hi);
    } else {
      var init, last := xs[..|xs| - 1], xs[|xs| - 1];
      assert xs == init + [last];
      TallySum(init, lo, hi);
      TallySnoc(init, last);
      SumOverIncrement(Tally(init), last, lo, hi);
    }
  }

}
