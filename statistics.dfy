/**
 * `calculate_percentages`: the share of each counted slot in the total
 * number of rounds, over exact reals.
 */
module Statistics {
  import opened Registry
  import opened Counting

  /**
   * With no rounds, every id 1..8 maps to 0; otherwise each key of the
   * counter maps to `count / total * 100`.
   */
  function Percentages(counter: map<int, nat>, total: nat): map<int, real> {
    if total == 0 then map i | i in SlotRange :: 0.0
    else map s | s in counter :: Share(counter[s], total)
  }

  /** `(count / total) * 100` */
  function Share(count: nat, total: nat): real
    requires total > 0
  {
    count as real / total as real * 100.0
  }

  /** Shares of one total add up like their counts. */
  lemma ShareAdd(a: nat, b: nat, total: nat)
    requires total > 0
    ensures Share(a, total) + Share(b, total) == Share(a + b, total)
  {
    var t := total as real;
    assert a as real / t + b as real / t == (a + b) as real / t;
  }

  /** Sum of `m.get(k, 0)` over the keys lo <= k < hi. */
  function SumReal(m: map<int, real>, lo: int, hi: int): real
    decreases hi - lo
  {
    if lo >= hi then 0.0 else Get(m, lo, 0.0) + SumReal(m, lo + 1, hi)
  }

  /** With no rounds, the distribution lists every registered id, each at zero. */
  lemma PercentagesWithoutRounds(counter: map<int, nat>)
    ensures forall i :: i in Percentages(counter, 0) <==> IsSlot(i)
    ensures forall i :: i in Percentages(counter, 0) ==> Percentages(counter, 0)[i] == 0.0
  {
    forall i {
      SlotsAreRange(i);
    }
  }

  /**
   * With rounds, only counted slots appear, each with its share of the total;
   * a count within the total gives a share within 0..100.
   */
  lemma PercentagesWithRounds(counter: map<int, nat>, total: nat, s: int)
    requires total > 0
    ensures s in Percentages(counter, total) <==> s in counter
    ensures s in counter ==> Percentages(counter, total)[s] * total as real == counter[s] as real * 100.0
    ensures s in counter && counter[s] <= total ==> 0.0 <= Percentages(counter, total)[s] <= 100.0
  {
    if s in counter {
      var c, t := counter[s] as real, total as real;
      assert Percentages(counter, total)[s] == c / t * 100.0;
      assert c / t * t == c;
      if counter[s] <= total {
        assert c / t <= 1.0;
      }
    }
  }

  /** Range sums of the distribution are the range sums of the counts, scaled. */
  lemma {:induction false} SumRealScaled(counter: map<int, nat>, total: nat, lo: int, hi: int)
    requires total > 0
    ensures SumReal(Percentages(counter, total), lo, hi) == Share(SumOver(counter, lo, hi), total)
    decreases hi - lo
  {
    if lo < hi {
      SumRealScaled(counter, total, lo + 1, hi);
      assert Get(Percentages(counter, total), lo, 0.0) == Share(Get(counter, lo, 0), total);
      ShareAdd(Get(counter, lo, 0), SumOver(counter, lo + 1, hi), total);
    }
  }

  /**
   * When the counts of a registry-keyed counter add up to the total, the
   * percentages add up to exactly 100.
   */
  lemma PercentagesSumTo100(counter: map<int, nat>, total: nat)
    requires total > 0
    requires SumOver(counter, FirstSlot, EndSlot) == total
    ensures SumReal(Percentages(counter, total), FirstSlot, EndSlot) == 100.0
  {
    SumRealScaled(counter, total, FirstSlot, EndSlot);
    ShareOfWhole(total);
  }

  /** The whole is 100 percent of itself. */
  lemma ShareOfWhole(total: nat)
    requires total > 0
    ensures Share(total, total) == 100.0
  {
    assert total as real / total as real == 1.0;
  }

}
