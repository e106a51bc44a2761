/** The weighted growth ratio of summaries: a mediant of the growth ratios of single runs. */
module GrowthRatio {
  import opened Text
  import opened Stats

  /** The largest value of the unsigned word the counts are kept in. */
  const WORD_MAX: nat := 0xFFFF_FFFF_FFFF_FFFF

  datatype Run = Run(baseChars: nat, targetChars: nat, comparableSamples: nat)

  function SaturatingAdd(a: nat, b: nat): nat {
    Min(a + b, WORD_MAX)
  }

  function SaturatingMul(a: nat, b: nat): nat {
    Min(a * b, WORD_MAX)
  }

  predicate Comparable(r: Run) {
    r.baseChars > 0 && r.targetChars > 0 && r.comparableSamples > 0
  }

  function GrowthOf(base: nat, target: nat): Option<real> {
    if base > 0 && target > 0 then Some(RealMax(target as real / base as real, 1.0)) else None
  }

  function RealMax(a: real, b: real): real {
    if a >= b then a else b
  }

  /** The two accumulators of the fold. */
  function Weighted(runs: seq<Run>): (nat, nat) {
    if runs == [] then (0, 0)
    else
      var (base, target) := Weighted(runs[..|runs| - 1]);
      var r := runs[|runs| - 1];
      if !Comparable(r) then (base, target)
      else (SaturatingAdd(base, SaturatingMul(r.baseChars, r.comparableSamples)),
            SaturatingAdd(target, SaturatingMul(r.targetChars, r.comparableSamples)))
  }

  function WeightedGrowth(runs: seq<Run>): Option<real> {
    GrowthOf(Weighted(runs).0, Weighted(runs).1)
  }

  // ----- when there is a ratio -----

  lemma {:induction false} WeightedPositive(runs: seq<Run>)
    ensures Weighted(runs).0 > 0 <==> exists i | 0 <= i < |runs| :: Comparable(runs[i])
    ensures Weighted(runs).1 > 0 <==> exists i | 0 <= i < |runs| :: Comparable(runs[i])
  {
    if runs != [] {
      var k := |runs| - 1;
      WeightedPositive(runs[..k]);
      assert forall i | 0 <= i < k :: runs[i] == runs[..k][i];
      if Comparable(runs[k]) {
        ProductPositive(runs[k].baseChars, runs[k].comparableSamples);
        ProductPositive(runs[k].targetChars, runs[k].comparableSamples);
      }
      if exists i | 0 <= i < |runs| :: Comparable(runs[i]) {
        var i :| 0 <= i < |runs| && Comparable(runs[i]);
        assert i < k ==> Comparable(runs[..k][i]);
      }
    }
  }

  lemma ProductPositive(a: nat, b: nat)
    requires a > 0 && b > 0
    ensures a * b > 0
  {}

  /** The ratio is there exactly when some run is comparable, and never below one. */
  lemma PresentExactlyWhenComparable(runs: seq<Run>)
    ensures WeightedGrowth(runs).Some? <==> exists i | 0 <= i < |runs| :: Comparable(runs[i])
    ensures WeightedGrowth(runs).Some? ==> WeightedGrowth(runs).value >= 1.0
  {
    WeightedPositive(runs);
  }

  // ----- where it lies -----

  /** The sums without a word limit. */
  function ExactSum(runs: seq<Run>, f: Run -> nat): nat {
    if runs == [] then 0
    else ExactSum(runs[..|runs| - 1], f) +
         (if Comparable(runs[|runs| - 1]) then f(runs[|runs| - 1]) * runs[|runs| - 1].comparableSamples else 0)
  }

  const Base: Run -> nat := (r: Run) => r.baseChars
  const Target: Run -> nat := (r: Run) => r.targetChars

  predicate Fits(runs: seq<Run>) {
    ExactSum(runs, Base) <= WORD_MAX && ExactSum(runs, Target) <= WORD_MAX
  }

  /** For every input the fold computes the exact weighted sums, each cut off at the word limit. */
  lemma {:induction false} WeightedSaturates(runs: seq<Run>)
    ensures Weighted(runs) == (Min(ExactSum(runs, Base), WORD_MAX), Min(ExactSum(runs, Target), WORD_MAX))
  {
    if runs != [] {
      var k := |runs| - 1;
      WeightedSaturates(runs[..k]);
      if Comparable(runs[k]) {
        CutOffTwice(ExactSum(runs[..k], Base), runs[k].baseChars * runs[k].comparableSamples);
        CutOffTwice(ExactSum(runs[..k], Target), runs[k].targetChars * runs[k].comparableSamples);
      }
    }
  }

  lemma CutOffTwice(a: nat, b: nat)
    ensures SaturatingAdd(Min(a, WORD_MAX), Min(b, WORD_MAX)) == Min(a + b, WORD_MAX)
  {}

  /** `target` is at most, or at least, `factor` times `base`. */
  predicate AtMost(target: nat, base: nat, factor: real) {
    target as real <= factor * base as real
  }

  predicate AtLeast(target: nat, base: nat, factor: real) {
    factor * base as real <= target as real
  }

  lemma Weighing(target: nat, base: nat, weight: nat, factor: real)
    ensures AtMost(target, base, factor) ==> AtMost(target * weight, base * weight, factor)
    ensures AtLeast(target, base, factor) ==> AtLeast(target * weight, base * weight, factor)
  {
    var gap := factor * base as real - target as real;
    assert (target * weight) as real == target as real * weight as real;
    assert factor * (base * weight) as real == factor * base as real * weight as real;
    assert gap * weight as real == factor * (base * weight) as real - (target * weight) as real;
    if gap >= 0.0 {
      ProductNonNegative(gap, weight as real);
    }
    if gap <= 0.0 {
      ProductNonNegative(-gap, weight as real);
      assert (-gap) * weight as real == -(gap * weight as real);
    }
  }

  lemma Adding(t: nat, b: nat, t': nat, b': nat, factor: real)
    ensures AtMost(t, b, factor) && AtMost(t', b', factor) ==> AtMost(t + t', b + b', factor)
    ensures AtLeast(t, b, factor) && AtLeast(t', b', factor) ==> AtLeast(t + t', b + b', factor)
  {
    assert factor * (b + b') as real == factor * b as real + factor * b' as real;
  }

  /** A bound met by every comparable run is met by the sums. */
  lemma {:induction false} SumsKeepBounds(runs: seq<Run>, factor: real)
    ensures (forall i | 0 <= i < |runs| && Comparable(runs[i]) ::
               AtMost(runs[i].targetChars, runs[i].baseChars, factor))
            ==> AtMost(ExactSum(runs, Target), ExactSum(runs, Base), factor)
    ensures (forall i | 0 <= i < |runs| && Comparable(runs[i]) ::
               AtLeast(runs[i].targetChars, runs[i].baseChars, factor))
            ==> AtLeast(ExactSum(runs, Target), ExactSum(runs, Base), factor)
  {
    if runs == [] {
      assert factor * 0.0 == 0.0;
    } else {
      hide AtMost, AtLeast;
      var k := |runs| - 1;
      var r := runs[k];
      SumsKeepBounds(runs[..k], factor);
      assert forall i | 0 <= i < k :: runs[i] == runs[..k][i];
      Weighing(r.targetChars, r.baseChars, r.comparableSamples, factor);
      Adding(ExactSum(runs[..k], Target), ExactSum(runs[..k], Base),
             r.targetChars * r.comparableSamples, r.baseChars * r.comparableSamples, factor);
    }
  }

  lemma GrowthBounds(base: nat, target: nat, lo: real, hi: real)
    requires base > 0 && target > 0
    ensures hi >= 1.0 ==> (GrowthOf(base, target).value <= hi <==> AtMost(target, base, hi))
    ensures lo > 1.0 ==> (lo <= GrowthOf(base, target).value <==> AtLeast(target, base, lo))
  {
    var q := target as real / base as real;
    assert q * base as real == target as real;
    QuotientCompare(q, base as real, hi);
    QuotientCompare(q, base as real, lo);
  }

  lemma QuotientCompare(q: real, b: real, c: real)
    requires b > 0.0
    ensures q <= c <==> q * b <= c * b
  {}

  predicate AllGrow(runs: seq<Run>, lo: real, hi: real) {
    forall i | 0 <= i < |runs| && Comparable(runs[i]) ::
      lo <= GrowthOf(runs[i].baseChars, runs[i].targetChars).value <= hi
  }

  /** Bounds on the growth of every comparable run, carried over to the exact sums. */
  lemma SumsBetween(runs: seq<Run>, lo: real, hi: real)
    requires AllGrow(runs, lo, hi) && WeightedGrowth(runs).Some?
    ensures hi >= 1.0 && AtMost(ExactSum(runs, Target), ExactSum(runs, Base), hi)
    ensures lo > 1.0 ==> AtLeast(ExactSum(runs, Target), ExactSum(runs, Base), lo)
  {
    PresentExactlyWhenComparable(runs);
    var some :| 0 <= some < |runs| && Comparable(runs[some]);
    hide AtMost, AtLeast, Weighted, ExactSum;
    forall i | 0 <= i < |runs| && Comparable(runs[i])
      ensures AtMost(runs[i].targetChars, runs[i].baseChars, hi)
      ensures lo > 1.0 ==> AtLeast(runs[i].targetChars, runs[i].baseChars, lo)
    {
      GrowthBounds(runs[i].baseChars, runs[i].targetChars, lo, hi);
    }
    SumsKeepBounds(runs, hi);
    SumsKeepBounds(runs, lo);
  }

  lemma CutOffBelow(target: nat, base: nat, hi: real)
    requires hi >= 1.0 && AtMost(target, base, hi)
    ensures AtMost(Min(target, WORD_MAX), Min(base, WORD_MAX), hi)
  {
    if base > WORD_MAX {
      ProductNonNegative(hi - 1.0, WORD_MAX as real);
      assert (hi - 1.0) * WORD_MAX as real == hi * WORD_MAX as real - WORD_MAX as real;
    }
  }

  lemma CutOffAbove(target: nat, base: nat, lo: real)
    requires lo > 1.0 && AtLeast(target, base, lo)
    ensures AtLeast(Min(target, WORD_MAX), Min(base, WORD_MAX), lo) <==> AtLeast(WORD_MAX, Min(base, WORD_MAX), lo)
  {
    if base > WORD_MAX {
      ProductNonNegative(lo, (base - WORD_MAX) as real);
      assert lo * (base - WORD_MAX) as real == lo * base as real - lo * WORD_MAX as real;
    }
  }

  lemma GrowthOfCutOff(base: nat, target: nat, lo: real, hi: real)
    requires base > 0 && target > 0 && hi >= 1.0 && AtMost(target, base, hi) && (lo > 1.0 ==> AtLeast(target, base, lo))
    ensures var growth := GrowthOf(Min(base, WORD_MAX), Min(target, WORD_MAX));
            && growth.Some? && growth.value <= hi
            && (lo <= growth.value <==> lo <= 1.0 || AtLeast(WORD_MAX, Min(base, WORD_MAX), lo))
  {
    hide AtMost, AtLeast;
    CutOffBelow(target, base, hi);
    if lo > 1.0 {
      CutOffAbove(target, base, lo);
    }
    GrowthBounds(Min(base, WORD_MAX), Min(target, WORD_MAX), lo, hi);
  }

  /**
   What survives when the sums may saturate: the upper bound always, and a lower bound
   exactly when it is at most one or `lo` times the saturated base still fits in a word.
   */
  lemma BoundsUnderSaturation(runs: seq<Run>, lo: real, hi: real)
    requires AllGrow(runs, lo, hi) && WeightedGrowth(runs).Some?
    ensures WeightedGrowth(runs).value <= hi
    ensures lo <= WeightedGrowth(runs).value <==>
            lo <= 1.0 || lo * Min(ExactSum(runs, Base), WORD_MAX) as real <= WORD_MAX as real
  {
    hide Weighted, ExactSum, GrowthOf;
    SumsBetween(runs, lo, hi);
    WeightedSaturates(runs);
    BothPositive(Weighted(runs).0, Weighted(runs).1);
    GrowthOfCutOff(ExactSum(runs, Base), ExactSum(runs, Target), lo, hi);
  }

  lemma BothPositive(base: nat, target: nat)
    requires GrowthOf(base, target).Some?
    ensures base > 0 && target > 0
  {}

  /** While nothing saturates both bounds hold. */
  lemma BetweenTheRuns(runs: seq<Run>, lo: real, hi: real)
    requires Fits(runs) && WeightedGrowth(runs).Some? && AllGrow(runs, lo, hi)
    ensures lo <= WeightedGrowth(runs).value <= hi
  {
    hide Weighted, ExactSum;
    BoundsUnderSaturation(runs, lo, hi);
    SumsBetween(runs, lo, hi);
  }

  /** A lower bound that is lost: a run that triples comes out as not growing. */
  lemma SaturationLosesTheRatio()
    ensures var runs := [Run(1, 3, WORD_MAX)];
            AllGrow(runs, 3.0, 3.0) && WeightedGrowth(runs) == Some(1.0)
  {
    var runs := [Run(1, 3, WORD_MAX)];
    assert runs[..0] == [];
    assert Weighted(runs) == (WORD_MAX, WORD_MAX);
  }

  /** Saturation alone does not lose it: equal sums that both saturate still give one. */
  lemma SaturationMayKeepTheRatio()
    ensures var runs := [Run(1, 1, WORD_MAX), Run(1, 1, WORD_MAX)];
            !Fits(runs) && AllGrow(runs, 1.0, 1.0) && WeightedGrowth(runs) == Some(1.0)
  {
    var runs := [Run(1, 1, WORD_MAX), Run(1, 1, WORD_MAX)];
    assert runs[..1] == [runs[0]] && runs[..1][..0] == [];
    assert ExactSum(runs, Base) == ExactSum(runs[..1], Base) + WORD_MAX;
    assert ExactSum(runs[..1], Base) == ExactSum(runs[..1][..0], Base) + WORD_MAX;
    assert Comparable(runs[0]);
    PresentExactlyWhenComparable(runs);
    BoundsUnderSaturation(runs, 1.0, 1.0);
  }

  /** The ratio is the weighted target characters, or the base ones if there are more of those, over the base ones. */
  lemma RatioOfSums(runs: seq<Run>)
    requires WeightedGrowth(runs).Some?
    ensures var base, target := Min(ExactSum(runs, Base), WORD_MAX), Min(ExactSum(runs, Target), WORD_MAX);
            base > 0 && WeightedGrowth(runs).value * base as real == Max(base, target) as real
  {
    WeightedSaturates(runs);
    hide Weighted, ExactSum;
    GrowthTimesBase(Weighted(runs).0, Weighted(runs).1);
  }

  lemma GrowthTimesBase(base: nat, target: nat)
    requires GrowthOf(base, target).Some?
    ensures base > 0 && GrowthOf(base, target).value * base as real == Max(base, target) as real
  {
    var b, t := base as real, target as real;
    var ratio := t / b;
    QuotientTimes(t, b);
    QuotientCompare(1.0, b, ratio);
    assert ratio * b == t && 1.0 * b == b;
    if ratio >= 1.0 {
      assert GrowthOf(base, target).value == ratio;
    } else {
      assert GrowthOf(base, target).value == 1.0;
      assert ratio * b < b;
    }
  }
}
