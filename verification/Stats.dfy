/** Sample statistics: sorting, averages and interpolated percentiles, over the reals. */
module Stats {
  import opened Text

  predicate Ascending(s: seq<real>) {
    forall i, j | 0 <= i < j < |s| :: s[i] <= s[j]
  }

  /** `s` is nowhere above `t`. */
  predicate Below(s: seq<real>, t: seq<real>) {
    |s| == |t| && forall i | 0 <= i < |s| :: s[i] <= t[i]
  }

  function Insert(x: real, s: seq<real>): seq<real> {
    if s == [] || x <= s[0] then [x] + s else [s[0]] + Insert(x, s[1..])
  }

  function Sort(s: seq<real>): (r: seq<real>)
    ensures |r| == |s|
  {
    if s == [] then [] else InsertLength(s[0], Sort(s[1..])); Insert(s[0], Sort(s[1..]))
  }

  function Sum(s: seq<real>): real {
    if s == [] then 0.0 else s[0] + Sum(s[1..])
  }

  function Clamp(x: real, lo: real, hi: real): real {
    if x < lo then lo else if x > hi then hi else x
  }

  function Ceil(x: real): int {
    -((-x).Floor)
  }

  function At(s: seq<real>, i: int, otherwise: real): real {
    if 0 <= i < |s| then s[i] else otherwise
  }

  /** The point a fraction `w` of the way from `a` to `b`. */
  function Mix(a: real, b: real, w: real): real {
    a + (b - a) * w
  }

  /** Linear interpolation between the two samples around the rank. */
  function Percentile(s: seq<real>, ratio: real): real {
    if |s| == 0 then 0.0
    else if |s| == 1 then s[0]
    else
      var rank := Clamp(ratio, 0.0, 1.0) * (|s| - 1) as real;
      var lower, upper := rank.Floor, Ceil(rank);
      var lowerVal := At(s, lower, 0.0);
      var upperVal := At(s, upper, lowerVal);
      if lower == upper then lowerVal
      else Mix(lowerVal, upperVal, rank - lower as real)
  }

  datatype NumericStats = NumericStats(count: nat, min: Option<real>, max: Option<real>, avg: Option<real>,
                                       p50: Option<real>, p95: Option<real>, p99: Option<real>)

  function ComputeNumericStats(values: seq<real>): NumericStats {
    if values == [] then NumericStats(0, None, None, None, None, None, None)
    else
      var sorted := Sort(values);
      NumericStats(|sorted|, Some(sorted[0]), Some(sorted[|sorted| - 1]), Some(Sum(sorted) / |sorted| as real),
                   Some(Percentile(sorted, 0.50)), Some(Percentile(sorted, 0.95)), Some(Percentile(sorted, 0.99)))
  }

  // ----- sorting -----

  lemma {:induction false} InsertLength(x: real, s: seq<real>)
    ensures |Insert(x, s)| == |s| + 1
  {
    if s != [] && x > s[0] {
      InsertLength(x, s[1..]);
    }
  }

  lemma {:induction false} InsertKeeps(x: real, s: seq<real>)
    ensures multiset(Insert(x, s)) == multiset(s) + multiset{x}
  {
    if s != [] && x > s[0] {
      InsertKeeps(x, s[1..]);
      assert s == [s[0]] + s[1..];
    }
  }

  lemma {:induction false} InsertAscends(x: real, s: seq<real>)
    requires Ascending(s)
    ensures Ascending(Insert(x, s))
  {
    if s != [] && x > s[0] {
      var rest := Insert(x, s[1..]);
      InsertAscends(x, s[1..]);
      InsertKeeps(x, s[1..]);
      forall j | 0 <= j < |rest| ensures s[0] <= rest[j] {
        assert rest[j] in multiset(rest);
        assert rest[j] == x || rest[j] in s[1..];
      }
    }
  }

  lemma {:induction false} SortMeaning(s: seq<real>)
    ensures Ascending(Sort(s)) && multiset(Sort(s)) == multiset(s)
  {
    if s != [] {
      SortMeaning(s[1..]);
      InsertKeeps(s[0], Sort(s[1..]));
      InsertAscends(s[0], Sort(s[1..]));
      assert s == [s[0]] + s[1..];
    }
  }

  /** A sorted list is determined by its multiset. */
  lemma {:induction false} AscendingUnique(s: seq<real>, t: seq<real>)
    requires Ascending(s) && Ascending(t) && multiset(s) == multiset(t)
    ensures s == t
  {
    assert |multiset(s)| == |s| && |multiset(t)| == |t|;
    if s != [] {
      LeastFirst(s, t);
      WithoutFirst(s);
      WithoutFirst(t);
      AscendingUnique(s[1..], t[1..]);
      assert s == [s[0]] + s[1..] && t == [t[0]] + t[1..];
    }
  }

  lemma LeastFirst(s: seq<real>, t: seq<real>)
    requires s != [] && t != [] && Ascending(s) && Ascending(t) && multiset(s) == multiset(t)
    ensures s[0] == t[0]
  {
    assert s[0] in multiset(t) && t[0] in multiset(s);
    var i :| 0 <= i < |t| && t[i] == s[0];
    var j :| 0 <= j < |s| && s[j] == t[0];
  }

  lemma WithoutFirst(s: seq<real>)
    requires s != [] && Ascending(s)
    ensures multiset(s[1..]) == multiset(s) - multiset{s[0]} && Ascending(s[1..])
  {
    assert s == [s[0]] + s[1..];
  }

  lemma {:induction false} InsertBelow(x: real, s: seq<real>, y: real, t: seq<real>)
    requires x <= y && Ascending(s) && Ascending(t) && Below(s, t)
    ensures Below(Insert(x, s), Insert(y, t))
    decreases |s|
  {
    InsertLength(x, s);
    InsertLength(y, t);
    if s != [] {
      RestAscends(s);
      RestAscends(t);
      if x <= s[0] && y > t[0] {
        // x s0 s1 ...  against  t0, then y among t1 ...
        InsertBelow(s[0], s[1..], y, t[1..]);
        InsertFront(s);
      } else if x > s[0] && y <= t[0] {
        // s0, then x among s1 ...  against  y t0 t1 ...
        InsertBelow(x, s[1..], t[0], t[1..]);
        InsertFront(t);
      } else if x > s[0] && y > t[0] {
        InsertBelow(x, s[1..], y, t[1..]);
      }
    }
  }

  lemma RestAscends(s: seq<real>)
    requires s != [] && Ascending(s)
    ensures Ascending(s[1..]) && forall i | 0 <= i < |s| - 1 :: s[0] <= s[1..][i]
  {}

  lemma InsertFront(s: seq<real>)
    requires s != [] && Ascending(s)
    ensures Insert(s[0], s[1..]) == s
  {
    assert s == [s[0]] + s[1..];
    if |s| > 1 {
      assert s[1..][0] == s[1];
    }
  }

  /** Lowering samples lowers every order statistic. */
  lemma {:induction false} SortBelow(s: seq<real>, t: seq<real>)
    requires Below(s, t)
    ensures Below(Sort(s), Sort(t))
  {
    if s != [] {
      SortBelow(s[1..], t[1..]);
      SortMeaning(s[1..]);
      SortMeaning(t[1..]);
      InsertBelow(s[0], Sort(s[1..]), t[0], Sort(t[1..]));
    }
  }

  // ----- percentiles -----

  lemma ProductNonNegative(x: real, y: real)
    requires 0.0 <= x && 0.0 <= y
    ensures 0.0 <= x * y
  {}

  lemma MixBetween(a: real, b: real, w: real)
    requires a <= b && 0.0 <= w <= 1.0
    ensures a <= Mix(a, b, w) <= b
  {
    ProductNonNegative(b - a, w);
    ProductNonNegative(b - a, 1.0 - w);
    assert b - Mix(a, b, w) == (b - a) * (1.0 - w);
  }

  lemma MixMonotone(a: real, b: real, w: real, z: real)
    requires a <= b && w <= z
    ensures Mix(a, b, w) <= Mix(a, b, z)
  {
    ProductNonNegative(b - a, z - w);
    assert Mix(a, b, z) - Mix(a, b, w) == (b - a) * (z - w);
  }

  lemma MixBelow(a: real, b: real, c: real, d: real, w: real)
    requires a <= c && b <= d && 0.0 <= w <= 1.0
    ensures Mix(a, b, w) <= Mix(c, d, w)
  {
    ProductNonNegative(c - a, 1.0 - w);
    ProductNonNegative(d - b, w);
    assert Mix(c, d, w) - Mix(a, b, w) == (c - a) * (1.0 - w) + (d - b) * w;
  }

  function Rank(n: nat, ratio: real): real {
    Clamp(ratio, 0.0, 1.0) * (n - 1) as real
  }

  lemma ScaleBounds(c: real, m: real)
    requires 0.0 <= c <= 1.0 && 0.0 <= m
    ensures 0.0 <= c * m <= m
  {}

  lemma RankInRange(n: nat, ratio: real)
    requires n >= 2
    ensures 0.0 <= Rank(n, ratio) <= (n - 1) as real
  {
    ScaleBounds(Clamp(ratio, 0.0, 1.0), (n - 1) as real);
  }

  lemma RankMonotone(n: nat, p: real, q: real)
    requires n >= 2 && p <= q
    ensures Rank(n, p) <= Rank(n, q)
  {
    var c, d, m := Clamp(p, 0.0, 1.0), Clamp(q, 0.0, 1.0), (n - 1) as real;
    ProductNonNegative(d - c, m);
  }

  lemma RankNeighbours(rank: real, n: nat)
    requires 0.0 <= rank <= (n - 1) as real
    ensures 0 <= rank.Floor <= Ceil(rank) <= n - 1
    ensures Ceil(rank) == rank.Floor <==> rank == rank.Floor as real
    ensures Ceil(rank) <= rank.Floor + 1
  {}

  /** The percentile at an unrounded rank. */
  lemma PercentileAtRank(s: seq<real>, ratio: real)
    requires |s| >= 2
    ensures var rank := Rank(|s|, ratio);
            var lo, hi := rank.Floor, Ceil(rank);
            && 0 <= lo <= hi < |s| && hi <= lo + 1
            && (hi == lo <==> rank == lo as real)
            && Percentile(s, ratio) == (if lo == hi then s[lo] else Mix(s[lo], s[hi], rank - lo as real))
  {
    hide Mix;
    RankInRange(|s|, ratio);
    RankNeighbours(Rank(|s|, ratio), |s|);
  }

  /** The percentile lies between the samples next to its rank. */
  lemma PercentileBetween(s: seq<real>, ratio: real)
    requires |s| >= 2 && Ascending(s)
    ensures var rank := Rank(|s|, ratio);
            0 <= rank.Floor <= Ceil(rank) < |s| && s[rank.Floor] <= Percentile(s, ratio) <= s[Ceil(rank)]
  {
    PercentileAtRank(s, ratio);
    hide Mix, Percentile, Rank;
    var rank := Rank(|s|, ratio);
    if rank.Floor != Ceil(rank) {
      MixBetween(s[rank.Floor], s[Ceil(rank)], rank - rank.Floor as real);
    }
  }

  /** A larger ratio never gives a smaller percentile. */
  lemma PercentileMonotone(s: seq<real>, p: real, q: real)
    requires s != [] && Ascending(s) && p <= q
    ensures Percentile(s, p) <= Percentile(s, q)
  {
    if |s| >= 2 {
      hide Mix, Percentile, Rank;
      RankMonotone(|s|, p, q);
      PercentileAtRank(s, p);
      PercentileAtRank(s, q);
      PercentileBetween(s, p);
      PercentileBetween(s, q);
      var x, y := Rank(|s|, p), Rank(|s|, q);
      if x.Floor == y.Floor && Ceil(x) == Ceil(y) {
        if x.Floor != Ceil(x) {
          MixMonotone(s[x.Floor], s[Ceil(x)], x - x.Floor as real, y - y.Floor as real);
        }
      } else {
        assert Ceil(x) <= y.Floor || (Ceil(x) == x.Floor == y.Floor);
      }
    }
  }

  /** The ends of the range, and every sample in between, are hit exactly. */
  lemma PercentileHits(s: seq<real>, k: nat)
    requires k < |s|
    ensures |s| >= 2 ==> Percentile(s, k as real / (|s| - 1) as real) == s[k]
    ensures Percentile(s, 0.0) == s[0] && Percentile(s, 1.0) == s[|s| - 1]
  {
    if |s| >= 2 {
      PercentileHitsRank(s, k);
      PercentileHitsRank(s, 0);
      PercentileHitsRank(s, |s| - 1);
      EndRatios((|s| - 1) as real);
    }
  }

  lemma EndRatios(m: real)
    requires m > 0.0
    ensures 0.0 / m == 0.0 && m / m == 1.0
  {}

  lemma PercentileHitsRank(s: seq<real>, k: nat)
    requires |s| >= 2 && k < |s|
    ensures Percentile(s, k as real / (|s| - 1) as real) == s[k]
  {
    var m := (|s| - 1) as real;
    RatioInRange(k as real, m);
    assert Rank(|s|, k as real / m) == (k as real / m) * m == k as real;
    assert (k as real).Floor == k;
    PercentileAtRank(s, k as real / m);
  }

  lemma RatioInRange(k: real, m: real)
    requires 0.0 <= k <= m && m > 0.0
    ensures 0.0 <= k / m <= 1.0 && (k / m) * m == k
  {}

  /**
   The percentile written out: at a rank between two samples, each counts by how near the
   rank is to it.
   */
  lemma PercentileInterpolates(s: seq<real>, ratio: real, lo: nat)
    requires lo + 1 < |s|
    requires var rank := (if ratio < 0.0 then 0.0 else if ratio > 1.0 then 1.0 else ratio) * (|s| - 1) as real;
             lo as real <= rank <= (lo + 1) as real
    ensures var rank := (if ratio < 0.0 then 0.0 else if ratio > 1.0 then 1.0 else ratio) * (|s| - 1) as real;
            Percentile(s, ratio) == s[lo] * ((lo + 1) as real - rank) + s[lo + 1] * (rank - lo as real)
  {
    var rank := Rank(|s|, ratio);
    PercentileAtRank(s, ratio);
    hide Percentile;
    if rank == (lo + 1) as real {
      assert rank.Floor == lo + 1;
      assert s[lo] * 0.0 == 0.0;
    } else {
      assert rank.Floor == lo;
      MixWrittenOut(s[lo], s[lo + 1], rank - lo as real);
      assert rank == lo as real ==> s[lo + 1] * (rank - lo as real) == 0.0;
    }
  }

  lemma MixWrittenOut(a: real, b: real, w: real)
    ensures Mix(a, b, w) == a * (1.0 - w) + b * w
  {}

  /** Lowering samples lowers every percentile. */
  lemma PercentileBelow(s: seq<real>, t: seq<real>, ratio: real)
    requires Below(s, t)
    ensures Percentile(s, ratio) <= Percentile(t, ratio)
  {
    if |s| >= 2 {
      PercentileAtRank(s, ratio);
      PercentileAtRank(t, ratio);
      hide Mix, Percentile, Rank;
      var rank := Rank(|s|, ratio);
      var lo, hi := rank.Floor, Ceil(rank);
      if lo != hi {
        MixBelow(s[lo], s[hi], t[lo], t[hi], rank - lo as real);
      }
    }
  }

  // ----- sums and averages -----

  lemma {:induction false} SumBelow(s: seq<real>, t: seq<real>)
    requires Below(s, t)
    ensures Sum(s) <= Sum(t)
  {
    if s != [] {
      SumBelow(s[1..], t[1..]);
    }
  }

  lemma {:induction false} SumBounds(s: seq<real>, lo: real, hi: real)
    requires forall i | 0 <= i < |s| :: lo <= s[i] <= hi
    ensures |s| as real * lo <= Sum(s) <= |s| as real * hi
  {
    if s != [] {
      SumBounds(s[1..], lo, hi);
      assert |s| as real * lo == (|s| - 1) as real * lo + lo;
      assert |s| as real * hi == (|s| - 1) as real * hi + hi;
    }
  }

  lemma DivideMonotone(a: real, b: real, n: real)
    requires n > 0.0 && a <= b
    ensures a / n <= b / n
  {}

  lemma AverageBounds(total: real, n: real, lo: real, hi: real)
    requires n > 0.0 && n * lo <= total <= n * hi
    ensures lo <= total / n <= hi
  {}

  lemma PercentileWithin(s: seq<real>, ratio: real)
    requires s != [] && Ascending(s)
    ensures s[0] <= Percentile(s, ratio) <= s[|s| - 1]
  {
    if |s| >= 2 {
      PercentileBetween(s, ratio);
    }
  }

  // ----- the statistics together -----

  /** min <= p50 <= p95 <= p99 <= max and min <= avg <= max. */
  lemma StatsOrdered(values: seq<real>)
    requires values != []
    ensures var r := ComputeNumericStats(values);
            && r.min.value <= r.p50.value <= r.p95.value <= r.p99.value <= r.max.value
            && r.min.value <= r.avg.value <= r.max.value
            && r.min.value in values && r.max.value in values
            && forall i | 0 <= i < |values| :: r.min.value <= values[i] <= r.max.value
  {
    hide Percentile, Sum, Sort, Rank;
    var s := Sort(values);
    SortMeaning(values);
    PercentileMonotone(s, 0.50, 0.95);
    PercentileMonotone(s, 0.95, 0.99);
    PercentileWithin(s, 0.50);
    PercentileWithin(s, 0.99);
    var n := |s|;
    SumBounds(s, s[0], s[n - 1]);
    AverageBounds(Sum(s), n as real, s[0], s[n - 1]);
    assert s[0] in multiset(values) && s[n - 1] in multiset(values);
    forall i | 0 <= i < |values| ensures s[0] <= values[i] <= s[n - 1] {
      assert values[i] in multiset(s);
    }
  }

  /** The order in which samples arrive does not matter. */
  lemma StatsIgnoreOrder(values: seq<real>, others: seq<real>)
    requires multiset(values) == multiset(others)
    ensures ComputeNumericStats(values) == ComputeNumericStats(others)
  {
    SortMeaning(values);
    SortMeaning(others);
    AscendingUnique(Sort(values), Sort(others));
    assert |values| == |multiset(values)| == |multiset(others)| == |others|;
  }

  predicate OptionBelow(a: Option<real>, b: Option<real>) {
    a.Some? == b.Some? && (a.Some? ==> a.value <= b.value)
  }

  /** Lowering samples lowers every statistic. */
  lemma StatsBelow(values: seq<real>, others: seq<real>)
    requires Below(values, others)
    ensures var r, q := ComputeNumericStats(values), ComputeNumericStats(others);
            && r.count == q.count
            && OptionBelow(r.min, q.min) && OptionBelow(r.max, q.max) && OptionBelow(r.avg, q.avg)
            && OptionBelow(r.p50, q.p50) && OptionBelow(r.p95, q.p95) && OptionBelow(r.p99, q.p99)
  {
    var s, t := Sort(values), Sort(others);
    SortBelow(values, others);
    PercentileBelow(s, t, 0.50);
    PercentileBelow(s, t, 0.95);
    PercentileBelow(s, t, 0.99);
    SumBelow(s, t);
    if values != [] {
      DivideMonotone(Sum(s), Sum(t), |s| as real);
    }
  }

  // ----- what the statistics are -----

  lemma {:induction false} SumConcat(a: seq<real>, b: seq<real>)
    ensures Sum(a + b) == Sum(a) + Sum(b)
  {
    if a == [] {
      assert a + b == b;
    } else {
      SumConcat(a[1..], b);
      assert (a + b)[1..] == a[1..] + b;
    }
  }

  lemma SumOfOne(x: real)
    ensures Sum([x]) == x
  {
    assert [x][1..] == [];
  }

  lemma {:induction false} SumOfInsert(x: real, s: seq<real>)
    ensures Sum(Insert(x, s)) == x + Sum(s)
  {
    if s == [] || x <= s[0] {
      assert ([x] + s)[1..] == s;
    } else {
      SumOfInsert(x, s[1..]);
      assert ([s[0]] + Insert(x, s[1..]))[1..] == Insert(x, s[1..]);
    }
  }

  lemma {:induction false} SumOfSort(s: seq<real>)
    ensures Sum(Sort(s)) == Sum(s)
  {
    if s != [] {
      SumOfSort(s[1..]);
      SumOfInsert(s[0], Sort(s[1..]));
    }
  }

  /** Count, extremes, average and the three percentiles, by any ascending order of the samples. */
  lemma StatsMeaning(values: seq<real>, sorted: seq<real>)
    requires values != [] && Ascending(sorted) && multiset(sorted) == multiset(values)
    ensures var r := ComputeNumericStats(values);
            && r.count == |values| == |sorted|
            && r.min == Some(sorted[0]) && r.max == Some(sorted[|sorted| - 1])
            && r.avg.Some? && r.avg.value * |values| as real == Sum(values)
            && r.p50 == Some(Percentile(sorted, 0.50))
            && r.p95 == Some(Percentile(sorted, 0.95)) && r.p99 == Some(Percentile(sorted, 0.99))
  {
    hide Percentile, Sort, Ascending, Sum;
    SortMeaning(values);
    AscendingUnique(sorted, Sort(values));
    SumOfSort(values);
    QuotientTimes(Sum(values), |values| as real);
  }

  lemma QuotientTimes(a: real, b: real)
    requires b != 0.0
    ensures (a / b) * b == a
  {}
}
