/** What the scheduler part of a report says about the runs, run by run. */
module AggregationLaws {
  import opened Text
  import opened Stats
  import opened Aggregation

  /** The positions of the runs whose scheduler was observed. */
  function ObservedAt(runs: seq<Option<Snapshot>>): set<nat> {
    set i: nat | i < |runs| && runs[i].Some?
  }

  /** No observed run exceeds the figure, and one attains it. */
  predicate IsLargest(n: nat, f: Snapshot -> nat, runs: seq<Option<Snapshot>>) {
    && (forall i | 0 <= i < |runs| && runs[i].Some? :: f(runs[i].value) <= n)
    && (exists i | 0 <= i < |runs| && runs[i].Some? :: f(runs[i].value) == n)
  }

  predicate IsSmallest(n: nat, f: Snapshot -> nat, runs: seq<Option<Snapshot>>) {
    && (forall i | 0 <= i < |runs| && runs[i].Some? :: n <= f(runs[i].value))
    && (exists i | 0 <= i < |runs| && runs[i].Some? :: f(runs[i].value) == n)
  }

  function OrZero(f: Snapshot -> nat): Option<Snapshot> -> nat {
    (run: Option<Snapshot>) => if run.Some? then f(run.value) else 0
  }

  // ----- the observed runs as a list -----

  lemma {:induction false} PresentElements(runs: seq<Option<Snapshot>>)
    ensures forall s :: s in Present(runs) <==> exists i | 0 <= i < |runs| :: runs[i] == Some(s)
  {
    if runs != [] {
      var rest := runs[1..];
      PresentElements(rest);
      forall s ensures s in Present(runs) <==> exists i | 0 <= i < |runs| :: runs[i] == Some(s) {
        if s in Present(rest) {
          var i :| 0 <= i < |rest| && rest[i] == Some(s);
          assert runs[i + 1] == Some(s);
        }
        if exists i | 0 <= i < |runs| :: runs[i] == Some(s) {
          var i :| 0 <= i < |runs| && runs[i] == Some(s);
          assert i > 0 ==> rest[i - 1] == Some(s);
        }
      }
    }
  }

  lemma {:induction false} PresentLength(runs: seq<Option<Snapshot>>)
    ensures |Present(runs)| == |ObservedAt(runs)|
  {
    if runs == [] {
      assert ObservedAt(runs) == {};
    } else {
      var n := |runs| - 1;
      var front := runs[..n];
      PresentLength(front);
      PresentMore(front, runs[n]);
      assert runs == front + [runs[n]];
      hide Present;
      ObservedMore(front, runs[n]);
    }
  }

  lemma ObservedMore(runs: seq<Option<Snapshot>>, run: Option<Snapshot>)
    ensures |ObservedAt(runs + [run])| == |ObservedAt(runs)| + |Observed(run)|
  {
    assert ObservedAt(runs + [run]) == ObservedAt(runs) + if run.Some? then {|runs|} else {};
  }

  lemma {:induction false} PresentMore(runs: seq<Option<Snapshot>>, run: Option<Snapshot>)
    ensures Present(runs + [run]) == Present(runs) + Observed(run)
  {
    if runs == [] {
      assert runs + [run] == [run] && [run][1..] == [];
    } else {
      PresentMore(runs[1..], run);
      assert (runs + [run])[1..] == runs[1..] + [run] && (runs + [run])[0] == runs[0];
      hide Observed;
      Regroup(Observed(runs[0]), Present(runs[1..]), Observed(run));
    }
  }

  lemma {:induction false} PresentSum(f: Snapshot -> nat, runs: seq<Option<Snapshot>>)
    ensures SumBy(f, Present(runs)) == SumBy(OrZero(f), runs)
  {
    if runs != [] {
      PresentSum(f, runs[1..]);
      SumByConcat(f, Observed(runs[0]), Present(runs[1..]));
      assert runs[0].Some? ==> [runs[0].value][1..] == [];
    }
  }

  lemma LargestPresent(f: Snapshot -> nat, runs: seq<Option<Snapshot>>)
    requires Present(runs) != []
    ensures IsLargest(MaxBy(f, Present(runs)), f, runs)
  {
    var xs := Present(runs);
    PresentElements(runs);
    MaxByMeaning(f, xs);
    hide MaxBy, Present;
    forall i | 0 <= i < |runs| && runs[i].Some? ensures f(runs[i].value) <= MaxBy(f, xs) {
      assert runs[i] == Some(runs[i].value);
      assert runs[i].value in xs;
    }
    var k :| 0 <= k < |xs| && f(xs[k]) == MaxBy(f, xs);
    assert xs[k] in xs;
  }

  lemma SmallestPresent(f: Snapshot -> nat, runs: seq<Option<Snapshot>>)
    requires Present(runs) != []
    ensures IsSmallest(MinBy(f, Present(runs)), f, runs)
  {
    var xs := Present(runs);
    PresentElements(runs);
    MinByMeaning(f, xs);
    hide MinBy, Present;
    forall i | 0 <= i < |runs| && runs[i].Some? ensures MinBy(f, xs) <= f(runs[i].value) {
      assert runs[i] == Some(runs[i].value);
      assert runs[i].value in xs;
    }
    var k :| 0 <= k < |xs| && f(xs[k]) == MinBy(f, xs);
    assert xs[k] in xs;
  }

  /**
   A report has scheduler figures exactly when some run was observed. They count the observed
   runs, bound their peaks and budgets by figures some run attains, and give totals and the mean
   peak over the observed runs.
   */
  ghost predicate Describes(a: SchedulerAggregate, runs: seq<Option<Snapshot>>) {
    && a.observedRuns == |ObservedAt(runs)| > 0
    && a.peakInFlightAvg * a.observedRuns as real == SumBy(OrZero(Peak), runs) as real
    && IsLargest(a.peakInFlightMax, Peak, runs)
    && IsSmallest(a.minFinalInFlightBudget, Budget, runs)
    && IsLargest(a.maxFinalInFlightBudget, Budget, runs)
    && a.budgetReductionsTotal == SumBy(OrZero(Reductions), runs)
    && a.budgetIncreasesTotal == SumBy(OrZero(Increases), runs)
    && a.waitCyclesTotal == SumBy(OrZero(Waits), runs)
  }

  lemma AggregateDescribes(runs: seq<Option<Snapshot>>)
    ensures var a := BuildSchedulerAggregate(runs);
            (a.None? <==> ObservedAt(runs) == {}) && (a.Some? ==> Describes(a.value, runs))
  {
    hide MaxBy, MinBy, SumBy, Present, IsLargest, IsSmallest, ObservedAt;
    var xs := Present(runs);
    PresentLength(runs);
    if xs != [] {
      LargestPresent(Peak, runs);
      SmallestPresent(Budget, runs);
      LargestPresent(Budget, runs);
      PresentSum(Peak, runs);
      PresentSum(Reductions, runs);
      PresentSum(Increases, runs);
      PresentSum(Waits, runs);
      MeanTimesCount(SumBy(Peak, xs), |xs|);
    }
  }

  lemma MeanTimesCount(sum: nat, count: nat)
    requires count > 0
    ensures (sum as real / count as real) * count as real == sum as real
  {
    QuotientTimes(sum as real, count as real);
  }
}
