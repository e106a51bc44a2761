/**
 Two levels of merging: the steps of a run into one sample, the samples of a scenario into
 one report. Merging level by level agrees with one pass over everything, in any order.
 */
module Aggregation {
  import opened Text
  import opened Ordered

  datatype Snapshot = Snapshot(peakInFlight: nat, finalInFlightBudget: nat, budgetReductions: nat,
                               budgetIncreases: nat, waitCycles: nat)

  /** A decoded connector call of a step. */
  datatype Call = Call(status: string, errorCode: Option<string>)

  /** The parts of one decoded step output that are looked at. */
  datatype StepOutput = StepOutput(calls: seq<Call>, scheduler: Option<Snapshot>)

  datatype SchedulerAggregate = SchedulerAggregate(
    observedRuns: nat, peakInFlightMax: nat, peakInFlightAvg: real, budgetReductionsTotal: nat,
    budgetIncreasesTotal: nat, waitCyclesTotal: nat, minFinalInFlightBudget: nat, maxFinalInFlightBudget: nat)

  type Codes = map<string, nat>

  // ----- one pass over a list -----

  function MaxBy<T>(f: T -> nat, xs: seq<T>): nat {
    if xs == [] then 0 else Max(f(xs[0]), MaxBy(f, xs[1..]))
  }

  function MinBy<T>(f: T -> nat, xs: seq<T>): nat {
    if xs == [] then 0 else if |xs| == 1 then f(xs[0]) else Min(f(xs[0]), MinBy(f, xs[1..]))
  }

  function SumBy<T>(f: T -> nat, xs: seq<T>): nat {
    if xs == [] then 0 else f(xs[0]) + SumBy(f, xs[1..])
  }

  const Peak: Snapshot -> nat := (s: Snapshot) => s.peakInFlight
  const Budget: Snapshot -> nat := (s: Snapshot) => s.finalInFlightBudget
  const Reductions: Snapshot -> nat := (s: Snapshot) => s.budgetReductions
  const Increases: Snapshot -> nat := (s: Snapshot) => s.budgetIncreases
  const Waits: Snapshot -> nat := (s: Snapshot) => s.waitCycles

  // ----- the merges of the source -----

  function MergeSnapshots(a: Snapshot, b: Snapshot): Snapshot {
    Snapshot(Max(a.peakInFlight, b.peakInFlight), Min(a.finalInFlightBudget, b.finalInFlightBudget),
             a.budgetReductions + b.budgetReductions, a.budgetIncreases + b.budgetIncreases,
             a.waitCycles + b.waitCycles)
  }

  function Schedulers(outputs: seq<StepOutput>): seq<Snapshot> {
    if outputs == [] then []
    else Schedulers(outputs[..|outputs| - 1]) + Observed(outputs[|outputs| - 1].scheduler)
  }

  function Observed<T>(x: Option<T>): seq<T> {
    if x.Some? then [x.value] else []
  }

  function Present<T>(xs: seq<Option<T>>): seq<T> {
    if xs == [] then [] else Observed(xs[0]) + Present(xs[1..])
  }

  /** The code a call counts under, if it failed. */
  function ErrorOf(call: Call): Option<string> {
    if call.status != "error" then None
    else if call.errorCode.Some? then call.errorCode else Some("unknown_call_error")
  }

  function Count(codes: Codes, code: string): nat {
    if code in codes then codes[code] else 0
  }

  function Add(codes: Codes, code: string, n: nat): Codes {
    codes[code := Count(codes, code) + n]
  }

  function CallErrors(calls: seq<Call>, code: string): nat {
    SumBy((c: Call) => if ErrorOf(c) == Some(code) then 1 else 0, calls)
  }

  function StepErrors(outputs: seq<StepOutput>, code: string): nat {
    SumBy((o: StepOutput) => CallErrors(o.calls, code), outputs)
  }

  /** The components one pass over the snapshots would find. */
  predicate Summarizes(s: Snapshot, xs: seq<Snapshot>) {
    s == Snapshot(MaxBy(Peak, xs), MinBy(Budget, xs), SumBy(Reductions, xs), SumBy(Increases, xs), SumBy(Waits, xs))
  }

  lemma {:induction false} MaxBySnoc<T>(f: T -> nat, xs: seq<T>, x: T)
    ensures MaxBy(f, xs + [x]) == Max(MaxBy(f, xs), f(x))
  {
    if xs == [] {
      assert [] + [x] == [x] && [x][1..] == [];
    } else {
      MaxBySnoc(f, xs[1..], x);
      assert (xs + [x])[1..] == xs[1..] + [x];
    }
  }

  lemma {:induction false} MinBySnoc<T>(f: T -> nat, xs: seq<T>, x: T)
    requires xs != []
    ensures MinBy(f, xs + [x]) == Min(MinBy(f, xs), f(x))
  {
    if |xs| == 1 {
      assert (xs + [x])[1..] == [x];
    } else {
      MinBySnoc(f, xs[1..], x);
      assert (xs + [x])[1..] == xs[1..] + [x];
    }
  }

  lemma {:induction false} SumByConcat<T>(f: T -> nat, xs: seq<T>, ys: seq<T>)
    ensures SumBy(f, xs + ys) == SumBy(f, xs) + SumBy(f, ys)
  {
    if xs == [] {
      assert xs + ys == ys;
    } else {
      SumByConcat(f, xs[1..], ys);
      assert (xs + ys)[1..] == xs[1..] + ys;
    }
  }

  lemma SumBySnoc<T>(f: T -> nat, xs: seq<T>, x: T)
    ensures SumBy(f, xs + [x]) == SumBy(f, xs) + f(x)
  {
    SumByConcat(f, xs, [x]);
    assert [x][1..] == [];
  }

  lemma SummarizesOne(x: Snapshot)
    ensures Summarizes(x, [x])
  {
    assert [x][1..] == [];
  }

  lemma SummarizesMore(s: Snapshot, xs: seq<Snapshot>, x: Snapshot)
    requires xs != [] && Summarizes(s, xs)
    ensures Summarizes(MergeSnapshots(s, x), xs + [x])
  {
    MaxBySnoc(Peak, xs, x);
    MinBySnoc(Budget, xs, x);
    SumBySnoc(Reductions, xs, x);
    SumBySnoc(Increases, xs, x);
    SumBySnoc(Waits, xs, x);
  }

  lemma SchedulersSnoc(outputs: seq<StepOutput>, i: nat)
    requires i < |outputs|
    ensures Schedulers(outputs[..i + 1]) == Schedulers(outputs[..i]) + Observed(outputs[i].scheduler)
  {
    assert outputs[..i + 1][..i] == outputs[..i];
  }

  /** The metrics a run collects are one pass over its steps. */
  ghost predicate RunMetrics(outputs: seq<StepOutput>, codes0: Codes, codes: Codes, scheduler: Option<Snapshot>) {
    && SampleOf(scheduler, Schedulers(outputs))
    && (forall code :: Count(codes, code) == Count(codes0, code) + StepErrors(outputs, code))
  }

  function MergeObserved(current: Option<Snapshot>, observed: Option<Snapshot>): Option<Snapshot> {
    if observed.None? then current
    else if current.None? then observed
    else Some(MergeSnapshots(current.value, observed.value))
  }

  lemma StepErrorsSnoc(outputs: seq<StepOutput>, i: nat, code: string)
    requires i < |outputs|
    ensures StepErrors(outputs[..i + 1], code) == StepErrors(outputs[..i], code) + CallErrors(outputs[i].calls, code)
  {
    SumBySnoc((o: StepOutput) => CallErrors(o.calls, code), outputs[..i], outputs[i]);
    assert outputs[..i] + [outputs[i]] == outputs[..i + 1];
  }

  lemma RunMetricsStep(outputs: seq<StepOutput>, i: nat, codes0: Codes, codes: Codes, scheduler: Option<Snapshot>,
                       codes': Codes)
    requires i < |outputs| && RunMetrics(outputs[..i], codes0, codes, scheduler)
    requires forall code :: Count(codes', code) == Count(codes, code) + CallErrors(outputs[i].calls, code)
    ensures RunMetrics(outputs[..i + 1], codes0, codes', MergeObserved(scheduler, outputs[i].scheduler))
  {
    hide SumBy, MaxBy, MinBy;
    var all := outputs[..i + 1];
    forall code ensures Count(codes', code) == Count(codes0, code) + StepErrors(all, code) {
      StepErrorsSnoc(outputs, i, code);
    }
    SchedulersSnoc(outputs, i);
    var before, observed := Schedulers(outputs[..i]), outputs[i].scheduler;
    if observed.None? {
      assert Schedulers(outputs[..i + 1]) == before;
    } else {
      if scheduler.None? {
        SummarizesOne(observed.value);
        assert before + [observed.value] == [observed.value];
      } else {
        SummarizesMore(scheduler.value, before, observed.value);
      }
    }
  }

  method CollectSpecStepMetrics(outputs: seq<StepOutput>, codes0: Codes)
    returns (codes: Codes, scheduler: Option<Snapshot>)
    ensures RunMetrics(outputs, codes0, codes, scheduler)
  {
    codes := codes0;
    scheduler := None;
    var i := 0;
    assert RunMetrics([], codes0, codes, scheduler);
    assert outputs[..0] == [];
    hide RunMetrics, Count;
    while i < |outputs|
      invariant i <= |outputs|
      invariant RunMetrics(outputs[..i], codes0, codes, scheduler)
    {
      var output := outputs[i];
      var counted := CountCallErrors(output.calls, codes);
      RunMetricsStep(outputs, i, codes0, codes, scheduler, counted);
      codes := counted;
      if output.scheduler.Some? {
        var observed := output.scheduler.value;
        scheduler := if scheduler.None? then Some(observed) else Some(MergeSnapshots(scheduler.value, observed));
      }
      i := i + 1;
    }
    assert outputs[..|outputs|] == outputs;
  }

  method CountCallErrors(calls: seq<Call>, codes0: Codes) returns (codes: Codes)
    ensures forall code :: Count(codes, code) == Count(codes0, code) + CallErrors(calls, code)
  {
    codes := codes0;
    var i := 0;
    while i < |calls|
      invariant i <= |calls|
      invariant forall code :: Count(codes, code) == Count(codes0, code) + CallErrors(calls[..i], code)
    {
      forall code ensures CallErrors(calls[..i + 1], code)
                       == CallErrors(calls[..i], code) + (if ErrorOf(calls[i]) == Some(code) then 1 else 0)
      {
        SumBySnoc((c: Call) => if ErrorOf(c) == Some(code) then 1 else 0, calls[..i], calls[i]);
        assert calls[..i] + [calls[i]] == calls[..i + 1];
      }
      if ErrorOf(calls[i]).Some? {
        codes := Add(codes, ErrorOf(calls[i]).value, 1);
      }
      i := i + 1;
    }
    assert calls[..|calls|] == calls;
  }

  // ----- samples into a report -----

  function BuildSchedulerAggregate(schedulers: seq<Option<Snapshot>>): Option<SchedulerAggregate> {
    var xs := Present(schedulers);
    if xs == [] then None
    else Some(SchedulerAggregate(|xs|, MaxBy(Peak, xs), SumBy(Peak, xs) as real / |xs| as real,
                                 SumBy(Reductions, xs), SumBy(Increases, xs), SumBy(Waits, xs),
                                 MinBy(Budget, xs), MaxBy(Budget, xs)))
  }

  function CodeTotal(samples: seq<Codes>, code: string): nat {
    SumBy((codes: Codes) => Count(codes, code), samples)
  }

  /** Every code of every sample, with the sum of its counts. */
  ghost predicate Merges(merged: Codes, samples: seq<Codes>) {
    && (forall code :: Count(merged, code) == CodeTotal(samples, code))
    && (forall code :: code in merged <==> exists i | 0 <= i < |samples| :: code in samples[i])
  }

  lemma MergesMore(merged: Codes, samples: seq<Codes>, i: nat, merged': Codes)
    requires i < |samples| && Merges(merged, samples[..i])
    requires forall code :: Count(merged', code) == Count(merged, code) + Count(samples[i], code)
    requires forall code :: code in merged' <==> code in merged || code in samples[i]
    ensures Merges(merged', samples[..i + 1])
  {
    forall code ensures Count(merged', code) == CodeTotal(samples[..i + 1], code) {
      SumBySnoc((codes: Codes) => Count(codes, code), samples[..i], samples[i]);
      assert samples[..i] + [samples[i]] == samples[..i + 1];
    }
    var some, more := samples[..i], samples[..i + 1];
    forall code ensures code in merged' <==> exists k | 0 <= k < |more| :: code in more[k] {
      if code in merged {
        var k :| 0 <= k < |some| && code in some[k];
        assert more[k] == some[k];
      }
      if code in samples[i] {
        assert more[i] == samples[i];
      }
      if exists k | 0 <= k < |more| :: code in more[k] {
        var k :| 0 <= k < |more| && code in more[k];
        assert k < i ==> some[k] == more[k];
      }
    }
  }

  method MergeErrorCodes(samples: seq<Codes>) returns (merged: Codes)
    ensures Merges(merged, samples)
  {
    merged := map[];
    var i := 0;
    assert Merges(merged, samples[..0]);
    hide Merges, Count;
    while i < |samples|
      invariant i <= |samples|
      invariant Merges(merged, samples[..i])
    {
      var more := AddCodes(merged, samples[i]);
      MergesMore(merged, samples, i, more);
      merged := more;
      i := i + 1;
    }
    assert samples[..|samples|] == samples;
  }

  /** The loop over the entries of one sample, in key order. */
  method AddCodes(before: Codes, sample: Codes) returns (merged: Codes)
    ensures forall code :: Count(merged, code) == Count(before, code) + Count(sample, code)
    ensures forall code :: code in merged <==> code in before || code in sample
  {
    hide SortedKeys, Added, Count, Ascending, Add;
    merged := before;
    var keys := SortedKeys(sample.Keys);
    AddedNone(before, sample, keys);
    var j := 0;
    while j < |keys|
      invariant j <= |keys|
      invariant Added(merged, before, sample, keys[..j])
    {
      AddedMore(merged, before, sample, keys, j);
      merged := Add(merged, keys[j], sample[keys[j]]);
      j := j + 1;
    }
    AddedAll(merged, before, sample, keys);
  }

  /** The counts of these codes of a sample have been added. */
  ghost predicate Added(merged: Codes, before: Codes, sample: Codes, done: seq<string>) {
    && (forall code :: code in merged <==> code in before || code in done)
    && (forall code ::
          Count(merged, code) == Count(before, code) + (if code in done then Count(sample, code) else 0))
  }

  lemma AddedNone(before: Codes, sample: Codes, keys: seq<string>)
    ensures Added(before, before, sample, keys[..0])
  {}

  lemma AddedMore(merged: Codes, before: Codes, sample: Codes, keys: seq<string>, j: nat)
    requires keys == SortedKeys(sample.Keys) && j < |keys| && Added(merged, before, sample, keys[..j])
    ensures keys[j] in sample
    ensures Added(Add(merged, keys[j], sample[keys[j]]), before, sample, keys[..j + 1])
  {
    hide SortedKeys;
    var done, key := keys[..j], keys[j];
    assert key in keys;
    assert key !in done;
    hide Ascending;
    assert keys[..j + 1] == done + [key];
    assert forall code :: code in done + [key] <==> code in done || code == key;
  }

  lemma AddedAll(merged: Codes, before: Codes, sample: Codes, keys: seq<string>)
    requires keys == SortedKeys(sample.Keys) && Added(merged, before, sample, keys[..|keys|])
    ensures forall code :: Count(merged, code) == Count(before, code) + Count(sample, code)
    ensures forall code :: code in merged <==> code in before || code in sample
  {
    hide SortedKeys;
    assert keys[..|keys|] == keys;
  }

  // ----- two levels are one -----

  lemma {:induction false} MaxByConcat<T>(f: T -> nat, xs: seq<T>, ys: seq<T>)
    ensures MaxBy(f, xs + ys) == Max(MaxBy(f, xs), MaxBy(f, ys))
  {
    if xs == [] {
      assert xs + ys == ys;
    } else {
      MaxByConcat(f, xs[1..], ys);
      assert (xs + ys)[1..] == xs[1..] + ys;
    }
  }

  lemma {:induction false} MinByConcat<T>(f: T -> nat, xs: seq<T>, ys: seq<T>)
    requires xs != [] && ys != []
    ensures MinBy(f, xs + ys) == Min(MinBy(f, xs), MinBy(f, ys))
  {
    if |xs| == 1 {
      assert (xs + ys)[1..] == ys;
    } else {
      MinByConcat(f, xs[1..], ys);
      assert (xs + ys)[1..] == xs[1..] + ys;
    }
  }

  /** The sample of a run: nothing when no step has a scheduler, else its summary. */
  predicate SampleOf(sample: Option<Snapshot>, run: seq<Snapshot>) {
    (sample.None? <==> run == []) && (sample.Some? ==> Summarizes(sample.value, run))
  }

  predicate SamplesOf(samples: seq<Option<Snapshot>>, runs: seq<seq<Snapshot>>) {
    |samples| == |runs| && forall i | 0 <= i < |runs| :: SampleOf(samples[i], runs[i])
  }

  /** Merging per run and then over the runs is one pass over all steps. */
  lemma {:induction false} TwoLevelsAreOne(samples: seq<Option<Snapshot>>, runs: seq<seq<Snapshot>>)
    requires SamplesOf(samples, runs)
    ensures Present(samples) == [] <==> Flatten(runs) == []
    ensures MaxBy(Peak, Present(samples)) == MaxBy(Peak, Flatten(runs))
    ensures MinBy(Budget, Present(samples)) == MinBy(Budget, Flatten(runs))
    ensures SumBy(Reductions, Present(samples)) == SumBy(Reductions, Flatten(runs))
    ensures SumBy(Increases, Present(samples)) == SumBy(Increases, Flatten(runs))
    ensures SumBy(Waits, Present(samples)) == SumBy(Waits, Flatten(runs))
  {
    if samples != [] {
      TwoLevelsAreOne(samples[1..], runs[1..]);
      assert SampleOf(samples[0], runs[0]);
      var rest, steps := Present(samples[1..]), Flatten(runs[1..]);
      if samples[0].None? {
        assert Present(samples) == rest && Flatten(runs) == steps;
      } else {
        RunThenRest(samples[0].value, runs[0], rest, steps);
        assert Present(samples) == [samples[0].value] + rest;
      }
    }
  }

  lemma RunThenRest(s: Snapshot, run: seq<Snapshot>, rest: seq<Snapshot>, steps: seq<Snapshot>)
    requires run != [] && Summarizes(s, run) && (rest == [] <==> steps == [])
    requires MaxBy(Peak, rest) == MaxBy(Peak, steps) && MinBy(Budget, rest) == MinBy(Budget, steps)
    requires SumBy(Reductions, rest) == SumBy(Reductions, steps)
    requires SumBy(Increases, rest) == SumBy(Increases, steps) && SumBy(Waits, rest) == SumBy(Waits, steps)
    ensures MaxBy(Peak, [s] + rest) == MaxBy(Peak, run + steps)
    ensures MinBy(Budget, [s] + rest) == MinBy(Budget, run + steps)
    ensures SumBy(Reductions, [s] + rest) == SumBy(Reductions, run + steps)
    ensures SumBy(Increases, [s] + rest) == SumBy(Increases, run + steps)
    ensures SumBy(Waits, [s] + rest) == SumBy(Waits, run + steps)
  {
    assert ([s] + rest)[1..] == rest;
    MaxByConcat(Peak, run, steps);
    SumByConcat(Reductions, run, steps);
    SumByConcat(Increases, run, steps);
    SumByConcat(Waits, run, steps);
    if steps == [] {
      assert run + steps == run && [s] + rest == [s];
    } else {
      MinByConcat(Budget, run, steps);
    }
  }

  // ----- order does not matter -----

  lemma {:induction false} SplitAt<T>(xs: seq<T>, x: T) returns (front: seq<T>, back: seq<T>)
    requires x in xs
    ensures xs == front + [x] + back
    ensures multiset(front + back) == multiset(xs) - multiset{x}
  {
    var i :| 0 <= i < |xs| && xs[i] == x;
    front, back := xs[..i], xs[i + 1..];
    assert xs == front + [x] + back;
    assert multiset(xs) == multiset(front) + multiset{x} + multiset(back);
    assert multiset(front + back) == multiset(front) + multiset(back);
  }

  lemma {:induction false} SumByIgnoresOrder<T>(f: T -> nat, xs: seq<T>, ys: seq<T>)
    requires multiset(xs) == multiset(ys)
    ensures SumBy(f, xs) == SumBy(f, ys)
  {
    if xs == [] {
      assert |ys| == |multiset(ys)| == 0;
    } else {
      assert xs[0] in multiset(ys);
      var front, back := SplitAt(ys, xs[0]);
      assert xs == [xs[0]] + xs[1..];
      assert multiset(xs[1..]) == multiset(xs) - multiset{xs[0]};
      SumByIgnoresOrder(f, xs[1..], front + back);
      SumBySplit(f, front, xs[0], back);
    }
  }

  lemma SumBySplit<T>(f: T -> nat, front: seq<T>, x: T, back: seq<T>)
    ensures SumBy(f, front + [x] + back) == f(x) + SumBy(f, front + back)
  {
    SumByConcat(f, front, [x] + back);
    SumByConcat(f, front, back);
    assert ([x] + back)[1..] == back;
    assert front + [x] + back == front + ([x] + back);
  }

  lemma {:induction false} MaxByMeaning<T>(f: T -> nat, xs: seq<T>)
    ensures forall i | 0 <= i < |xs| :: f(xs[i]) <= MaxBy(f, xs)
    ensures xs != [] ==> exists i | 0 <= i < |xs| :: f(xs[i]) == MaxBy(f, xs)
  {
    if xs != [] {
      MaxByMeaning(f, xs[1..]);
      assert forall i | 1 <= i < |xs| :: xs[i] == xs[1..][i - 1];
      if f(xs[0]) < MaxBy(f, xs[1..]) {
        var i :| 0 <= i < |xs[1..]| && f(xs[1..][i]) == MaxBy(f, xs[1..]);
        assert f(xs[i + 1]) == MaxBy(f, xs);
      }
    }
  }

  lemma {:induction false} MinByMeaning<T>(f: T -> nat, xs: seq<T>)
    ensures forall i | 0 <= i < |xs| :: MinBy(f, xs) <= f(xs[i])
    ensures xs != [] ==> exists i | 0 <= i < |xs| :: f(xs[i]) == MinBy(f, xs)
  {
    if |xs| == 1 {
      assert f(xs[0]) == MinBy(f, xs);
    } else if |xs| > 1 {
      MinByMeaning(f, xs[1..]);
      assert forall i | 1 <= i < |xs| :: xs[i] == xs[1..][i - 1];
      if MinBy(f, xs[1..]) < f(xs[0]) {
        var i :| 0 <= i < |xs[1..]| && f(xs[1..][i]) == MinBy(f, xs[1..]);
        assert f(xs[i + 1]) == MinBy(f, xs);
      }
    }
  }

  lemma ExtremesIgnoreOrder<T>(f: T -> nat, xs: seq<T>, ys: seq<T>)
    requires multiset(xs) == multiset(ys)
    ensures MaxBy(f, xs) == MaxBy(f, ys) && MinBy(f, xs) == MinBy(f, ys)
  {
    MaxByMeaning(f, xs); MaxByMeaning(f, ys);
    MinByMeaning(f, xs); MinByMeaning(f, ys);
    assert |xs| == |multiset(xs)| == |multiset(ys)| == |ys|;
    assert forall i | 0 <= i < |xs| :: xs[i] in multiset(ys);
    assert forall i | 0 <= i < |ys| :: ys[i] in multiset(xs);
  }

  /** The report's scheduler figures depend only on which steps were observed, not on runs or order. */
  lemma AggregateIsOnePass(samples: seq<Option<Snapshot>>, runs: seq<seq<Snapshot>>, steps: seq<Snapshot>)
    requires SamplesOf(samples, runs)
    requires multiset(steps) == multiset(Flatten(runs))
    ensures var a := BuildSchedulerAggregate(samples);
            && (a.None? <==> steps == [])
            && (a.Some? ==>
                  && a.value.peakInFlightMax == MaxBy(Peak, steps)
                  && a.value.minFinalInFlightBudget == MinBy(Budget, steps)
                  && a.value.budgetReductionsTotal == SumBy(Reductions, steps)
                  && a.value.budgetIncreasesTotal == SumBy(Increases, steps)
                  && a.value.waitCyclesTotal == SumBy(Waits, steps))
  {
    TwoLevelsAreOne(samples, runs);
    var all := Flatten(runs);
    ExtremesIgnoreOrder(Peak, steps, all);
    ExtremesIgnoreOrder(Budget, steps, all);
    SumByIgnoresOrder(Reductions, steps, all);
    SumByIgnoresOrder(Increases, steps, all);
    SumByIgnoresOrder(Waits, steps, all);
    assert |steps| == |multiset(steps)| == |multiset(all)| == |all|;
  }
}
