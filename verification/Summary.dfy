/** From the samples of a scenario to its report and gate; what lower latencies do to the gate. */
module Summary {
  import opened Text
  import opened Ordered
  import S = Stats
  import G = Gate
  import A = Aggregation

  datatype Sample = Sample(
    latencyMs: real, passed: bool, blocked: bool, connectorCalls: nat, errorCodes: A.Codes,
    schemaFingerprint: Option<string>, scheduler: Option<A.Snapshot>,
    halfOpenTransitionMs: Option<real>, closedAfterRecovery: Option<bool>)

  datatype CircuitAggregate = CircuitAggregate(
    observedRuns: nat, halfOpenTransitionMs: S.NumericStats, closedAfterRecoveryRate: real)

  datatype Report = Report(
    iterations: nat, successRuns: nat, failedRuns: nat, blockedRuns: nat, blockedRate: real,
    connectorCallsTotal: nat, scheduler: Option<A.SchedulerAggregate>, circuit: Option<CircuitAggregate>,
    errorCodes: A.Codes,
    metrics: G.Metrics, gate: G.ScenarioGate)

  function Latencies(samples: seq<Sample>): seq<real> {
    seq(|samples|, i requires 0 <= i < |samples| => samples[i].latencyMs)
  }

  function Transitions(samples: seq<Sample>): seq<real> {
    A.Present(seq(|samples|, i requires 0 <= i < |samples| => samples[i].halfOpenTransitionMs))
  }

  function Schedulers(samples: seq<Sample>): seq<Option<A.Snapshot>> {
    seq(|samples|, i requires 0 <= i < |samples| => samples[i].scheduler)
  }

  function Fingerprints(samples: seq<Sample>): seq<string> {
    A.Present(seq(|samples|, i requires 0 <= i < |samples| => samples[i].schemaFingerprint))
  }

  function ErrorCodes(samples: seq<Sample>): seq<A.Codes> {
    seq(|samples|, i requires 0 <= i < |samples| => samples[i].errorCodes)
  }

  /** The runs that tell whether the circuit closed, and what they tell. */
  function Closings(samples: seq<Sample>): seq<bool> {
    A.Present(seq(|samples|, i requires 0 <= i < |samples| => samples[i].closedAfterRecovery))
  }

  function CountTrue(values: seq<bool>): nat {
    A.SumBy((b: bool) => if b then 1 else 0, values)
  }

  function BuildCircuitAggregate(samples: seq<Sample>): Option<CircuitAggregate> {
    var transitions, closings := Transitions(samples), Closings(samples);
    if transitions == [] then None
    else Some(CircuitAggregate(|transitions|, S.ComputeNumericStats(transitions),
                               if closings == [] then 0.0 else CountTrue(closings) as real / |closings| as real))
  }

  lemma {:induction false} CountTrueMeaning(values: seq<bool>)
    ensures CountTrue(values) <= |values|
    ensures CountTrue(values) == |values| <==> forall i | 0 <= i < |values| :: values[i]
  {
    if values != [] {
      CountTrueMeaning(values[1..]);
      assert forall i | 0 < i < |values| :: values[i] == values[1..][i - 1];
    }
  }

  /** The closed rate is a share: one exactly when every run that tells says the circuit closed. */
  lemma ClosedRateIsShare(samples: seq<Sample>)
    requires BuildCircuitAggregate(samples).Some?
    ensures var rate := BuildCircuitAggregate(samples).value.closedAfterRecoveryRate;
            && 0.0 <= rate <= 1.0
            && (rate == 1.0 <==>
                  Closings(samples) != [] && forall i | 0 <= i < |Closings(samples)| :: Closings(samples)[i])
  {
    hide S.ComputeNumericStats, CountTrue, Closings, Transitions;
    CountTrueMeaning(Closings(samples));
    if Closings(samples) != [] {
      ShareBounds(CountTrue(Closings(samples)), |Closings(samples)|);
    }
  }

  lemma ShareBounds(part: nat, whole: nat)
    requires part <= whole && whole > 0
    ensures 0.0 <= part as real / whole as real <= 1.0
    ensures part as real / whole as real == 1.0 <==> part == whole
  {}

  function CountPassed(samples: seq<Sample>): nat {
    A.SumBy((s: Sample) => if s.passed then 1 else 0, samples)
  }

  function CountBlocked(samples: seq<Sample>): nat {
    A.SumBy((s: Sample) => if s.blocked then 1 else 0, samples)
  }

  function TotalCalls(samples: seq<Sample>): nat {
    A.SumBy((s: Sample) => s.connectorCalls, samples)
  }

  function Throughput(calls: nat, totalLatencyMs: real): real {
    if totalLatencyMs > 0.0 then calls as real / (totalLatencyMs / 1000.0) else 0.0
  }

  function CircuitOpenRatio(openErrors: nat, calls: nat): real {
    if calls > 0 then openErrors as real / calls as real else 0.0
  }

  // ----- one fingerprint for all samples -----

  function WithUnit(xs: seq<string>): seq<Keyed<()>> {
    seq(|xs|, i requires 0 <= i < |xs| => (xs[i], ()))
  }

  function JoinKeys(xs: seq<Keyed<()>>): string {
    if xs == [] then "" else if |xs| == 1 then xs[0].0 else xs[0].0 + "|" + JoinKeys(xs[1..])
  }

  function AggregateFingerprint(hash: string -> string, fingerprints: seq<string>): Option<string> {
    var unique := Dedup(Sort(WithUnit(fingerprints)));
    if |unique| == 0 then None
    else if |unique| == 1 then Some(unique[0].0)
    else Some("multi:" + hash(JoinKeys(unique)))
  }

  lemma UnitKeysDetermine(xs: seq<string>)
    ensures KeyDetermines(WithUnit(xs))
  {}

  /** Only which fingerprints occurred matters; a lone one is reported as it is. */
  lemma AggregateFingerprintIsSet(hash: string -> string, xs: seq<string>, ys: seq<string>)
    requires SameElements(xs, ys)
    ensures AggregateFingerprint(hash, xs) == AggregateFingerprint(hash, ys)
    ensures AggregateFingerprint(hash, xs).None? <==> xs == []
    ensures forall f | xs != [] && forall i | 0 <= i < |xs| :: xs[i] == f :: AggregateFingerprint(hash, xs) == Some(f)
  {
    var a, b := WithUnit(xs), WithUnit(ys);
    UnitKeysDetermine(xs);
    UnitKeysDetermine(ys);
    forall i | 0 <= i < |a| ensures a[i] in b { var j :| 0 <= j < |ys| && ys[j] == xs[i]; assert b[j] == a[i]; }
    forall i | 0 <= i < |b| ensures b[i] in a { var j :| 0 <= j < |xs| && xs[j] == ys[i]; assert a[j] == b[i]; }
    CanonicalForm(a, b);
    CanonicalElements(a);
    LoneFingerprint(hash, xs);
  }

  lemma KeysDiffer(xs: seq<Keyed<()>>)
    requires StrictlySorted(xs)
    ensures |xs| > 1 ==> xs[0].0 != xs[1].0
  {}

  lemma LoneFingerprint(hash: string -> string, xs: seq<string>)
    ensures AggregateFingerprint(hash, xs).None? <==> xs == []
    ensures forall f | xs != [] && forall i | 0 <= i < |xs| :: xs[i] == f :: AggregateFingerprint(hash, xs) == Some(f)
  {
    var a := WithUnit(xs);
    UnitKeysDetermine(xs);
    CanonicalElements(a);
    var unique := Dedup(Sort(a));
    if a != [] {
      assert a[0] in unique;
    }
    KeysDiffer(unique);
    forall f | xs != [] && forall i | 0 <= i < |xs| :: xs[i] == f ensures AggregateFingerprint(hash, xs) == Some(f) {
      forall i | 0 <= i < |unique| ensures unique[i].0 == f {
        var j :| 0 <= j < |a| && a[j] == unique[i];
      }
    }
  }

  /** Several fingerprints are reported by a hash of the distinct ones in order. */
  lemma SeveralFingerprints(hash: string -> string, xs: seq<string>, i: nat, j: nat)
    requires i < |xs| && j < |xs| && xs[i] != xs[j]
    ensures AggregateFingerprint(hash, xs) == Some("multi:" + hash(Bars(SortedKeys(set x | x in xs))))
  {
    hide Dedup, Sort, SortedKeys, StrictlySorted, KeyDetermines;
    var a := WithUnit(xs);
    UnitKeysDetermine(xs);
    CanonicalElements(a);
    CanonicalKeys(a);
    UnitKeySet(xs);
    var unique := Dedup(Sort(a));
    TwoOf(a, unique, i, j);
    JoinedKeys(unique, KeysOf(unique));
  }

  lemma UnitKeySet(xs: seq<string>)
    ensures (set k | 0 <= k < |WithUnit(xs)| :: WithUnit(xs)[k].0) == set x | x in xs
  {
    var a := WithUnit(xs);
    var keys := set k | 0 <= k < |a| :: a[k].0;
    forall x | x in xs ensures x in keys {
      var k :| 0 <= k < |xs| && xs[k] == x;
      assert a[k].0 == x;
    }
  }

  lemma TwoOf(a: seq<Keyed<()>>, unique: seq<Keyed<()>>, i: nat, j: nat)
    requires i < |a| && j < |a| && a[i] != a[j] && SameElements(unique, a)
    ensures |unique| > 1
  {
    assert a[i] in unique && a[j] in unique;
  }

  function Bars(keys: seq<string>): string {
    if keys == [] then "" else if |keys| == 1 then keys[0] else keys[0] + "|" + Bars(keys[1..])
  }

  lemma {:induction false} JoinedKeys(xs: seq<Keyed<()>>, keys: seq<string>)
    requires |xs| == |keys| && forall i | 0 <= i < |xs| :: xs[i].0 == keys[i]
    ensures JoinKeys(xs) == Bars(keys)
  {
    if |xs| > 1 {
      JoinedKeys(xs[1..], keys[1..]);
    }
  }

  // ----- the report -----

  function MetricsOf(hash: string -> string, kind: string, iterations: nat, samples: seq<Sample>): G.Metrics
    requires iterations > 0
  {
    var calls := TotalCalls(samples);
    var scheduler := A.BuildSchedulerAggregate(Schedulers(samples));
    var transitions := Transitions(samples);
    G.Metrics(
      kind,
      SaturatingSub(iterations, CountPassed(samples)) as real / iterations as real,
      S.ComputeNumericStats(Latencies(samples)),
      Throughput(calls, S.Sum(Latencies(samples))),
      if scheduler.Some? then Some(scheduler.value.peakInFlightMax) else None,
      CircuitOpenRatio(A.CodeTotal(ErrorCodes(samples), "circuit_open"), calls),
      if transitions == [] then None else Some(S.ComputeNumericStats(transitions)),
      AggregateFingerprint(hash, Fingerprints(samples)))
  }

  /** What each metric measures, by the equation that defines it. */
  ghost predicate Measures(m: G.Metrics, kind: string, iterations: nat, samples: seq<Sample>, failedRuns: nat,
                           errorCodes: A.Codes)
  {
    var calls, time := TotalCalls(samples), S.Sum(Latencies(samples));
    && m.scenarioKind == kind
    && m.errorRate * iterations as real == failedRuns as real
    && (|samples| == iterations ==> (m.errorRate == 0.0 <==> forall i | 0 <= i < |samples| :: samples[i].passed))
    && m.latencyMs == S.ComputeNumericStats(Latencies(samples))
    && (if time > 0.0 then m.throughputRps * time == 1000.0 * calls as real else m.throughputRps == 0.0)
    && (if calls > 0 then m.circuitOpenErrorRatio * calls as real == A.Count(errorCodes, "circuit_open") as real
        else m.circuitOpenErrorRatio == 0.0)
    && (m.peakInFlightMax.Some? <==> A.Present(Schedulers(samples)) != [])
    && (m.peakInFlightMax.Some? ==> m.peakInFlightMax.value == A.MaxBy(A.Peak, A.Present(Schedulers(samples))))
    && (m.halfOpenTransitionMs.Some? <==> Transitions(samples) != [])
    && (m.halfOpenTransitionMs.Some? ==> m.halfOpenTransitionMs.value == S.ComputeNumericStats(Transitions(samples)))
  }

  lemma {:induction false} CountPassedMeaning(samples: seq<Sample>)
    ensures CountPassed(samples) <= |samples|
    ensures CountPassed(samples) == |samples| <==> forall i | 0 <= i < |samples| :: samples[i].passed
  {
    if samples != [] {
      CountPassedMeaning(samples[1..]);
      assert forall i | 0 < i < |samples| :: samples[i] == samples[1..][i - 1];
    }
  }

  lemma {:induction false} CountBlockedMeaning(samples: seq<Sample>)
    ensures CountBlocked(samples) <= |samples|
    ensures CountBlocked(samples) == |samples| <==> forall i | 0 <= i < |samples| :: samples[i].blocked
    ensures CountBlocked(samples) == 0 <==> forall i | 0 <= i < |samples| :: !samples[i].blocked
  {
    if samples != [] {
      CountBlockedMeaning(samples[1..]);
      assert forall i | 0 < i < |samples| :: samples[i] == samples[1..][i - 1];
    }
  }

  lemma RateMeaning(part: nat, whole: nat)
    requires whole > 0
    ensures part as real / whole as real * whole as real == part as real
    ensures part as real / whole as real == 0.0 <==> part == 0
  {}

  lemma ThroughputMeaning(calls: nat, time: real)
    ensures if time > 0.0 then Throughput(calls, time) * time == 1000.0 * calls as real
            else Throughput(calls, time) == 0.0
  {
    if time > 0.0 {
      var seconds := time / 1000.0;
      S.QuotientTimes(calls as real, seconds);
      assert time == seconds * 1000.0;
    }
  }

  lemma MetricsMeasure(hash: string -> string, kind: string, iterations: nat, samples: seq<Sample>, errorCodes: A.Codes)
    requires iterations > 0 && A.Merges(errorCodes, ErrorCodes(samples))
    ensures var m := MetricsOf(hash, kind, iterations, samples);
            Measures(m, kind, iterations, samples, SaturatingSub(iterations, CountPassed(samples)), errorCodes)
  {
    hide S.ComputeNumericStats, S.Sum, AggregateFingerprint, A.SumBy, A.Present, A.MaxBy, Throughput, CountPassed;
    hide TotalCalls, A.CodeTotal, Latencies, Transitions, Schedulers, A.Merges;
    CountPassedMeaning(samples);
    RateMeaning(SaturatingSub(iterations, CountPassed(samples)), iterations);
    ThroughputMeaning(TotalCalls(samples), S.Sum(Latencies(samples)));
    CodeCounted(errorCodes, ErrorCodes(samples), "circuit_open");
    if TotalCalls(samples) > 0 {
      RateMeaning(A.Count(errorCodes, "circuit_open"), TotalCalls(samples));
    }
  }

  lemma CodeCounted(merged: A.Codes, samples: seq<A.Codes>, code: string)
    requires A.Merges(merged, samples)
    ensures A.Count(merged, code) == A.CodeTotal(samples, code)
  {}

  method SummarizeScenario(hash: string -> string, kind: string, iterations: nat, samples: seq<Sample>,
                           thresholds: Option<G.Thresholds>, enforce: bool)
    returns (report: Report)
    requires iterations > 0
    ensures report.metrics == MetricsOf(hash, kind, iterations, samples)
    ensures Measures(report.metrics, kind, iterations, samples, report.failedRuns, report.errorCodes)
    ensures report.metrics.schemaFingerprint == AggregateFingerprint(hash, Fingerprints(samples))
    ensures report.gate == G.GateOf(report.metrics, thresholds, enforce)
    ensures A.Merges(report.errorCodes, ErrorCodes(samples))
    ensures report.successRuns == CountPassed(samples) && report.blockedRuns == CountBlocked(samples)
    ensures report.successRuns + report.failedRuns == Max(iterations, CountPassed(samples))
    ensures report.iterations == iterations && report.blockedRate == report.blockedRuns as real / iterations as real
    ensures report.connectorCallsTotal == TotalCalls(samples)
    ensures report.scheduler == A.BuildSchedulerAggregate(Schedulers(samples))
    ensures report.circuit == BuildCircuitAggregate(samples)
  {
    hide S.ComputeNumericStats, S.Sum, A.BuildSchedulerAggregate, AggregateFingerprint, A.SumBy, A.Present, G.GateOf;
    hide BuildCircuitAggregate, Measures;
    var successRuns, failedRuns := CountPassed(samples), SaturatingSub(iterations, CountPassed(samples));
    var blockedRuns := CountBlocked(samples);
    var latencies := Latencies(samples);
    var calls := TotalCalls(samples);
    var errorCodes := A.MergeErrorCodes(ErrorCodes(samples));
    var circuitOpenErrors := A.Count(errorCodes, "circuit_open");
    var scheduler := A.BuildSchedulerAggregate(Schedulers(samples));
    var transitions := Transitions(samples);
    var metrics := G.Metrics(
      kind, failedRuns as real / iterations as real, S.ComputeNumericStats(latencies),
      Throughput(calls, S.Sum(latencies)),
      if scheduler.Some? then Some(scheduler.value.peakInFlightMax) else None,
      CircuitOpenRatio(circuitOpenErrors, calls),
      if transitions == [] then None else Some(S.ComputeNumericStats(transitions)),
      AggregateFingerprint(hash, Fingerprints(samples)));
    MetricsMeasure(hash, kind, iterations, samples, errorCodes);
    var gate := G.EvaluateScenarioGate(metrics, thresholds, enforce);
    report := Report(iterations, successRuns, failedRuns, blockedRuns, blockedRuns as real / iterations as real,
                     calls, scheduler, BuildCircuitAggregate(samples), errorCodes, metrics, gate);
  }

  // ----- lower latencies -----

  /** The same runs, none slower, none with a negative latency. */
  predicate Faster(fast: seq<Sample>, slow: seq<Sample>) {
    |fast| == |slow| && forall i | 0 <= i < |fast| ::
      fast[i] == slow[i].(latencyMs := fast[i].latencyMs) && 0.0 <= fast[i].latencyMs <= slow[i].latencyMs
  }

  lemma {:induction false} SumByAgrees<T>(f: T -> nat, xs: seq<T>, ys: seq<T>)
    requires |xs| == |ys| && forall i | 0 <= i < |xs| :: f(xs[i]) == f(ys[i])
    ensures A.SumBy(f, xs) == A.SumBy(f, ys)
  {
    if xs != [] {
      SumByAgrees(f, xs[1..], ys[1..]);
    }
  }

  /** Nothing but latency statistics and throughput changes, and those only for the better. */
  predicate Improves(fast: G.Metrics, slow: G.Metrics) {
    && fast == slow.(latencyMs := fast.latencyMs, throughputRps := fast.throughputRps)
    && S.OptionBelow(fast.latencyMs.p95, slow.latencyMs.p95)
    && S.OptionBelow(fast.latencyMs.p99, slow.latencyMs.p99)
  }

  lemma FasterMetrics(hash: string -> string, kind: string, iterations: nat, fast: seq<Sample>, slow: seq<Sample>)
    requires iterations > 0 && Faster(fast, slow)
    ensures Improves(MetricsOf(hash, kind, iterations, fast), MetricsOf(hash, kind, iterations, slow))
    ensures TotalCalls(fast) == TotalCalls(slow)
    ensures 0.0 <= S.Sum(Latencies(fast)) <= S.Sum(Latencies(slow))
  {
    assert Schedulers(fast) == Schedulers(slow);
    assert ErrorCodes(fast) == ErrorCodes(slow);
    assert seq(|fast|, i requires 0 <= i < |fast| => fast[i].halfOpenTransitionMs)
        == seq(|slow|, i requires 0 <= i < |slow| => slow[i].halfOpenTransitionMs);
    assert seq(|fast|, i requires 0 <= i < |fast| => fast[i].schemaFingerprint)
        == seq(|slow|, i requires 0 <= i < |slow| => slow[i].schemaFingerprint);
    SumByAgrees((s: Sample) => if s.passed then 1 else 0, fast, slow);
    SumByAgrees((s: Sample) => s.connectorCalls, fast, slow);
    assert S.Below(Latencies(fast), Latencies(slow));
    S.StatsBelow(Latencies(fast), Latencies(slow));
    S.SumBelow(Latencies(fast), Latencies(slow));
    SumNonNegative(Latencies(fast));
  }

  lemma {:induction false} SumNonNegative(s: seq<real>)
    requires forall i | 0 <= i < |s| :: 0.0 <= s[i]
    ensures 0.0 <= S.Sum(s)
  {
    if s != [] {
      SumNonNegative(s[1..]);
    }
  }

  lemma ThroughputRises(calls: nat, fast: real, slow: real)
    requires 0.0 < fast <= slow
    ensures Throughput(calls, fast) >= Throughput(calls, slow)
  {
    QuotientRises(calls as real, fast / 1000.0, slow / 1000.0);
  }

  lemma QuotientRises(c: real, x: real, y: real)
    requires 0.0 <= c && 0.0 < x <= y
    ensures c / x >= c / y
  {
    var q := c / y;
    assert q * y == c && q >= 0.0;
    S.ProductNonNegative(q, y - x);
    assert q * x <= c;
  }

  lemma MaxVerdictImproves(metric: string, a: Option<real>, b: Option<real>, threshold: Option<real>, ratio: real,
                           additive: real, enforce: bool)
    requires S.OptionBelow(a, b)
    ensures G.AllPassed(G.MaxVerdict(metric, b, threshold, ratio, additive, enforce).checks) ==>
            G.AllPassed(G.MaxVerdict(metric, a, threshold, ratio, additive, enforce).checks)
  {
    var before := G.MaxVerdict(metric, b, threshold, ratio, additive, enforce).checks;
    if before != [] && G.AllPassed(before) {
      assert before[0].passed;
    }
  }

  /** The throughput check by itself. */
  predicate ThroughputPasses(t: G.Thresholds, throughput: real) {
    t.minThroughputRps.Some? ==>
      throughput >= G.Scaled(t.minThroughputRps.value, 1.0 - G.Normalized(t.tolerance).minRatio)
  }

  lemma ThroughputVerdict(t: G.Thresholds, throughput: real, enforce: bool)
    ensures G.AllPassed(G.MinVerdict("throughput_rps", Some(throughput), t.minThroughputRps,
                                     G.Normalized(t.tolerance).minRatio, enforce).checks)
       <==> ThroughputPasses(t, throughput)
  {
    if t.minThroughputRps.Some? {
      G.SingleCheck(G.MinCheck("throughput_rps", throughput, t.minThroughputRps.value,
                               G.Normalized(t.tolerance).minRatio));
    }
  }

  /** With better latencies and all else equal, only the throughput check can turn. */
  lemma OnlyThroughputDecides(fast: G.Metrics, slow: G.Metrics, t: G.Thresholds, enforce: bool)
    requires Improves(fast, slow)
    requires G.GateOf(slow, Some(t), enforce).passed
    ensures ThroughputPasses(t, slow.throughputRps)
    ensures G.GateOf(fast, Some(t), enforce).passed <==> ThroughputPasses(t, fast.throughputRps)
  {
    var s := G.Normalized(t.tolerance);
    ThroughputVerdict(t, fast.throughputRps, enforce);
    ThroughputVerdict(t, slow.throughputRps, enforce);
    var a, b := G.Verdicts(slow, t, enforce), G.Verdicts(fast, t, enforce);
    G.AllPassedIsEachPassed(a);
    G.AllPassedIsEachPassed(b);
    hide G.MaxVerdict, G.MinVerdict, G.FingerprintVerdict, G.Normalized, ThroughputPasses;
    MaxVerdictImproves("latency_ms.p95", fast.latencyMs.p95, slow.latencyMs.p95, t.maxP95LatencyMs,
                       s.maxRatio, s.latencyMs, enforce);
    MaxVerdictImproves("latency_ms.p99", fast.latencyMs.p99, slow.latencyMs.p99, t.maxP99LatencyMs,
                       s.maxRatio, s.latencyMs, enforce);
    assert |a| == 8 && |b| == 8;
    assert G.AllPassed(a[0].checks) && G.AllPassed(a[1].checks) && G.AllPassed(a[2].checks) &&
           G.AllPassed(a[3].checks) && G.AllPassed(a[4].checks) && G.AllPassed(a[5].checks) &&
           G.AllPassed(a[6].checks) && G.AllPassed(a[7].checks);
    assert a[0] == b[0] && a[4] == b[4] && a[5] == b[5] && a[6] == b[6] && a[7] == b[7];
    assert (forall i | 0 <= i < |b| :: G.AllPassed(b[i].checks)) <==> G.AllPassed(b[3].checks);
  }

  /**
   Lowering latencies never fails a gate that passed, as long as the total stays positive. When
   every latency drops to zero the throughput is taken to be zero, and the gate passes exactly
   when its throughput bound, if it has one, is not above zero.
   */
  lemma FasterStillPasses(hash: string -> string, kind: string, iterations: nat, fast: seq<Sample>,
                          slow: seq<Sample>, t: G.Thresholds, enforce: bool)
    requires iterations > 0 && Faster(fast, slow)
    requires G.GateOf(MetricsOf(hash, kind, iterations, slow), Some(t), enforce).passed
    ensures G.GateOf(MetricsOf(hash, kind, iterations, fast), Some(t), enforce).passed <==>
            S.Sum(Latencies(fast)) > 0.0 || ThroughputPasses(t, 0.0)
  {
    FasterMetrics(hash, kind, iterations, fast, slow);
    var f, s := MetricsOf(hash, kind, iterations, fast), MetricsOf(hash, kind, iterations, slow);
    OnlyThroughputDecides(f, s, t, enforce);
    if S.Sum(Latencies(fast)) > 0.0 {
      ThroughputRises(TotalCalls(fast), S.Sum(Latencies(fast)), S.Sum(Latencies(slow)));
    }
  }

  lemma OneSample(sample: Sample)
    ensures TotalCalls([sample]) == sample.connectorCalls && S.Sum(Latencies([sample])) == sample.latencyMs
  {
    A.SumBySnoc((s: Sample) => s.connectorCalls, [], sample);
    assert [] + [sample] == [sample];
    assert Latencies([sample]) == [sample.latencyMs];
    assert S.Sum([sample.latencyMs]) == sample.latencyMs + S.Sum([]);
  }

  lemma ThroughputOf(hash: string -> string, kind: string, iterations: nat, samples: seq<Sample>)
    requires iterations > 0
    ensures var m := MetricsOf(hash, kind, iterations, samples);
            m.scenarioKind == kind && m.throughputRps == Throughput(TotalCalls(samples), S.Sum(Latencies(samples)))
  {}

  lemma OnlyThroughputIsBounded(m: G.Metrics, t: G.Thresholds)
    requires m.scenarioKind != "spec_run" && ThroughputPasses(t, m.throughputRps)
    requires t.maxErrorRate.None? && t.maxP95LatencyMs.None? && t.maxP99LatencyMs.None? && t.minPeakInFlight.None?
    requires t.maxCircuitOpenErrorRatio.None? && t.maxHalfOpenP95Ms.None?
    ensures G.GateOf(m, Some(t), true).passed
  {
    ThroughputVerdict(t, m.throughputRps, true);
    G.AllPassedIsEachPassed(G.Verdicts(m, t, true));
  }

  /** One run of one call in a millisecond passes a bound of one call a second; in no time it fails. */
  lemma NoTimeAtAllFails(hash: string -> string) returns (fast: seq<Sample>, slow: seq<Sample>, t: G.Thresholds)
    ensures Faster(fast, slow)
    ensures G.GateOf(MetricsOf(hash, "circuit_half_open", 1, slow), Some(t), true).passed
    ensures !G.GateOf(MetricsOf(hash, "circuit_half_open", 1, fast), Some(t), true).passed
  {
    var sample := Sample(1.0, true, false, 1, map[], None, None, None, None);
    slow, fast := [sample], [sample.(latencyMs := 0.0)];
    assert Faster(fast, slow);
    t := G.Thresholds(None, None, None, Some(1.0), None, None, None, None,
                      G.Tolerance(G.Finite(0.0), G.Finite(0.0), G.Finite(0.0)));
    assert ThroughputPasses(t, 1000.0) && !ThroughputPasses(t, 0.0);
    assert Throughput(1, 1.0) == 1000.0;
    hide Faster, ThroughputPasses, Throughput, MetricsOf, G.GateOf;
    OneSample(slow[0]);
    OneSample(fast[0]);
    ThroughputOf(hash, "circuit_half_open", 1, slow);
    assert "circuit_half_open"[0] != "spec_run"[0];
    OnlyThroughputIsBounded(MetricsOf(hash, "circuit_half_open", 1, slow), t);
    FasterStillPasses(hash, "circuit_half_open", 1, fast, slow, t, true);
  }
}
