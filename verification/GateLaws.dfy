/** What a gate's verdict means in the numbers of the report and the baseline, and what its checks say. */
module GateLaws {
  import opened Text
  import opened Stats
  import opened Gate

  // ----- passing, with the tolerances written out -----

  /** The share a configured number stands for: none if it is negative or not finite, at most all. */
  function Part(share: Number): real {
    if share.NonFinite? || share.value < 0.0 then 0.0 else if share.value > 1.0 then 1.0 else share.value
  }

  /** At most the threshold raised by its share, plus any extra that is not negative. */
  predicate AtMostTolerated(observed: Option<real>, threshold: Option<real>, share: Number, extra: Number,
                            enforce: bool)
  {
    threshold.Some? ==>
      if observed.None? then !enforce
      else
        var more := if extra.NonFinite? || extra.value < 0.0 then 0.0 else extra.value;
        observed.value <= threshold.value * (1.0 + Part(share)) + more
  }

  /** At least the threshold lowered by its share. */
  predicate AtLeastTolerated(observed: Option<real>, threshold: Option<real>, share: Number, enforce: bool) {
    threshold.Some? ==>
      if observed.None? then !enforce else observed.value >= threshold.value * (1.0 - Part(share))
  }

  lemma WithinMaxWrittenOut(observed: Option<real>, threshold: Option<real>, share: Number, extra: Number,
                            enforce: bool)
    ensures WithinMax(observed, threshold, NormalizeRatio(share), NormalizeNonNegative(extra), enforce)
       <==> AtMostTolerated(observed, threshold, share, extra, enforce)
  {
    if threshold.Some? && observed.Some? {
      assert Scaled(threshold.value, 1.0 + NormalizeRatio(share))
          == threshold.value * (1.0 + NormalizeRatio(share));
    }
  }

  lemma WithinMinWrittenOut(observed: Option<real>, threshold: Option<real>, share: Number, enforce: bool)
    ensures WithinMin(observed, threshold, NormalizeRatio(share), enforce)
       <==> AtLeastTolerated(observed, threshold, share, enforce)
  {
    if threshold.Some? && observed.Some? {
      assert Scaled(threshold.value, 1.0 - NormalizeRatio(share))
          == threshold.value * (1.0 - NormalizeRatio(share));
    }
  }

  /**
   A gate with a baseline passes exactly when upper bounds hold with the upper tolerance, lower
   bounds with the lower one, times with the extra milliseconds as well, and the fingerprint agrees.
   */
  lemma PassesExactlyWhenTolerated(m: Metrics, t: Thresholds, enforce: bool)
    ensures GateOf(m, Some(t), enforce).passed <==>
              var up, down, ms, none := t.tolerance.maxRatio, t.tolerance.minRatio, t.tolerance.latencyMs, Finite(0.0);
              var peak := if m.peakInFlightMax.Some? then Some(m.peakInFlightMax.value as real) else None;
              var halfOpen := if m.halfOpenTransitionMs.Some? then m.halfOpenTransitionMs.value.p95 else None;
              && AtMostTolerated(Some(m.errorRate), t.maxErrorRate, up, none, enforce)
              && AtMostTolerated(m.latencyMs.p95, t.maxP95LatencyMs, up, ms, enforce)
              && AtMostTolerated(m.latencyMs.p99, t.maxP99LatencyMs, up, ms, enforce)
              && AtLeastTolerated(Some(m.throughputRps), t.minThroughputRps, down, enforce)
              && AtLeastTolerated(peak, t.minPeakInFlight, down, enforce)
              && AtMostTolerated(Some(m.circuitOpenErrorRatio), t.maxCircuitOpenErrorRatio, up, none, enforce)
              && AtMostTolerated(halfOpen, t.maxHalfOpenP95Ms, up, ms, enforce)
              && FingerprintAccepted(m.scenarioKind, m.schemaFingerprint, t.expectedSchemaFingerprint, enforce)
  {
    var up, down, ms, none := t.tolerance.maxRatio, t.tolerance.minRatio, t.tolerance.latencyMs, Finite(0.0);
    assert NormalizeNonNegative(none) == 0.0;
    PassesExactlyWithinThresholds(m, t, enforce);
    hide GateOf, WithinMax, WithinMin, AtMostTolerated, AtLeastTolerated, FingerprintAccepted;
    hide NormalizeRatio, NormalizeNonNegative;
    WithinMaxWrittenOut(Some(m.errorRate), t.maxErrorRate, up, none, enforce);
    WithinMaxWrittenOut(m.latencyMs.p95, t.maxP95LatencyMs, up, ms, enforce);
    WithinMaxWrittenOut(m.latencyMs.p99, t.maxP99LatencyMs, up, ms, enforce);
    WithinMinWrittenOut(Some(m.throughputRps), t.minThroughputRps, down, enforce);
    WithinMinWrittenOut(PeakInFlight(m), t.minPeakInFlight, down, enforce);
    WithinMaxWrittenOut(Some(m.circuitOpenErrorRatio), t.maxCircuitOpenErrorRatio, up, none, enforce);
    WithinMaxWrittenOut(HalfOpenP95(m), t.maxHalfOpenP95Ms, up, ms, enforce);
  }

  // ----- what the checks say -----

  /**
   A check's verdict is what its own comparator says of its own numbers. The one exception is a
   lower bound whose metric was never observed: it fails, though it reports an observation of zero.
   */
  predicate Honest(c: Check) {
    match c.comparator
    case "<=" => c.passed <==> c.observed.Value? && c.observed.value <= c.threshold
    case ">=" =>
      || (c.observed.Value? && (c.passed <==> c.observed.value >= c.threshold))
      || (c.observed == Value(0.0) && !c.passed && c.baselineThreshold == Some(c.threshold))
    case "==" => c.passed <==> c.observed == Value(c.threshold)
    case "required" => !c.passed
    case _ => false
  }

  predicate AllHonest(checks: seq<Check>) {
    forall i | 0 <= i < |checks| :: Honest(checks[i])
  }

  lemma MaxHonest(metric: string, observed: Option<real>, threshold: Option<real>, ratio: real, additive: real,
                  enforce: bool)
    ensures AllHonest(MaxVerdict(metric, observed, threshold, ratio, additive, enforce).checks)
  {
    hide Scaled;
  }

  lemma MinHonest(metric: string, observed: Option<real>, threshold: Option<real>, ratio: real, enforce: bool)
    ensures AllHonest(MinVerdict(metric, observed, threshold, ratio, enforce).checks)
  {
    hide Scaled;
  }

  lemma FingerprintHonest(kind: string, observed: Option<string>, expected: Option<string>, enforce: bool)
    ensures AllHonest(FingerprintVerdict(kind, observed, expected, enforce).checks)
  {}

  lemma VerdictsHonest(m: Metrics, t: Thresholds, enforce: bool)
    ensures forall i | 0 <= i < |Verdicts(m, t, enforce)| :: AllHonest(Verdicts(m, t, enforce)[i].checks)
  {
    hide MaxVerdict, MinVerdict, FingerprintVerdict, Normalized, AllHonest;
    var s := Normalized(t.tolerance);
    MaxHonest("error_rate", Some(m.errorRate), t.maxErrorRate, s.maxRatio, 0.0, enforce);
    MaxHonest("latency_ms.p95", m.latencyMs.p95, t.maxP95LatencyMs, s.maxRatio, s.latencyMs, enforce);
    MaxHonest("latency_ms.p99", m.latencyMs.p99, t.maxP99LatencyMs, s.maxRatio, s.latencyMs, enforce);
    MinHonest("throughput_rps", Some(m.throughputRps), t.minThroughputRps, s.minRatio, enforce);
    MinHonest("scheduler.peak_in_flight_max", PeakInFlight(m), t.minPeakInFlight, s.minRatio, enforce);
    MaxHonest("circuit_open_error_ratio", Some(m.circuitOpenErrorRatio), t.maxCircuitOpenErrorRatio,
              s.maxRatio, 0.0, enforce);
    MaxHonest("circuit.half_open_transition_ms.p95", HalfOpenP95(m), t.maxHalfOpenP95Ms, s.maxRatio, s.latencyMs,
              enforce);
    FingerprintHonest(m.scenarioKind, m.schemaFingerprint, t.expectedSchemaFingerprint, enforce);
  }

  lemma {:induction false} HonestTogether(vs: seq<Verdict>)
    requires forall i | 0 <= i < |vs| :: AllHonest(vs[i].checks)
    ensures AllHonest(AllChecks(vs))
  {
    hide Honest;
    if vs != [] {
      HonestTogether(vs[..|vs| - 1]);
    }
  }

  lemma ChecksAreHonest(m: Metrics, thresholds: Option<Thresholds>, enforce: bool)
    ensures AllHonest(GateOf(m, thresholds, enforce).checks)
  {
    if thresholds.Some? {
      VerdictsHonest(m, thresholds.value, enforce);
      HonestTogether(Verdicts(m, thresholds.value, enforce));
      hide AllHonest, Verdicts, AllChecks;
    }
  }

  // ----- which checks there are -----

  function Names(checks: seq<Check>): seq<string> {
    seq(|checks|, i requires 0 <= i < |checks| => checks[i].metric)
  }

  function NameIf(bounded: bool, observed: bool, enforce: bool, name: string): seq<string> {
    if bounded && (observed || enforce) then [name] else []
  }

  /** The metrics the baseline bounds, in the order they are checked. */
  function BoundedMetrics(m: Metrics, t: Thresholds, enforce: bool): seq<seq<string>> {
    [ NameIf(t.maxErrorRate.Some?, true, enforce, "error_rate"),
      NameIf(t.maxP95LatencyMs.Some?, m.latencyMs.p95.Some?, enforce, "latency_ms.p95"),
      NameIf(t.maxP99LatencyMs.Some?, m.latencyMs.p99.Some?, enforce, "latency_ms.p99"),
      NameIf(t.minThroughputRps.Some?, true, enforce, "throughput_rps"),
      NameIf(t.minPeakInFlight.Some?, m.peakInFlightMax.Some?, enforce, "scheduler.peak_in_flight_max"),
      NameIf(t.maxCircuitOpenErrorRatio.Some?, true, enforce, "circuit_open_error_ratio"),
      NameIf(t.maxHalfOpenP95Ms.Some?, HalfOpenP95(m).Some?, enforce, "circuit.half_open_transition_ms.p95"),
      if m.scenarioKind != "spec_run" then []
      else if t.expectedSchemaFingerprint.Some? then ["schema_fingerprint"]
      else if enforce then ["schema_fingerprint_baseline_presence"] else [] ]
  }

  lemma {:induction false} NamesTogether(vs: seq<Verdict>, names: seq<seq<string>>)
    requires |names| == |vs| && forall i | 0 <= i < |vs| :: Names(vs[i].checks) == names[i]
    ensures Names(AllChecks(vs)) == Flatten(names)
  {
    if vs != [] {
      var k := |vs| - 1;
      NamesTogether(vs[..k], names[..k]);
      NamesConcat(AllChecks(vs[..k]), vs[k].checks);
      FlattenMore(names[..k], names[k]);
      assert names == names[..k] + [names[k]];
    }
  }

  lemma FlattenMore(parts: seq<seq<string>>, part: seq<string>)
    ensures Flatten(parts + [part]) == Flatten(parts) + part
  {
    FlattenConcat(parts, [part]);
    assert Flatten([part]) == part + Flatten([]);
  }

  lemma MaxNames(metric: string, observed: Option<real>, threshold: Option<real>, ratio: real, additive: real,
                 enforce: bool)
    ensures Names(MaxVerdict(metric, observed, threshold, ratio, additive, enforce).checks)
         == NameIf(threshold.Some?, observed.Some?, enforce, metric)
  {}

  lemma MinNames(metric: string, observed: Option<real>, threshold: Option<real>, ratio: real, enforce: bool)
    ensures Names(MinVerdict(metric, observed, threshold, ratio, enforce).checks)
         == NameIf(threshold.Some?, observed.Some?, enforce, metric)
  {}

  lemma NamesConcat(a: seq<Check>, b: seq<Check>)
    ensures Names(a + b) == Names(a) + Names(b)
  {}

  /** One check for every metric the baseline bounds, in this order; an unobserved one only under enforcement. */
  lemma CheckedMetrics(m: Metrics, t: Thresholds, enforce: bool)
    ensures Names(GateOf(m, Some(t), enforce).checks) == Flatten(BoundedMetrics(m, t, enforce))
  {
    hide MaxVerdict, MinVerdict, FingerprintVerdict, Normalized, AllChecks, Names, NameIf, AllPassed, Flatten;
    var s := Normalized(t.tolerance);
    MaxNames("error_rate", Some(m.errorRate), t.maxErrorRate, s.maxRatio, 0.0, enforce);
    MaxNames("latency_ms.p95", m.latencyMs.p95, t.maxP95LatencyMs, s.maxRatio, s.latencyMs, enforce);
    MaxNames("latency_ms.p99", m.latencyMs.p99, t.maxP99LatencyMs, s.maxRatio, s.latencyMs, enforce);
    MinNames("throughput_rps", Some(m.throughputRps), t.minThroughputRps, s.minRatio, enforce);
    MinNames("scheduler.peak_in_flight_max", PeakInFlight(m), t.minPeakInFlight, s.minRatio, enforce);
    MaxNames("circuit_open_error_ratio", Some(m.circuitOpenErrorRatio), t.maxCircuitOpenErrorRatio,
             s.maxRatio, 0.0, enforce);
    MaxNames("circuit.half_open_transition_ms.p95", HalfOpenP95(m), t.maxHalfOpenP95Ms, s.maxRatio, s.latencyMs,
             enforce);
    FingerprintNames(m.scenarioKind, m.schemaFingerprint, t.expectedSchemaFingerprint, enforce);
    NamesTogether(Verdicts(m, t, enforce), BoundedMetrics(m, t, enforce));
  }

  lemma FingerprintNames(kind: string, observed: Option<string>, expected: Option<string>, enforce: bool)
    ensures Names(FingerprintVerdict(kind, observed, expected, enforce).checks)
         == if kind != "spec_run" then []
            else if expected.Some? then ["schema_fingerprint"]
            else if enforce then ["schema_fingerprint_baseline_presence"] else []
  {}
}
