/** The regression gate: which checks a report is held to, and which of them pass. */
module Gate {
  import opened Text
  import opened Stats

  /** A number as read from a file, which may not be one. */
  datatype Number = Finite(value: real) | NonFinite

  /** An observation; infinite stands for one that was never made. */
  datatype Observed = Value(value: real) | Infinite

  datatype Tolerance = Tolerance(maxRatio: Number, minRatio: Number, latencyMs: Number)
  datatype Slack = Slack(maxRatio: real, minRatio: real, latencyMs: real)

  datatype Thresholds = Thresholds(
    maxErrorRate: Option<real>, maxP95LatencyMs: Option<real>, maxP99LatencyMs: Option<real>,
    minThroughputRps: Option<real>, minPeakInFlight: Option<real>, maxCircuitOpenErrorRatio: Option<real>,
    maxHalfOpenP95Ms: Option<real>, expectedSchemaFingerprint: Option<string>, tolerance: Tolerance)

  /** The part of a scenario report the gate looks at. */
  datatype Metrics = Metrics(
    scenarioKind: string, errorRate: real, latencyMs: NumericStats, throughputRps: real,
    peakInFlightMax: Option<nat>, circuitOpenErrorRatio: real, halfOpenTransitionMs: Option<NumericStats>,
    schemaFingerprint: Option<string>)

  datatype Check = Check(metric: string, comparator: string, threshold: real, observed: Observed, passed: bool,
                         baselineThreshold: Option<real>, detail: Option<string>)

  datatype ScenarioGate = ScenarioGate(passed: bool, checks: seq<Check>, warnings: seq<string>)

  const MISSING_FINGERPRINT := "expected_schema_fingerprint missing for spec_run scenario in baseline"

  function NormalizeRatio(n: Number): real {
    if n.NonFinite? then 0.0 else Clamp(n.value, 0.0, 1.0)
  }

  function NormalizeNonNegative(n: Number): real {
    if n.NonFinite? || n.value < 0.0 then 0.0 else n.value
  }

  function Normalized(t: Tolerance): Slack {
    Slack(NormalizeRatio(t.maxRatio), NormalizeRatio(t.minRatio), NormalizeNonNegative(t.latencyMs))
  }

  function AllPassed(checks: seq<Check>): bool {
    forall i | 0 <= i < |checks| :: checks[i].passed
  }

  // ----- one metric -----

  function Scaled(threshold: real, factor: real): real {
    threshold * factor
  }

  function MaxCheck(metric: string, observed: real, threshold: real, ratio: real, additive: real): Check {
    var effective := Scaled(threshold, 1.0 + ratio) + additive;
    Check(metric, "<=", effective, Value(observed), observed <= effective, Some(threshold), None)
  }

  function MinCheck(metric: string, observed: real, threshold: real, ratio: real): Check {
    var effective := Scaled(threshold, 1.0 - ratio);
    Check(metric, ">=", effective, Value(observed), observed >= effective, Some(threshold), None)
  }

  /** The checks and warnings one metric contributes. */
  datatype Verdict = Verdict(checks: seq<Check>, warnings: seq<string>)

  function NotObserved(metric: string): string {
    "metric " + metric + " not observed in report"
  }

  function MaxVerdict(metric: string, observed: Option<real>, threshold: Option<real>, ratio: real, additive: real,
                      enforce: bool): Verdict
  {
    if threshold.None? then Verdict([], [])
    else if observed.Some? then Verdict([MaxCheck(metric, observed.value, threshold.value, ratio, additive)], [])
    else if enforce then
      Verdict([Check(metric, "<=", threshold.value, Infinite, false, threshold, None)], [])
    else Verdict([], [NotObserved(metric)])
  }

  function MinVerdict(metric: string, observed: Option<real>, threshold: Option<real>, ratio: real,
                      enforce: bool): Verdict
  {
    if threshold.None? then Verdict([], [])
    else if observed.Some? then Verdict([MinCheck(metric, observed.value, threshold.value, ratio)], [])
    else if enforce then
      Verdict([Check(metric, ">=", threshold.value, Value(0.0), false, threshold, None)], [])
    else Verdict([], [NotObserved(metric)])
  }

  function FingerprintVerdict(kind: string, observed: Option<string>, expected: Option<string>, enforce: bool): Verdict
  {
    if kind != "spec_run" then Verdict([], [])
    else if expected.Some? then
      if observed.Some? then
        var passed := observed.value == expected.value;
        Verdict([Check("schema_fingerprint", "==", 1.0, Value(if passed then 1.0 else 0.0), passed, Some(1.0),
                       Some("expected=" + expected.value + ", observed=" + observed.value))], [])
      else
        Verdict([Check("schema_fingerprint", "==", 1.0, Value(0.0), false, Some(1.0),
                       Some("expected=" + expected.value + ", observed=<missing>"))],
                ["schema fingerprint is unavailable for this scenario report"])
    else if enforce then
      Verdict([Check("schema_fingerprint_baseline_presence", "required", 1.0, Value(0.0), false, None,
                     Some(MISSING_FINGERPRINT))], [])
    else Verdict([], [MISSING_FINGERPRINT])
  }

  function PeakInFlight(m: Metrics): Option<real> {
    if m.peakInFlightMax.Some? then Some(m.peakInFlightMax.value as real) else None
  }

  function HalfOpenP95(m: Metrics): Option<real> {
    if m.halfOpenTransitionMs.Some? then m.halfOpenTransitionMs.value.p95 else None
  }

  /** One verdict per metric, in the order they are pushed. */
  function Verdicts(m: Metrics, t: Thresholds, enforce: bool): seq<Verdict> {
    var s := Normalized(t.tolerance);
    [ MaxVerdict("error_rate", Some(m.errorRate), t.maxErrorRate, s.maxRatio, 0.0, enforce),
      MaxVerdict("latency_ms.p95", m.latencyMs.p95, t.maxP95LatencyMs, s.maxRatio, s.latencyMs, enforce),
      MaxVerdict("latency_ms.p99", m.latencyMs.p99, t.maxP99LatencyMs, s.maxRatio, s.latencyMs, enforce),
      MinVerdict("throughput_rps", Some(m.throughputRps), t.minThroughputRps, s.minRatio, enforce),
      MinVerdict("scheduler.peak_in_flight_max", PeakInFlight(m), t.minPeakInFlight, s.minRatio, enforce),
      MaxVerdict("circuit_open_error_ratio", Some(m.circuitOpenErrorRatio), t.maxCircuitOpenErrorRatio, s.maxRatio,
                 0.0, enforce),
      MaxVerdict("circuit.half_open_transition_ms.p95", HalfOpenP95(m), t.maxHalfOpenP95Ms, s.maxRatio, s.latencyMs,
                 enforce),
      FingerprintVerdict(m.scenarioKind, m.schemaFingerprint, t.expectedSchemaFingerprint, enforce) ]
  }

  function AllChecks(vs: seq<Verdict>): seq<Check> {
    if vs == [] then [] else AllChecks(vs[..|vs| - 1]) + vs[|vs| - 1].checks
  }

  function AllWarnings(vs: seq<Verdict>): seq<string> {
    if vs == [] then [] else AllWarnings(vs[..|vs| - 1]) + vs[|vs| - 1].warnings
  }

  function GateOf(m: Metrics, thresholds: Option<Thresholds>, enforce: bool): ScenarioGate {
    if thresholds.None? then
      if enforce then
        ScenarioGate(false, [Check("baseline_presence", "required", 1.0, Value(0.0), false, None, None)], [])
      else ScenarioGate(true, [], ["baseline thresholds missing for this scenario"])
    else
      var vs := Verdicts(m, thresholds.value, enforce);
      ScenarioGate(AllPassed(AllChecks(vs)), AllChecks(vs), AllWarnings(vs))
  }

  // ----- the function of the source, pushing check by check -----

  method EvaluateScenarioGate(m: Metrics, thresholds: Option<Thresholds>, enforce: bool) returns (gate: ScenarioGate)
    ensures gate == GateOf(m, thresholds, enforce)
  {
    var checks: seq<Check> := [];
    var warnings: seq<string> := [];
    if thresholds.None? {
      if enforce {
        checks := checks + [Check("baseline_presence", "required", 1.0, Value(0.0), false, None, None)];
        assert !checks[0].passed;
      } else {
        warnings := warnings + ["baseline thresholds missing for this scenario"];
      }
      return ScenarioGate(AllPassed(checks), checks, warnings);
    }
    gate := EvaluateThresholds(m, thresholds.value, enforce);
  }

  /** The pushed checks and warnings are those of the verdicts reached so far. */
  ghost predicate Pushing(checks: seq<Check>, warnings: seq<string>, done: seq<Verdict>) {
    checks == AllChecks(done) && warnings == AllWarnings(done)
  }

  method EvaluateThresholds(m: Metrics, t: Thresholds, enforce: bool) returns (gate: ScenarioGate)
    ensures gate == GateOf(m, Some(t), enforce)
  {
    var checks: seq<Check> := [];
    var warnings: seq<string> := [];
    var slack := Normalized(t.tolerance);
    ghost var done: seq<Verdict> := [];
    assert Pushing(checks, warnings, done);
    hide MaxVerdict, MinVerdict, FingerprintVerdict, Normalized, Pushing, GateOf, AllPassed;
    checks, warnings, done := PushMax(checks, warnings, done, "error_rate", Some(m.errorRate), t.maxErrorRate,
                                      slack.maxRatio, 0.0, enforce);
    checks, warnings, done := PushMax(checks, warnings, done, "latency_ms.p95", m.latencyMs.p95, t.maxP95LatencyMs,
                                      slack.maxRatio, slack.latencyMs, enforce);
    checks, warnings, done := PushMax(checks, warnings, done, "latency_ms.p99", m.latencyMs.p99, t.maxP99LatencyMs,
                                      slack.maxRatio, slack.latencyMs, enforce);
    checks, warnings, done := PushMin(checks, warnings, done, "throughput_rps", Some(m.throughputRps),
                                      t.minThroughputRps, slack.minRatio, enforce);
    checks, warnings, done := PushMin(checks, warnings, done, "scheduler.peak_in_flight_max", PeakInFlight(m),
                                      t.minPeakInFlight, slack.minRatio, enforce);
    checks, warnings, done := PushMax(checks, warnings, done, "circuit_open_error_ratio",
                                      Some(m.circuitOpenErrorRatio), t.maxCircuitOpenErrorRatio,
                                      slack.maxRatio, 0.0, enforce);
    checks, warnings, done := PushMax(checks, warnings, done, "circuit.half_open_transition_ms.p95", HalfOpenP95(m),
                                      t.maxHalfOpenP95Ms, slack.maxRatio, slack.latencyMs, enforce);
    var last := FingerprintVerdict(m.scenarioKind, m.schemaFingerprint, t.expectedSchemaFingerprint, enforce);
    Pushed(checks, warnings, done, last);
    checks, warnings, done := checks + last.checks, warnings + last.warnings, done + [last];
    gate := ScenarioGate(AllPassed(checks), checks, warnings);
    AllPushed(m, t, enforce, checks, warnings, done);
  }

  method PushMax(checks0: seq<Check>, warnings0: seq<string>, ghost done0: seq<Verdict>, metric: string,
                 observed: Option<real>, threshold: Option<real>, ratio: real, additive: real, enforce: bool)
    returns (checks: seq<Check>, warnings: seq<string>, ghost done: seq<Verdict>)
    requires Pushing(checks0, warnings0, done0)
    ensures Pushing(checks, warnings, done)
    ensures var v := MaxVerdict(metric, observed, threshold, ratio, additive, enforce);
            checks == checks0 + v.checks && warnings == warnings0 + v.warnings && done == done0 + [v]
  {
    var v := MaxVerdict(metric, observed, threshold, ratio, additive, enforce);
    Pushed(checks0, warnings0, done0, v);
    checks, warnings, done := checks0, warnings0, done0 + [v];
    if threshold.Some? {
      match observed {
        case Some(value) =>
          checks := checks + [MaxCheck(metric, value, threshold.value, ratio, additive)];
        case None =>
          if enforce {
            checks := checks + [Check(metric, "<=", threshold.value, Infinite, false, threshold, None)];
          } else {
            warnings := warnings + [NotObserved(metric)];
          }
      }
    }
  }

  method PushMin(checks0: seq<Check>, warnings0: seq<string>, ghost done0: seq<Verdict>, metric: string,
                 observed: Option<real>, threshold: Option<real>, ratio: real, enforce: bool)
    returns (checks: seq<Check>, warnings: seq<string>, ghost done: seq<Verdict>)
    requires Pushing(checks0, warnings0, done0)
    ensures Pushing(checks, warnings, done)
    ensures var v := MinVerdict(metric, observed, threshold, ratio, enforce);
            checks == checks0 + v.checks && warnings == warnings0 + v.warnings && done == done0 + [v]
  {
    var v := MinVerdict(metric, observed, threshold, ratio, enforce);
    Pushed(checks0, warnings0, done0, v);
    checks, warnings, done := checks0, warnings0, done0 + [v];
    if threshold.Some? {
      match observed {
        case Some(value) =>
          checks := checks + [MinCheck(metric, value, threshold.value, ratio)];
        case None =>
          if enforce {
            checks := checks + [Check(metric, ">=", threshold.value, Value(0.0), false, threshold, None)];
          } else {
            warnings := warnings + [NotObserved(metric)];
          }
      }
    }
  }

  lemma Pushed(checks: seq<Check>, warnings: seq<string>, done: seq<Verdict>, v: Verdict)
    requires Pushing(checks, warnings, done)
    ensures Pushing(checks + v.checks, warnings + v.warnings, done + [v])
  {
    assert (done + [v])[..|done|] == done;
  }

  lemma AllPushed(m: Metrics, t: Thresholds, enforce: bool, checks: seq<Check>, warnings: seq<string>,
                  done: seq<Verdict>)
    requires Pushing(checks, warnings, done) && done == Verdicts(m, t, enforce)
    ensures ScenarioGate(AllPassed(checks), checks, warnings) == GateOf(m, Some(t), enforce)
  {}

  // ----- passing, verdict by verdict -----

  lemma {:induction false} AllPassedIsEachPassed(vs: seq<Verdict>)
    ensures AllPassed(AllChecks(vs)) <==> forall i | 0 <= i < |vs| :: AllPassed(vs[i].checks)
  {
    if vs != [] {
      var k := |vs| - 1;
      AllPassedIsEachPassed(vs[..k]);
      var a, b := AllChecks(vs[..k]), vs[k].checks;
      if AllPassed(a + b) {
        assert forall i | 0 <= i < |a| :: (a + b)[i] == a[i];
        assert forall i | 0 <= i < |b| :: (a + b)[|a| + i] == b[i];
      }
    }
  }

  lemma {:induction false} NoWarningsIsNoneEach(vs: seq<Verdict>)
    ensures AllWarnings(vs) == [] <==> forall i | 0 <= i < |vs| :: vs[i].warnings == []
  {
    if vs != [] {
      var k := |vs| - 1;
      NoWarningsIsNoneEach(vs[..k]);
      assert |AllWarnings(vs)| == |AllWarnings(vs[..k])| + |vs[k].warnings|;
      assert forall i | 0 <= i < k :: vs[i] == vs[..k][i];
    }
  }

  // ----- enforcing -----

  predicate Subsequence<T(==)>(a: seq<T>, b: seq<T>) {
    a == [] || (b != [] && ((a[0] == b[0] && Subsequence(a[1..], b[1..])) || Subsequence(a, b[1..])))
  }

  lemma {:induction false} SubsequenceRefl<T>(a: seq<T>)
    ensures Subsequence(a, a)
  {
    if a != [] {
      SubsequenceRefl(a[1..]);
    }
  }

  lemma {:induction false} SubsequenceConcat<T>(a: seq<T>, b: seq<T>, c: seq<T>, d: seq<T>)
    requires Subsequence(a, b) && Subsequence(c, d)
    ensures Subsequence(a + c, b + d)
    decreases |b|
  {
    if b == [] {
      assert a + c == c && b + d == d;
    } else {
      assert (b + d)[1..] == b[1..] + d;
      if a != [] && a[0] == b[0] && Subsequence(a[1..], b[1..]) {
        SubsequenceConcat(a[1..], b[1..], c, d);
        assert (a + c)[1..] == a[1..] + c;
      } else {
        SubsequenceConcat(a, b[1..], c, d);
      }
    }
  }

  /** Enforcement keeps a verdict's checks, or turns its warning into a failing check. */
  predicate Tightens(loose: Verdict, strict: Verdict) {
    || (strict.checks == loose.checks && strict.warnings == loose.warnings &&
        (loose.warnings == [] || !AllPassed(loose.checks)))
    || (loose.checks == [] && loose.warnings != [] && !AllPassed(strict.checks) && strict.warnings == [])
  }

  lemma SingleCheck(c: Check)
    ensures AllPassed([c]) <==> c.passed
  {
    assert [c][0] == c;
  }

  lemma MaxTightens(metric: string, observed: Option<real>, threshold: Option<real>, ratio: real, additive: real)
    ensures Tightens(MaxVerdict(metric, observed, threshold, ratio, additive, false),
                     MaxVerdict(metric, observed, threshold, ratio, additive, true))
  {
    if threshold.Some? {
      SingleCheck(Check(metric, "<=", threshold.value, Infinite, false, threshold, None));
    }
  }

  lemma MinTightens(metric: string, observed: Option<real>, threshold: Option<real>, ratio: real)
    ensures Tightens(MinVerdict(metric, observed, threshold, ratio, false),
                     MinVerdict(metric, observed, threshold, ratio, true))
  {
    if threshold.Some? {
      SingleCheck(Check(metric, ">=", threshold.value, Value(0.0), false, threshold, None));
    }
  }

  lemma FingerprintTightens(kind: string, observed: Option<string>, expected: Option<string>)
    ensures Tightens(FingerprintVerdict(kind, observed, expected, false),
                     FingerprintVerdict(kind, observed, expected, true))
  {
    var strict := FingerprintVerdict(kind, observed, expected, true).checks;
    if strict != [] {
      SingleCheck(strict[0]);
    }
  }

  lemma VerdictsTighten(m: Metrics, t: Thresholds)
    ensures var a, b := Verdicts(m, t, false), Verdicts(m, t, true);
            |a| == |b| && forall i | 0 <= i < |a| :: Tightens(a[i], b[i])
  {
    hide MaxVerdict, MinVerdict, FingerprintVerdict, Normalized, Tightens;
    var s := Normalized(t.tolerance);
    MaxTightens("error_rate", Some(m.errorRate), t.maxErrorRate, s.maxRatio, 0.0);
    MaxTightens("latency_ms.p95", m.latencyMs.p95, t.maxP95LatencyMs, s.maxRatio, s.latencyMs);
    MaxTightens("latency_ms.p99", m.latencyMs.p99, t.maxP99LatencyMs, s.maxRatio, s.latencyMs);
    MinTightens("throughput_rps", Some(m.throughputRps), t.minThroughputRps, s.minRatio);
    MinTightens("scheduler.peak_in_flight_max", PeakInFlight(m), t.minPeakInFlight, s.minRatio);
    MaxTightens("circuit_open_error_ratio", Some(m.circuitOpenErrorRatio), t.maxCircuitOpenErrorRatio,
                s.maxRatio, 0.0);
    MaxTightens("circuit.half_open_transition_ms.p95", HalfOpenP95(m), t.maxHalfOpenP95Ms, s.maxRatio, s.latencyMs);
    FingerprintTightens(m.scenarioKind, m.schemaFingerprint, t.expectedSchemaFingerprint);
  }

  lemma {:induction false} TighteningKeepsOrder(a: seq<Verdict>, b: seq<Verdict>)
    requires |a| == |b| && forall i | 0 <= i < |a| :: Tightens(a[i], b[i])
    ensures Subsequence(AllChecks(a), AllChecks(b))
  {
    if a != [] {
      var k := |a| - 1;
      TighteningKeepsOrder(a[..k], b[..k]);
      assert Tightens(a[k], b[k]);
      SubsequenceRefl(a[k].checks);
      SubsequenceConcat(AllChecks(a[..k]), AllChecks(b[..k]), a[k].checks, b[k].checks);
    }
  }

  /**
   Enforcing adds checks without disturbing the others, and what it adds is exactly a failure
   for every warning: an enforced gate passes exactly when the unenforced one passes silently.
   */
  lemma EnforcingFailsTheWarnings(m: Metrics, thresholds: Option<Thresholds>)
    ensures var loose, strict := GateOf(m, thresholds, false), GateOf(m, thresholds, true);
            && Subsequence(loose.checks, strict.checks)
            && (strict.passed <==> loose.passed && loose.warnings == [])
  {
    if thresholds.Some? {
      var a, b := Verdicts(m, thresholds.value, false), Verdicts(m, thresholds.value, true);
      VerdictsTighten(m, thresholds.value);
      hide Verdicts, Tightens;
      TighteningKeepsOrder(a, b);
      AllPassedIsEachPassed(a);
      AllPassedIsEachPassed(b);
      NoWarningsIsNoneEach(a);
      EachTightens(a, b);
    }
  }

  lemma EachTightens(a: seq<Verdict>, b: seq<Verdict>)
    requires |a| == |b| && forall i | 0 <= i < |a| :: Tightens(a[i], b[i])
    ensures (forall i | 0 <= i < |b| :: AllPassed(b[i].checks)) <==>
            (forall i | 0 <= i < |a| :: AllPassed(a[i].checks)) && (forall i | 0 <= i < |a| :: a[i].warnings == [])
  {
    forall i | 0 <= i < |a| ensures AllPassed(b[i].checks) <==> AllPassed(a[i].checks) && a[i].warnings == [] {
      assert Tightens(a[i], b[i]);
    }
  }

  // ----- tolerances -----

  /** A number that is not finite counts as none, which every clamped number is at least. */
  predicate NumberAtMost(a: Number, b: Number) {
    a.NonFinite? || (b.Finite? && a.value <= b.value)
  }

  predicate ToleranceAtMost(a: Tolerance, b: Tolerance) {
    NumberAtMost(a.maxRatio, b.maxRatio) && NumberAtMost(a.minRatio, b.minRatio) &&
    NumberAtMost(a.latencyMs, b.latencyMs)
  }

  predicate NonNegative(t: Option<real>) {
    t.Some? ==> t.value >= 0.0
  }

  predicate NonNegativeThresholds(t: Thresholds) {
    NonNegative(t.maxErrorRate) && NonNegative(t.maxP95LatencyMs) && NonNegative(t.maxP99LatencyMs) &&
    NonNegative(t.minThroughputRps) && NonNegative(t.minPeakInFlight) &&
    NonNegative(t.maxCircuitOpenErrorRatio) && NonNegative(t.maxHalfOpenP95Ms)
  }

  lemma ScaleUp(threshold: real, a: real, b: real)
    requires threshold >= 0.0 && a <= b
    ensures Scaled(threshold, a) <= Scaled(threshold, b)
  {
    ProductNonNegative(threshold, b - a);
    assert Scaled(threshold, b) - Scaled(threshold, a) == threshold * (b - a);
  }

  lemma MaxCheckLoosens(metric: string, observed: real, threshold: real,
                        ratio: real, additive: real, ratio': real, additive': real)
    requires threshold >= 0.0 && ratio <= ratio' && additive <= additive'
    requires MaxCheck(metric, observed, threshold, ratio, additive).passed
    ensures MaxCheck(metric, observed, threshold, ratio', additive').passed
  {
    hide Scaled;
    ScaleUp(threshold, 1.0 + ratio, 1.0 + ratio');
  }

  lemma MaxVerdictLoosens(metric: string, observed: Option<real>, threshold: Option<real>,
                          ratio: real, additive: real, ratio': real, additive': real, enforce: bool)
    requires NonNegative(threshold) && ratio <= ratio' && additive <= additive'
    ensures AllPassed(MaxVerdict(metric, observed, threshold, ratio, additive, enforce).checks) ==>
            AllPassed(MaxVerdict(metric, observed, threshold, ratio', additive', enforce).checks)
  {
    var before := MaxVerdict(metric, observed, threshold, ratio, additive, enforce).checks;
    if threshold.Some? && observed.Some? && AllPassed(before) {
      assert before[0].passed;
      MaxCheckLoosens(metric, observed.value, threshold.value, ratio, additive, ratio', additive');
    }
  }

  lemma MinVerdictLoosens(metric: string, observed: Option<real>, threshold: Option<real>,
                          ratio: real, ratio': real, enforce: bool)
    requires NonNegative(threshold) && ratio <= ratio'
    ensures AllPassed(MinVerdict(metric, observed, threshold, ratio, enforce).checks) ==>
            AllPassed(MinVerdict(metric, observed, threshold, ratio', enforce).checks)
  {
    hide Scaled;
    if threshold.Some? {
      ScaleUp(threshold.value, 1.0 - ratio', 1.0 - ratio);
      var before := MinVerdict(metric, observed, threshold, ratio, enforce).checks;
      assert before != [] && AllPassed(before) ==> before[0].passed;
    }
  }

  lemma NormalizedMonotone(a: Tolerance, b: Tolerance)
    requires ToleranceAtMost(a, b)
    ensures var s, t := Normalized(a), Normalized(b);
            s.maxRatio <= t.maxRatio && s.minRatio <= t.minRatio && s.latencyMs <= t.latencyMs
  {}

  /** With thresholds that are not negative, raising tolerances never turns a pass into a fail. */
  lemma RaisingToleranceKeepsPassing(m: Metrics, t: Thresholds, tolerance: Tolerance, enforce: bool)
    requires NonNegativeThresholds(t) && ToleranceAtMost(t.tolerance, tolerance)
    requires GateOf(m, Some(t), enforce).passed
    ensures GateOf(m, Some(t.(tolerance := tolerance)), enforce).passed
  {
    hide MaxVerdict, MinVerdict, FingerprintVerdict, Normalized;
    var u := t.(tolerance := tolerance);
    var a, b := Verdicts(m, t, enforce), Verdicts(m, u, enforce);
    NormalizedMonotone(t.tolerance, tolerance);
    var x, y := Normalized(t.tolerance), Normalized(tolerance);
    AllPassedIsEachPassed(a);
    AllPassedIsEachPassed(b);
    MaxVerdictLoosens("error_rate", Some(m.errorRate), t.maxErrorRate, x.maxRatio, 0.0, y.maxRatio, 0.0, enforce);
    MaxVerdictLoosens("latency_ms.p95", m.latencyMs.p95, t.maxP95LatencyMs,
                      x.maxRatio, x.latencyMs, y.maxRatio, y.latencyMs, enforce);
    MaxVerdictLoosens("latency_ms.p99", m.latencyMs.p99, t.maxP99LatencyMs,
                      x.maxRatio, x.latencyMs, y.maxRatio, y.latencyMs, enforce);
    MinVerdictLoosens("throughput_rps", Some(m.throughputRps), t.minThroughputRps, x.minRatio, y.minRatio, enforce);
    MinVerdictLoosens("scheduler.peak_in_flight_max", PeakInFlight(m), t.minPeakInFlight,
                      x.minRatio, y.minRatio, enforce);
    MaxVerdictLoosens("circuit_open_error_ratio", Some(m.circuitOpenErrorRatio), t.maxCircuitOpenErrorRatio,
                      x.maxRatio, 0.0, y.maxRatio, 0.0, enforce);
    MaxVerdictLoosens("circuit.half_open_transition_ms.p95", HalfOpenP95(m), t.maxHalfOpenP95Ms,
                      x.maxRatio, x.latencyMs, y.maxRatio, y.latencyMs, enforce);
    assert |a| == 8 && AllPassed(a[0].checks) && AllPassed(a[1].checks) && AllPassed(a[2].checks) &&
           AllPassed(a[3].checks) && AllPassed(a[4].checks) && AllPassed(a[5].checks) &&
           AllPassed(a[6].checks) && AllPassed(a[7].checks);
  }

  /** The sign of the threshold is what decides: with a negative one, tolerance tightens the check. */
  lemma ToleranceLoosensExactlyNonNegative(threshold: real)
    ensures threshold >= 0.0 <==>
            forall observed: real, ratio: real, ratio': real ::
              0.0 <= ratio <= ratio' <= 1.0 && MaxCheck("m", observed, threshold, ratio, 0.0).passed ==>
              MaxCheck("m", observed, threshold, ratio', 0.0).passed
  {
    if threshold >= 0.0 {
      forall observed: real, ratio: real, ratio': real
        | 0.0 <= ratio <= ratio' <= 1.0 && MaxCheck("m", observed, threshold, ratio, 0.0).passed
        ensures MaxCheck("m", observed, threshold, ratio', 0.0).passed
      {
        MaxCheckLoosens("m", observed, threshold, ratio, 0.0, ratio', 0.0);
      }
    } else {
      assert MaxCheck("m", threshold, threshold, 0.0, 0.0).passed;
      assert !MaxCheck("m", threshold, threshold, 1.0, 0.0).passed;
    }
  }

  /** The same for lower bounds. */
  lemma MinToleranceLoosensExactlyNonNegative(threshold: real)
    ensures threshold >= 0.0 <==>
            forall observed: real, ratio: real, ratio': real ::
              0.0 <= ratio <= ratio' <= 1.0 && MinCheck("m", observed, threshold, ratio).passed ==>
              MinCheck("m", observed, threshold, ratio').passed
  {
    if threshold >= 0.0 {
      forall observed: real, ratio: real, ratio': real
        | 0.0 <= ratio <= ratio' <= 1.0 && MinCheck("m", observed, threshold, ratio).passed
        ensures MinCheck("m", observed, threshold, ratio').passed
      {
        ScaleUp(threshold, 1.0 - ratio', 1.0 - ratio);
      }
    } else {
      assert MinCheck("m", threshold, threshold, 0.0).passed;
      assert !MinCheck("m", threshold, threshold, 1.0).passed;
    }
  }

  // ----- what a passed gate says -----

  /** The observation is at most the tolerated threshold; without one, only an unenforced gate lets it pass. */
  predicate WithinMax(observed: Option<real>, threshold: Option<real>, ratio: real, additive: real, enforce: bool) {
    threshold.Some? ==>
      if observed.Some? then observed.value <= Scaled(threshold.value, 1.0 + ratio) + additive else !enforce
  }

  predicate WithinMin(observed: Option<real>, threshold: Option<real>, ratio: real, enforce: bool) {
    threshold.Some? ==> if observed.Some? then observed.value >= Scaled(threshold.value, 1.0 - ratio) else !enforce
  }

  predicate FingerprintAccepted(kind: string, observed: Option<string>, expected: Option<string>, enforce: bool) {
    kind == "spec_run" ==> if expected.Some? then observed == expected else !enforce
  }

  lemma MaxVerdictPasses(metric: string, observed: Option<real>, threshold: Option<real>, ratio: real, additive: real,
                         enforce: bool)
    ensures AllPassed(MaxVerdict(metric, observed, threshold, ratio, additive, enforce).checks) <==>
            WithinMax(observed, threshold, ratio, additive, enforce)
  {
    hide Scaled;
    var checks := MaxVerdict(metric, observed, threshold, ratio, additive, enforce).checks;
    if checks != [] {
      assert checks == [checks[0]];
      SingleCheck(checks[0]);
    }
  }

  lemma MinVerdictPasses(metric: string, observed: Option<real>, threshold: Option<real>, ratio: real, enforce: bool)
    ensures AllPassed(MinVerdict(metric, observed, threshold, ratio, enforce).checks) <==>
            WithinMin(observed, threshold, ratio, enforce)
  {
    hide Scaled;
    var checks := MinVerdict(metric, observed, threshold, ratio, enforce).checks;
    if checks != [] {
      assert checks == [checks[0]];
      SingleCheck(checks[0]);
    }
  }

  lemma FingerprintVerdictPasses(kind: string, observed: Option<string>, expected: Option<string>, enforce: bool)
    ensures AllPassed(FingerprintVerdict(kind, observed, expected, enforce).checks) <==>
            FingerprintAccepted(kind, observed, expected, enforce)
  {
    var checks := FingerprintVerdict(kind, observed, expected, enforce).checks;
    if checks != [] {
      assert checks == [checks[0]];
      SingleCheck(checks[0]);
    }
  }

  /** A gate with a baseline passes exactly when all eight metrics are within their tolerated thresholds. */
  lemma PassesExactlyWithinThresholds(m: Metrics, t: Thresholds, enforce: bool)
    ensures var s := Normalized(t.tolerance);
            GateOf(m, Some(t), enforce).passed <==>
              && WithinMax(Some(m.errorRate), t.maxErrorRate, s.maxRatio, 0.0, enforce)
              && WithinMax(m.latencyMs.p95, t.maxP95LatencyMs, s.maxRatio, s.latencyMs, enforce)
              && WithinMax(m.latencyMs.p99, t.maxP99LatencyMs, s.maxRatio, s.latencyMs, enforce)
              && WithinMin(Some(m.throughputRps), t.minThroughputRps, s.minRatio, enforce)
              && WithinMin(PeakInFlight(m), t.minPeakInFlight, s.minRatio, enforce)
              && WithinMax(Some(m.circuitOpenErrorRatio), t.maxCircuitOpenErrorRatio, s.maxRatio, 0.0, enforce)
              && WithinMax(HalfOpenP95(m), t.maxHalfOpenP95Ms, s.maxRatio, s.latencyMs, enforce)
              && FingerprintAccepted(m.scenarioKind, m.schemaFingerprint, t.expectedSchemaFingerprint, enforce)
  {
    hide MaxVerdict, MinVerdict, FingerprintVerdict, WithinMax, WithinMin, FingerprintAccepted, Normalized;
    hide AllPassed, AllChecks;
    var s, vs := Normalized(t.tolerance), Verdicts(m, t, enforce);
    AllPassedIsEachPassed(vs);
    MaxVerdictPasses("error_rate", Some(m.errorRate), t.maxErrorRate, s.maxRatio, 0.0, enforce);
    MaxVerdictPasses("latency_ms.p95", m.latencyMs.p95, t.maxP95LatencyMs, s.maxRatio, s.latencyMs, enforce);
    MaxVerdictPasses("latency_ms.p99", m.latencyMs.p99, t.maxP99LatencyMs, s.maxRatio, s.latencyMs, enforce);
    MinVerdictPasses("throughput_rps", Some(m.throughputRps), t.minThroughputRps, s.minRatio, enforce);
    MinVerdictPasses("scheduler.peak_in_flight_max", PeakInFlight(m), t.minPeakInFlight, s.minRatio, enforce);
    MaxVerdictPasses("circuit_open_error_ratio", Some(m.circuitOpenErrorRatio), t.maxCircuitOpenErrorRatio,
                     s.maxRatio, 0.0, enforce);
    MaxVerdictPasses("circuit.half_open_transition_ms.p95", HalfOpenP95(m), t.maxHalfOpenP95Ms,
                     s.maxRatio, s.latencyMs, enforce);
    FingerprintVerdictPasses(m.scenarioKind, m.schemaFingerprint, t.expectedSchemaFingerprint, enforce);
    EachOfEight(vs);
  }

  lemma EachOfEight(vs: seq<Verdict>)
    requires |vs| == 8
    ensures (forall i | 0 <= i < |vs| :: AllPassed(vs[i].checks)) <==>
            && AllPassed(vs[0].checks) && AllPassed(vs[1].checks) && AllPassed(vs[2].checks) && AllPassed(vs[3].checks)
            && AllPassed(vs[4].checks) && AllPassed(vs[5].checks) && AllPassed(vs[6].checks) && AllPassed(vs[7].checks)
  {}
}
