/** The baseline lint, and what passing it promises about the gates evaluated later. */
module Lint {
  import opened Text
  import opened Ordered
  import G = Gate

  datatype ScenarioKind = SpecRun | CircuitHalfOpen
  datatype Scenario = Scenario(name: string, kind: ScenarioKind)
  type Baseline = map<string, G.Thresholds>

  datatype Severity = Error | Warning
  datatype IssueKind =
    | DuplicateMatrixScenarioName
    | MissingMatrixScenarioBaselineThresholds
    | MissingSpecRunBaselineScenario
    | MissingSpecRunSchemaFingerprint
    | UnknownBaselineScenario
    | NonSpecRunSchemaFingerprintConfigured

  datatype Issue = Issue(severity: Severity, kind: IssueKind, scenarioName: string)

  function KindLabel(kind: ScenarioKind): string {
    match kind
    case SpecRun => "spec_run"
    case CircuitHalfOpen => "circuit_half_open"
  }

  predicate HasFingerprint(value: Option<string>) {
    value.Some? && Trim(value.value) != ""
  }

  function Lookup(baseline: Baseline, name: string): Option<G.Thresholds> {
    if name in baseline then Some(baseline[name]) else None
  }

  function CountErrors(issues: seq<Issue>): nat {
    if issues == [] then 0 else (if issues[0].severity.Error? then 1 else 0) + CountErrors(issues[1..])
  }

  function CountWarnings(issues: seq<Issue>): nat {
    if issues == [] then 0 else (if issues[0].severity.Warning? then 1 else 0) + CountWarnings(issues[1..])
  }

  predicate LintGatePassed(issues: seq<Issue>, failOnWarnings: bool) {
    CountErrors(issues) == 0 && !(failOnWarnings && CountWarnings(issues) > 0)
  }

  /** The issues that a strict preflight reports when it refuses to run. */
  function PreflightGateIssues(issues: seq<Issue>, failOnWarnings: bool): seq<Issue> {
    if issues == [] then []
    else (if issues[0].severity.Error? || failOnWarnings then [issues[0]] else [])
         + PreflightGateIssues(issues[1..], failOnWarnings)
  }

  /** The issues of one scenario against its baseline. */
  function ScenarioIssues(s: Scenario, baseline: Baseline): seq<Issue> {
    if s.name in baseline then
      var fingerprint := HasFingerprint(baseline[s.name].expectedSchemaFingerprint);
      if s.kind.SpecRun? && !fingerprint then [Issue(Error, MissingSpecRunSchemaFingerprint, s.name)]
      else if !s.kind.SpecRun? && fingerprint then [Issue(Warning, NonSpecRunSchemaFingerprintConfigured, s.name)]
      else []
    else if s.kind.SpecRun? then [Issue(Error, MissingSpecRunBaselineScenario, s.name)]
    else [Issue(Error, MissingMatrixScenarioBaselineThresholds, s.name)]
  }

  function Occurrences(scenarios: seq<Scenario>, name: string): nat {
    if scenarios == [] then 0
    else Occurrences(scenarios[..|scenarios| - 1], name) + (if scenarios[|scenarios| - 1].name == name then 1 else 0)
  }

  predicate NoErrors(issues: seq<Issue>) {
    forall i | 0 <= i < |issues| :: !issues[i].severity.Error?
  }

  predicate DistinctNames(scenarios: seq<Scenario>) {
    forall i, j | 0 <= i < j < |scenarios| :: scenarios[i].name != scenarios[j].name
  }

  predicate Covered(s: Scenario, baseline: Baseline) {
    s.name in baseline && (s.kind.SpecRun? ==> HasFingerprint(baseline[s.name].expectedSchemaFingerprint))
  }

  predicate AllCovered(scenarios: seq<Scenario>, baseline: Baseline) {
    forall i | 0 <= i < |scenarios| :: Covered(scenarios[i], baseline)
  }

  function Names(scenarios: seq<Scenario>): set<string> {
    set i | 0 <= i < |scenarios| :: scenarios[i].name
  }

  /** One error per name that occurs more than once, in the order of `names`. */
  function DuplicateIssues(names: seq<string>, scenarios: seq<Scenario>): seq<Issue> {
    if names == [] then []
    else
      var last := names[|names| - 1];
      DuplicateIssues(names[..|names| - 1], scenarios)
      + (if Occurrences(scenarios, last) > 1 then [Issue(Error, DuplicateMatrixScenarioName, last)] else [])
  }

  function CoverageIssues(scenarios: seq<Scenario>, baseline: Baseline): seq<Issue> {
    if scenarios == [] then []
    else CoverageIssues(scenarios[..|scenarios| - 1], baseline) + ScenarioIssues(scenarios[|scenarios| - 1], baseline)
  }

  /** One warning per baseline name the matrix does not have. */
  function UnknownIssues(keys: seq<string>, names: set<string>): seq<Issue> {
    if keys == [] then []
    else
      var last := keys[|keys| - 1];
      UnknownIssues(keys[..|keys| - 1], names)
      + (if last !in names then [Issue(Warning, UnknownBaselineScenario, last)] else [])
  }

  function LintIssues(scenarios: seq<Scenario>, baseline: Baseline): seq<Issue> {
    DuplicateIssues(SortedKeys(Names(scenarios)), scenarios) + CoverageIssues(scenarios, baseline)
    + UnknownIssues(SortedKeys(baseline.Keys), Names(scenarios))
  }

  // ----- the loops -----

  method LintBaseline(scenarios: seq<Scenario>, baseline: Baseline) returns (issues: seq<Issue>)
    ensures issues == LintIssues(scenarios, baseline)
  {
    hide DuplicateIssues, CoverageIssues, UnknownIssues, SortedKeys;
    var counts := CountNames(scenarios);
    CountedNames(scenarios, counts);
    issues := FindDuplicates(counts, scenarios);
    var uncovered := FindUncovered(scenarios, baseline);
    var unknown := FindUnknown(counts, baseline);
    issues := issues + uncovered + unknown;
  }

  method FindDuplicates(counts: map<string, nat>, ghost scenarios: seq<Scenario>) returns (issues: seq<Issue>)
    requires Counts(counts, scenarios)
    ensures issues == DuplicateIssues(SortedKeys(counts.Keys), scenarios)
  {
    var names := SortedKeys(counts.Keys);
    hide SortedKeys;
    issues := [];
    var i := 0;
    while i < |names|
      invariant i <= |names|
      invariant issues == DuplicateIssues(names[..i], scenarios)
    {
      assert names[i] in names && names[..i + 1][..i] == names[..i];
      if counts[names[i]] > 1 {
        issues := issues + [Issue(Error, DuplicateMatrixScenarioName, names[i])];
      }
      i := i + 1;
    }
    assert names[..|names|] == names;
  }

  method FindUncovered(scenarios: seq<Scenario>, baseline: Baseline) returns (issues: seq<Issue>)
    ensures issues == CoverageIssues(scenarios, baseline)
  {
    issues := [];
    var i := 0;
    while i < |scenarios|
      invariant i <= |scenarios|
      invariant issues == CoverageIssues(scenarios[..i], baseline)
    {
      assert scenarios[..i + 1][..i] == scenarios[..i];
      issues := issues + ScenarioIssues(scenarios[i], baseline);
      i := i + 1;
    }
    assert scenarios[..|scenarios|] == scenarios;
  }

  method FindUnknown(counts: map<string, nat>, baseline: Baseline) returns (issues: seq<Issue>)
    ensures issues == UnknownIssues(SortedKeys(baseline.Keys), counts.Keys)
  {
    var keys := SortedKeys(baseline.Keys);
    hide SortedKeys;
    issues := [];
    var i := 0;
    while i < |keys|
      invariant i <= |keys|
      invariant issues == UnknownIssues(keys[..i], counts.Keys)
    {
      assert keys[..i + 1][..i] == keys[..i];
      if keys[i] !in counts {
        issues := issues + [Issue(Warning, UnknownBaselineScenario, keys[i])];
      }
      i := i + 1;
    }
    assert keys[..|keys|] == keys;
  }

  ghost predicate Counts(counts: map<string, nat>, scenarios: seq<Scenario>) {
    && (forall name :: name in counts <==> Occurrences(scenarios, name) > 0)
    && (forall name | name in counts :: counts[name] == Occurrences(scenarios, name))
  }

  method CountNames(scenarios: seq<Scenario>) returns (counts: map<string, nat>)
    ensures Counts(counts, scenarios)
  {
    counts := map[];
    var i := 0;
    while i < |scenarios|
      invariant i <= |scenarios|
      invariant Counts(counts, scenarios[..i])
    {
      var name := scenarios[i].name;
      assert scenarios[..i + 1][..i] == scenarios[..i];
      counts := counts[name := (if name in counts then counts[name] else 0) + 1];
      i := i + 1;
    }
    assert scenarios[..|scenarios|] == scenarios;
  }

  lemma CountedNames(scenarios: seq<Scenario>, counts: map<string, nat>)
    requires Counts(counts, scenarios)
    ensures counts.Keys == Names(scenarios)
  {
    forall name ensures name in counts <==> name in Names(scenarios) {
      OccurrencesMeaning(scenarios, name);
    }
  }

  // ----- what the issues mean -----

  lemma NoErrorsConcat(a: seq<Issue>, b: seq<Issue>)
    ensures NoErrors(a + b) <==> NoErrors(a) && NoErrors(b)
  {
    if NoErrors(a + b) {
      assert forall i | 0 <= i < |a| :: (a + b)[i] == a[i];
      assert forall i | 0 <= i < |b| :: (a + b)[|a| + i] == b[i];
    }
  }

  lemma OneIssue(issue: Issue)
    ensures NoErrors([issue]) <==> !issue.severity.Error?
  {
    assert [issue][0] == issue;
  }

  lemma {:induction false} DuplicatesMeaning(names: seq<string>, scenarios: seq<Scenario>)
    ensures NoErrors(DuplicateIssues(names, scenarios)) <==>
            forall i | 0 <= i < |names| :: Occurrences(scenarios, names[i]) <= 1
  {
    if names != [] {
      var k := |names| - 1;
      DuplicatesMeaning(names[..k], scenarios);
      assert forall i | 0 <= i < k :: names[i] == names[..k][i];
      var issue := Issue(Error, DuplicateMatrixScenarioName, names[k]);
      OneIssue(issue);
      NoErrorsConcat(DuplicateIssues(names[..k], scenarios),
                     if Occurrences(scenarios, names[k]) > 1 then [issue] else []);
    }
  }

  lemma {:induction false} CoverageMeaning(scenarios: seq<Scenario>, baseline: Baseline)
    ensures NoErrors(CoverageIssues(scenarios, baseline)) <==> AllCovered(scenarios, baseline)
  {
    if scenarios != [] {
      var k := |scenarios| - 1;
      CoverageMeaning(scenarios[..k], baseline);
      assert forall i | 0 <= i < k :: scenarios[i] == scenarios[..k][i];
      var found := ScenarioIssues(scenarios[k], baseline);
      if found != [] {
        OneIssue(found[0]);
      }
      assert NoErrors(found) <==> Covered(scenarios[k], baseline);
      NoErrorsConcat(CoverageIssues(scenarios[..k], baseline), found);
    }
  }

  lemma {:induction false} UnknownMeaning(keys: seq<string>, names: set<string>)
    ensures NoErrors(UnknownIssues(keys, names))
    ensures UnknownIssues(keys, names) == [] <==> forall i | 0 <= i < |keys| :: keys[i] in names
  {
    if keys != [] {
      var k := |keys| - 1;
      UnknownMeaning(keys[..k], names);
      assert forall i | 0 <= i < k :: keys[i] == keys[..k][i];
    }
  }

  ghost predicate NoRepeats(scenarios: seq<Scenario>) {
    forall name :: Occurrences(scenarios, name) <= 1
  }

  /** Errors are exactly repeated names, missing baselines and missing fingerprints. */
  lemma ErrorFreeMeaning(scenarios: seq<Scenario>, baseline: Baseline)
    ensures NoErrors(LintIssues(scenarios, baseline)) <==>
            DistinctNames(scenarios) && AllCovered(scenarios, baseline)
  {
    hide SortedKeys;
    var names, keys := SortedKeys(Names(scenarios)), SortedKeys(baseline.Keys);
    var a, b := DuplicateIssues(names, scenarios), CoverageIssues(scenarios, baseline);
    NoErrorsConcat(a + b, UnknownIssues(keys, Names(scenarios)));
    NoErrorsConcat(a, b);
    DuplicatesMeaning(names, scenarios);
    CoverageMeaning(scenarios, baseline);
    UnknownMeaning(keys, Names(scenarios));
    CountsTellDistinct(scenarios);
    NamesTellAll(scenarios, names);
  }

  lemma NamesTellAll(scenarios: seq<Scenario>, names: seq<string>)
    requires forall name :: name in names <==> name in Names(scenarios)
    ensures (forall i | 0 <= i < |names| :: Occurrences(scenarios, names[i]) <= 1) <==> NoRepeats(scenarios)
  {
    if forall i | 0 <= i < |names| :: Occurrences(scenarios, names[i]) <= 1 {
      forall name ensures Occurrences(scenarios, name) <= 1 {
        OccurrencesMeaning(scenarios, name);
        if name in names {
          var i :| 0 <= i < |names| && names[i] == name;
        }
      }
    }
  }

  lemma {:induction false} OccurrencesMeaning(scenarios: seq<Scenario>, name: string)
    ensures Occurrences(scenarios, name) > 0 <==> exists i | 0 <= i < |scenarios| :: scenarios[i].name == name
  {
    if scenarios != [] {
      var last := |scenarios| - 1;
      OccurrencesMeaning(scenarios[..last], name);
      if exists i | 0 <= i < |scenarios| :: scenarios[i].name == name {
        var i :| 0 <= i < |scenarios| && scenarios[i].name == name;
        assert i < last ==> scenarios[..last][i].name == name;
      }
      assert forall i | 0 <= i < last :: scenarios[i] == scenarios[..last][i];
    }
  }

  /** Names are distinct exactly when none is counted twice. */
  lemma {:induction false} CountsTellDistinct(scenarios: seq<Scenario>)
    ensures DistinctNames(scenarios) <==> NoRepeats(scenarios)
  {
    if scenarios != [] {
      var last := |scenarios| - 1;
      var rest, name := scenarios[..last], scenarios[last].name;
      CountsTellDistinct(rest);
      OccurrencesMeaning(rest, name);
      assert forall i | 0 <= i < last :: scenarios[i] == rest[i];
      if DistinctNames(scenarios) {
        assert DistinctNames(rest);
        forall n ensures Occurrences(scenarios, n) <= 1 {
          assert Occurrences(rest, n) <= 1 && Occurrences(rest, name) == 0;
        }
      }
      if NoRepeats(scenarios) {
        forall n ensures Occurrences(rest, n) <= 1 {
          assert Occurrences(scenarios, n) <= 1;
        }
        assert Occurrences(scenarios, name) <= 1;
        forall i, j | 0 <= i < j < |scenarios| ensures scenarios[i].name != scenarios[j].name {
          assert if j == last then rest[i].name != name else rest[i].name != rest[j].name;
        }
      }
    }
  }

  // ----- the preflight -----

  lemma {:induction false} CountErrorsMeaning(issues: seq<Issue>)
    ensures CountErrors(issues) == 0 <==> NoErrors(issues)
    ensures CountErrors(issues) + CountWarnings(issues) == |issues|
  {
    if issues != [] {
      CountErrorsMeaning(issues[1..]);
      assert forall i | 1 <= i < |issues| :: issues[i] == issues[1..][i - 1];
      if NoErrors(issues) {
        assert !issues[0].severity.Error?;
      }
    }
  }

  /** A strict preflight is refused exactly when there is something to report. */
  lemma {:induction false} RefusedExactlyWhenReported(issues: seq<Issue>, failOnWarnings: bool)
    ensures LintGatePassed(issues, failOnWarnings) <==> PreflightGateIssues(issues, failOnWarnings) == []
  {
    if issues != [] {
      RefusedExactlyWhenReported(issues[1..], failOnWarnings);
    }
  }

  /** With warnings as failures only an empty list passes; otherwise any list without errors does. */
  lemma PassesExactlyWithout(issues: seq<Issue>, failOnWarnings: bool)
    ensures LintGatePassed(issues, failOnWarnings) <==> if failOnWarnings then issues == [] else NoErrors(issues)
  {
    CountErrorsMeaning(issues);
  }

  /** A refusal lists all issues, or, if warnings do not count, the errors among them, in their order. */
  predicate Refuses(issues: seq<Issue>, failOnWarnings: bool, listed: seq<Issue>) {
    if failOnWarnings then listed == issues
    else
      && G.Subsequence(listed, issues)
      && NoWarnings(listed)
      && |listed| == CountErrors(issues)
  }

  predicate NoWarnings(issues: seq<Issue>) {
    forall i | 0 <= i < |issues| :: issues[i].severity.Error?
  }

  lemma {:induction false} RefusalLists(issues: seq<Issue>, failOnWarnings: bool)
    ensures Refuses(issues, failOnWarnings, PreflightGateIssues(issues, failOnWarnings))
  {
    if issues != [] {
      var rest := PreflightGateIssues(issues[1..], failOnWarnings);
      RefusalLists(issues[1..], failOnWarnings);
      assert issues == [issues[0]] + issues[1..];
      assert ([issues[0]] + rest)[1..] == rest && [] + rest == rest;
    }
  }

  predicate IsPresenceCheck(c: G.Check) {
    c.metric == "baseline_presence" || c.metric == "schema_fingerprint_baseline_presence"
  }

  predicate NoPresenceChecks(checks: seq<G.Check>) {
    forall i | 0 <= i < |checks| :: !IsPresenceCheck(checks[i])
  }

  lemma {:induction false} NoPresenceInAll(vs: seq<G.Verdict>)
    requires forall i | 0 <= i < |vs| :: NoPresenceChecks(vs[i].checks)
    ensures NoPresenceChecks(G.AllChecks(vs))
  {
    if vs != [] {
      NoPresenceInAll(vs[..|vs| - 1]);
    }
  }

  predicate IsMeasured(metric: string) {
    metric != "baseline_presence" && metric != "schema_fingerprint_baseline_presence"
  }

  lemma MaxHasNoPresence(metric: string, observed: Option<real>, threshold: Option<real>, ratio: real,
                         additive: real, enforce: bool)
    requires IsMeasured(metric)
    ensures NoPresenceChecks(G.MaxVerdict(metric, observed, threshold, ratio, additive, enforce).checks)
  {}

  lemma MinHasNoPresence(metric: string, observed: Option<real>, threshold: Option<real>, ratio: real, enforce: bool)
    requires IsMeasured(metric)
    ensures NoPresenceChecks(G.MinVerdict(metric, observed, threshold, ratio, enforce).checks)
  {}

  lemma FingerprintHasNoPresence(kind: string, observed: Option<string>, expected: Option<string>, enforce: bool)
    requires kind == "spec_run" ==> expected.Some?
    ensures NoPresenceChecks(G.FingerprintVerdict(kind, observed, expected, enforce).checks)
  {
    MetricNames();
  }

  lemma VerdictsHaveNoPresence(m: G.Metrics, t: G.Thresholds, enforce: bool)
    requires m.scenarioKind == "spec_run" ==> t.expectedSchemaFingerprint.Some?
    ensures forall i | 0 <= i < |G.Verdicts(m, t, enforce)| :: NoPresenceChecks(G.Verdicts(m, t, enforce)[i].checks)
  {
    MetricNames();
    hide G.MaxVerdict, G.MinVerdict, G.FingerprintVerdict, G.Normalized, IsMeasured, NoPresenceChecks;
    var s := G.Normalized(t.tolerance);
    MaxHasNoPresence("error_rate", Some(m.errorRate), t.maxErrorRate, s.maxRatio, 0.0, enforce);
    MaxHasNoPresence("latency_ms.p95", m.latencyMs.p95, t.maxP95LatencyMs, s.maxRatio, s.latencyMs, enforce);
    MaxHasNoPresence("latency_ms.p99", m.latencyMs.p99, t.maxP99LatencyMs, s.maxRatio, s.latencyMs, enforce);
    MinHasNoPresence("throughput_rps", Some(m.throughputRps), t.minThroughputRps, s.minRatio, enforce);
    MinHasNoPresence("scheduler.peak_in_flight_max", G.PeakInFlight(m), t.minPeakInFlight, s.minRatio, enforce);
    MaxHasNoPresence("circuit_open_error_ratio", Some(m.circuitOpenErrorRatio), t.maxCircuitOpenErrorRatio,
                     s.maxRatio, 0.0, enforce);
    MaxHasNoPresence("circuit.half_open_transition_ms.p95", G.HalfOpenP95(m), t.maxHalfOpenP95Ms,
                     s.maxRatio, s.latencyMs, enforce);
    FingerprintHasNoPresence(m.scenarioKind, m.schemaFingerprint, t.expectedSchemaFingerprint, enforce);
  }

  lemma MetricNames()
    ensures IsMeasured("error_rate") && IsMeasured("latency_ms.p95") && IsMeasured("latency_ms.p99")
    ensures IsMeasured("throughput_rps") && IsMeasured("scheduler.peak_in_flight_max")
    ensures IsMeasured("circuit_open_error_ratio") && IsMeasured("circuit.half_open_transition_ms.p95")
    ensures IsMeasured("schema_fingerprint")
  {
    assert "baseline_presence"[0] == 'b' && |"schema_fingerprint_baseline_presence"| == 36;
  }

  /** A clean lint settles which scenarios can be held to a baseline. */
  lemma CleanLintSettlesPresence(scenarios: seq<Scenario>, baseline: Baseline, i: nat, m: G.Metrics)
    requires NoErrors(LintIssues(scenarios, baseline))
    requires i < |scenarios| && m.scenarioKind == KindLabel(scenarios[i].kind)
    ensures NoPresenceChecks(G.GateOf(m, Lookup(baseline, scenarios[i].name), true).checks)
  {
    ErrorFreeMeaning(scenarios, baseline);
    assert Covered(scenarios[i], baseline);
    var t := baseline[scenarios[i].name];
    assert KindLabel(CircuitHalfOpen) != "spec_run" by { assert "spec_run"[0] == 's' && "circuit_half_open"[0] == 'c'; }
    VerdictsHaveNoPresence(m, t, true);
    NoPresenceInAll(G.Verdicts(m, t, true));
  }

  /**
   The strict preflight of a benchmark run. When it lets the run go on, no enforced gate fails
   for want of a baseline or an expected fingerprint, whatever the run reports; when it does
   not, it names at least one issue.
   */
  method StrictPreflight(scenarios: seq<Scenario>, baseline: Baseline, failOnWarnings: bool)
    returns (refusal: Option<seq<Issue>>)
    ensures refusal.Some? ==>
              refusal.value != [] && Refuses(LintIssues(scenarios, baseline), failOnWarnings, refusal.value)
    ensures refusal.None? ==> DistinctNames(scenarios) && AllCovered(scenarios, baseline)
    ensures refusal.None? ==>
              forall i: nat, m: G.Metrics | i < |scenarios| && m.scenarioKind == KindLabel(scenarios[i].kind) ::
                NoPresenceChecks(G.GateOf(m, Lookup(baseline, scenarios[i].name), true).checks)
    ensures var issues := LintIssues(scenarios, baseline);
            refusal.None? <==> if failOnWarnings then issues == [] else NoErrors(issues)
  {
    var issues := LintBaseline(scenarios, baseline);
    PassesExactlyWithout(issues, failOnWarnings);
    RefusalLists(issues, failOnWarnings);
    hide LintIssues;
    RefusedExactlyWhenReported(issues, failOnWarnings);
    if !LintGatePassed(issues, failOnWarnings) {
      return Some(PreflightGateIssues(issues, failOnWarnings));
    }
    CountErrorsMeaning(issues);
    ErrorFreeMeaning(scenarios, baseline);
    forall i: nat, m: G.Metrics | i < |scenarios| && m.scenarioKind == KindLabel(scenarios[i].kind)
      ensures NoPresenceChecks(G.GateOf(m, Lookup(baseline, scenarios[i].name), true).checks)
    {
      CleanLintSettlesPresence(scenarios, baseline, i, m);
    }
    return None;
  }
}
