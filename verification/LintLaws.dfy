/** Which issues the lint raises, told by the matrix and the baseline. */
module LintLaws {
  import opened Text
  import opened Ordered
  import opened Lint
  import G = Gate

  predicate InMatrix(scenarios: seq<Scenario>, name: string, specRun: bool) {
    exists i | 0 <= i < |scenarios| :: scenarios[i].name == name && scenarios[i].kind.SpecRun? == specRun
  }

  predicate Repeated(scenarios: seq<Scenario>, name: string) {
    exists i, j | 0 <= i < j < |scenarios| :: scenarios[i].name == name && scenarios[j].name == name
  }

  predicate FingerprintSet(baseline: Baseline, name: string)
    requires name in baseline
  {
    var expected := baseline[name].expectedSchemaFingerprint;
    expected.Some? && !Blank(expected.value)
  }

  /** What each issue says about the matrix and the baseline. */
  predicate Deserved(scenarios: seq<Scenario>, baseline: Baseline, issue: Issue) {
    var name := issue.scenarioName;
    match issue.kind
    case DuplicateMatrixScenarioName => issue.severity.Error? && Repeated(scenarios, name)
    case MissingMatrixScenarioBaselineThresholds =>
      issue.severity.Error? && InMatrix(scenarios, name, false) && name !in baseline
    case MissingSpecRunBaselineScenario =>
      issue.severity.Error? && InMatrix(scenarios, name, true) && name !in baseline
    case MissingSpecRunSchemaFingerprint =>
      issue.severity.Error? && InMatrix(scenarios, name, true) && name in baseline && !FingerprintSet(baseline, name)
    case UnknownBaselineScenario =>
      issue.severity.Warning? && name in baseline
      && !InMatrix(scenarios, name, true) && !InMatrix(scenarios, name, false)
    case NonSpecRunSchemaFingerprintConfigured =>
      issue.severity.Warning? && InMatrix(scenarios, name, false) && name in baseline && FingerprintSet(baseline, name)
  }

  // ----- repeated names -----

  lemma {:induction false} RepeatedIsCountedTwice(scenarios: seq<Scenario>, name: string)
    ensures Occurrences(scenarios, name) > 1 <==> Repeated(scenarios, name)
  {
    if scenarios != [] {
      var last := |scenarios| - 1;
      var front := scenarios[..last];
      RepeatedIsCountedTwice(front, name);
      OccurrencesMeaning(front, name);
      assert forall i | 0 <= i < last :: scenarios[i] == front[i];
      if Repeated(scenarios, name) {
        var i, j :| 0 <= i < j < |scenarios| && scenarios[i].name == name && scenarios[j].name == name;
        assert front[i].name == name;
        assert j < last ==> front[j].name == name;
      }
      if Repeated(front, name) {
        var i, j :| 0 <= i < j < |front| && front[i].name == name && front[j].name == name;
        assert scenarios[i].name == name && scenarios[j].name == name;
      } else if Occurrences(scenarios, name) > 1 {
        var i :| 0 <= i < |front| && front[i].name == name;
        assert scenarios[i].name == name && scenarios[last].name == name;
      }
    }
  }

  lemma {:induction false} DuplicatesAre(names: seq<string>, scenarios: seq<Scenario>, issue: Issue)
    ensures issue in DuplicateIssues(names, scenarios) <==>
              && issue.severity.Error? && issue.kind.DuplicateMatrixScenarioName?
              && issue.scenarioName in names && Occurrences(scenarios, issue.scenarioName) > 1
  {
    if names != [] {
      var n := |names| - 1;
      DuplicatesAre(names[..n], scenarios, issue);
      assert names == names[..n] + [names[n]];
      hide Occurrences;
    }
  }

  // ----- coverage -----

  lemma {:induction false} CoverageAre(scenarios: seq<Scenario>, baseline: Baseline, issue: Issue)
    ensures issue in CoverageIssues(scenarios, baseline) <==>
              exists i | 0 <= i < |scenarios| :: issue in ScenarioIssues(scenarios[i], baseline)
  {
    hide ScenarioIssues;
    if scenarios != [] {
      var n := |scenarios| - 1;
      var front := scenarios[..n];
      CoverageAre(front, baseline, issue);
      assert forall i | 0 <= i < n :: scenarios[i] == front[i];
      if issue in CoverageIssues(front, baseline) {
        var i :| 0 <= i < |front| && issue in ScenarioIssues(front[i], baseline);
        assert issue in ScenarioIssues(scenarios[i], baseline);
      }
      if exists i | 0 <= i < |scenarios| :: issue in ScenarioIssues(scenarios[i], baseline) {
        var i :| 0 <= i < |scenarios| && issue in ScenarioIssues(scenarios[i], baseline);
        assert i < n ==> issue in ScenarioIssues(front[i], baseline);
      }
    }
  }

  /** The issue a scenario of this kind and name deserves by itself. */
  predicate DeservedBy(baseline: Baseline, issue: Issue, specRun: bool) {
    var name := issue.scenarioName;
    match issue.kind
    case MissingMatrixScenarioBaselineThresholds => issue.severity.Error? && !specRun && name !in baseline
    case MissingSpecRunBaselineScenario => issue.severity.Error? && specRun && name !in baseline
    case MissingSpecRunSchemaFingerprint =>
      issue.severity.Error? && specRun && name in baseline && !FingerprintSet(baseline, name)
    case NonSpecRunSchemaFingerprintConfigured =>
      issue.severity.Warning? && !specRun && name in baseline && FingerprintSet(baseline, name)
    case _ => false
  }

  lemma FingerprintIsSet(baseline: Baseline, name: string)
    requires name in baseline
    ensures HasFingerprint(baseline[name].expectedSchemaFingerprint) <==> FingerprintSet(baseline, name)
  {
    var expected := baseline[name].expectedSchemaFingerprint;
    if expected.Some? {
      TrimmedAway(expected.value);
    }
    hide Trim, Blank;
  }

  lemma ScenarioDeserves(s: Scenario, baseline: Baseline, issue: Issue)
    ensures issue in ScenarioIssues(s, baseline) <==>
              issue.scenarioName == s.name && DeservedBy(baseline, issue, s.kind.SpecRun?)
  {
    if s.name in baseline {
      FingerprintIsSet(baseline, s.name);
    }
    hide HasFingerprint, FingerprintSet;
  }

  lemma CoverageDeserved(scenarios: seq<Scenario>, baseline: Baseline, issue: Issue)
    ensures issue in CoverageIssues(scenarios, baseline) <==>
              || (DeservedBy(baseline, issue, true) && InMatrix(scenarios, issue.scenarioName, true))
              || (DeservedBy(baseline, issue, false) && InMatrix(scenarios, issue.scenarioName, false))
  {
    CoverageAre(scenarios, baseline, issue);
    forall i | 0 <= i < |scenarios|
      ensures issue in ScenarioIssues(scenarios[i], baseline) <==>
                scenarios[i].name == issue.scenarioName && DeservedBy(baseline, issue, scenarios[i].kind.SpecRun?)
    {
      ScenarioDeserves(scenarios[i], baseline, issue);
    }
    hide ScenarioIssues, DeservedBy, CoverageIssues;
    if issue in CoverageIssues(scenarios, baseline) {
      var i :| 0 <= i < |scenarios| && issue in ScenarioIssues(scenarios[i], baseline);
      assert InMatrix(scenarios, issue.scenarioName, scenarios[i].kind.SpecRun?);
    }
    if DeservedBy(baseline, issue, true) && InMatrix(scenarios, issue.scenarioName, true) {
      DeservingScenario(scenarios, baseline, issue, true);
    }
    if DeservedBy(baseline, issue, false) && InMatrix(scenarios, issue.scenarioName, false) {
      DeservingScenario(scenarios, baseline, issue, false);
    }
  }

  lemma DeservingScenario(scenarios: seq<Scenario>, baseline: Baseline, issue: Issue, specRun: bool)
    requires DeservedBy(baseline, issue, specRun) && InMatrix(scenarios, issue.scenarioName, specRun)
    ensures exists i | 0 <= i < |scenarios| :: issue in ScenarioIssues(scenarios[i], baseline)
  {
    var i :| 0 <= i < |scenarios| && scenarios[i].name == issue.scenarioName
             && scenarios[i].kind.SpecRun? == specRun;
    ScenarioDeserves(scenarios[i], baseline, issue);
  }

  // ----- unknown names -----

  lemma {:induction false} UnknownAre(keys: seq<string>, names: set<string>, issue: Issue)
    ensures issue in UnknownIssues(keys, names) <==>
              && issue.severity.Warning? && issue.kind.UnknownBaselineScenario?
              && issue.scenarioName in keys && issue.scenarioName !in names
  {
    if keys != [] {
      var n := |keys| - 1;
      UnknownAre(keys[..n], names, issue);
      assert keys == keys[..n] + [keys[n]];
    }
  }

  lemma NamedInMatrix(scenarios: seq<Scenario>, name: string)
    ensures name in Names(scenarios) <==> InMatrix(scenarios, name, true) || InMatrix(scenarios, name, false)
  {
    if name in Names(scenarios) {
      var i :| 0 <= i < |scenarios| && scenarios[i].name == name;
      assert InMatrix(scenarios, name, scenarios[i].kind.SpecRun?);
    }
  }

  /** The lint raises an issue exactly when it is deserved. */
  lemma IssuesAreDeserved(scenarios: seq<Scenario>, baseline: Baseline, issue: Issue)
    ensures issue in LintIssues(scenarios, baseline) <==> Deserved(scenarios, baseline, issue)
  {
    hide DuplicateIssues, CoverageIssues, UnknownIssues, SortedKeys, Occurrences, Repeated, InMatrix, Names;
    hide FingerprintSet;
    var name := issue.scenarioName;
    var names, keys := SortedKeys(Names(scenarios)), SortedKeys(baseline.Keys);
    InOneOfThree(DuplicateIssues(names, scenarios), CoverageIssues(scenarios, baseline),
                 UnknownIssues(keys, Names(scenarios)), issue);
    DuplicatesAre(names, scenarios, issue);
    CoverageDeserved(scenarios, baseline, issue);
    UnknownAre(keys, Names(scenarios), issue);
    RepeatedIsCountedTwice(scenarios, name);
    RepeatedIsNamed(scenarios, name);
    NamedInMatrix(scenarios, name);
  }

  lemma InOneOfThree(a: seq<Issue>, b: seq<Issue>, c: seq<Issue>, x: Issue)
    ensures x in a + b + c <==> x in a || x in b || x in c
  {}

  lemma RepeatedIsNamed(scenarios: seq<Scenario>, name: string)
    ensures Repeated(scenarios, name) ==> name in Names(scenarios)
  {}
}
