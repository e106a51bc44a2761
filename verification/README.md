# Verified models of LoongClaw

Dafny models of the parts of LoongClaw whose correctness is least visible in the code, with proofs about every input, every run or every reachable state. `dafny verify dfyconfig.toml` checks all of it.

| files | what they model |
|---|---|
| `Text`, `Ordered` | characters and their UTF-8 length, white space, "ink" (a text without its white space), string order, sorted map keys, sorting and deduplicating by key |
| `Wrapping`, `WrappingLaws`, `WrappingOptimal`, `WrappingLayout`, `DisplayLine`, `DisplayShape` | the greedy text wrapper of the terminal presentation |
| `Json`, `SchemaShape`, `SchemaText` | the JSON shape fingerprint of a benchmark run |
| `Stats`, `Gate`, `GateLaws`, `Aggregation`, `AggregationLaws`, `Summary`, `Lint`, `LintLaws` | the benchmark: statistics, regression gate, aggregation, reports, baseline lint |
| `GrowthRatio` | the weighted growth ratio of summaries |
| `CircuitBreaker`, `BreakerLaws`, `HalfOpenDriver`, `HalfOpenOutcome`, `HalfOpenRecovery` | the circuit breaker, the benchmark driver that exercises it, and the two together |
| `ProviderImport`, `ProviderApply`, `ProviderActive`, `ProviderMerge`, `ProviderFields` | importing provider profiles into a configuration |
| `ShellQuote`, `ShellText` | commands handed to the user to paste into a shell |
| `Audit`, `AuditLaws` | the audit journal window and its rollup |

Code that works step by step is a method with a loop, proved against a specification function; the laws are lemmas about that function. The circuit breakers and the configuration are classes. `f64` is `real`. Clocks, file contents, decoded lines, SHA-256 and resolved selectors are inputs.

What was found where the code does not do what one would expect of it:

- The wrapping loop does not end on every input. When the continuation prefix is as wide as the page, it ends only if everything fits on the first line or a single overlong character is left (`Wrapping.HaltsExactlyWhenWrappable`). For display lines the exact widths follow: a plain line needs a width above its indent, a bulleted or labelled one two columns more unless hardly anything is left to print (`DisplayLine.PlainLineNeedsMoreThanItsIndent`, `DisplayLine.BulletNeedsMoreThanItself`, `DisplayLine.LabelNeedsMoreThanTwoColumns`). On a terminal two columns wide, a line indented by two is printed for ever (`DisplayLine.NarrowTerminalNeverEnds`).
- A scenario that takes no time at all reports a throughput of zero, so lowering latencies can fail a gate. That is the only way it can (`Summary.FasterStillPasses`, `Summary.NoTimeAtAllFails`).
- Raising a relative tolerance loosens a check, upper or lower bound, exactly when its threshold is not negative (`Gate.ToleranceLoosensExactlyNonNegative`, `Gate.MinToleranceLoosensExactlyNonNegative`).
- When its sums saturate, the weighted growth ratio still never exceeds the ratios of the runs it averages, but it can fall below them. A lower bound `lo` above one survives exactly when `lo` times the saturated base still fits in a word (`GrowthRatio.BoundsUnderSaturation`, with an input on either side: `GrowthRatio.SaturationLosesTheRatio`, `GrowthRatio.SaturationMayKeepTheRatio`).
- Merging two providers of one identity does not always keep that identity (`ProviderMerge.MergeKeepsKeyExactly`). Importing a provider twice into profiles of distinct identities creates a second profile exactly when it does not (`ProviderMerge.RealReimportOneExactly`), as for the built-in OpenAI profile with a custom path and the same URL cut one step later (`ProviderMerge.ResplitExample`). The kind always survives, so there is exactly one default per kind after every import (`ProviderMerge.RealImportKeepsOneDefaultPerKind`).
- A subcommand is not quoted. The formatted command is read, for every path, as the words blanks divide the subcommand into exactly when each of these is a plain word (`ShellQuote.SubcommandReadsAsItsWordsExactlyWhenPlain`).
- Whether the half-open benchmark passes depends on timing as well as on parameters. For every policy, deadline and clock the exact condition is in `HalfOpenRecovery.PassesExactly`: at least the failures that open the breaker, a whole cooldown before each further one but none before the open check, no poll refused past the deadline, and room for the successes needed in the driver's target and in one window. A stalled clock can make a scenario with one failure too many pass, and one with the right number fail (`HalfOpenRecovery.PausedFailurePasses`, `HalfOpenRecovery.PausedCheckFails`).

## Model

| member | source | states |
|---|---|---|
| `Wrapping.TakeFittingPrefix` | crates/app/src/presentation.rs:395-413 | the longest prefix that fits in the room in UTF-8 bytes, ending at a character boundary, and never empty for a text that is not |
| `Wrapping.PlaceSegment` | crates/app/src/presentation.rs:351-386 | placing one segment leaves a state from which the rest of the run ends as it would have from the start |
| `Wrapping.RenderWrappedSegments` | crates/app/src/presentation.rs:332-393 | the nested loops compute the lines of the step machine's final state, on every input on which that machine halts; those are the lines of the one tight layout, by `WrappingLayout.WrappedIsTheTightLayout` |
| `WrappingLayout.WrappedIsTheTightLayout` | crates/app/src/presentation.rs:332-393 | told by rows of pieces and not by steps: the lines are the printed rows of the only tight layout of the segments, in which a row ends only where the next segment would overflow the page, and inside a segment only where one more character would |
| `WrappingLayout.TightIsUnique` | crates/app/src/presentation.rs:351-386 | two tight layouts of the same segments are the same, cut for cut |
| `Wrapping.HaltsExactlyWhenWrappable` | crates/app/src/presentation.rs:339-386 | the loop ends if and only if the page is wider than the continuation prefix, or all segments fit on the first line, or a lone one-character segment remains on a line with room left |
| `Wrapping.EndsWithinFuel` | crates/app/src/presentation.rs:339-386 | on a page wider than the continuation prefix the loop ends within an explicit number of steps |
| `Wrapping.StuckForever` | crates/app/src/presentation.rs:370-378 | a state whose line break gains no room is never left |
| `WrappingLaws.StepKeepsInk` | crates/app/src/presentation.rs:351-386 | every step of the loop keeps all visible characters in order, through line breaks and splits inside a word |
| `WrappingLaws.WrappedKeepsInk` | crates/app/src/presentation.rs:332-393 | with blank separators and continuation prefixes, the visible characters of the output are those of the prefix and the segments |
| `WrappingLaws.StepStaysBounded` | crates/app/src/presentation.rs:351-386 | every step keeps finished and current lines within the page, or overlong by one character only |
| `WrappingLaws.WrappedStaysWithin` | crates/app/src/presentation.rs:339-413 | every line is at most the effective width for ASCII segments and at most three bytes over it for any text |
| `WrappingOptimal.StaysAhead` | crates/app/src/presentation.rs:351-386 | from any state of the loop, greedy placement uses no more lines than any valid cut of what is left |
| `WrappingOptimal.GreedyCut` | crates/app/src/presentation.rs:351-386 | from any state, the lines printed are themselves a valid cut of what is left |
| `WrappingOptimal.GreedyIsOptimal` | crates/app/src/presentation.rs:332-393 | when the first segment fits after the prefix and every other after the continuation prefix, the output is a valid cut of the segments into lines and has the fewest lines of all valid cuts |
| `DisplayLine.RenderWrappedTextLineWithContinuation` | crates/app/src/presentation.rs:240-251 | a blank value gives the prefix alone, without its trailing blanks; with a blank continuation nothing visible of prefix and value is lost |
| `DisplayLine.RenderWrappedLabeledDisplayLine` | crates/app/src/presentation.rs:300-330 | the two label paths make the runs whose lines are described by `DisplayShape.LabelInFront` and `DisplayShape.LabelAbove` |
| `DisplayShape.FittingLineIsPrintedWhole` | crates/app/src/presentation.rs:257-330 | a line whose indent, bullet, label and words joined by single spaces fit in the width is printed as exactly that one line |
| `DisplayShape.LabelInFront` | crates/app/src/presentation.rs:300-321 | if prefix, label and colon fit in the width, the first line starts with them and every further line with the continuation; if the joined value fits too there is one line |
| `DisplayShape.LabelAbove` | crates/app/src/presentation.rs:300-330 | otherwise the first lines hold the prefix and the label alone, and the value starts on a line of its own behind the continuation |
| `DisplayShape.LabelledLinesHang` | crates/app/src/presentation.rs:257-330 | the same for a whole display line: which of the two shapes a labelled line takes, with its indent, bullet and hanging indent spelled out |
| `DisplayShape.UnlabelledLinesHang` | crates/app/src/presentation.rs:257-298 | a line without a label hangs under its indent, a bulleted one two columns further in, and the bullet shows on the first line |
| `Text.SplitWhitespaceDivides` | crates/app/src/presentation.rs:246-249 | the words of a value are its maximal runs without white space, in order |
| `DisplayLine.RenderWrappedDisplayLine` | crates/app/src/presentation.rs:257-298 | on all four paths nothing visible is lost, and lines stay within a width above indent plus two |
| `DisplayLine.DisplayKeepsInk` | crates/app/src/presentation.rs:257-330 | deleting white space from the output gives the line with white space deleted, on every input that halts |
| `DisplayLine.DisplayStaysWithin` | crates/app/src/presentation.rs:257-330 | for a width above indent plus two, every output line is within the width if the line is ASCII and at most three bytes over it otherwise |
| `DisplayLine.WideEnoughDisplays` | crates/app/src/presentation.rs:257-330 | a width above indent plus two is enough for the loop to end on every line |
| `DisplayLine.PlainLineNeedsMoreThanItsIndent` | crates/app/src/presentation.rs:297-298 | a line without bullet or label can be displayed if and only if the width exceeds its indent |
| `DisplayLine.BulletNeedsMoreThanItself` | crates/app/src/presentation.rs:269-285 | a bulleted line without label can be displayed if and only if the width exceeds indent and bullet or nothing follows the bullet |
| `DisplayLine.LabelNeedsMoreThanTwoColumns` | crates/app/src/presentation.rs:300-330 | a labelled line can be displayed if and only if the width exceeds the indent by more than two, or it has no bullet, no value and a label of at most two bytes with its colon |
| `DisplayLine.NarrowTerminalNeverEnds` | crates/app/src/presentation.rs:370-378 | a concrete line and width on which the loop never ends |
| `Json.PrintUnambiguous` | crates/bench/src/lib.rs:4637-4640 | printed descriptors form a prefix code: no two values can be read from one text |
| `Json.PrintInjective` | crates/bench/src/lib.rs:4637-4640 | two descriptors are equal if and only if they print alike, so the sort key identifies a descriptor |
| `Json.EscapeStandsForCharacter` | crates/bench/src/lib.rs:4637-4640 | every character of a printed string is in a form that stands for it by the table of section 7 of RFC 8259 |
| `SchemaText.PrintedDescriptorIsShapeText` | crates/bench/src/lib.rs:4619-4656 | for every value the text that is hashed is the shape text: a word for each scalar, the ascending set of element texts for an array, the members by key for an object |
| `SchemaShape.CanonicalIsSet` | crates/bench/src/lib.rs:4633-4642 | sorting by printed key and dropping repeats gives equal lists exactly for lists with the same elements |
| `SchemaShape.ArrayIsNotObject` | crates/bench/src/lib.rs:4643-4654 | no array has the descriptor of an object, not even of one whose only key is "array" |
| `SchemaShape.DescriptorIsCanonical` | crates/bench/src/lib.rs:4626-4656 | two JSON values have the same descriptor if and only if they have the same shape |
| `SchemaShape.FingerprintIsShape` | crates/bench/src/lib.rs:4619-4624 | for any hash, fingerprints are equal if and only if shapes are or the two printed descriptors differ and collide, and never both |
| `SchemaShape.FingerprintIgnoresEdits` | crates/bench/src/lib.rs:4619-4656 | at any depth, replacing a part by one of the same shape, a changed leaf included, never changes the fingerprint, whatever the hash |
| `SchemaShape.FingerprintIgnoresOrder` | crates/bench/src/lib.rs:4632-4648 | at any depth, reordering or repeating array elements never changes the fingerprint |
| `Stats.StatsOrdered` | crates/bench/src/lib.rs:4698-4716 | min, p50, p95, p99 and max are in order, the average lies between min and max, and min and max are samples that bound all samples |
| `Stats.StatsIgnoreOrder` | crates/bench/src/lib.rs:4698-4716 | reordering the samples changes no statistic |
| `Stats.StatsBelow` | crates/bench/src/lib.rs:4698-4716 | lowering samples one by one raises no statistic |
| `Stats.PercentileMonotone` | crates/bench/src/lib.rs:4718-4738 | a percentile never falls as its ratio rises |
| `Stats.PercentileHits` | crates/bench/src/lib.rs:4718-4738 | at every ratio that falls on a sample, the end points included, the percentile is that sample; between samples see `Stats.PercentileInterpolates` |
| `Stats.PercentileInterpolates` | crates/bench/src/lib.rs:4718-4738 | between two neighbouring samples the percentile is the linear interpolation of the two by the clamped ratio times the last index, written out |
| `Stats.StatsMeaning` | crates/bench/src/lib.rs:4698-4716 | for any ascending rearrangement of the values: count, least and greatest value, the mean as the number that times the count is the sum, and the percentiles at 0.50, 0.95 and 0.99 |
| `Stats.PercentileBelow` | crates/bench/src/lib.rs:4718-4738 | percentiles of pointwise lower sorted samples are lower, at every ratio |
| `Stats.SortBelow` | crates/bench/src/lib.rs:4703-4704 | sorting keeps pointwise order between two sample lists |
| `Gate.EvaluateScenarioGate` | crates/bench/src/lib.rs:4303-4450 | the gate built by pushing checks one after the other is the gate of the list of verdicts, missing baseline included |
| `Gate.EvaluateThresholds` | crates/bench/src/lib.rs:4332-4450 | with a baseline, the pushed checks and warnings are exactly those of the verdicts, and the gate passes exactly when all checks do |
| `Gate.PassesExactlyWithinThresholds` | crates/bench/src/lib.rs:4332-4600 | a gate with a baseline passes if and only if each of the seven metrics is within its threshold scaled by the tolerance, or unobserved and unenforced, and the fingerprint is the expected one |
| `GateLaws.PassesExactlyWhenTolerated` | crates/bench/src/lib.rs:4332-4600 | the same with clamps and products written out: upper bounds hold with the upper share, lower bounds with the lower share, times with the extra milliseconds as well |
| `GateLaws.ChecksAreHonest` | crates/bench/src/lib.rs:4463-4600 | every check's verdict is what its comparator says of its own numbers; the exception is an unobserved lower bound, which fails at a reported zero |
| `GateLaws.CheckedMetrics` | crates/bench/src/lib.rs:4332-4450 | there is one check for each metric the baseline bounds, in a fixed order, and for an unobserved one only under enforcement |
| `Gate.EnforcingFailsTheWarnings` | crates/bench/src/lib.rs:4303-4600 | the unenforced checks are a subsequence of the enforced ones, and the enforced gate passes if and only if the unenforced one passes without warnings |
| `Gate.RaisingToleranceKeepsPassing` | crates/bench/src/lib.rs:4303-4566 | for thresholds that are not negative, raising any tolerance never turns a pass into a fail |
| `Gate.ToleranceLoosensExactlyNonNegative` | crates/bench/src/lib.rs:4452-4470 | raising the ratio loosens an upper bound for all observations if and only if the threshold is not negative |
| `Gate.MinToleranceLoosensExactlyNonNegative` | crates/bench/src/lib.rs:4472-4490 | raising the ratio loosens a lower bound for all observations if and only if the threshold is not negative |
| `Aggregation.CollectSpecStepMetrics` | crates/bench/src/lib.rs:4235-4301 | one pass over a run's steps yields the merged scheduler snapshot of all steps and every error code's count added to what was there |
| `Aggregation.CountCallErrors` | crates/bench/src/lib.rs:4243-4257 | each code is counted once per failed call that carries it |
| `Aggregation.MergeErrorCodes` | crates/bench/src/lib.rs:4103-4108 | each merged count is the sum of that code over all samples, and no other code appears |
| `Aggregation.TwoLevelsAreOne` | crates/bench/src/lib.rs:4151-4206 | maxima, minima and sums over per-run snapshots equal those over all steps of all runs |
| `Aggregation.AggregateIsOnePass` | crates/bench/src/lib.rs:4151-4206 | merging per step and then per run gives the same aggregate as one pass over all steps of all runs in any order |
| `AggregationLaws.AggregateDescribes` | crates/bench/src/lib.rs:4151-4206 | there are scheduler figures if and only if a run was observed; they count the observed runs, the mean peak times that count is the sum of peaks, and the largest peak and the smallest and largest budget bound every run and are attained |
| `Summary.SummarizeScenario` | crates/bench/src/lib.rs:4080-4149 | the report's counts, call total, aggregates and merged error codes are those of its samples, and its metrics measure what they say: error rate times iterations is the failed runs, throughput times total time is a thousand times the calls, circuit-open ratio times calls is the merged circuit_open count |
| `Summary.MetricsMeasure` | crates/bench/src/lib.rs:4088-4118 | the same equations for the metrics of any samples, with zero where there is no time or no call |
| `Summary.SeveralFingerprints` | crates/bench/src/lib.rs:4602-4617 | two different fingerprints or more are reported as a hash of the distinct ones in ascending order, joined by bars and marked as several |
| `Summary.ClosedRateIsShare` | crates/bench/src/lib.rs:4208-4233 | the closed rate lies between zero and one, and is one if and only if some run tells and all that tell say the circuit closed |
| `Summary.AggregateFingerprintIsSet` | crates/bench/src/lib.rs:4602-4617 | the fingerprint of a scenario depends only on the set of run fingerprints, is absent exactly when none was seen, and is the common one when all agree |
| `Summary.FasterMetrics` | crates/bench/src/lib.rs:4088-4101 | lower latencies improve every latency statistic and leave every other metric but throughput alone |
| `Summary.OnlyThroughputDecides` | crates/bench/src/lib.rs:4303-4450 | among improved metrics only throughput can fail a gate that passed |
| `Summary.FasterStillPasses` | crates/bench/src/lib.rs:4080-4149 | with lower latencies a passed gate still passes if and only if some time was still spent or a throughput of zero is accepted |
| `Summary.NoTimeAtAllFails` | crates/bench/src/lib.rs:4096-4100 | a concrete pair of runs where the faster one fails the gate the slower one passes |
| `Lint.LintBaseline` | crates/bench/src/lib.rs:3677-3773 | the issues found by the four passes, in order, are those of the specification |
| `Lint.FindDuplicates` | crates/bench/src/lib.rs:3682-3699 | one error per repeated name, in key order |
| `Lint.FindUncovered` | crates/bench/src/lib.rs:3707-3757 | the errors and warnings about missing baselines and fingerprints, scenario by scenario |
| `Lint.FindUnknown` | crates/bench/src/lib.rs:3759-3770 | one warning per baseline entry that names no scenario |
| `Lint.ErrorFreeMeaning` | crates/bench/src/lib.rs:3677-3773 | there are no errors if and only if names are distinct, every scenario has a baseline and every spec-run baseline a fingerprint that is not blank |
| `Lint.CountsTellDistinct` | crates/bench/src/lib.rs:3682-3699 | names are pairwise distinct if and only if no name is counted twice |
| `Lint.RefusedExactlyWhenReported` | crates/bench/src/lib.rs:3653-3674 | the lint gate passes if and only if no issue is selected for the refusal message |
| `Lint.CleanLintSettlesPresence` | crates/bench/src/lib.rs:3677-3773 | after a lint without errors no scenario's enforced gate contains a check for a missing baseline or a missing fingerprint |
| `Lint.StrictPreflight` | crates/bench/src/lib.rs:892-910 | the run starts if and only if there is no error, or no issue at all when warnings count; a refusal lists exactly the errors, or all issues, in order; and a started run never meets a presence check |
| `Lint.PassesExactlyWithout` | crates/bench/src/lib.rs:3668-3676 | the lint gate passes if and only if there is no issue, or no error when warnings do not count |
| `Lint.RefusalLists` | crates/bench/src/lib.rs:3653-3666 | the listed issues are all of them, or exactly the errors in their order |
| `LintLaws.IssuesAreDeserved` | crates/bench/src/lib.rs:3678-3773 | an issue is raised if and only if it is true of the matrix and the baseline: for each of the six kinds its severity and what it says of its scenario name |
| `GrowthRatio.PresentExactlyWhenComparable` | crates/bench/src/lib.rs:2928-2986 | the weighted ratio is present if and only if some run is comparable, even when sums saturate, and is never below one |
| `GrowthRatio.WeightedSaturates` | crates/bench/src/lib.rs:2963-2984 | for every input the fold computes the exact weighted sums, each cut off at the largest word |
| `GrowthRatio.RatioOfSums` | crates/bench/src/lib.rs:2963-2990 | the ratio times the cut-off base sum is the cut-off target sum, or the base sum where that is larger |
| `GrowthRatio.BoundsUnderSaturation` | crates/bench/src/lib.rs:2952-2986 | for every input the weighted ratio is at most any upper bound on the comparable runs, and at least a lower bound if and only if that is at most one or times the saturated base fits in a word |
| `GrowthRatio.BetweenTheRuns` | crates/bench/src/lib.rs:2952-2986 | while nothing saturates the weighted ratio lies between any bounds on the ratios of comparable runs |
| `GrowthRatio.SaturationLosesTheRatio` | crates/bench/src/lib.rs:2976-2982 | a single run whose weighted ratio is 1 although it grew threefold |
| `GrowthRatio.SaturationMayKeepTheRatio` | crates/bench/src/lib.rs:2976-2982 | runs whose sums saturate and whose weighted ratio is still in range |
| `CircuitBreaker.Registry.constructor` | crates/spec/src/spec_runtime.rs:395-413 | every breaker starts closed with nothing counted |
| `CircuitBreaker.Registry.Acquire` | crates/spec/src/programmatic.rs:1286-1341 | asking for a slot is refused while cooling down or when the half-open window is spent, and otherwise granted in the phase it leads to; a connector without a policy is disabled and keeps no state; no other connector's state changes |
| `CircuitBreaker.Registry.Record` | crates/spec/src/programmatic.rs:1343-1400 | an outcome counts failures, opens at the threshold, reopens from half open, and closes after enough successes; a connector without a policy is disabled; no other connector's state changes |
| `CircuitBreaker.ConnectorsAreIndependent` | crates/spec/src/programmatic.rs:1286-1400 | after any history over all connectors, each breaker is where its own operations alone would have taken it, and connectors without a policy have none |
| `CircuitBreaker.RunIsSound` | crates/spec/src/programmatic.rs:1286-1400 | every run of a valid breaker keeps its state invariant |
| `BreakerLaws.OpensExactlyOnThreshold` | crates/spec/src/programmatic.rs:1352-1371 | over every history a closed breaker stays closed if and only if no run of failures without a success between them reaches the threshold, and the failure that reaches it opens it |
| `BreakerLaws.OpensForOneCooldown` | crates/spec/src/programmatic.rs:1286-1400 | whatever opens a breaker, it opens for exactly one cooldown from that moment |
| `BreakerLaws.CooldownEnds` | crates/spec/src/programmatic.rs:1286-1340 | an open breaker admits a call if and only if its cooldown is over, and that call opens a full half-open window |
| `BreakerLaws.WindowEnds` | crates/spec/src/programmatic.rs:1286-1400 | after every history inside a window, exactly which operation closes the breaker, reopens it or leaves the window open, by the successes and admissions of the history |
| `CircuitBreaker.CooldownIsRespected` | crates/spec/src/programmatic.rs:1301-1315 | until the cooldown ends nothing changes an open breaker and every slot is refused |
| `CircuitBreaker.WindowIsSpent` | crates/spec/src/programmatic.rs:1322-1337 | while half open, slots granted and slots left add up to the window |
| `HalfOpenDriver.RunCircuitHalfOpen` | crates/bench/src/lib.rs:3934-4078 | the driver's loops produce the outcome of the step machine on the same answers |
| `HalfOpenDriver.AwaitRecovery` | crates/bench/src/lib.rs:3992-4078 | polling and recovery rounds produce the machine's outcome from the polling state |
| `HalfOpenDriver.AnyAnswers` | crates/bench/src/lib.rs:3934-4078 | from every state of the driver, for all answers: bounded calls, a coherent sample, and a pass only if what that state still waits for comes in order |
| `HalfOpenDriver.AnySample` | crates/bench/src/lib.rs:3934-4078 | for all answers, calls are at most the injected failures plus the recovery target, a sample is passed exactly when its codes are one circuit_open, and only if all failures were admitted, the next slot refused, a later one granted half open, and the circuit closed by that call or a later one |
| `HalfOpenOutcome.EveryReport` | crates/bench/src/lib.rs:3934-4078 | for all answers the report is read off at once: how many slots were granted first, which answer ended the polling and its elapsed time as the transition time, which of the three failure codes applies, and the number of calls |
| `HalfOpenRecovery.JointRunIsDriverRun` | crates/bench/src/lib.rs:3934-4078 | a run of driver and real breaker is a run of the driver on the breaker's answers |
| `HalfOpenRecovery.TooFewFailures` | crates/bench/src/lib.rs:3950-3980 | with fewer failures than the threshold the sample fails with circuit_not_open_after_failures, under every clock |
| `HalfOpenRecovery.TooManyFailures` | crates/bench/src/lib.rs:3954-3965 | for every clock, the failures after the breaker opened end in an error if and only if one is not preceded by a whole cooldown or the policy has no half-open window |
| `HalfOpenRecovery.StaysInStep` | crates/bench/src/lib.rs:3967-4078 | for every clock and deadline, driver and breaker agree on phase, successes and slots left at every moment after the open check, and the verdict is the one parameters and times allow |
| `HalfOpenRecovery.SmallWindowNeverPasses` | crates/bench/src/lib.rs:3998-4078 | for every clock, if the window is smaller than the successes needed the breaker never closes again and no run passes |
| `HalfOpenRecovery.PassesExactly` | crates/bench/src/lib.rs:3934-4078 | for every policy, deadline and clock, a run passes if and only if parameters and times allow it and it is long enough, a finished one if and only if they allow it, and a pass takes exactly the failures plus the successes needed |
| `HalfOpenRecovery.PassesExactlyWhenConfiguredTo` | crates/bench/src/lib.rs:3934-4078 | where the policy is valid, the deadline no shorter than the default and the clock even, the parameters alone decide |
| `HalfOpenRecovery.LateOpenCheck` | crates/bench/src/lib.rs:3967-3979 | an open check after a whole cooldown is granted, and the run reports circuit_not_open_after_failures |
| `HalfOpenRecovery.PausedFailurePasses` | crates/bench/src/lib.rs:3954-3965 | a concrete clock on which one failure too many still passes |
| `HalfOpenRecovery.PausedCheckFails` | crates/bench/src/lib.rs:3967-3979 | a concrete clock on which a scenario with the right parameters fails |
| `HalfOpenRecovery.PollAfterCooldownIsHalfOpen` | crates/bench/src/lib.rs:3998-4026 | for every clock, deadline and policy with a window, a poll made after the cooldown is granted half open and is the last one |
| `ProviderImport.FindFreshId` | crates/daemon/src/import_cli.rs:700-705 | the suffix search returns the first free candidate after at most one try more than there are profiles |
| `ProviderActive.NewProfileId` | crates/daemon/src/import_cli.rs:693-705 | a provider no profile owns gets the preferred id, trimmed, or the inferred one if that is blank; if it is in use, the first of the suffixes 2, 3 and so on that is free |
| `ProviderActive.DecimalIsNumeral` | crates/daemon/src/import_cli.rs:703 | the suffix is the number in decimal digits without leading zeros |
| `ProviderImport.FreshId` | crates/daemon/src/import_cli.rs:700-705 | the id is not in use, is the base or the base with a number, and every earlier candidate is in use |
| `ProviderImport.Pigeonhole` | crates/daemon/src/import_cli.rs:700-705 | no more candidates can be in use than there are profiles |
| `ProviderImport.InsertOrMergeProviderProfile` | crates/daemon/src/import_cli.rs:680-716 | the in-place search, suffix loop and kind scan compute one insertion |
| `ProviderImport.FindOwner` | crates/daemon/src/import_cli.rs:686-689 | the first profile in key order with the given identity |
| `ProviderImport.FindKind` | crates/daemon/src/import_cli.rs:708-711 | whether some profile has the kind |
| `ProviderImport.InsertGrows` | crates/daemon/src/import_cli.rs:680-716 | an insertion loses no id, adds at most the returned one, touches only the profile it merges into, and makes a new profile default exactly when it is the first of its kind |
| `ProviderImport.NothingIsLost` | crates/daemon/src/import_cli.rs:680-741 | over any run and any merge, ids and flags stay and each profile is reached by merging choices of the identity it then had |
| `ProviderImport.InsertAllRuns` | crates/daemon/src/import_cli.rs:680-741 | where merging keeps identity, identities stay distinct, a profile that was there holds the choices of its identity merged in order, a created one the first choice of its identity with the later ones merged in order, and each choice's identity is at its id |
| `ProviderImport.ReimportIsStable` | crates/daemon/src/import_cli.rs:680-741 | where merging keeps identity, importing the same choices again creates no id and gives every choice the same id |
| `ProviderImport.ReimportOneExactly` | crates/daemon/src/import_cli.rs:680-716 | whatever merging does, importing one choice twice into distinct identities creates one id more exactly when the first merge moved the identity |
| `ProviderImport.RunKeepsDefaults` | crates/daemon/src/import_cli.rs:706-713 | where merging keeps the kind, a run of insertions keeps exactly one default per kind, whatever becomes of identities |
| `ProviderApply.Config.ApplyProviderProfiles` | crates/daemon/src/import_cli.rs:718-809 | without choices or with a selector that fails nothing changes; otherwise profiles, active provider, provider and last provider are settled, and outside the keep-existing path the last provider is not the active one |
| `ProviderApply.Config.Settle` | crates/daemon/src/import_cli.rs:778-800 | a chosen profile becomes the active provider and the only default of its kind; other kinds and all providers stay as insertion left them |
| `ProviderApply.Config.MakeDefault` | crates/daemon/src/import_cli.rs:784-795 | the flag loop leaves the active profile as only default of its kind and touches nothing else |
| `ProviderApply.Config.Remember` | crates/daemon/src/import_cli.rs:801-808 | the last provider is the formerly active one unless it is still active, and is kept on the keep-existing path |
| `ProviderApply.Config.Remembered` | crates/daemon/src/import_cli.rs:801-808 | outside the keep-existing path it never is the active id |
| `ProviderApply.InsertChoices` | crates/daemon/src/import_cli.rs:732-742 | the loop over choices computes the run of insertions and the map from choice ids to profile ids |
| `ProviderApply.ChooseActive` | crates/daemon/src/import_cli.rs:744-776 | the active id chosen on each path, and the two selector errors; by `ProviderActive.ActiveIdIsThePickedOne` it is the id given to the picked choice |
| `ProviderActive.ActiveIdIsThePickedOne` | crates/daemon/src/import_cli.rs:744-776 | unless the existing provider is kept, the active id is the id the run gave the last choice with the matched id, else with the default id, else with the least id |
| `ProviderActive.SomeChoiceIsPicked` | crates/daemon/src/import_cli.rs:744-776 | a choice is picked if and only if the selector names one, or there is no selector and there are choices |
| `ProviderActive.ImportActivatesThePickedChoice` | crates/daemon/src/import_cli.rs:718-809 | where merging keeps identities, the active provider after the import has the identity of the picked choice, under the id the run gave it |
| `ProviderActive.SupplementingKeepsActive` | crates/daemon/src/import_cli.rs:744-749 | supplementing without a selector leaves the provider active that was, and there always is one |
| `ProviderActive.ActiveIdOf` | crates/app/src/config/runtime.rs:1160-1171 | the active id is the configured one unless blank, else the least profile id, else the one the provider suggests |
| `ProviderApply.ChosenIsPresent` | crates/daemon/src/import_cli.rs:744-776 | outside the keep-existing path the chosen id is always a profile, if the selector names a choice |
| `ProviderApply.ImportKeepsOneDefaultPerKind` | crates/daemon/src/import_cli.rs:718-809 | where merging keeps the kind, a whole import keeps exactly one default per kind, whichever profile becomes active |
| `ProviderMerge.RealImportKeepsOneDefaultPerKind` | crates/daemon/src/import_cli.rs:718-809 | with the real merge, every import keeps exactly one default per kind |
| `ProviderMerge.SegmentMeaning` | crates/daemon/src/migration/provider_selection.rs:477-493 | a segment holds lower-case letters, digits and single dashes, none at the ends; there is one if and only if the trimmed text has a letter or digit; a segment is its own segment |
| `ProviderFields.SegmentIsJoinedWords` | crates/daemon/src/migration/provider_selection.rs:477-493 | the segment of any text, divided into words of letters and digits and what is between them, is those words in lower case joined by single dashes |
| `ProviderMerge.KeyParts` | crates/daemon/src/migration/provider_selection.rs:160-177 | two providers have equal merge keys if and only if kind, endpoint and model segment agree |
| `ProviderMerge.MergeKeepsKeyExactly` | crates/daemon/src/migration/provider_selection.rs:179-223 | merging keeps the merge key if and only if an endpoint settles it or no base or path is taken over that disagrees with the part that stays |
| `ProviderFields.MergeIsAssociative` | crates/daemon/src/migration/provider_selection.rs:179-223 | merging providers of one kind gives the same however it is grouped |
| `ProviderFields.MergeIsIdempotent` | crates/daemon/src/migration/provider_selection.rs:179-223 | merging a provider in twice, or into itself, changes nothing further |
| `ProviderFields.CompleteIsKept` | crates/daemon/src/migration/provider_selection.rs:179-223 | nothing overrides a provider whose fields are all set |
| `ProviderFields.OpenIsFilled` | crates/daemon/src/migration/provider_selection.rs:179-223 | a provider with nothing set becomes the complete one merged into it |
| `ProviderFields.FieldsAreIndependent` | crates/daemon/src/migration/provider_selection.rs:179-223 | each merged field depends on that field of the two providers and their kinds alone |
| `ProviderMerge.ResplitMovesKey` | crates/daemon/src/migration/provider_transport.rs:47-78 | for the kind's own base and any path other than its default, the URL cut there and cut later has one key, and the merged provider another |
| `ProviderMerge.RealReimportOneExactly` | crates/daemon/src/import_cli.rs:680-716 | with the real merge, a choice imported twice into distinct identities is still one profile if and only if the profile of its identity can take it in without moving, and one profile more otherwise |
| `ProviderMerge.ResplitImportsTwice` | crates/daemon/src/import_cli.rs:680-716 | for all such URLs, importing the provider twice creates a second profile |
| `ProviderMerge.ResplitExample` | crates/app/src/config/provider.rs:2735-2751 | the built-in OpenAI profile with a custom path, imported again with the URL cut one step later: a second profile |
| `ProviderMerge.RealOpsKeepIdentity` | crates/daemon/src/migration/provider_selection.rs:160-223 | among providers that write the URL of each identity in one style, merging keeps key, kind and style |
| `ProviderMerge.RealReimportIsStable` | crates/daemon/src/import_cli.rs:680-741 | with the real merge, importing any list of choices twice is stable when no two providers of one identity cut their URL differently or have one a blank and one a real endpoint |
| `ShellQuote.QuoteRoundTrip` | crates/daemon/src/cli_handoff.rs:3-5 | for every string a POSIX shell reads the quoted form as exactly one word, that string |
| `ShellText.QuotedText` | crates/daemon/src/cli_handoff.rs:3-5 | the exact text: what stands between single quotes is unchanged, and each single quote becomes the same five characters |
| `ShellQuote.AskRoundTrip` | crates/daemon/src/cli_handoff.rs:16-23 | for every path and message the ask command reads back as its six words |
| `ShellQuote.PlainWordsReadBack` | crates/daemon/src/cli_handoff.rs:7-14 | a subcommand whose blank-separated words are plain reads back as these words between the command name and the path |
| `ShellQuote.SpacedWordsReadBack` | crates/daemon/src/cli_handoff.rs:7-14 | for every list of plain words with a blank between each two, and every path, the command reads back word for word |
| `ShellQuote.SubcommandReadsAsItsWordsExactlyWhenPlain` | crates/daemon/src/cli_handoff.rs:7-14 | a subcommand is read as its blank-separated words for every path if and only if each of them is plain |
| `ShellQuote.SubcommandRoundTripsExactlyWhenPlain` | crates/daemon/src/cli_handoff.rs:7-14 | it is read back as one word for every path if and only if it is one plain word |
| `Audit.LoadAuditEventWindow` | crates/daemon/src/audit_cli.rs:270-295 | the deque never exceeds the limit and ends as the last events in order; loading fails exactly when some line is not an event, and names the first such line |
| `Audit.SummarizeAuditEvents` | crates/daemon/src/audit_cli.rs:297-329 | kind counts are exact and sum to the loaded count, triage counts are exact and sum to the triage events, and first, last and last triage event are right |
| `AuditLaws.TriageIsCounted` | crates/daemon/src/audit_cli.rs:270-329 | denied authorizations, failovers and blocked scans are counted as triage, each under its own label, and nothing else is |
| `AuditLaws.KindIsCounted` | crates/daemon/src/audit_cli.rs:297-362 | every kind of event is counted under its own label by the positions it occurs at |
| `AuditLaws.LastTriageIsLast` | crates/daemon/src/audit_cli.rs:297-329 | the reported triage event is the one at the last position that holds one, and there is none only if no position does |
| `Audit.FindLastTriage` | crates/daemon/src/audit_cli.rs:309-312 | the reported triage event has none after it, and none is reported only if there is none |
| `Audit.ExecuteAuditCommand` | crates/daemon/src/audit_cli.rs:78-104 | a command answers if and only if the limit is from 1 to 10000 and every line is an event, with the last events or their rollup; a bad limit is reported whatever the journal holds |

## Left out

- Rounding, NaN and infinity of `f64`: all arithmetic is over reals. Only tolerances may be other than finite, and their clamps are modelled.
- Overflow of plain additions on `usize` counters; only the saturating sums of the growth ratio are modelled with their width. The id suffix counter and the breaker's counters are unbounded.
- SHA-256: a parameter; every result holds for any hash.
- File reading, locks, JSON decoding and clocks: journal lines, breaker answers and times are inputs.
- RenderWrappedSegments: requires that the loop ends, since a method here has to; the exact inputs are those of `Wrapping.HaltsExactlyWhenWrappable`.
- WrappedKeepsInk: only for blank separators, since a comma at a line break is dropped by the code.
- Byte offsets: positions in a text are counted in characters, and widths in UTF-8 bytes, so slicing inside a character cannot be expressed.
- LintBaseline: issue messages are not modelled, only severity, kind and scenario name.
- SummarizeScenario: the iteration count is positive as its caller makes it. Warm-up runs and the iteration loop are left out.
- Acquire: the messages of refusals are not modelled.
- RealReimportIsStable: the condition is sufficient for a list of choices; the exact one is given for a single choice, by `ProviderMerge.RealReimportOneExactly`.
- Merge: only kind, model, base URL, path and endpoint of a provider are modelled, since its identity depends on nothing else; keys, tokens, headers and the wire format are not.
- ApplyProviderProfiles: which choices are imported and what a selector resolves to are inputs, and error messages are not modelled.
- QuoteRoundTrip: the shell reader stands for sections 2.2 and 2.3 of the POSIX.1-2017 Shell Command Language up to the words of one command line, without aliases.
- SubcommandReadsAsItsWordsExactlyWhenPlain: what a pattern expands to depends on the files present, so the reader gives up on `*`, `?` and `[` even where no file matches or a bracket is never closed, and a shell would keep them.
- ExecuteAuditCommand: a missing journal, one that is not a file and one that cannot be opened or locked are not modelled, nor is the text and JSON output.
- The adaptive scheduler, rate limits and retries of `crates/spec/src/programmatic.rs`; the benchmark only reads what they report.
- The memory and WASM cache benchmarks apart from the growth ratio, soft warnings, banners, styling and reports: field copying and formatting.
- The kernel's tokens, policies and audit sinks, channels, the conversation runtime and the daemon's other commands.
