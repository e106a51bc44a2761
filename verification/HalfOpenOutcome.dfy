/**
 What the half-open driver reports, read off the answers at once: how many slots were granted
 first, which answer ended the polling, and how the recovery went from there.
 */
module HalfOpenOutcome {
  import opened Text
  import opened CircuitBreaker
  import opened HalfOpenDriver

  /** How many answers from the first on satisfy the predicate. */
  function Lead(answers: seq<Answer>, p: Answer -> bool): (n: nat)
    ensures n <= |answers| && (forall i | 0 <= i < n :: p(answers[i])) && (n < |answers| ==> !p(answers[n]))
  {
    if answers == [] || !p(answers[0]) then 0 else 1 + Lead(answers[1..], p)
  }

  predicate IsGranted(a: Answer) {
    a.slot.Granted?
  }

  /** Polling goes on over refusals in time, and over grants in neither phase it waits for. */
  predicate KeepsPolling(a: Answer) {
    if a.slot.Granted? then a.slot.phase != "half_open" && a.slot.phase != "closed" else !a.timedOut
  }

  /** Recovery goes on over granted slots that leave the circuit not closed. */
  predicate KeepsRecovering(a: Answer) {
    a.slot.Granted? && a.slot.phase != "closed" && a.afterRecord != "closed"
  }

  /** The report, for all answers. */
  function Reported(failures: nat, recoverySuccesses: nat, answers: seq<Answer>): Outcome {
    var granted := Lead(answers, IsGranted);
    if granted < failures then if granted == |answers| then Unfinished else Failed
    else if |answers| == failures then Unfinished
    else if granted > failures then
      Finished(Sample(false, failures, map["circuit_not_open_after_failures" := 1], None, None))
    else ReportedPolling(failures, if recoverySuccesses == 0 then 1 else recoverySuccesses, answers[failures + 1..])
  }

  function ReportedPolling(calls: nat, target: nat, answers: seq<Answer>): Outcome {
    var polled := Lead(answers, KeepsPolling);
    if polled == |answers| then Unfinished
    else
      var seen, rest := answers[polled], answers[polled + 1..];
      if seen.slot != Granted("half_open") then
        Finished(Sample(false, calls, map["circuit_open" := 1, "half_open_not_observed" := 1], Some(seen.elapsedMs),
                        Some(false)))
      else if seen.afterRecord == "closed" then
        Finished(Sample(true, calls + 1, map["circuit_open" := 1], Some(seen.elapsedMs), Some(true)))
      else ReportedRecovery(calls + 1, target, seen.elapsedMs, rest)
  }

  /** One success is in; `target` of them are allowed. */
  function ReportedRecovery(calls: nat, target: nat, transitionMs: nat, answers: seq<Answer>): Outcome {
    var more := Lead(answers, KeepsRecovering);
    if 1 + more >= target then
      Finished(Sample(false, calls + Max(target, 1) - 1,
                      map["circuit_open" := 1, "circuit_not_closed_after_recovery" := 1], Some(transitionMs),
                      Some(false)))
    else if more == |answers| then Unfinished
    else if answers[more].slot.Refused? then Failed
    else Finished(Sample(true, calls + more + 1, map["circuit_open" := 1], Some(transitionMs), Some(true)))
  }

  lemma {:induction false} GrantsFirst(left: nat, calls: nat, recoverySuccesses: nat, answers: seq<Answer>)
    requires left > 0
    ensures var granted := Lead(answers, IsGranted);
            Drive(PreOpen(left, calls), recoverySuccesses, answers)
            == if granted < left then if granted == |answers| then Unfinished else Failed
               else Drive(OpenCheck(calls + left), recoverySuccesses, answers[left..])
  {
    if answers != [] && answers[0].slot.Granted? && left > 1 {
      GrantsFirst(left - 1, calls + 1, recoverySuccesses, answers[1..]);
      assert Lead(answers, IsGranted) >= left ==> answers[1..][left - 1..] == answers[left..];
    }
  }

  lemma {:induction false} PollsUntil(calls: nat, recoverySuccesses: nat, answers: seq<Answer>)
    ensures var polled := Lead(answers, KeepsPolling);
            Drive(Polling(calls), recoverySuccesses, answers)
            == if polled == |answers| then Unfinished
               else Drive(Polling(calls), recoverySuccesses, answers[polled..])
  {
    if answers != [] && KeepsPolling(answers[0]) {
      PollsUntil(calls, recoverySuccesses, answers[1..]);
      var polled := Lead(answers[1..], KeepsPolling);
      assert answers[1..][polled..] == answers[1 + polled..];
    } else {
      assert answers[0..] == answers;
    }
  }

  lemma {:induction false} RecoversUntil(left: nat, calls: nat, transitionMs: nat, recoverySuccesses: nat,
                                         answers: seq<Answer>)
    requires left > 0
    ensures Drive(Recovering(left, calls, transitionMs), recoverySuccesses, answers)
         == ReportedRecovery(calls, left + 1, transitionMs, answers)
  {
    if answers != [] && KeepsRecovering(answers[0]) && left > 1 {
      RecoversUntil(left - 1, calls + 1, transitionMs, recoverySuccesses, answers[1..]);
    }
  }

  lemma PollingReport(calls: nat, recoverySuccesses: nat, answers: seq<Answer>)
    ensures Drive(Polling(calls), recoverySuccesses, answers)
         == ReportedPolling(calls, RecoveryTarget(recoverySuccesses), answers)
  {
    PollsUntil(calls, recoverySuccesses, answers);
    var polled := Lead(answers, KeepsPolling);
    if polled < |answers| {
      var seen, tail := answers[polled], answers[polled..];
      assert tail[0] == seen && tail[1..] == answers[polled + 1..];
      var left := RecoveryTarget(recoverySuccesses) - 1;
      if seen.slot == Granted("half_open") && seen.afterRecord != "closed" && left > 0 {
        RecoversUntil(left, calls + 1, seen.elapsedMs, recoverySuccesses, answers[polled + 1..]);
      }
    }
  }

  /** For every sequence of answers the driver reports exactly this. */
  lemma EveryReport(failures: nat, recoverySuccesses: nat, answers: seq<Answer>)
    ensures Drive(Begin(failures), recoverySuccesses, answers) == Reported(failures, recoverySuccesses, answers)
  {
    if failures > 0 {
      GrantsFirst(failures, 0, recoverySuccesses, answers);
    }
    if Lead(answers, IsGranted) >= failures && |answers| > failures {
      var tail := answers[failures..];
      assert tail[0] == answers[failures] && tail[1..] == answers[failures + 1..];
      assert failures == 0 ==> tail == answers;
      PollingReport(failures, recoverySuccesses, answers[failures + 1..]);
    }
  }
}
