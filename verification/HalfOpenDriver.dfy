/**
 The benchmark driver that pushes a circuit breaker through open, half open and closed again.
 What the breaker and the clock answer is input: one `Answer` per slot the driver asks for.
 */
module HalfOpenDriver {
  import opened Text
  import opened CircuitBreaker
  import A = Aggregation

  /**
   The answers around one request for a slot: the slot, the phase label a recorded outcome
   would return, and whether and when the poll deadline is found to have passed.
   */
  datatype Answer = Answer(slot: Slot, afterRecord: string, timedOut: bool, elapsedMs: nat)

  datatype Sample = Sample(passed: bool, connectorCalls: nat, errorCodes: A.Codes,
                           halfOpenTransitionMs: Option<nat>, closedAfterRecovery: Option<bool>)

  /** Unfinished: the answers ran out. Failed: a refused slot was passed on as an error. */
  datatype Outcome = Unfinished | Failed | Finished(sample: Sample)

  const NOT_OPEN := "circuit_not_open_after_failures"
  const CIRCUIT_OPEN := "circuit_open"
  const NOT_OBSERVED := "half_open_not_observed"
  const NOT_CLOSED := "circuit_not_closed_after_recovery"

  // ----- the driver as a machine, one step per slot asked for -----

  datatype Driver =
    | PreOpen(left: nat, calls: nat)
    | OpenCheck(calls: nat)
    | Polling(calls: nat)
    | Recovering(left: nat, calls: nat, transitionMs: nat)
    | Ended(outcome: Outcome)

  function Begin(failuresBeforeOpen: nat): Driver {
    if failuresBeforeOpen == 0 then OpenCheck(0) else PreOpen(failuresBeforeOpen, 0)
  }

  function RecoveryTarget(recoverySuccesses: nat): nat {
    Max(recoverySuccesses, 1)
  }

  function NotOpen(calls: nat): Driver {
    Ended(Finished(Sample(false, calls, map[NOT_OPEN := 1], None, None)))
  }

  function NotObserved(calls: nat, elapsedMs: nat): Driver {
    Ended(Finished(Sample(false, calls, map[CIRCUIT_OPEN := 1, NOT_OBSERVED := 1], Some(elapsedMs), Some(false))))
  }

  function Recovered(calls: nat, transitionMs: nat): Driver {
    Ended(Finished(Sample(true, calls, map[CIRCUIT_OPEN := 1], Some(transitionMs), Some(true))))
  }

  function NotClosed(calls: nat, transitionMs: nat): Driver {
    Ended(Finished(Sample(false, calls, map[CIRCUIT_OPEN := 1, NOT_CLOSED := 1], Some(transitionMs), Some(false))))
  }

  /** After a success was counted: closed, out of successes, or another round. */
  function NextRound(closed: bool, left: nat, calls: nat, transitionMs: nat): Driver {
    if closed then Recovered(calls, transitionMs)
    else if left == 0 then NotClosed(calls, transitionMs)
    else Recovering(left, calls, transitionMs)
  }

  function Step(d: Driver, recoverySuccesses: nat, a: Answer): Driver
    requires !d.Ended?
    requires d.PreOpen? || d.Recovering? ==> d.left > 0
  {
    match d
    case PreOpen(left, calls) =>
      if a.slot.Refused? then Ended(Failed)
      else if left == 1 then OpenCheck(calls + 1) else PreOpen(left - 1, calls + 1)
    case OpenCheck(calls) =>
      if a.slot.Granted? then NotOpen(calls) else Polling(calls)
    case Polling(calls) =>
      if a.slot == Granted("half_open") then
        NextRound(a.afterRecord == "closed", RecoveryTarget(recoverySuccesses) - 1, calls + 1, a.elapsedMs)
      else if a.slot == Granted("closed") || (a.slot.Refused? && a.timedOut) then NotObserved(calls, a.elapsedMs)
      else d
    case Recovering(left, calls, transitionMs) =>
      if a.slot.Refused? then Ended(Failed)
      else NextRound(a.slot == Granted("closed") || a.afterRecord == "closed", left - 1, calls + 1, transitionMs)
  }

  predicate WellFormed(d: Driver) {
    d.PreOpen? || d.Recovering? ==> d.left > 0
  }

  lemma StepWellFormed(d: Driver, recoverySuccesses: nat, a: Answer)
    requires !d.Ended? && WellFormed(d)
    ensures WellFormed(Step(d, recoverySuccesses, a))
  {}

  function Drive(d: Driver, recoverySuccesses: nat, answers: seq<Answer>): Outcome
    requires WellFormed(d)
    decreases |answers|
  {
    if d.Ended? then d.outcome
    else if answers == [] then Unfinished
    else
      StepWellFormed(d, recoverySuccesses, answers[0]);
      Drive(Step(d, recoverySuccesses, answers[0]), recoverySuccesses, answers[1..])
  }

  // ----- the loops of the source -----

  method RunCircuitHalfOpen(failuresBeforeOpen: nat, recoverySuccesses: nat, answers: seq<Answer>)
    returns (outcome: Outcome)
    ensures outcome == Drive(Begin(failuresBeforeOpen), recoverySuccesses, answers)
  {
    ghost var goal := Drive(Begin(failuresBeforeOpen), recoverySuccesses, answers);
    var n := 0;  // answers used so far
    var calls := 0;
    var codes: A.Codes := map[];

    var i := 0;
    while i < failuresBeforeOpen
      invariant i <= failuresBeforeOpen && calls == i && n <= |answers|
      invariant codes == map[]
      invariant Drive(if i == failuresBeforeOpen then OpenCheck(calls) else PreOpen(failuresBeforeOpen - i, calls),
                      recoverySuccesses, answers[n..]) == goal
    {
      if n == |answers| {
        return Unfinished;
      }
      assert answers[n..][1..] == answers[n + 1..];
      if answers[n].slot.Refused? {
        return Failed;
      }
      calls, n, i := calls + 1, n + 1, i + 1;
    }

    if n == |answers| {
      return Unfinished;
    }
    assert answers[n..][1..] == answers[n + 1..];
    if answers[n].slot.Granted? {
      codes := A.Add(codes, NOT_OPEN, 1);
      return Finished(Sample(false, calls, codes, None, None));
    }
    codes := A.Add(codes, CIRCUIT_OPEN, 1);
    n := n + 1;
    outcome := AwaitRecovery(recoverySuccesses, answers, n, calls, codes);
  }

  /** From the poll loop on. */
  method AwaitRecovery(recoverySuccesses: nat, answers: seq<Answer>, used: nat, calls0: nat, codes0: A.Codes)
    returns (outcome: Outcome)
    requires used <= |answers| && codes0 == map[CIRCUIT_OPEN := 1]
    ensures outcome == Drive(Polling(calls0), recoverySuccesses, answers[used..])
  {
    ghost var goal := Drive(Polling(calls0), recoverySuccesses, answers[used..]);
    var n, calls, codes := used, calls0, codes0;
    var observedHalfOpen, closedAfterRecovery := false, false;
    var remaining := RecoveryTarget(recoverySuccesses);
    var transitionMs := 0;
    while true
      invariant n <= |answers| && !observedHalfOpen && !closedAfterRecovery && calls == calls0
      invariant remaining == RecoveryTarget(recoverySuccesses)
      invariant Drive(Polling(calls), recoverySuccesses, answers[n..]) == goal
      decreases |answers| - n
    {
      if n == |answers| {
        return Unfinished;
      }
      assert answers[n..][1..] == answers[n + 1..];
      var a := answers[n];
      n := n + 1;
      transitionMs := a.elapsedMs;
      if a.slot.Granted? {
        if a.slot.phase == "half_open" {
          observedHalfOpen := true;
          calls := calls + 1;
          if a.afterRecord == "closed" {
            closedAfterRecovery := true;
          }
          remaining := SaturatingSub(remaining, 1);
          break;
        }
        if a.slot.phase == "closed" {
          closedAfterRecovery := true;
          break;
        }
      } else if a.timedOut {
        break;
      }
    }
    if !observedHalfOpen {
      codes := A.Add(codes, NOT_OBSERVED, 1);
      return Finished(Sample(false, calls, codes, Some(transitionMs), Some(false)));
    }

    while !closedAfterRecovery && remaining > 0
      invariant n <= |answers|
      invariant Drive(NextRound(closedAfterRecovery, remaining, calls, transitionMs),
                      recoverySuccesses, answers[n..]) == goal
    {
      if n == |answers| {
        return Unfinished;
      }
      assert answers[n..][1..] == answers[n + 1..];
      var a := answers[n];
      n := n + 1;
      if a.slot.Refused? {
        return Failed;
      }
      calls := calls + 1;
      if a.slot.phase == "closed" {
        closedAfterRecovery := true;
        break;
      }
      if a.afterRecord == "closed" {
        closedAfterRecovery := true;
        break;
      }
      remaining := SaturatingSub(remaining, 1);
    }
    var passed := true;
    if !closedAfterRecovery {
      passed := false;
      codes := A.Add(codes, NOT_CLOSED, 1);
    }
    return Finished(Sample(passed, calls, codes, Some(transitionMs), Some(closedAfterRecovery)));
  }

  // ----- whatever the breaker answers -----

  /** Calls made so far leave room for the calls still owed. */
  predicate WithinCalls(d: Driver, failuresBeforeOpen: nat, recoverySuccesses: nat) {
    match d
    case PreOpen(left, calls) => calls + left == failuresBeforeOpen
    case OpenCheck(calls) => calls == failuresBeforeOpen
    case Polling(calls) => calls == failuresBeforeOpen
    case Recovering(left, calls, _) =>
      left > 0 && calls + left == failuresBeforeOpen + RecoveryTarget(recoverySuccesses)
    case Ended(outcome) =>
      outcome.Finished? ==> outcome.sample.connectorCalls <= failuresBeforeOpen + RecoveryTarget(recoverySuccesses)
  }

  /** The verdict, the error codes and the recovery flag of a finished run agree. */
  predicate Coherent(s: Sample) {
    && (s.passed <==> s.errorCodes == map[CIRCUIT_OPEN := 1])
    && (s.passed <==> s.closedAfterRecovery == Some(true))
    && (s.passed ==> s.halfOpenTransitionMs.Some?)
  }

  lemma CodesDiffer()
    ensures map[NOT_OPEN := 1] != map[CIRCUIT_OPEN := 1]
    ensures map[CIRCUIT_OPEN := 1, NOT_OBSERVED := 1] != map[CIRCUIT_OPEN := 1]
    ensures map[CIRCUIT_OPEN := 1, NOT_CLOSED := 1] != map[CIRCUIT_OPEN := 1]
  {
    assert |NOT_OPEN| != |CIRCUIT_OPEN| && |NOT_OBSERVED| != |CIRCUIT_OPEN| && |NOT_CLOSED| != |CIRCUIT_OPEN|;
    assert NOT_OPEN in map[NOT_OPEN := 1] && NOT_OPEN !in map[CIRCUIT_OPEN := 1];
    assert NOT_OBSERVED in map[CIRCUIT_OPEN := 1, NOT_OBSERVED := 1] && NOT_OBSERVED !in map[CIRCUIT_OPEN := 1];
    assert NOT_CLOSED in map[CIRCUIT_OPEN := 1, NOT_CLOSED := 1] && NOT_CLOSED !in map[CIRCUIT_OPEN := 1];
  }

  /** A closed circuit is reported at or after `from`. */
  predicate ClosesFrom(answers: seq<Answer>, from: nat) {
    exists j | from <= j < |answers| :: answers[j].slot == Granted("closed") || answers[j].afterRecord == "closed"
  }

  /** The answer at `i` grants a half-open slot, and then, or by the same call, the circuit closes. */
  predicate RecoversAt(answers: seq<Answer>, i: nat) {
    && i < |answers| && answers[i].slot == Granted("half_open")
    && (answers[i].afterRecord == "closed" || ClosesFrom(answers, i + 1))
  }

  predicate RecoversFrom(answers: seq<Answer>, from: nat) {
    exists i | from <= i < |answers| :: RecoversAt(answers, i)
  }

  /** `failures` slots are granted, the next is refused, and only then the circuit recovers. */
  predicate FailsThenRecovers(answers: seq<Answer>, failures: nat) {
    && |answers| > failures
    && (forall i | 0 <= i < failures :: answers[i].slot.Granted?)
    && answers[failures].slot.Refused?
    && RecoversFrom(answers, failures + 1)
  }

  /** What the answers still to come must hold for a run in this state to pass. */
  predicate MustStillSee(d: Driver, answers: seq<Answer>) {
    match d
    case PreOpen(left, _) => FailsThenRecovers(answers, left)
    case OpenCheck(_) => FailsThenRecovers(answers, 0)
    case Polling(_) => RecoversFrom(answers, 0)
    case Recovering(_, _, _) => ClosesFrom(answers, 0)
    case Ended(_) => true
  }

  lemma ClosesLater(answers: seq<Answer>, from: nat)
    requires answers != [] && ClosesFrom(answers[1..], from)
    ensures ClosesFrom(answers, from + 1)
  {
    var rest := answers[1..];
    var j :| from <= j < |rest| && (rest[j].slot == Granted("closed") || rest[j].afterRecord == "closed");
    assert answers[j + 1] == rest[j];
  }

  lemma RecoversLater(answers: seq<Answer>, from: nat)
    requires answers != [] && RecoversFrom(answers[1..], from)
    ensures RecoversFrom(answers, from + 1)
  {
    var rest := answers[1..];
    var i :| from <= i < |rest| && RecoversAt(rest, i);
    if rest[i].afterRecord != "closed" {
      ClosesLater(answers, i + 1);
    }
    assert answers[i + 1] == rest[i] && RecoversAt(answers, i + 1);
  }

  /** The obligation of the next state, moved back over the answer that led to it. */
  lemma SeenBefore(d: Driver, recoverySuccesses: nat, answers: seq<Answer>)
    requires !d.Ended? && WellFormed(d) && answers != []
    requires var next := Step(d, recoverySuccesses, answers[0]);
             MustStillSee(next, answers[1..]) && (next.Ended? ==> next.outcome.Finished? && next.outcome.sample.passed)
    ensures MustStillSee(d, answers)
  {
    var rest := answers[1..];
    assert forall i | 0 <= i < |rest| :: answers[i + 1] == rest[i];
    match d {
      case PreOpen(left, _) =>
        assert FailsThenRecovers(rest, left - 1);
        RecoversLater(answers, left);
        assert forall i | 0 < i < left :: answers[i] == rest[i - 1];
      case OpenCheck(_) => RecoversLater(answers, 0);
      case Polling(_) =>
        if answers[0].slot == Granted("half_open") {
          if answers[0].afterRecord != "closed" {
            ClosesLater(answers, 0);
          }
          assert RecoversAt(answers, 0);
        } else {
          RecoversLater(answers, 0);
        }
      case Recovering(_, _, _) =>
        if answers[0].slot != Granted("closed") && answers[0].afterRecord != "closed" {
          ClosesLater(answers, 0);
        }
    }
  }

  /**
   From every state, for every sequence of answers: a finished run made at most
   `failuresBeforeOpen` plus max(1, `recoverySuccesses`) calls, passed exactly when its only
   error code is one refused slot, and only if what this state still waits for came in order.
   */
  lemma {:induction false} AnyAnswers(d: Driver, failuresBeforeOpen: nat, recoverySuccesses: nat, answers: seq<Answer>)
    requires WellFormed(d) && WithinCalls(d, failuresBeforeOpen, recoverySuccesses)
    requires d.Ended? && d.outcome.Finished? ==> Coherent(d.outcome.sample)
    ensures var o := Drive(d, recoverySuccesses, answers);
            o.Finished? ==>
              && o.sample.connectorCalls <= failuresBeforeOpen + RecoveryTarget(recoverySuccesses)
              && Coherent(o.sample)
              && (o.sample.passed ==> MustStillSee(d, answers))
    decreases |answers|
  {
    if !d.Ended? && answers != [] {
      var next := Step(d, recoverySuccesses, answers[0]);
      StepKeepsCalls(d, failuresBeforeOpen, recoverySuccesses, answers[0]);
      hide Step, Coherent, WithinCalls, MustStillSee;
      AnyAnswers(next, failuresBeforeOpen, recoverySuccesses, answers[1..]);
      var o := Drive(next, recoverySuccesses, answers[1..]);
      if o.Finished? && o.sample.passed {
        SeenBefore(d, recoverySuccesses, answers);
      }
    } else if d.Ended? {
      assert MustStillSee(d, answers);
    }
  }

  lemma StepKeepsCalls(d: Driver, failuresBeforeOpen: nat, recoverySuccesses: nat, a: Answer)
    requires !d.Ended? && WellFormed(d) && WithinCalls(d, failuresBeforeOpen, recoverySuccesses)
    ensures var next := Step(d, recoverySuccesses, a);
            && WellFormed(next) && WithinCalls(next, failuresBeforeOpen, recoverySuccesses)
            && (next.Ended? && next.outcome.Finished? ==> Coherent(next.outcome.sample))
  {
    CodesDiffer();
  }

  /** A passed sample: the failures, then a refusal, then a half-open slot, then a closed circuit. */
  lemma AnySample(failuresBeforeOpen: nat, recoverySuccesses: nat, answers: seq<Answer>)
    ensures var o := Drive(Begin(failuresBeforeOpen), recoverySuccesses, answers);
            o.Finished? ==>
              && o.sample.connectorCalls <= failuresBeforeOpen + RecoveryTarget(recoverySuccesses)
              && Coherent(o.sample)
              && (o.sample.passed ==> FailsThenRecovers(answers, failuresBeforeOpen))
  {
    AnyAnswers(Begin(failuresBeforeOpen), failuresBeforeOpen, recoverySuccesses, answers);
  }
}
