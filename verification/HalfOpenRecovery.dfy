/**
 The half-open driver against the real circuit breaker: for every policy, deadline and clock,
 what parameters and times make the benchmark scenario pass.
 */
module HalfOpenRecovery {
  import opened Text
  import opened CircuitBreaker
  import opened HalfOpenDriver

  const RECOVERY_BUFFER_MS := 250

  /** When a slot is asked for, and when the outcome is recorded or the deadline checked. */
  datatype Tick = Tick(acquireAt: nat, laterAt: nat)

  datatype Joint = Joint(driver: Driver, breaker: State, startedAt: nat)

  /** The outcome the driver records after a slot, if it records one. */
  function Recorded(d: Driver, slot: Slot): Option<bool> {
    if d.PreOpen? && slot.Granted? then Some(false)
    else if d.Polling? && slot == Granted("half_open") then Some(true)
    else if d.Recovering? && slot.Granted? && slot.phase != "closed" then Some(true)
    else None
  }

  function BreakerAfter(p: Policy, j: Joint, tick: Tick): State {
    var (s, slot) := AfterAcquire(p, j.breaker, tick.acquireAt);
    var success := Recorded(j.driver, slot);
    if success.Some? then AfterRecord(p, s, success.value, tick.laterAt) else s
  }

  function AnswerTo(p: Policy, pollTimeoutMs: nat, j: Joint, tick: Tick): Answer {
    Answer(AfterAcquire(p, j.breaker, tick.acquireAt).1, PhaseLabel(BreakerAfter(p, j, tick).phase),
           tick.laterAt >= j.startedAt + pollTimeoutMs, SaturatingSub(tick.laterAt, j.startedAt))
  }

  /** A benchmark scenario: the breaker's policy and the driver's parameters. */
  datatype Scenario = Scenario(policy: Policy, failuresBeforeOpen: nat, recoverySuccesses: nat, pollTimeoutMs: nat)

  /** The poll deadline used when none is configured. */
  function DefaultPollTimeout(p: Policy): nat {
    p.cooldownMs + RECOVERY_BUFFER_MS
  }

  /** One request and what follows it, on both sides. */
  function Next(sc: Scenario, j: Joint, tick: Tick): (r: Joint)
    requires !j.driver.Ended? && WellFormed(j.driver)
    ensures WellFormed(r.driver)
  {
    var a := AnswerTo(sc.policy, sc.pollTimeoutMs, j, tick);
    StepWellFormed(j.driver, sc.recoverySuccesses, a);
    Joint(Step(j.driver, sc.recoverySuccesses, a), BreakerAfter(sc.policy, j, tick),
          if j.driver.OpenCheck? then tick.laterAt else j.startedAt)
  }

  /** Driver and breaker after the first `k` ticks, and the answers exchanged. */
  function At(sc: Scenario, ticks: seq<Tick>, k: nat): (r: (Joint, seq<Answer>))
    requires k <= |ticks|
    ensures WellFormed(r.0.driver)
  {
    if k == 0 then (Joint(Begin(sc.failuresBeforeOpen), INITIAL, 0), [])
    else
      var (j, answers) := At(sc, ticks, k - 1);
      if j.driver.Ended? then (j, answers)
      else (Next(sc, j, ticks[k - 1]), answers + [AnswerTo(sc.policy, sc.pollTimeoutMs, j, ticks[k - 1])])
  }

  lemma AtNext(sc: Scenario, ticks: seq<Tick>, k: nat)
    requires k < |ticks|
    ensures var j := At(sc, ticks, k).0;
            At(sc, ticks, k + 1).0 == (if j.driver.Ended? then j else Next(sc, j, ticks[k]))
  {
    hide Next;
  }

  function OutcomeOf(d: Driver): Outcome {
    if d.Ended? then d.outcome else Unfinished
  }

  /** What the driver reports after the ticks. */
  function OutcomeAfter(sc: Scenario, ticks: seq<Tick>): Outcome {
    OutcomeOf(At(sc, ticks, |ticks|).0.driver)
  }

  // ----- the joint run is the driver's own run on the breaker's answers -----

  function DriverAfter(d: Driver, recoverySuccesses: nat, answers: seq<Answer>): (r: Driver)
    requires WellFormed(d)
    ensures WellFormed(r)
  {
    if answers == [] then d
    else
      var last := |answers| - 1;
      var before := DriverAfter(d, recoverySuccesses, answers[..last]);
      if before.Ended? then before
      else StepWellFormed(before, recoverySuccesses, answers[last]); Step(before, recoverySuccesses, answers[last])
  }

  lemma DriverAfterLast(d: Driver, recoverySuccesses: nat, answers: seq<Answer>)
    requires WellFormed(d)
    ensures answers == [] ==> DriverAfter(d, recoverySuccesses, answers) == d
    ensures answers != [] ==>
              var last := |answers| - 1;
              var before := DriverAfter(d, recoverySuccesses, answers[..last]);
              DriverAfter(d, recoverySuccesses, answers)
              == (if before.Ended? then before else Step(before, recoverySuccesses, answers[last]))
  {
    hide Step;
  }

  lemma {:induction false} DriverAfterFirst(d: Driver, recoverySuccesses: nat, answers: seq<Answer>)
    requires WellFormed(d) && !d.Ended? && answers != []
    ensures WellFormed(Step(d, recoverySuccesses, answers[0]))
    ensures DriverAfter(d, recoverySuccesses, answers)
         == DriverAfter(Step(d, recoverySuccesses, answers[0]), recoverySuccesses, answers[1..])
    decreases |answers|
  {
    StepWellFormed(d, recoverySuccesses, answers[0]);
    hide Step, DriverAfter;
    var next, last := Step(d, recoverySuccesses, answers[0]), |answers| - 1;
    DriverAfterLast(d, recoverySuccesses, answers);
    if last == 0 {
      DriverAfterLast(d, recoverySuccesses, answers[..0]);
      DriverAfterLast(next, recoverySuccesses, answers[1..]);
    } else {
      var front, rest := answers[..last], answers[1..];
      assert front[0] == answers[0] && rest[|rest| - 1] == answers[last] && front[1..] == rest[..|rest| - 1];
      DriverAfterFirst(d, recoverySuccesses, front);
      DriverAfterLast(next, recoverySuccesses, rest);
    }
  }

  lemma {:induction false} DriverAfterEnded(d: Driver, recoverySuccesses: nat, answers: seq<Answer>)
    requires d.Ended?
    ensures DriverAfter(d, recoverySuccesses, answers) == d
  {
    if answers != [] {
      DriverAfterEnded(d, recoverySuccesses, answers[..|answers| - 1]);
    }
  }

  lemma {:induction false} DriveIsDriverAfter(d: Driver, recoverySuccesses: nat, answers: seq<Answer>)
    requires WellFormed(d)
    ensures Drive(d, recoverySuccesses, answers) == OutcomeOf(DriverAfter(d, recoverySuccesses, answers))
    decreases |answers|
  {
    if d.Ended? {
      DriverAfterEnded(d, recoverySuccesses, answers);
    } else if answers != [] {
      DriverAfterFirst(d, recoverySuccesses, answers);
      DriveIsDriverAfter(Step(d, recoverySuccesses, answers[0]), recoverySuccesses, answers[1..]);
    }
  }

  lemma {:induction false} AtIsDriverAfter(sc: Scenario, ticks: seq<Tick>, k: nat)
    requires k <= |ticks|
    ensures At(sc, ticks, k).0.driver
         == DriverAfter(Begin(sc.failuresBeforeOpen), sc.recoverySuccesses, At(sc, ticks, k).1)
  {
    hide Step, AnswerTo, BreakerAfter;
    if k > 0 {
      AtIsDriverAfter(sc, ticks, k - 1);
      var before, after := At(sc, ticks, k - 1).1, At(sc, ticks, k).1;
      if !At(sc, ticks, k - 1).0.driver.Ended? {
        assert after[..|after| - 1] == before;
      }
    }
  }

  /** The loops of the driver, fed the breaker's answers, report exactly this outcome. */
  lemma JointRunIsDriverRun(sc: Scenario, ticks: seq<Tick>)
    ensures Drive(Begin(sc.failuresBeforeOpen), sc.recoverySuccesses, At(sc, ticks, |ticks|).1)
         == OutcomeAfter(sc, ticks)
  {
    AtIsDriverAfter(sc, ticks, |ticks|);
    DriveIsDriverAfter(Begin(sc.failuresBeforeOpen), sc.recoverySuccesses, At(sc, ticks, |ticks|).1);
  }

  // ----- clocks -----

  /** Time does not go backwards. */
  predicate Clock(ticks: seq<Tick>) {
    && (forall i | 0 <= i < |ticks| :: ticks[i].acquireAt <= ticks[i].laterAt)
    && (forall i | 0 < i < |ticks| :: ticks[i - 1].laterAt <= ticks[i].acquireAt)
  }

  lemma {:induction false} AcquiredInOrder(ticks: seq<Tick>, i: nat, j: nat)
    requires Clock(ticks) && i <= j < |ticks|
    ensures ticks[i].acquireAt <= ticks[j].acquireAt
    decreases j
  {
    if i < j {
      AcquiredInOrder(ticks, i, j - 1);
    }
  }

  /** Failures that open the breaker, and successes in one half-open window that close it. */
  function Threshold(sc: Scenario): nat {
    Max(1, sc.policy.failureThreshold)
  }

  function Needed(sc: Scenario): nat {
    Max(1, sc.policy.successThreshold)
  }

  /** When the breaker stops cooling down if the last request before `i` opened it. */
  function CoolUntil(sc: Scenario, ticks: seq<Tick>, i: nat): nat
    requires 0 < i <= |ticks|
  {
    ticks[i - 1].laterAt + sc.policy.cooldownMs
  }

  /** A whole cooldown passes before the request. */
  predicate Paused(sc: Scenario, ticks: seq<Tick>, i: nat)
    requires 0 < i < |ticks|
  {
    ticks[i].acquireAt >= CoolUntil(sc, ticks, i)
  }

  /** So it does before each further failure once the breaker is open. */
  predicate AllPaused(sc: Scenario, ticks: seq<Tick>, k: nat)
    requires k <= |ticks|
  {
    forall i | Threshold(sc) <= i < k :: Paused(sc, ticks, i)
  }

  /** No poll is refused that finds the deadline passed. */
  predicate NoLatePoll(sc: Scenario, ticks: seq<Tick>)
    requires 0 < sc.failuresBeforeOpen < |ticks|
  {
    var f := sc.failuresBeforeOpen;
    forall k | f < k < |ticks| ::
      ticks[k].acquireAt >= CoolUntil(sc, ticks, f) || ticks[k].laterAt < ticks[f].laterAt + sc.pollTimeoutMs
  }

  /**
   What parameters and times must meet: enough failures, a cooldown before each that comes
   after the breaker opened but not before the open check, no late poll, and room for the
   needed successes in the driver's target and in one window.
   */
  predicate CanPass(sc: Scenario, ticks: seq<Tick>) {
    var f := sc.failuresBeforeOpen;
    && Threshold(sc) <= f < |ticks|
    && AllPaused(sc, ticks, f) && !Paused(sc, ticks, f)
    && NoLatePoll(sc, ticks)
    && Needed(sc) <= Min(RecoveryTarget(sc.recoverySuccesses), sc.policy.halfOpenMaxCalls)
  }

  /** The needed successes are asked for after the cooldown and before the ticks end. */
  predicate EnoughPolls(sc: Scenario, ticks: seq<Tick>)
    requires 0 < sc.failuresBeforeOpen < |ticks|
  {
    var first := |ticks| - Needed(sc);
    first > sc.failuresBeforeOpen && ticks[first].acquireAt >= CoolUntil(sc, ticks, sc.failuresBeforeOpen)
  }

  // ----- the failures before opening -----

  /** The driver after `k` of the failures it is to make. */
  function Failing(sc: Scenario, k: nat): Driver
    requires k <= sc.failuresBeforeOpen
  {
    if k == sc.failuresBeforeOpen then OpenCheck(k) else PreOpen(sc.failuresBeforeOpen - k, k)
  }

  function Cooling(sc: Scenario, until: nat): State {
    State(Open, Threshold(sc), Some(until), 0, 0)
  }

  /** While still closed, the breaker has counted exactly the failures made. */
  predicate Counting(sc: Scenario, j: Joint, k: nat)
    requires k <= sc.failuresBeforeOpen
  {
    j.breaker == State(Closed, k, None, 0, 0) && j.driver == Failing(sc, k)
  }

  /** A failure while closed: counted, or the one that opens the breaker for a cooldown. */
  lemma OneMoreFailure(sc: Scenario, j: Joint, k: nat, tick: Tick)
    requires k < sc.failuresBeforeOpen && k < Threshold(sc) && Counting(sc, j, k)
    ensures var r := Next(sc, j, tick);
            && r.driver == Failing(sc, k + 1)
            && r.breaker == (if k + 1 == Threshold(sc) then Cooling(sc, tick.laterAt + sc.policy.cooldownMs)
                             else State(Closed, k + 1, None, 0, 0))
  {}

  lemma {:induction false} CountsFailures(sc: Scenario, ticks: seq<Tick>, k: nat)
    requires k <= |ticks| && k <= sc.failuresBeforeOpen && k < Threshold(sc)
    ensures Counting(sc, At(sc, ticks, k).0, k)
  {
    hide Next;
    if k > 0 {
      CountsFailures(sc, ticks, k - 1);
      AtNext(sc, ticks, k - 1);
      OneMoreFailure(sc, At(sc, ticks, k - 1).0, k - 1, ticks[k - 1]);
    }
  }

  /** Too few failures: the circuit is found closed and the run says so. */
  lemma {:induction false} TooFewFailures(sc: Scenario, ticks: seq<Tick>, k: nat)
    requires k <= |ticks| && sc.failuresBeforeOpen < Threshold(sc)
    ensures var o := OutcomeOf(At(sc, ticks, k).0.driver);
            if k <= sc.failuresBeforeOpen then o == Unfinished else o == FoundClosed(sc)
  {
    hide At;
    if k <= sc.failuresBeforeOpen {
      CountsFailures(sc, ticks, k);
    } else {
      TooFewFailures(sc, ticks, k - 1);
      AtNext(sc, ticks, k - 1);
      if k == sc.failuresBeforeOpen + 1 {
        CountsFailures(sc, ticks, k - 1);
      }
    }
  }

  /** The failed sample of a run whose open check was granted. */
  function FoundClosed(sc: Scenario): Outcome {
    Finished(Sample(false, sc.failuresBeforeOpen, map[NOT_OPEN := 1], None, None))
  }

  /** Once the breaker is open: a further failure is admitted after a pause, or ends the run with an error. */
  predicate StillFailing(sc: Scenario, ticks: seq<Tick>, k: nat, j: Joint)
    requires Threshold(sc) <= k <= sc.failuresBeforeOpen && k <= |ticks|
  {
    if AllPaused(sc, ticks, k) && (k > Threshold(sc) ==> sc.policy.halfOpenMaxCalls > 0)
    then j.driver == Failing(sc, k) && j.breaker == Cooling(sc, CoolUntil(sc, ticks, k))
    else j.driver == Ended(Failed)
  }

  lemma OneFailureTooMany(sc: Scenario, j: Joint, k: nat, until: nat, tick: Tick)
    requires Threshold(sc) <= k < sc.failuresBeforeOpen
    requires j.driver == Failing(sc, k) && j.breaker == Cooling(sc, until)
    ensures var r := Next(sc, j, tick);
            if tick.acquireAt >= until && sc.policy.halfOpenMaxCalls > 0
            then r.driver == Failing(sc, k + 1) && r.breaker == Cooling(sc, tick.laterAt + sc.policy.cooldownMs)
            else r.driver == Ended(Failed)
  {}

  lemma {:induction false} KeepsFailing(sc: Scenario, ticks: seq<Tick>, k: nat)
    requires Threshold(sc) <= k <= sc.failuresBeforeOpen && k <= |ticks|
    ensures StillFailing(sc, ticks, k, At(sc, ticks, k).0)
  {
    hide At, Next;
    AtNext(sc, ticks, k - 1);
    var j := At(sc, ticks, k - 1).0;
    if k == Threshold(sc) {
      CountsFailures(sc, ticks, k - 1);
      OneMoreFailure(sc, j, k - 1, ticks[k - 1]);
    } else {
      KeepsFailing(sc, ticks, k - 1);
      assert AllPaused(sc, ticks, k) <==> AllPaused(sc, ticks, k - 1) && Paused(sc, ticks, k - 1);
      if !j.driver.Ended? {
        OneFailureTooMany(sc, j, k - 1, CoolUntil(sc, ticks, k - 1), ticks[k - 1]);
      }
    }
  }

  /** A failure after the breaker opened is an error exactly without a pause before it, or without a window. */
  lemma TooManyFailures(sc: Scenario, ticks: seq<Tick>, k: nat)
    requires Threshold(sc) <= k <= sc.failuresBeforeOpen && k <= |ticks|
    ensures OutcomeOf(At(sc, ticks, k).0.driver)
         == (if exists i | Threshold(sc) <= i < k :: !Paused(sc, ticks, i) || sc.policy.halfOpenMaxCalls == 0
             then Failed else Unfinished)
  {
    hide At;
    KeepsFailing(sc, ticks, k);
    if AllPaused(sc, ticks, k) && k > Threshold(sc) && sc.policy.halfOpenMaxCalls == 0 {
      var i := Threshold(sc);
      assert Threshold(sc) <= i < k && (!Paused(sc, ticks, i) || sc.policy.halfOpenMaxCalls == 0);
    }
  }

  lemma {:induction false} StaysEnded(sc: Scenario, ticks: seq<Tick>, k: nat, n: nat)
    requires k <= n <= |ticks| && At(sc, ticks, k).0.driver.Ended?
    ensures At(sc, ticks, n).0 == At(sc, ticks, k).0
    decreases n
  {
    hide At;
    if k < n {
      StaysEnded(sc, ticks, k, n - 1);
      AtNext(sc, ticks, n - 1);
    }
  }

  // ----- a window too small for the needed successes -----

  /** What holds whatever the clock: the breaker never closes again. */
  predicate NeverCloses(sc: Scenario, j: Joint) {
    var b := j.breaker;
    match j.driver
    case PreOpen(_, _) => true
    case OpenCheck(_) => true
    case Polling(_) => b.phase.Open?
    case Recovering(_, _, _) =>
      b.phase.Open? ||
      (b.phase.HalfOpen? && b.halfOpenRemainingCalls + b.halfOpenSuccesses <= sc.policy.halfOpenMaxCalls)
    case Ended(o) => o.Finished? ==> !o.sample.passed
  }

  lemma NeverClosesNext(sc: Scenario, j: Joint, tick: Tick)
    requires Needed(sc) > sc.policy.halfOpenMaxCalls && !j.driver.Ended? && WellFormed(j.driver) && NeverCloses(sc, j)
    ensures NeverCloses(sc, Next(sc, j, tick))
  {}

  lemma {:induction false} SmallWindowNeverPasses(sc: Scenario, ticks: seq<Tick>, k: nat)
    requires k <= |ticks| && Needed(sc) > sc.policy.halfOpenMaxCalls
    ensures NeverCloses(sc, At(sc, ticks, k).0)
  {
    hide Next;
    if k > 0 {
      SmallWindowNeverPasses(sc, ticks, k - 1);
      AtNext(sc, ticks, k - 1);
      var j := At(sc, ticks, k - 1).0;
      hide NeverCloses;
      if !j.driver.Ended? {
        NeverClosesNext(sc, j, ticks[k - 1]);
      }
    }
  }

  // ----- a window large enough -----

  /** A scenario and clock that reach the open check with a breaker that can still close. */
  predicate Checks(sc: Scenario, ticks: seq<Tick>) {
    && Threshold(sc) <= sc.failuresBeforeOpen < |ticks| && AllPaused(sc, ticks, sc.failuresBeforeOpen)
    && Needed(sc) <= sc.policy.halfOpenMaxCalls
  }

  /** The requests before `k` since the open check were refused in time. */
  predicate Refusing(sc: Scenario, ticks: seq<Tick>, k: nat)
    requires 0 < sc.failuresBeforeOpen < |ticks| && k <= |ticks|
  {
    var f := sc.failuresBeforeOpen;
    forall i | f < i < k ::
      ticks[i].acquireAt < CoolUntil(sc, ticks, f) && ticks[i].laterAt < ticks[f].laterAt + sc.pollTimeoutMs
  }

  /** The request at `m` is the first one after the cooldown. */
  predicate FirstAfterCooldown(sc: Scenario, ticks: seq<Tick>, m: int)
    requires 0 < sc.failuresBeforeOpen < |ticks|
  {
    var f := sc.failuresBeforeOpen;
    && f < m < |ticks| && ticks[m].acquireAt >= CoolUntil(sc, ticks, f)
    && (m - 1 > f ==> ticks[m - 1].acquireAt < CoolUntil(sc, ticks, f))
  }

  /**
   Where driver and breaker stand `k` ticks in, after the open check: polling while the
   breaker cools down, then one more success on both sides per round, and the verdict.
   */
  predicate InStep(sc: Scenario, ticks: seq<Tick>, k: nat, j: Joint)
    requires Checks(sc, ticks) && k <= |ticks|
  {
    var p, f, target := sc.policy, sc.failuresBeforeOpen, RecoveryTarget(sc.recoverySuccesses);
    match j.driver
    case PreOpen(_, _) => false
    case OpenCheck(_) => false
    case Polling(calls) =>
      && calls == f && !Paused(sc, ticks, f) && Refusing(sc, ticks, k)
      && j.breaker == Cooling(sc, CoolUntil(sc, ticks, f)) && j.startedAt == ticks[f].laterAt
    case Recovering(left, calls, _) =>
      var done := calls - f;
      && 0 < done < Needed(sc) && left == target - done && left > 0
      && j.breaker == State(HalfOpen, Threshold(sc), None, p.halfOpenMaxCalls - done, done)
      && !Paused(sc, ticks, f) && NoLatePoll(sc, ticks) && FirstAfterCooldown(sc, ticks, k - done)
    case Ended(o) => Verdict(sc, ticks, o)
  }

  predicate Verdict(sc: Scenario, ticks: seq<Tick>, o: Outcome)
    requires Checks(sc, ticks)
  {
    && o.Finished? && (o.sample.passed <==> CanPass(sc, ticks))
    && (o.sample.passed ==> EnoughPolls(sc, ticks) && o.sample.connectorCalls == sc.failuresBeforeOpen + Needed(sc))
  }

  lemma AfterOpenCheck(sc: Scenario, ticks: seq<Tick>, j: Joint)
    requires Checks(sc, ticks)
    requires j.driver == OpenCheck(sc.failuresBeforeOpen)
    requires j.breaker == Cooling(sc, CoolUntil(sc, ticks, sc.failuresBeforeOpen))
    ensures var f := sc.failuresBeforeOpen;
            var r := Next(sc, j, ticks[f]);
            InStep(sc, ticks, f + 1, r) && (Paused(sc, ticks, f) ==> r.driver == Ended(FoundClosed(sc)))
  {}

  /** A poll that is refused: in time, or the end of the run. */
  lemma PollRefused(sc: Scenario, ticks: seq<Tick>, k: nat, j: Joint)
    requires Checks(sc, ticks) && sc.failuresBeforeOpen < k < |ticks| && j.driver.Polling? && InStep(sc, ticks, k, j)
    requires ticks[k].acquireAt < CoolUntil(sc, ticks, sc.failuresBeforeOpen)
    ensures InStep(sc, ticks, k + 1, Next(sc, j, ticks[k]))
  {
    var f := sc.failuresBeforeOpen;
    var a := AnswerTo(sc.policy, sc.pollTimeoutMs, j, ticks[k]);
    assert a.slot.Refused? && BreakerAfter(sc.policy, j, ticks[k]) == j.breaker;
    if a.timedOut {
      assert !NoLatePoll(sc, ticks);
    } else {
      assert Refusing(sc, ticks, k + 1);
    }
  }

  lemma NoLatePollFrom(sc: Scenario, ticks: seq<Tick>, m: nat)
    requires 0 < sc.failuresBeforeOpen < |ticks| && m < |ticks| && Clock(ticks) && Refusing(sc, ticks, m)
    requires ticks[m].acquireAt >= CoolUntil(sc, ticks, sc.failuresBeforeOpen)
    ensures NoLatePoll(sc, ticks)
  {
    forall k | sc.failuresBeforeOpen < k < |ticks|
      ensures ticks[k].acquireAt >= CoolUntil(sc, ticks, sc.failuresBeforeOpen)
              || ticks[k].laterAt < ticks[sc.failuresBeforeOpen].laterAt + sc.pollTimeoutMs
    {
      if k >= m {
        AcquiredInOrder(ticks, m, k);
      }
    }
  }

  lemma EnoughFrom(sc: Scenario, ticks: seq<Tick>, m: nat)
    requires 0 < sc.failuresBeforeOpen < |ticks| && Clock(ticks) && FirstAfterCooldown(sc, ticks, m)
    ensures EnoughPolls(sc, ticks) <==> m + Needed(sc) <= |ticks|
  {
    var first := |ticks| - Needed(sc);
    if m <= first {
      AcquiredInOrder(ticks, m, first);
    } else if first > sc.failuresBeforeOpen {
      AcquiredInOrder(ticks, first, m - 1);
    }
  }

  /** The success counted at tick `k` as the `done`-th: closed, out of successes, or another round. */
  lemma RoundEnds(sc: Scenario, ticks: seq<Tick>, k: nat, done: nat, r: Joint, transitionMs: nat)
    requires Checks(sc, ticks) && Clock(ticks) && k < |ticks| && 0 < done <= k + 1
    requires !Paused(sc, ticks, sc.failuresBeforeOpen) && NoLatePoll(sc, ticks)
    requires FirstAfterCooldown(sc, ticks, k + 1 - done)
    requires var target := RecoveryTarget(sc.recoverySuccesses);
             && done <= Needed(sc) && done <= target
             && r.driver == NextRound(done == Needed(sc), target - done, sc.failuresBeforeOpen + done, transitionMs)
    requires done < Needed(sc) ==>
               r.breaker == State(HalfOpen, Threshold(sc), None, sc.policy.halfOpenMaxCalls - done, done)
    ensures InStep(sc, ticks, k + 1, r)
  {
    EnoughFrom(sc, ticks, k + 1 - done);
  }

  /** A poll after the cooldown is granted half open. */
  lemma PollGranted(sc: Scenario, ticks: seq<Tick>, k: nat, j: Joint)
    requires Checks(sc, ticks) && Clock(ticks) && sc.failuresBeforeOpen < k < |ticks|
    requires j.driver.Polling? && InStep(sc, ticks, k, j)
    requires ticks[k].acquireAt >= CoolUntil(sc, ticks, sc.failuresBeforeOpen)
    ensures AfterAcquire(sc.policy, j.breaker, ticks[k].acquireAt).1 == Granted("half_open")
    ensures InStep(sc, ticks, k + 1, Next(sc, j, ticks[k]))
  {
    NoLatePollFrom(sc, ticks, k);
    assert FirstAfterCooldown(sc, ticks, k);
    var a, r := AnswerTo(sc.policy, sc.pollTimeoutMs, j, ticks[k]), Next(sc, j, ticks[k]);
    assert a.slot == Granted("half_open") && (a.afterRecord == "closed" <==> Needed(sc) == 1);
    hide InStep;
    RoundEnds(sc, ticks, k, 1, r, a.elapsedMs);
  }

  lemma RoundGranted(sc: Scenario, ticks: seq<Tick>, k: nat, j: Joint)
    requires Checks(sc, ticks) && Clock(ticks) && sc.failuresBeforeOpen < k < |ticks|
    requires j.driver.Recovering? && InStep(sc, ticks, k, j)
    ensures InStep(sc, ticks, k + 1, Next(sc, j, ticks[k]))
  {
    var done := j.driver.calls - sc.failuresBeforeOpen;
    var a, r := AnswerTo(sc.policy, sc.pollTimeoutMs, j, ticks[k]), Next(sc, j, ticks[k]);
    assert a.slot == Granted("half_open") && (a.afterRecord == "closed" <==> Needed(sc) == done + 1);
    hide InStep;
    RoundEnds(sc, ticks, k, done + 1, r, j.driver.transitionMs);
  }

  lemma OneTick(sc: Scenario, ticks: seq<Tick>, k: nat, j: Joint)
    requires Checks(sc, ticks) && Clock(ticks) && sc.failuresBeforeOpen < k < |ticks|
    requires InStep(sc, ticks, k, j) && WellFormed(j.driver)
    ensures InStep(sc, ticks, k + 1, if j.driver.Ended? then j else Next(sc, j, ticks[k]))
  {
    hide Next;
    if j.driver.Polling? {
      if ticks[k].acquireAt < CoolUntil(sc, ticks, sc.failuresBeforeOpen) {
        PollRefused(sc, ticks, k, j);
      } else {
        PollGranted(sc, ticks, k, j);
      }
    } else if j.driver.Recovering? {
      RoundGranted(sc, ticks, k, j);
    }
  }

  lemma {:induction false} StaysInStep(sc: Scenario, ticks: seq<Tick>, k: nat)
    requires Clock(ticks) && Checks(sc, ticks) && sc.failuresBeforeOpen < k <= |ticks|
    ensures InStep(sc, ticks, k, At(sc, ticks, k).0)
  {
    hide At, Next, InStep, Clock, AllPaused;
    AtNext(sc, ticks, k - 1);
    var j := At(sc, ticks, k - 1).0;
    if k == sc.failuresBeforeOpen + 1 {
      KeepsFailing(sc, ticks, k - 1);
      AfterOpenCheck(sc, ticks, j);
    } else {
      StaysInStep(sc, ticks, k - 1);
      OneTick(sc, ticks, k - 1, j);
    }
  }

  // ----- when the scenario passes -----

  predicate Passes(o: Outcome) {
    o.Finished? && o.sample.passed
  }

  /**
   For every policy, deadline and clock: a run passes exactly when parameters and times allow
   it and it is long enough, and a finished run exactly when they allow it.
   */
  lemma PassesExactly(sc: Scenario, ticks: seq<Tick>)
    requires Clock(ticks)
    ensures var o := OutcomeAfter(sc, ticks);
            && (Passes(o) <==> CanPass(sc, ticks) && EnoughPolls(sc, ticks))
            && (o.Finished? ==> (o.sample.passed <==> CanPass(sc, ticks)))
            && (Passes(o) ==> o.sample.connectorCalls == sc.failuresBeforeOpen + Needed(sc))
  {
    hide At;
    var f, n := sc.failuresBeforeOpen, |ticks|;
    if f < Threshold(sc) {
      TooFewFailures(sc, ticks, n);
    } else if n <= f {
      NotFinishedYet(sc, ticks);
    } else if Needed(sc) > sc.policy.halfOpenMaxCalls {
      SmallWindowNeverPasses(sc, ticks, n);
    } else if !AllPaused(sc, ticks, f) {
      KeepsFailing(sc, ticks, f);
      StaysEnded(sc, ticks, f, n);
    } else {
      StaysInStep(sc, ticks, n);
      LongEnough(sc, ticks, At(sc, ticks, n).0);
    }
  }

  lemma NotFinishedYet(sc: Scenario, ticks: seq<Tick>)
    requires Threshold(sc) <= sc.failuresBeforeOpen && |ticks| <= sc.failuresBeforeOpen
    ensures !OutcomeAfter(sc, ticks).Finished?
  {
    hide At;
    if |ticks| < Threshold(sc) {
      CountsFailures(sc, ticks, |ticks|);
    } else {
      KeepsFailing(sc, ticks, |ticks|);
    }
  }

  /** A run that has not ended was too short to pass. */
  lemma LongEnough(sc: Scenario, ticks: seq<Tick>, j: Joint)
    requires Clock(ticks) && Checks(sc, ticks) && InStep(sc, ticks, |ticks|, j)
    ensures !j.driver.Ended? ==> !EnoughPolls(sc, ticks)
  {
    if j.driver.Recovering? {
      EnoughFrom(sc, ticks, |ticks| - (j.driver.calls - sc.failuresBeforeOpen));
    }
  }

  // ----- what follows -----

  /** Past the open check there is no way back. */
  lemma {:induction false} PastCheck(sc: Scenario, ticks: seq<Tick>, k: nat)
    requires sc.failuresBeforeOpen < k <= |ticks|
    ensures var d := At(sc, ticks, k).0.driver; d.Polling? || d.Recovering? || d.Ended?
  {
    hide At;
    AtNext(sc, ticks, k - 1);
    if k > sc.failuresBeforeOpen + 1 {
      PastCheck(sc, ticks, k - 1);
    } else if sc.failuresBeforeOpen < Threshold(sc) {
      CountsFailures(sc, ticks, k - 1);
    } else {
      KeepsFailing(sc, ticks, k - 1);
    }
  }

  /** While the driver polls, the breaker has been cooling down since the last failure. */
  lemma {:induction false} PollingMeansCooling(sc: Scenario, ticks: seq<Tick>, k: nat)
    requires sc.policy.halfOpenMaxCalls > 0 && sc.failuresBeforeOpen < k <= |ticks|
    requires At(sc, ticks, k).0.driver.Polling?
    ensures 0 < sc.failuresBeforeOpen
    ensures At(sc, ticks, k).0.breaker == Cooling(sc, CoolUntil(sc, ticks, sc.failuresBeforeOpen))
  {
    hide At;
    AtNext(sc, ticks, k - 1);
    if k > sc.failuresBeforeOpen + 1 {
      PastCheck(sc, ticks, k - 1);
      PollingMeansCooling(sc, ticks, k - 1);
    } else if sc.failuresBeforeOpen < Threshold(sc) {
      CountsFailures(sc, ticks, k - 1);
    } else {
      KeepsFailing(sc, ticks, k - 1);
    }
  }

  /** Whatever clock, deadline and policy with a window: a poll after the cooldown is half open and the last. */
  lemma PollAfterCooldownIsHalfOpen(sc: Scenario, ticks: seq<Tick>, k: nat)
    requires sc.policy.halfOpenMaxCalls > 0 && 0 < sc.failuresBeforeOpen < k < |ticks|
    requires At(sc, ticks, k).0.driver.Polling?
    requires ticks[k].acquireAt >= CoolUntil(sc, ticks, sc.failuresBeforeOpen)
    ensures AfterAcquire(sc.policy, At(sc, ticks, k).0.breaker, ticks[k].acquireAt).1 == Granted("half_open")
    ensures !At(sc, ticks, k + 1).0.driver.Polling?
  {
    hide At;
    PollingMeansCooling(sc, ticks, k);
    AtNext(sc, ticks, k);
  }

  /** An open check made after a whole cooldown finds the circuit closed, or rather half open. */
  lemma LateOpenCheck(sc: Scenario, ticks: seq<Tick>)
    requires Checks(sc, ticks) && Paused(sc, ticks, sc.failuresBeforeOpen)
    ensures OutcomeAfter(sc, ticks) == FoundClosed(sc)
  {
    hide At, Next;
    var f := sc.failuresBeforeOpen;
    KeepsFailing(sc, ticks, f);
    AfterOpenCheck(sc, ticks, At(sc, ticks, f).0);
    AtNext(sc, ticks, f);
    StaysEnded(sc, ticks, f + 1, |ticks|);
  }

  /** Parameters alone: exactly enough failures and enough recovery successes. */
  predicate Configured(sc: Scenario) {
    && sc.failuresBeforeOpen == sc.policy.failureThreshold
    && RecoveryTarget(sc.recoverySuccesses) >= sc.policy.successThreshold
  }

  /** No pause of a whole cooldown up to the open check. */
  predicate Brisk(sc: Scenario, ticks: seq<Tick>) {
    forall i | 0 < i < |ticks| && i <= sc.failuresBeforeOpen :: !Paused(sc, ticks, i)
  }

  /** No more than the recovery buffer passes between a request and what follows it. */
  predicate Punctual(ticks: seq<Tick>) {
    forall i | 0 <= i < |ticks| :: ticks[i].laterAt - ticks[i].acquireAt <= RECOVERY_BUFFER_MS
  }

  /** The deadline is at least the default one. */
  predicate Patient(sc: Scenario) {
    sc.pollTimeoutMs >= DefaultPollTimeout(sc.policy)
  }

  /** With a valid policy, a patient deadline and an even clock, the parameters alone decide. */
  lemma PassesExactlyWhenConfiguredTo(sc: Scenario, ticks: seq<Tick>)
    requires ValidPolicy(sc.policy) && Patient(sc)
    requires Clock(ticks) && Brisk(sc, ticks) && Punctual(ticks)
    ensures var o := OutcomeAfter(sc, ticks); o.Finished? ==> (o.sample.passed <==> Configured(sc))
  {
    hide OutcomeAfter;
    PassesExactly(sc, ticks);
    var f := sc.failuresBeforeOpen;
    if f >= Threshold(sc) && |ticks| <= f {
      NotFinishedYet(sc, ticks);
    } else if f > Threshold(sc) {
      assert !Paused(sc, ticks, Threshold(sc));
    } else if f == Threshold(sc) {
      PunctualIsNeverLate(sc, ticks);
    }
  }

  lemma PunctualIsNeverLate(sc: Scenario, ticks: seq<Tick>)
    requires 0 < sc.failuresBeforeOpen < |ticks| && Patient(sc) && Clock(ticks) && Punctual(ticks)
    ensures NoLatePoll(sc, ticks)
  {
    var f := sc.failuresBeforeOpen;
    assert ticks[f - 1].laterAt <= ticks[f].acquireAt <= ticks[f].laterAt;
  }

  const STEP := Policy(1, 1, 1, 1)

  /** One failure more than opens the breaker, and a pause before it: the scenario passes all the same. */
  lemma PausedFailurePasses()
    ensures var sc := Scenario(STEP, 2, 1, DefaultPollTimeout(STEP));
            var ticks := [Tick(0, 0), Tick(1, 1), Tick(1, 1), Tick(2, 2)];
            Clock(ticks) && Punctual(ticks) && !Configured(sc) && Passes(OutcomeAfter(sc, ticks))
  {
    var sc := Scenario(STEP, 2, 1, DefaultPollTimeout(STEP));
    var ticks := [Tick(0, 0), Tick(1, 1), Tick(1, 1), Tick(2, 2)];
    hide OutcomeAfter;
    PassesExactly(sc, ticks);
    assert Paused(sc, ticks, 1) && !Paused(sc, ticks, 2);
    assert NoLatePoll(sc, ticks) && EnoughPolls(sc, ticks);
  }

  /** Exactly enough failures, and a pause before the open check: the scenario fails. */
  lemma PausedCheckFails()
    ensures var sc := Scenario(STEP, 1, 1, DefaultPollTimeout(STEP));
            var ticks := [Tick(0, 0), Tick(1, 1)];
            Clock(ticks) && Punctual(ticks) && Configured(sc) && OutcomeAfter(sc, ticks) == FoundClosed(sc)
  {
    hide OutcomeAfter;
    LateOpenCheck(Scenario(STEP, 1, 1, DefaultPollTimeout(STEP)), [Tick(0, 0), Tick(1, 1)]);
  }
}
