/**
 The per-connector circuit breaker of crates/spec/src/programmatic.rs. Time is a natural
 number of milliseconds read by the caller; counters are unbounded.
 */
module CircuitBreaker {
  import opened Text

  datatype Phase = Closed | Open | HalfOpen

  datatype Policy = Policy(failureThreshold: nat, cooldownMs: nat, halfOpenMaxCalls: nat, successThreshold: nat)

  datatype State = State(phase: Phase, consecutiveFailures: nat, openUntil: Option<nat>,
                         halfOpenRemainingCalls: nat, halfOpenSuccesses: nat)

  const INITIAL := State(Closed, 0, None, 0, 0)

  /** The phase a slot was granted in, or a refusal. */
  datatype Slot = Granted(phase: string) | Refused

  function PhaseLabel(phase: Phase): string {
    match phase
    case Closed => "closed"
    case Open => "open"
    case HalfOpen => "half_open"
  }

  /** What policy validation demands. */
  predicate ValidPolicy(p: Policy) {
    p.failureThreshold > 0 && p.cooldownMs > 0 && p.halfOpenMaxCalls > 0 &&
    0 < p.successThreshold <= p.halfOpenMaxCalls
  }

  // ----- specification -----

  function Reopen(p: Policy, s: State, now: nat): State {
    s.(phase := Open, openUntil := Some(now + p.cooldownMs))
  }

  predicate CoolingDown(s: State, now: nat) {
    s.phase.Open? && s.openUntil.Some? && s.openUntil.value > now
  }

  function AfterAcquire(p: Policy, s: State, now: nat): (State, Slot) {
    if CoolingDown(s, now) then (s, Refused)
    else
      var h := if s.phase.Open? then State(HalfOpen, s.consecutiveFailures, None, p.halfOpenMaxCalls, 0) else s;
      if h.phase.HalfOpen? then
        if h.halfOpenRemainingCalls == 0 then (Reopen(p, h, now), Refused)
        else (h.(halfOpenRemainingCalls := h.halfOpenRemainingCalls - 1), Granted("half_open"))
      else (h, Granted("closed"))
  }

  function AfterRecord(p: Policy, s: State, success: bool, now: nat): State {
    match s.phase
    case Closed =>
      if success then s.(consecutiveFailures := 0)
      else if s.consecutiveFailures + 1 >= p.failureThreshold then
        State(Open, s.consecutiveFailures + 1, Some(now + p.cooldownMs), 0, 0)
      else s.(consecutiveFailures := s.consecutiveFailures + 1)
    case HalfOpen =>
      if !success then State(Open, s.consecutiveFailures, Some(now + p.cooldownMs), 0, 0)
      else if s.halfOpenSuccesses + 1 >= p.successThreshold then State(Closed, 0, None, 0, 0)
      else if s.halfOpenRemainingCalls == 0 then
        State(Open, s.consecutiveFailures, Some(now + p.cooldownMs), 0, 0)
      else s.(halfOpenSuccesses := s.halfOpenSuccesses + 1)
    case Open => s
  }

  // ----- the breakers of all connectors, updated in place -----

  const DISABLED := "disabled"

  type States = map<string, State>

  /** The state of a connector; one not used yet is in the initial state. */
  function Entry(states: States, connector: string): State {
    if connector in states then states[connector] else INITIAL
  }

  class Registry {
    const policies: map<string, Policy>
    var states: States

    constructor (policies: map<string, Policy>)
      ensures this.policies == policies && forall connector :: Entry(states, connector) == INITIAL
    {
      this.policies := policies;
      states := map[];
    }

    method Acquire(connector: string, now: nat) returns (slot: Slot)
      modifies this
      ensures connector !in policies ==> slot == Granted(DISABLED) && states == old(states)
      ensures connector in policies ==>
                var (after, granted) := AfterAcquire(policies[connector], Entry(old(states), connector), now);
                states == old(states)[connector := after] && slot == granted
    {
      if connector !in policies {
        return Granted(DISABLED);
      }
      var policy := policies[connector];
      var entry := Entry(states, connector);
      if entry.phase.Open? {
        if entry.openUntil.Some? && entry.openUntil.value > now {
          states := states[connector := entry];
          return Refused;
        }
        entry := entry.(phase := HalfOpen, openUntil := None);
        entry := entry.(halfOpenRemainingCalls := policy.halfOpenMaxCalls, halfOpenSuccesses := 0);
      }
      if entry.phase.HalfOpen? {
        if entry.halfOpenRemainingCalls == 0 {
          entry := entry.(phase := Open, openUntil := Some(now + policy.cooldownMs));
          states := states[connector := entry];
          return Refused;
        }
        entry := entry.(halfOpenRemainingCalls := entry.halfOpenRemainingCalls - 1);
        states := states[connector := entry];
        return Granted("half_open");
      }
      states := states[connector := entry];
      return Granted("closed");
    }

    method Record(connector: string, success: bool, now: nat) returns (after: string)
      modifies this
      ensures connector !in policies ==> after == DISABLED && states == old(states)
      ensures connector in policies ==>
                var next := AfterRecord(policies[connector], Entry(old(states), connector), success, now);
                states == old(states)[connector := next] && after == PhaseLabel(next.phase)
    {
      if connector !in policies {
        return DISABLED;
      }
      var policy := policies[connector];
      var entry := Entry(states, connector);
      match entry.phase {
        case Closed =>
          if success {
            entry := entry.(consecutiveFailures := 0);
          } else {
            entry := entry.(consecutiveFailures := entry.consecutiveFailures + 1);
            if entry.consecutiveFailures >= policy.failureThreshold {
              entry := entry.(phase := Open, openUntil := Some(now + policy.cooldownMs));
              entry := entry.(halfOpenRemainingCalls := 0, halfOpenSuccesses := 0);
            }
          }
        case HalfOpen =>
          if success {
            entry := entry.(halfOpenSuccesses := entry.halfOpenSuccesses + 1);
            if entry.halfOpenSuccesses >= policy.successThreshold {
              entry := State(Closed, 0, None, 0, 0);
            } else if entry.halfOpenRemainingCalls == 0 {
              entry := entry.(phase := Open, openUntil := Some(now + policy.cooldownMs), halfOpenSuccesses := 0);
            }
          } else {
            entry := entry.(phase := Open, openUntil := Some(now + policy.cooldownMs));
            entry := entry.(halfOpenRemainingCalls := 0, halfOpenSuccesses := 0);
          }
        case Open =>
      }
      states := states[connector := entry];
      after := PhaseLabel(entry.phase);
    }
  }

  // ----- every run -----

  datatype Op = AcquireAt(at: nat) | RecordAt(at: nat, success: bool)

  function After(p: Policy, s: State, op: Op): State {
    match op
    case AcquireAt(at) => AfterAcquire(p, s, at).0
    case RecordAt(at, success) => AfterRecord(p, s, success, at)
  }

  /** The state after a history of operations, oldest first. */
  function Run(p: Policy, s: State, ops: seq<Op>): State {
    if ops == [] then s else After(p, Run(p, s, ops[..|ops| - 1]), ops[|ops| - 1])
  }

  /**
   What every operation keeps: while closed the failure count is short of the threshold; while
   open there is an end to the cooldown; while half open the calls still to be admitted are
   within the window and the successes are short of the threshold.
   */
  predicate Sound(p: Policy, s: State) {
    match s.phase
    case Closed => s.consecutiveFailures < p.failureThreshold
    case Open => s.openUntil.Some?
    case HalfOpen => s.halfOpenRemainingCalls <= p.halfOpenMaxCalls && s.halfOpenSuccesses < p.successThreshold
  }

  lemma {:induction false} RunIsSound(p: Policy, ops: seq<Op>)
    requires ValidPolicy(p)
    ensures Sound(p, Run(p, INITIAL, ops))
  {
    if ops != [] {
      RunIsSound(p, ops[..|ops| - 1]);
    }
  }

  /** Once open, nothing that happens before the cooldown is over changes the state or is admitted. */
  lemma {:induction false} CooldownIsRespected(p: Policy, s: State, ops: seq<Op>)
    requires s.phase.Open? && s.openUntil.Some?
    requires forall i | 0 <= i < |ops| :: ops[i].at < s.openUntil.value
    ensures Run(p, s, ops) == s
    ensures forall i | 0 <= i < |ops| && ops[i].AcquireAt? ::
              AfterAcquire(p, Run(p, s, ops[..i]), ops[i].at).1 == Refused
  {
    if ops != [] {
      var last := |ops| - 1;
      CooldownIsRespected(p, s, ops[..last]);
      assert forall i | 0 <= i < last :: ops[i] == ops[..last][i] && ops[..i] == ops[..last][..i];
    }
  }

  /** How many acquisitions of a history were admitted. */
  function Admitted(p: Policy, s: State, ops: seq<Op>): nat {
    if ops == [] then 0
    else
      var last := ops[|ops| - 1];
      var before := Run(p, s, ops[..|ops| - 1]);
      Admitted(p, s, ops[..|ops| - 1]) +
      (if last.AcquireAt? && AfterAcquire(p, before, last.at).1.Granted? then 1 else 0)
  }

  predicate StaysHalfOpen(p: Policy, s: State, ops: seq<Op>) {
    forall i | 0 <= i <= |ops| :: Run(p, s, ops[..i]).phase.HalfOpen?
  }

  /** A half-open window spends one of its calls on every admission, so it never admits more. */
  lemma {:induction false} WindowIsSpent(p: Policy, s: State, ops: seq<Op>)
    requires StaysHalfOpen(p, s, ops)
    ensures Admitted(p, s, ops) + Run(p, s, ops).halfOpenRemainingCalls == s.halfOpenRemainingCalls
  {
    assert Run(p, s, ops[..0]).phase.HalfOpen? && ops[..0] == [];
    if ops != [] {
      var last := |ops| - 1;
      forall i | 0 <= i <= last ensures Run(p, s, ops[..last][..i]).phase.HalfOpen? {
        assert ops[..last][..i] == ops[..i];
      }
      WindowIsSpent(p, s, ops[..last]);
      assert Run(p, s, ops[..last]).phase.HalfOpen? && Run(p, s, ops[..last + 1]).phase.HalfOpen?;
      assert ops[..last + 1] == ops;
    }
  }

  // ----- connectors do not disturb each other -----

  datatype Call = Call(connector: string, op: Op)

  /** All breakers after a history of operations on any connectors. */
  function RunAll(policies: map<string, Policy>, states: States, calls: seq<Call>): States {
    if calls == [] then states
    else
      var before, call := RunAll(policies, states, calls[..|calls| - 1]), calls[|calls| - 1];
      if call.connector !in policies then before
      else before[call.connector := After(policies[call.connector], Entry(before, call.connector), call.op)]
  }

  /** The operations of a history on one connector. */
  function OpsOn(calls: seq<Call>, connector: string): seq<Op> {
    if calls == [] then []
    else
      OpsOn(calls[..|calls| - 1], connector) +
      if calls[|calls| - 1].connector == connector then [calls[|calls| - 1].op] else []
  }

  /** A connector's breaker is where its own operations alone would have taken it; without a policy there is none. */
  lemma {:induction false} ConnectorsAreIndependent(policies: map<string, Policy>, calls: seq<Call>, connector: string)
    ensures connector in policies ==>
              Entry(RunAll(policies, map[], calls), connector)
              == Run(policies[connector], INITIAL, OpsOn(calls, connector))
    ensures connector !in policies ==> connector !in RunAll(policies, map[], calls)
  {
    if calls != [] {
      var front, call := calls[..|calls| - 1], calls[|calls| - 1];
      ConnectorsAreIndependent(policies, front, connector);
      var ops := OpsOn(front, connector);
      assert (ops + [call.op])[..|ops|] == ops && ops + [] == ops;
    }
  }
}
