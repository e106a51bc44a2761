/** When a breaker changes phase, told by the history of its calls alone. */
module BreakerLaws {
  import opened Text
  import opened CircuitBreaker

  /** The failures at the end of a history since the last success. */
  function TrailingFailures(ops: seq<Op>): nat {
    if ops == [] then 0
    else
      var before := TrailingFailures(ops[..|ops| - 1]);
      match ops[|ops| - 1]
      case AcquireAt(_) => before
      case RecordAt(_, success) => if success then 0 else before + 1
  }

  function Successes(ops: seq<Op>): nat {
    if ops == [] then 0
    else
      var last := ops[|ops| - 1];
      Successes(ops[..|ops| - 1]) + if last.RecordAt? && last.success then 1 else 0
  }

  predicate StaysClosed(p: Policy, s: State, ops: seq<Op>) {
    forall i | 0 <= i <= |ops| :: Run(p, s, ops[..i]).phase.Closed?
  }

  /** Nowhere in the history do failures without a success between them reach the threshold. */
  predicate ShortRuns(p: Policy, ops: seq<Op>) {
    TrailingFailures(ops) < p.failureThreshold && (ops != [] ==> ShortRuns(p, ops[..|ops| - 1]))
  }

  /** A breaker that has just closed, or was never used. */
  predicate JustClosed(s: State) {
    s.phase.Closed? && s.consecutiveFailures == 0
  }

  lemma PrefixOfPrefix(ops: seq<Op>, i: nat, n: nat)
    requires i <= n <= |ops|
    ensures ops[..n][..i] == ops[..i]
  {}

  lemma {:induction false} ClosedCountsFailures(p: Policy, s: State, ops: seq<Op>)
    requires JustClosed(s) && StaysClosed(p, s, ops)
    ensures Run(p, s, ops).consecutiveFailures == TrailingFailures(ops)
  {
    assert ops[..|ops|] == ops;
    if ops != [] {
      var last := |ops| - 1;
      forall i | 0 <= i <= last ensures Run(p, s, ops[..last][..i]).phase.Closed? {
        PrefixOfPrefix(ops, i, last);
      }
      ClosedCountsFailures(p, s, ops[..last]);
      assert Run(p, s, ops[..last]).phase.Closed? && Run(p, s, ops).phase.Closed?;
    }
  }

  /**
   A closed breaker stays closed exactly as long as no run of failures without a success
   between them reaches the threshold; the failure that reaches it opens the breaker.
   */
  lemma {:induction false} OpensExactlyOnThreshold(p: Policy, s: State, ops: seq<Op>)
    requires p.failureThreshold > 0 && JustClosed(s)
    ensures StaysClosed(p, s, ops) <==> ShortRuns(p, ops)
    ensures ops != [] && StaysClosed(p, s, ops[..|ops| - 1]) && !StaysClosed(p, s, ops) ==>
              Run(p, s, ops).phase.Open? && TrailingFailures(ops) == p.failureThreshold
  {
    assert ops[..|ops|] == ops;
    if ops == [] {
      assert forall i | 0 <= i <= |ops| :: ops[..i] == [];
    } else {
      var last := |ops| - 1;
      var front := ops[..last];
      OpensExactlyOnThreshold(p, s, front);
      ClosedExtends(p, s, ops);
      if StaysClosed(p, s, front) {
        ClosedCountsFailures(p, s, front);
        assert Run(p, s, front[..last]).phase.Closed? && front[..last] == front;
      }
    }
  }

  lemma ClosedExtends(p: Policy, s: State, ops: seq<Op>)
    requires ops != []
    ensures StaysClosed(p, s, ops) <==> StaysClosed(p, s, ops[..|ops| - 1]) && Run(p, s, ops).phase.Closed?
  {
    hide Run;
    var last := |ops| - 1;
    var front := ops[..last];
    assert ops[..last + 1] == ops;
    if StaysClosed(p, s, ops) {
      assert Run(p, s, ops[..last + 1]).phase.Closed?;
      forall i | 0 <= i <= last ensures Run(p, s, front[..i]).phase.Closed? {
        PrefixOfPrefix(ops, i, last);
      }
    }
    if StaysClosed(p, s, front) && Run(p, s, ops).phase.Closed? {
      forall i | 0 <= i <= |ops| ensures Run(p, s, ops[..i]).phase.Closed? {
        if i <= last {
          PrefixOfPrefix(ops, i, last);
          assert Run(p, s, front[..i]).phase.Closed?;
        }
      }
    }
  }

  /** Whatever opens a breaker, it opens for one cooldown from that moment. */
  lemma OpensForOneCooldown(p: Policy, s: State, op: Op)
    requires !s.phase.Open? && After(p, s, op).phase.Open?
    ensures After(p, s, op).openUntil == Some(op.at + p.cooldownMs)
  {}

  /** An open breaker admits a call exactly when the cooldown is over, and that call opens a full window. */
  lemma CooldownEnds(p: Policy, s: State, now: nat)
    requires ValidPolicy(p) && s.phase.Open? && s.openUntil.Some?
    ensures var (after, slot) := AfterAcquire(p, s, now);
            if now < s.openUntil.value then after == s && slot == Refused
            else
              && slot == Granted("half_open") && after.phase.HalfOpen?
              && after.halfOpenRemainingCalls == p.halfOpenMaxCalls - 1 && after.halfOpenSuccesses == 0
  {}

  /** A window stays half open only on successes, and counts them. */
  lemma {:induction false} WindowCountsSuccesses(p: Policy, s: State, ops: seq<Op>)
    requires StaysHalfOpen(p, s, ops)
    ensures Run(p, s, ops).halfOpenSuccesses == s.halfOpenSuccesses + Successes(ops)
    ensures forall i | 0 <= i < |ops| && ops[i].RecordAt? :: ops[i].success
  {
    assert Run(p, s, ops[..0]).phase.HalfOpen? && ops[..0] == [];
    if ops != [] {
      var last := |ops| - 1;
      forall i | 0 <= i <= last ensures Run(p, s, ops[..last][..i]).phase.HalfOpen? {
        PrefixOfPrefix(ops, i, last);
      }
      WindowCountsSuccesses(p, s, ops[..last]);
      assert Run(p, s, ops[..last]).phase.HalfOpen? && Run(p, s, ops[..last + 1]).phase.HalfOpen?;
      assert ops[..last + 1] == ops;
      assert forall i | 0 <= i < last :: ops[..last][i] == ops[i];
    }
  }

  /**
   How a window ends. A failure reopens the breaker. A success closes it when it is the
   threshold's, reopens it when no call is left, and otherwise leaves the window as it is. A call
   asked for when none is left reopens it.
   */
  lemma WindowEnds(p: Policy, s: State, ops: seq<Op>, op: Op)
    requires StaysHalfOpen(p, s, ops)
    ensures var spent := Admitted(p, s, ops) == s.halfOpenRemainingCalls;
            var reached := s.halfOpenSuccesses + Successes(ops) + 1 >= p.successThreshold;
            var next := Run(p, s, ops + [op]).phase;
            match op
            case AcquireAt(_) => next == if spent then Open else HalfOpen
            case RecordAt(_, success) =>
              next == if success && reached then Closed else if !success || spent then Open else HalfOpen
  {
    WindowCountsSuccesses(p, s, ops);
    WindowIsSpent(p, s, ops);
    assert ops[..|ops|] == ops && (ops + [op])[..|ops|] == ops;
    assert Run(p, s, ops[..|ops|]).phase.HalfOpen?;
  }
}
