/** What a rollup says, kind of event by kind of event. */
module AuditLaws {
  import opened Text
  import opened Audit
  import A = Aggregation

  predicate IsDenial(kind: EventKind) {
    kind.AuthorizationDenied?
  }

  predicate IsFailover(kind: EventKind) {
    kind.ProviderFailover?
  }

  predicate IsBlockedScan(kind: EventKind) {
    kind.SecurityScanEvaluated? && kind.blocked
  }

  /** The events that need attention. */
  predicate IsTriage(kind: EventKind) {
    IsDenial(kind) || IsFailover(kind) || IsBlockedScan(kind)
  }

  ghost function Where(events: seq<Event>, p: EventKind -> bool): set<nat> {
    set i: nat | i < |events| && p(events[i].kind)
  }

  /** Summing ones over the events that satisfy a predicate counts their positions. */
  lemma {:induction false} SumIsSize(events: seq<Event>, f: Event -> nat, p: EventKind -> bool)
    requires forall e: Event :: f(e) == if p(e.kind) then 1 else 0
    ensures A.SumBy(f, events) == |Where(events, p)|
  {
    if events == [] {
      assert Where(events, p) == {};
    } else {
      var n := |events| - 1;
      var front, last := events[..n], events[n];
      SumIsSize(front, f, p);
      assert events == front + [last];
      A.SumBySnoc(f, front, last);
      assert Where(events, p) == Where(front, p) + if p(last.kind) then {n} else {};
    }
  }

  // ----- labels -----

  /** Two kinds share a label exactly when they are the same kind of event. */
  predicate SameKind(a: EventKind, b: EventKind) {
    match a
    case TokenIssued => b.TokenIssued?
    case TokenRevoked => b.TokenRevoked?
    case TaskDispatched => b.TaskDispatched?
    case ConnectorInvoked => b.ConnectorInvoked?
    case PlaneInvoked => b.PlaneInvoked?
    case SecurityScanEvaluated(_) => b.SecurityScanEvaluated?
    case ProviderFailover => b.ProviderFailover?
    case AuthorizationDenied => b.AuthorizationDenied?
    case Other => b.Other?
  }

  function Like(kind: EventKind): EventKind -> bool {
    (other: EventKind) => SameKind(kind, other)
  }

  /** The first letter and the length already tell the labels apart. */
  function Tag(kind: EventKind): (char, nat) {
    match kind
    case TokenIssued => ('T', 11)
    case TokenRevoked => ('T', 12)
    case TaskDispatched => ('T', 14)
    case ConnectorInvoked => ('C', 16)
    case PlaneInvoked => ('P', 12)
    case SecurityScanEvaluated(_) => ('S', 21)
    case ProviderFailover => ('P', 16)
    case AuthorizationDenied => ('A', 19)
    case Other => ('U', 21)
  }

  lemma LabelHasTag(kind: EventKind)
    ensures |KindLabel(kind)| > 0 && (KindLabel(kind)[0], |KindLabel(kind)|) == Tag(kind)
  {}

  lemma LabelsTellKinds(a: EventKind, b: EventKind)
    ensures KindLabel(a) == KindLabel(b) <==> SameKind(a, b)
  {
    LabelHasTag(a);
    LabelHasTag(b);
  }

  lemma TriageLabelsTellKinds(kind: EventKind)
    ensures TriageLabel(kind).Some? <==> IsTriage(kind)
    ensures TriageLabel(kind) == Some("authorization_denied") <==> IsDenial(kind)
    ensures TriageLabel(kind) == Some("provider_failover") <==> IsFailover(kind)
    ensures TriageLabel(kind) == Some("security_scan_blocked") <==> IsBlockedScan(kind)
  {
    assert "authorization_denied"[0] == 'a' && "provider_failover"[0] == 'p' && "security_scan_blocked"[0] == 's';
  }

  // ----- counts -----

  /** Every kind of event is counted under its own label. */
  lemma KindIsCounted(events: seq<Event>, r: Rollup, kind: EventKind)
    requires RollsUp(events, r)
    ensures A.Count(r.eventKindCounts, KindLabel(kind)) == |Where(events, Like(kind))|
  {
    var name := KindLabel(kind);
    forall e: Event ensures OfKind(name)(e) == if SameKind(kind, e.kind) then 1 else 0 {
      LabelsTellKinds(kind, e.kind);
    }
    hide KindLabel, SameKind, TriageLabel;
    SumIsSize(events, OfKind(name), Like(kind));
  }

  /** Denied authorizations, failovers and blocked scans are triage, each under its own count, and nothing else is. */
  lemma TriageIsCounted(events: seq<Event>, r: Rollup)
    requires RollsUp(events, r)
    ensures A.Count(r.triageCounts, "authorization_denied") == |Where(events, IsDenial)|
    ensures A.Count(r.triageCounts, "provider_failover") == |Where(events, IsFailover)|
    ensures A.Count(r.triageCounts, "security_scan_blocked") == |Where(events, IsBlockedScan)|
    ensures Total(r.triageCounts) == |Where(events, IsTriage)|
  {
    forall e: Event
      ensures OfTriage("authorization_denied")(e) == if IsDenial(e.kind) then 1 else 0
      ensures OfTriage("provider_failover")(e) == if IsFailover(e.kind) then 1 else 0
      ensures OfTriage("security_scan_blocked")(e) == if IsBlockedScan(e.kind) then 1 else 0
      ensures NeedsTriage()(e) == if IsTriage(e.kind) then 1 else 0
    {
      TriageLabelsTellKinds(e.kind);
    }
    hide KindLabel, TriageLabel, IsTriage, IsDenial, IsFailover, IsBlockedScan;
    SumIsSize(events, OfTriage("authorization_denied"), IsDenial);
    SumIsSize(events, OfTriage("provider_failover"), IsFailover);
    SumIsSize(events, OfTriage("security_scan_blocked"), IsBlockedScan);
    SumIsSize(events, NeedsTriage(), IsTriage);
  }

  /** The last event that needs attention, by position. */
  lemma LastTriageIsLast(events: seq<Event>, r: Rollup)
    requires RollsUp(events, r)
    ensures r.lastTriage.None? <==> forall i | 0 <= i < |events| :: !IsTriage(events[i].kind)
    ensures forall i | 0 <= i < |events| && IsTriage(events[i].kind)
              && (forall j | i < j < |events| :: !IsTriage(events[j].kind)) :: r.lastTriage == Some(events[i])
  {
    forall i | 0 <= i < |events| ensures TriageLabel(events[i].kind).Some? <==> IsTriage(events[i].kind) {
      TriageLabelsTellKinds(events[i].kind);
    }
    hide TriageLabel, IsTriage, Counted;
  }
}
