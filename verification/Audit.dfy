/** The audit commands: a bounded window over the journal and a rollup over the window. */
module Audit {
  import opened Text
  import A = Aggregation

  const MAX_AUDIT_WINDOW := 10_000

  /** The parts of an event kind that labels depend on; `Other` stands for kinds added later. */
  datatype EventKind =
    | TokenIssued
    | TokenRevoked
    | TaskDispatched
    | ConnectorInvoked
    | PlaneInvoked
    | SecurityScanEvaluated(blocked: bool)
    | ProviderFailover
    | AuthorizationDenied
    | Other

  datatype Event = Event(eventId: string, timestampEpochS: nat, agentId: Option<string>, kind: EventKind)

  /** One line of the journal as it comes back from reading and decoding. */
  datatype Line = Decoded(event: Event) | Unreadable | Undecodable

  datatype Error = LimitOutOfRange | ReadFailed(lineNumber: nat) | DecodeFailed(lineNumber: nat)
  datatype Result<+T> = Ok(value: T) | Err(error: Error)

  datatype Command = Recent(limit: nat) | Summary(limit: nat)

  datatype Rollup = Rollup(
    loadedEvents: nat, eventKindCounts: A.Codes, triageCounts: A.Codes,
    firstTimestamp: Option<nat>, last: Option<Event>, lastTriage: Option<Event>)

  datatype Output = Events(events: seq<Event>) | Rolled(rollup: Rollup)

  function KindLabel(kind: EventKind): string {
    match kind
    case TokenIssued => "TokenIssued"
    case TokenRevoked => "TokenRevoked"
    case TaskDispatched => "TaskDispatched"
    case ConnectorInvoked => "ConnectorInvoked"
    case PlaneInvoked => "PlaneInvoked"
    case SecurityScanEvaluated(_) => "SecurityScanEvaluated"
    case ProviderFailover => "ProviderFailover"
    case AuthorizationDenied => "AuthorizationDenied"
    case Other => "UnknownAuditEventKind"
  }

  function TriageLabel(kind: EventKind): Option<string> {
    match kind
    case AuthorizationDenied => Some("authorization_denied")
    case ProviderFailover => Some("provider_failover")
    case SecurityScanEvaluated(true) => Some("security_scan_blocked")
    case _ => None
  }

  // ----- the window -----

  predicate AllDecoded(lines: seq<Line>) {
    forall i | 0 <= i < |lines| :: lines[i].Decoded?
  }

  /** The events of the journal, oldest first. */
  function EventsOf(lines: seq<Line>): seq<Event> {
    if lines == [] then []
    else
      var before, line := EventsOf(lines[..|lines| - 1]), lines[|lines| - 1];
      if line.Decoded? then before + [line.event] else before
  }

  lemma {:induction false} EventsOfMeaning(lines: seq<Line>)
    requires AllDecoded(lines)
    ensures |EventsOf(lines)| == |lines|
    ensures forall i | 0 <= i < |lines| :: EventsOf(lines)[i] == lines[i].event
  {
    if lines != [] {
      EventsOfMeaning(lines[..|lines| - 1]);
    }
  }

  /** The last `n` elements, or all if there are fewer. */
  function LastOf<T>(n: nat, xs: seq<T>): seq<T> {
    xs[SaturatingSub(|xs|, n)..]
  }

  /** Dropping the oldest event of a full window before adding one keeps the last events. */
  lemma WindowSlides<T>(n: nat, xs: seq<T>, x: T)
    requires n >= 1
    ensures var w := LastOf(n, xs); LastOf(n, xs + [x]) == (if |w| == n then w[1..] else w) + [x]
  {}

  /** The window holds the last events among the first `i` lines, all of which are events. */
  predicate Loaded(lines: seq<Line>, i: nat, limit: nat, window: seq<Event>) {
    && i <= |lines| && AllDecoded(lines[..i])
    && window == LastOf(limit, EventsOf(lines[..i]))
  }

  lemma LoadedNone(lines: seq<Line>, limit: nat)
    ensures Loaded(lines, 0, limit, [])
  {}

  lemma LoadedMore(lines: seq<Line>, i: nat, limit: nat, window: seq<Event>)
    requires limit >= 1 && Loaded(lines, i, limit, window) && i < |lines| && lines[i].Decoded?
    ensures Loaded(lines, i + 1, limit, (if |window| == limit then window[1..] else window) + [lines[i].event])
  {
    WindowSlides(limit, EventsOf(lines[..i]), lines[i].event);
    assert lines[..i + 1][..i] == lines[..i];
    hide LastOf;
  }

  lemma LoadedAll(lines: seq<Line>, limit: nat, window: seq<Event>)
    requires Loaded(lines, |lines|, limit, window)
    ensures AllDecoded(lines) && window == LastOf(limit, EventsOf(lines))
  {
    assert lines[..|lines|] == lines;
  }

  /** The first line that is not an event, as the error it is reported with. */
  predicate FailsAt(lines: seq<Line>, i: nat, error: Error) {
    && i < |lines| && AllDecoded(lines[..i])
    && error == (if lines[i].Unreadable? then ReadFailed(i + 1) else DecodeFailed(i + 1))
    && !lines[i].Decoded?
  }

  predicate Fails(lines: seq<Line>, error: Error) {
    exists i: nat | i < |lines| :: FailsAt(lines, i, error)
  }

  lemma FailedLine(lines: seq<Line>, i: nat, limit: nat, window: seq<Event>)
    requires Loaded(lines, i, limit, window) && i < |lines| && !lines[i].Decoded?
    ensures !AllDecoded(lines)
    ensures Fails(lines, if lines[i].Unreadable? then ReadFailed(i + 1) else DecodeFailed(i + 1))
  {
    assert FailsAt(lines, i, if lines[i].Unreadable? then ReadFailed(i + 1) else DecodeFailed(i + 1));
  }

  method LoadAuditEventWindow(lines: seq<Line>, limit: nat) returns (r: Result<seq<Event>>)
    requires limit >= 1
    ensures r.Ok? <==> AllDecoded(lines)
    ensures r.Ok? ==> r.value == LastOf(limit, EventsOf(lines))
    ensures r.Err? ==> Fails(lines, r.error)
  {
    hide Loaded, Fails, AllDecoded, LastOf, EventsOf;
    var window: seq<Event> := [];
    var index := 0;
    LoadedNone(lines, limit);
    while index < |lines|
      invariant index <= |lines|
      invariant |window| <= limit
      invariant Loaded(lines, index, limit, window)
    {
      if lines[index].Unreadable? {
        FailedLine(lines, index, limit, window);
        return Err(ReadFailed(index + 1));
      }
      if lines[index].Undecodable? {
        FailedLine(lines, index, limit, window);
        return Err(DecodeFailed(index + 1));
      }
      LoadedMore(lines, index, limit, window);
      if |window| == limit {
        window := window[1..];
      }
      window := window + [lines[index].event];
      index := index + 1;
    }
    LoadedAll(lines, limit, window);
    r := Ok(window);
  }

  // ----- the rollup -----

  function OfKind(name: string): Event -> nat {
    (e: Event) => if KindLabel(e.kind) == name then 1 else 0
  }

  function OfTriage(name: string): Event -> nat {
    (e: Event) => if TriageLabel(e.kind) == Some(name) then 1 else 0
  }

  function NeedsTriage(): Event -> nat {
    (e: Event) => if TriageLabel(e.kind).Some? then 1 else 0
  }

  /** The sum of all counts of a map. */
  ghost function Total(m: A.Codes): nat {
    if m == map[] then 0 else var k :| k in m; m[k] + Total(m - {k})
  }

  lemma {:induction false} TotalWithout(m: A.Codes, k: string)
    requires k in m
    ensures Total(m) == m[k] + Total(m - {k})
    decreases |m|
  {
    var j :| j in m && Total(m) == m[j] + Total(m - {j});
    if j != k {
      TotalWithout(m - {j}, k);
      TotalWithout(m - {k}, j);
      assert (m - {j}) - {k} == (m - {k}) - {j};
    }
  }

  lemma TotalAfterAdd(m: A.Codes, k: string)
    ensures Total(A.Add(m, k, 1)) == Total(m) + 1
  {
    var n := A.Add(m, k, 1);
    TotalWithout(n, k);
    if k in m {
      TotalWithout(m, k);
      assert n - {k} == m - {k};
    } else {
      assert n - {k} == m;
    }
  }

  /** What the two counting maps hold after some events. */
  ghost predicate Counted(events: seq<Event>, kinds: A.Codes, triage: A.Codes) {
    && (forall name :: A.Count(kinds, name) == A.SumBy(OfKind(name), events))
    && (forall name :: A.Count(triage, name) == A.SumBy(OfTriage(name), events))
    && Total(kinds) == |events|
    && Total(triage) == A.SumBy(NeedsTriage(), events)
  }

  lemma CountedNone(events: seq<Event>)
    ensures Counted(events[..0], map[], map[])
  {}

  lemma CountedMore(events: seq<Event>, i: nat, kinds: A.Codes, triage: A.Codes)
    requires i < |events| && Counted(events[..i], kinds, triage)
    ensures var e := events[i];
            Counted(events[..i + 1], A.Add(kinds, KindLabel(e.kind), 1),
                    if TriageLabel(e.kind).Some? then A.Add(triage, TriageLabel(e.kind).value, 1) else triage)
  {
    var e, now := events[i], events[..i + 1];
    assert events[..i] + [e] == now;
    TotalAfterAdd(kinds, KindLabel(e.kind));
    if TriageLabel(e.kind).Some? {
      TotalAfterAdd(triage, TriageLabel(e.kind).value);
    }
    A.SumBySnoc(NeedsTriage(), events[..i], e);
    var kinds' := A.Add(kinds, KindLabel(e.kind), 1);
    var triage' := if TriageLabel(e.kind).Some? then A.Add(triage, TriageLabel(e.kind).value, 1) else triage;
    forall name ensures A.Count(kinds', name) == A.SumBy(OfKind(name), now) {
      A.SumBySnoc(OfKind(name), events[..i], e);
    }
    forall name ensures A.Count(triage', name) == A.SumBy(OfTriage(name), now) {
      A.SumBySnoc(OfTriage(name), events[..i], e);
    }
  }

  /** The reported triage event is one, and none follows it; nothing is reported only if there is none. */
  predicate LastTriageOf(events: seq<Event>, found: Option<Event>) {
    match found
    case None => forall i | 0 <= i < |events| :: TriageLabel(events[i].kind).None?
    case Some(e) =>
      exists i | 0 <= i < |events| ::
        events[i] == e && TriageLabel(e.kind).Some? &&
        forall j | i < j < |events| :: TriageLabel(events[j].kind).None?
  }

  ghost predicate RollsUp(events: seq<Event>, r: Rollup) {
    && r.loadedEvents == |events|
    && Counted(events, r.eventKindCounts, r.triageCounts)
    && r.firstTimestamp == (if events == [] then None else Some(events[0].timestampEpochS))
    && r.last == (if events == [] then None else Some(events[|events| - 1]))
    && LastTriageOf(events, r.lastTriage)
  }

  method SummarizeAuditEvents(events: seq<Event>) returns (r: Rollup)
    ensures RollsUp(events, r)
  {
    hide Counted, LastTriageOf;
    var kinds: A.Codes, triage: A.Codes := map[], map[];
    var i := 0;
    CountedNone(events);
    while i < |events|
      invariant i <= |events|
      invariant Counted(events[..i], kinds, triage)
    {
      CountedMore(events, i, kinds, triage);
      kinds := A.Add(kinds, KindLabel(events[i].kind), 1);
      if TriageLabel(events[i].kind).Some? {
        triage := A.Add(triage, TriageLabel(events[i].kind).value, 1);
      }
      i := i + 1;
    }
    assert events[..|events|] == events;
    var lastTriage := FindLastTriage(events);
    r := Rollup(|events|, kinds, triage,
                if events == [] then None else Some(events[0].timestampEpochS),
                if events == [] then None else Some(events[|events| - 1]), lastTriage);
  }

  method FindLastTriage(events: seq<Event>) returns (found: Option<Event>)
    ensures LastTriageOf(events, found)
  {
    var i := |events|;
    while i > 0
      invariant 0 <= i <= |events|
      invariant forall j | i <= j < |events| :: TriageLabel(events[j].kind).None?
    {
      i := i - 1;
      if TriageLabel(events[i].kind).Some? {
        return Some(events[i]);
      }
    }
    return None;
  }

  // ----- the commands -----

  function ValidateAuditLimit(limit: nat): (r: Result<nat>)
    ensures r == Ok(limit) || r == Err(LimitOutOfRange)
    ensures r.Ok? <==> 1 <= limit <= MAX_AUDIT_WINDOW
  {
    if 1 <= limit <= MAX_AUDIT_WINDOW then Ok(limit) else Err(LimitOutOfRange)
  }

  /** A command answers with the last events, or their rollup, exactly when limit and journal are good. */
  method ExecuteAuditCommand(command: Command, lines: seq<Line>) returns (r: Result<Output>)
    ensures r.Ok? <==> 1 <= command.limit <= MAX_AUDIT_WINDOW && AllDecoded(lines)
    ensures r.Ok? && command.Recent? ==> r.value == Events(LastOf(command.limit, EventsOf(lines)))
    ensures r.Ok? && command.Summary? ==>
              r.value.Rolled? && RollsUp(LastOf(command.limit, EventsOf(lines)), r.value.rollup)
              && r.value.rollup.loadedEvents == Min(command.limit, |lines|)
    ensures r.Err? ==>
              if 1 <= command.limit <= MAX_AUDIT_WINDOW then Fails(lines, r.error) else r.error == LimitOutOfRange
  {
    var limit := ValidateAuditLimit(command.limit);
    if limit.Err? {
      return Err(limit.error);
    }
    var window := LoadAuditEventWindow(lines, limit.value);
    if window.Err? {
      return Err(window.error);
    }
    EventsOfMeaning(lines);
    match command {
      case Recent(_) => r := Ok(Events(window.value));
      case Summary(_) =>
        var rollup := SummarizeAuditEvents(window.value);
        r := Ok(Rolled(rollup));
    }
  }
}
