/**
 The greedy wrapper of crates/app/src/presentation.rs, as a machine whose step is one
 pass through the body of the inner loop, and the nested loops themselves, proved to
 compute what the machine computes.
 */
module Wrapping {
  import opened Text

  /** The arguments that stay fixed during one call; `width` is the effective width. */
  datatype Page = Page(prefix: string, continuation: string, separator: string, width: nat)

  /** The loop variables. The head of `pending` is what remains of the current segment. */
  datatype Cursor = Cursor(lines: seq<string>, line: string, hasContent: bool, pending: seq<string>)

  function MakePage(prefix: string, continuation: string, separator: string, width: nat): Page {
    Page(prefix, continuation, separator,
         Max(Max(width, ByteLen(TrimEnd(prefix))), ByteLen(continuation)))
  }

  predicate ValidPage(page: Page) {
    ByteLen(TrimEnd(page.prefix)) <= page.width && ByteLen(page.continuation) <= page.width
  }

  function Joiner(page: Page, c: Cursor): string {
    if c.hasContent then page.separator else ""
  }

  function Available(page: Page, c: Cursor): nat {
    SaturatingSub(page.width, ByteLen(c.line) + ByteLen(Joiner(page, c)))
  }

  /** How many leading characters fit into `room` bytes. */
  function FitCount(text: string, room: nat): nat {
    if text == "" || Utf8Len(text[0]) > room then 0
    else 1 + FitCount(text[1..], room - Utf8Len(text[0]))
  }

  /** Where to split: everything that fits, but never less than one character. */
  function FittingPrefix(text: string, room: nat): nat {
    var k := FitCount(text, room);
    if k == 0 && text != "" then 1 else k
  }

  function Step(page: Page, c: Cursor): Cursor
    requires c.pending != []
  {
    var remaining, rest := c.pending[0], c.pending[1..];
    var available := Available(page, c);
    if ByteLen(remaining) <= available then
      Cursor(c.lines, c.line + Joiner(page, c) + remaining, true, rest)
    else if c.hasContent then
      Cursor(c.lines + [TrimEnd(c.line)], page.continuation, false, c.pending)
    else if available == 0 then
      var kept := TrimEnd(c.line);
      Cursor(if kept == "" then c.lines else c.lines + [kept], page.continuation, false, c.pending)
    else
      FitCountMeaning(remaining, available);
      var k := FittingPrefix(remaining, available);
      Cursor(c.lines + [TrimEnd(c.line + remaining[..k])], page.continuation, false, [remaining[k..]] + rest)
  }

  function Start(page: Page, segments: seq<string>): Cursor {
    Cursor([], page.prefix, false, segments)
  }

  /** The lines returned once no segment is pending. */
  function Finish(c: Cursor): seq<string> {
    if c.hasContent || c.lines == [] then c.lines + [TrimEnd(c.line)] else c.lines
  }

  ghost function Iterate(page: Page, c: Cursor, n: nat): Cursor
    decreases n
  {
    if n == 0 || c.pending == [] then c else Iterate(page, Step(page, c), n - 1)
  }

  ghost predicate Halts(page: Page, c: Cursor) {
    exists n: nat :: Iterate(page, c, n).pending == []
  }

  ghost function Final(page: Page, c: Cursor): (r: Cursor)
    requires Halts(page, c)
    ensures r.pending == []
  {
    var n: nat :| Iterate(page, c, n).pending == [];
    Iterate(page, c, n)
  }

  /** The blank segments are skipped by the source before the loop sees them. */
  function NonEmpty(segments: seq<string>): seq<string> {
    if segments == [] then []
    else (if segments[0] == "" then [] else [segments[0]]) + NonEmpty(segments[1..])
  }

  // ----- splitting one segment -----

  lemma {:induction false} FitCountMeaning(text: string, room: nat)
    ensures FitCount(text, room) <= |text|
    ensures ByteLen(text[..FitCount(text, room)]) <= room
    ensures FitCount(text, room) < |text| ==>
              ByteLen(text[..FitCount(text, room)]) + Utf8Len(text[FitCount(text, room)]) > room
  {
    if text != "" && Utf8Len(text[0]) <= room {
      FitCountMeaning(text[1..], room - Utf8Len(text[0]));
      var k := FitCount(text, room);
      assert text[..k][1..] == text[1..][..k - 1];
    }
  }

  /** The split point is the longest prefix that fits, or one character when none does. */
  method TakeFittingPrefix(text: string, room: nat) returns (end: nat)
    ensures end == FittingPrefix(text, room)
    ensures end <= |text| && (text != "" ==> end > 0)
    ensures ByteLen(text[..end]) <= room || end == 1
    ensures end < |text| ==> ByteLen(text[..end]) + Utf8Len(text[end]) > room
  {
    var used := 0;
    end := 0;
    while end < |text| && used + Utf8Len(text[end]) <= room
      invariant end <= |text| && used <= room
      invariant used == ByteLen(text[..end])
      invariant FitCount(text, room) == end + FitCount(text[end..], room - used)
    {
      ByteLenSplit(text[..end + 1], end);
      assert text[..end + 1][..end] == text[..end];
      assert text[..end + 1][end..] == [text[end]];
      assert ByteLen([text[end]]) == Utf8Len(text[end]) + ByteLen("");
      assert text[end..][1..] == text[end + 1..];
      used := used + Utf8Len(text[end]);
      end := end + 1;
    }
    FitCountMeaning(text, room);
    if end == 0 && text != "" {
      end := 1;
      assert text[..1] == [text[0]];
    }
  }

  // ----- runs of the machine -----

  lemma {:induction false} IterateOnce(page: Page, c: Cursor, n: nat)
    requires c.pending != []
    ensures Iterate(page, c, n + 1) == Iterate(page, Step(page, c), n)
  {}

  lemma {:induction false} HaltUnique(page: Page, c: Cursor, m: nat, n: nat)
    requires Iterate(page, c, m).pending == [] && Iterate(page, c, n).pending == []
    ensures Iterate(page, c, m) == Iterate(page, c, n)
    decreases m
  {
    if c.pending != [] {
      HaltUnique(page, Step(page, c), m - 1, n - 1);
    }
  }

  lemma {:induction false} FinalIs(page: Page, c: Cursor, n: nat)
    requires Iterate(page, c, n).pending == []
    ensures Halts(page, c) && Final(page, c) == Iterate(page, c, n)
  {
    var m: nat :| Iterate(page, c, m).pending == [] && Final(page, c) == Iterate(page, c, m);
    HaltUnique(page, c, m, n);
  }

  lemma {:induction false} HaltsStep(page: Page, c: Cursor)
    requires c.pending != []
    ensures Halts(page, c) <==> Halts(page, Step(page, c))
    ensures Halts(page, c) ==> Final(page, c) == Final(page, Step(page, c))
  {
    if Halts(page, c) {
      var n: nat :| Iterate(page, c, n).pending == [];
      FinalIs(page, c, n);
      FinalIs(page, Step(page, c), n - 1);
    }
    if Halts(page, Step(page, c)) {
      var n: nat :| Iterate(page, Step(page, c), n).pending == [];
      IterateOnce(page, c, n);
      FinalIs(page, c, n + 1);
    }
  }

  lemma HaltsAtEnd(page: Page, c: Cursor)
    requires c.pending == []
    ensures Halts(page, c) && Final(page, c) == c
  {
    FinalIs(page, c, 0);
  }

  lemma Advance(page: Page, c: Cursor, next: Cursor, n: nat)
    requires c.pending != [] && next == Step(page, c)
    requires Iterate(page, c, n).pending == []
    ensures n > 0 && Iterate(page, next, n - 1) == Iterate(page, c, n)
  {}

  // ----- when the loop ends -----

  /** The segments joined by the separator. */
  function Join(segments: seq<string>, separator: string): string {
    if segments == [] then ""
    else if |segments| == 1 then segments[0]
    else segments[0] + separator + Join(segments[1..], separator)
  }

  /**
   What a caller can check beforehand: the continuation prefix leaves room, or the whole
   text goes on the first line, or it is one character that starts on the first line.
   */
  predicate Wrappable(page: Page, segments: seq<string>) {
    || ByteLen(page.continuation) < page.width
    || segments == []
    || ByteLen(page.prefix) + ByteLen(Join(segments, page.separator)) <= page.width
    || (|segments| == 1 && |segments[0]| == 1 && ByteLen(page.prefix) < page.width)
  }

  /** Characters still to be placed, counting one more per pending segment. */
  function Work(pending: seq<string>): nat {
    if pending == [] then 0 else 1 + |pending[0]| + Work(pending[1..])
  }

  /** Strictly decreases in every step when the continuation prefix leaves room. */
  function Fuel(page: Page, c: Cursor): nat {
    2 * Work(c.pending) + (if c.hasContent || Available(page, c) == 0 then 1 else 0)
  }

  lemma StepUsesFuel(page: Page, c: Cursor)
    requires ByteLen(page.continuation) < page.width
    requires c.pending != []
    ensures Fuel(page, Step(page, c)) < Fuel(page, c)
  {
    var next := Step(page, c);
    var remaining, available := c.pending[0], Available(page, c);
    if ByteLen(remaining) > available && !c.hasContent && available > 0 {
      FitCountMeaning(remaining, available);
      var k := FittingPrefix(remaining, available);
      ByteLenAtLeastLength(remaining);
      assert next.pending[0] == remaining[k..] && next.pending[1..] == c.pending[1..];
    }
  }

  /** With room on continuation lines the loop ends within `Fuel` passes. */
  lemma {:induction false} EndsWithinFuel(page: Page, c: Cursor)
    requires ByteLen(page.continuation) < page.width
    ensures Iterate(page, c, Fuel(page, c)).pending == []
    decreases Fuel(page, c)
  {
    if c.pending != [] {
      StepUsesFuel(page, c);
      EndsWithinFuel(page, Step(page, c));
      MoreStepsStayDone(page, Step(page, c), Fuel(page, Step(page, c)), Fuel(page, c) - 1);
      IterateOnce(page, c, Fuel(page, c) - 1);
    }
  }

  lemma {:induction false} MoreStepsStayDone(page: Page, c: Cursor, m: nat, n: nat)
    requires m <= n && Iterate(page, c, m).pending == []
    ensures Iterate(page, c, n) == Iterate(page, c, m)
    decreases m
  {
    if c.pending != [] {
      MoreStepsStayDone(page, Step(page, c), m - 1, n - 1);
    }
  }

  lemma {:induction false} JoinLonger(page: Page, segments: seq<string>)
    requires |segments| > 1
    ensures ByteLen(Join(segments, page.separator))
         == ByteLen(segments[0]) + ByteLen(page.separator) + ByteLen(Join(segments[1..], page.separator))
  {
    ByteLenConcat(segments[0] + page.separator, Join(segments[1..], page.separator));
    ByteLenConcat(segments[0], page.separator);
  }

  /** All pending segments fit on the current line. */
  predicate RestFits(page: Page, c: Cursor) {
    c.pending == [] ||
    ByteLen(c.line) + ByteLen(Joiner(page, c)) + ByteLen(Join(c.pending, page.separator)) <= page.width
  }

  lemma StepKeepsRestFits(page: Page, c: Cursor)
    requires c.pending != []
    requires ByteLen(c.pending[0]) <= Available(page, c) && ByteLen(c.pending[0]) > 0
    ensures RestFits(page, Step(page, c)) <==> RestFits(page, c)
  {
    ByteLenConcat(c.line + Joiner(page, c), c.pending[0]);
    ByteLenConcat(c.line, Joiner(page, c));
    if |c.pending| > 1 {
      JoinLonger(page, c.pending);
    }
  }

  predicate AllNonEmpty(segments: seq<string>) {
    forall i | 0 <= i < |segments| :: segments[i] != ""
  }

  lemma {:induction false} HaltsWhenRestFits(page: Page, c: Cursor)
    requires AllNonEmpty(c.pending) && RestFits(page, c)
    ensures Halts(page, c)
    decreases |c.pending|
  {
    if c.pending == [] {
      HaltsAtEnd(page, c);
    } else {
      if |c.pending| > 1 {
        JoinLonger(page, c.pending);
      }
      ByteLenAtLeastLength(c.pending[0]);
      StepKeepsRestFits(page, c);
      HaltsWhenRestFits(page, Step(page, c));
      HaltsStep(page, c);
    }
  }

  /** On a fresh continuation line without room nothing can be placed any more. */
  predicate Stuck(page: Page, c: Cursor) {
    && c.line == page.continuation && !c.hasContent
    && c.pending != [] && c.pending[0] != ""
    && ByteLen(page.continuation) == page.width
  }

  lemma {:induction false} StuckForever(page: Page, c: Cursor, n: nat)
    requires Stuck(page, c)
    ensures Iterate(page, c, n).pending != []
    decreases n
  {
    if n > 0 {
      ByteLenAtLeastLength(c.pending[0]);
      StuckForever(page, Step(page, c), n - 1);
    }
  }

  /** Once a line with content overflows and continuation lines have no room, the loop spins. */
  lemma {:induction false} OverflowSpins(page: Page, c: Cursor)
    requires AllNonEmpty(c.pending) && c.hasContent && !RestFits(page, c)
    requires ByteLen(page.continuation) == page.width
    ensures !Halts(page, c)
    decreases |c.pending|
  {
    HaltsStep(page, c);
    ByteLenAtLeastLength(c.pending[0]);
    if ByteLen(c.pending[0]) <= Available(page, c) {
      StepKeepsRestFits(page, c);
      OverflowSpins(page, Step(page, c));
    } else {
      forall n: nat ensures Iterate(page, Step(page, c), n).pending != [] {
        StuckForever(page, Step(page, c), n);
      }
    }
  }

  /** One character that no line can hold is still placed, leaving an empty remainder behind. */
  lemma LoneCharacter(page: Page, c: Cursor)
    requires ByteLen(page.continuation) == page.width
    requires c.pending != [] && AllNonEmpty(c.pending)
    requires !c.hasContent && |c.pending[0]| == 1 && 0 < Available(page, c) < ByteLen(c.pending[0])
    ensures Halts(page, c) <==> |c.pending| == 1
  {
    var split := Step(page, c);
    FitCountMeaning(c.pending[0], Available(page, c));
    assert c.pending[0] == [c.pending[0][0]];
    assert ByteLen(c.pending[0]) == Utf8Len(c.pending[0][0]) + ByteLen("");
    assert split.pending == [""] + c.pending[1..];
    HaltsStep(page, c);
    HaltsStep(page, split);
    var placed := Step(page, split);
    assert placed.pending == c.pending[1..] && placed.hasContent;
    assert placed.line == page.continuation;
    if |c.pending| == 1 {
      HaltsAtEnd(page, placed);
    } else {
      ByteLenAtLeastLength(placed.pending[0]);
      if |placed.pending| > 1 {
        JoinLonger(page, placed.pending);
      }
      OverflowSpins(page, placed);
    }
  }

  /** The loop ends exactly on the inputs that are `Wrappable`. */
  lemma HaltsExactlyWhenWrappable(page: Page, segments: seq<string>)
    requires ValidPage(page) && AllNonEmpty(segments)
    ensures Halts(page, Start(page, segments)) <==> Wrappable(page, segments)
  {
    var c := Start(page, segments);
    if ByteLen(page.continuation) < page.width {
      EndsWithinFuel(page, c);
    } else if RestFits(page, c) {
      HaltsWhenRestFits(page, c);
    } else {
      FirstLineOverflow(page, c);
    }
  }

  lemma FirstLineOverflow(page: Page, c: Cursor)
    requires ByteLen(page.continuation) == page.width
    requires AllNonEmpty(c.pending) && !c.hasContent && !RestFits(page, c)
    ensures Halts(page, c) <==> |c.pending| == 1 && |c.pending[0]| == 1 && ByteLen(c.line) < page.width
  {
    HaltsStep(page, c);
    var remaining, available := c.pending[0], Available(page, c);
    var next := Step(page, c);
    ByteLenAtLeastLength(remaining);
    if ByteLen(remaining) <= available {
      StepKeepsRestFits(page, c);
      OverflowSpins(page, next);
    } else if available > 0 && |remaining| == 1 {
      LoneCharacter(page, c);
    } else {
      if available > 0 {
        FitCountMeaning(remaining, available);
        assert remaining == remaining[..|remaining|];
      }
      forall n: nat ensures Iterate(page, next, n).pending != [] {
        StuckForever(page, next, n);
      }
    }
  }

  // ----- the loops -----

  ghost predicate CanRender(prefix: string, continuation: string, segments: seq<string>,
                            separator: string, width: nat)
  {
    Wrappable(MakePage(prefix, continuation, separator, width), NonEmpty(segments))
  }

  lemma {:induction false} NonEmptyMeaning(segments: seq<string>)
    ensures AllNonEmpty(NonEmpty(segments))
    ensures Flatten(NonEmpty(segments)) == Flatten(segments)
    ensures AllNonEmpty(segments) ==> NonEmpty(segments) == segments
  {
    if segments != [] {
      NonEmptyMeaning(segments[1..]);
      FlattenConcat(if segments[0] == "" then [] else [segments[0]], NonEmpty(segments[1..]));
      FlattenOne(segments[0]);
    }
  }

  /** What a terminating call returns. */
  ghost function Wrapped(prefix: string, continuation: string, segments: seq<string>,
                         separator: string, width: nat): seq<string>
    requires CanRender(prefix, continuation, segments, separator, width)
  {
    var page := MakePage(prefix, continuation, separator, width);
    NonEmptyMeaning(segments);
    HaltsExactlyWhenWrappable(page, NonEmpty(segments));
    Finish(Final(page, Start(page, NonEmpty(segments))))
  }

  /** The inner loop: keeps starting lines until the whole segment is on the page. */
  method PlaceSegment(page: Page, segment: string, lines0: seq<string>, line0: string, hasContent0: bool,
                      ghost rest: seq<string>, ghost todo0: nat)
    returns (lines: seq<string>, line: string, hasContent: bool, ghost todo: nat)
    requires Iterate(page, Cursor(lines0, line0, hasContent0, [segment] + rest), todo0).pending == []
    ensures Iterate(page, Cursor(lines, line, hasContent, rest), todo)
         == Iterate(page, Cursor(lines0, line0, hasContent0, [segment] + rest), todo0)
  {
    hide Iterate;
    lines, line, hasContent, todo := lines0, line0, hasContent0, todo0;
    var remaining := segment;
    while true
      invariant Iterate(page, Cursor(lines, line, hasContent, [remaining] + rest), todo)
             == Iterate(page, Cursor(lines0, line0, hasContent0, [segment] + rest), todo0)
      decreases todo
    {
      ghost var before := Cursor(lines, line, hasContent, [remaining] + rest);
      ghost var next := Step(page, before);
      assert before.pending[1..] == rest;
      Advance(page, before, next, todo);
      todo := todo - 1;
      var joiner := if hasContent then page.separator else "";
      var available := SaturatingSub(page.width, ByteLen(line) + ByteLen(joiner));
      if ByteLen(remaining) <= available {
        line := line + joiner + remaining;
        hasContent := true;
        return;
      }
      if hasContent {
        lines := lines + [TrimEnd(line)];
        line := page.continuation;
        hasContent := false;
        continue;
      }
      if available == 0 {
        var prefixLine := TrimEnd(line);
        if prefixLine != "" {
          lines := lines + [prefixLine];
        }
        line := page.continuation;
        hasContent := false;
        continue;
      }
      var split := TakeFittingPrefix(remaining, available);
      line := line + remaining[..split];
      lines := lines + [TrimEnd(line)];
      line := page.continuation;
      hasContent := false;
      remaining := remaining[split..];
    }
  }

  method RenderWrappedSegments(prefix: string, continuation: string, segments: seq<string>,
                               separator: string, width: nat) returns (lines: seq<string>)
    requires CanRender(prefix, continuation, segments, separator, width)
    ensures lines == Wrapped(prefix, continuation, segments, separator, width)
  {
    var page := MakePage(prefix, continuation, separator, width);
    lines := [];
    var line := prefix;
    var hasContent := false;

    ghost var goal, todo := Goal(prefix, continuation, segments, separator, width);
    hide Iterate, Final, Wrapped, MakePage, CanRender, NonEmpty;

    var i := 0;
    while i < |segments|
      invariant i <= |segments|
      invariant Iterate(page, Cursor(lines, line, hasContent, NonEmpty(segments[i..])), todo) == goal
    {
      NonEmptyNext(segments, i);
      if segments[i] != "" {
        lines, line, hasContent, todo :=
          PlaceSegment(page, segments[i], lines, line, hasContent, NonEmpty(segments[i + 1..]), todo);
      }
      i := i + 1;
    }
    NonEmptyEnd(segments);
    IterateEnds(page, Cursor(lines, line, hasContent, []), todo);
    if hasContent || lines == [] {
      lines := lines + [TrimEnd(line)];
    }
  }

  /** The state the loops have to reach, and a number of steps that reaches it. */
  lemma Goal(prefix: string, continuation: string, segments: seq<string>, separator: string, width: nat)
    returns (goal: Cursor, todo: nat)
    requires CanRender(prefix, continuation, segments, separator, width)
    ensures var page := MakePage(prefix, continuation, separator, width);
            goal == Iterate(page, Cursor([], prefix, false, NonEmpty(segments[0..])), todo)
    ensures goal.pending == [] && Wrapped(prefix, continuation, segments, separator, width) == Finish(goal)
  {
    var page := MakePage(prefix, continuation, separator, width);
    var start := Start(page, NonEmpty(segments));
    NonEmptyMeaning(segments);
    HaltsExactlyWhenWrappable(page, NonEmpty(segments));
    todo :| Iterate(page, start, todo).pending == [];
    goal := Iterate(page, start, todo);
    FinalIs(page, start, todo);
    assert segments[0..] == segments;
  }

  lemma NonEmptyNext(segments: seq<string>, i: nat)
    requires i < |segments|
    ensures NonEmpty(segments[i..])
         == if segments[i] == "" then NonEmpty(segments[i + 1..]) else [segments[i]] + NonEmpty(segments[i + 1..])
  {
    assert segments[i..][1..] == segments[i + 1..];
    assert [] + NonEmpty(segments[i + 1..]) == NonEmpty(segments[i + 1..]);
  }

  lemma NonEmptyEnd(segments: seq<string>)
    ensures NonEmpty(segments[|segments|..]) == []
  {}

  lemma IterateEnds(page: Page, c: Cursor, n: nat)
    requires c.pending == []
    ensures Iterate(page, c, n) == c
  {}
}
