/** What every pass of the wrapping loop keeps: the ink of the text and the width of the lines. */
module WrappingLaws {
  import opened Text
  import opened Wrapping

  // ----- nothing is lost -----

  /** The ink on finished lines, on the current line and still to come, in reading order. */
  function AllInk(c: Cursor): string {
    Ink(Flatten(c.lines)) + Ink(c.line) + Ink(Flatten(c.pending))
  }

  lemma InkOfPush(lines: seq<string>, line: string)
    ensures Ink(Flatten(lines + [TrimEnd(line)])) == Ink(Flatten(lines)) + Ink(line)
  {
    FlattenConcat(lines, [TrimEnd(line)]);
    FlattenOne(TrimEnd(line));
    InkConcat(Flatten(lines), TrimEnd(line));
    InkOfTrimEnd(line);
  }

  lemma InkOfPending(pending: seq<string>)
    requires pending != []
    ensures Ink(Flatten(pending)) == Ink(pending[0]) + Ink(Flatten(pending[1..]))
  {
    InkConcat(pending[0], Flatten(pending[1..]));
  }

  lemma PlacingKeepsInk(page: Page, c: Cursor)
    requires Blank(page.separator) && c.pending != []
    requires ByteLen(c.pending[0]) <= Available(page, c)
    ensures AllInk(Step(page, c)) == AllInk(c)
  {
    hide Ink, TrimEnd, ByteLen, Flatten, FitCount;
    var remaining := c.pending[0];
    InkOfPending(c.pending);
    InkConcat(c.line + Joiner(page, c), remaining);
    InkConcat(c.line, Joiner(page, c));
    InkOfBlank(page.separator);
    InkOfBlank("");
    var done, tail := Ink(Flatten(c.lines)), Ink(Flatten(c.pending[1..]));
    assert Ink(Step(page, c).line) == Ink(c.line) + Ink(remaining);
    assert done + (Ink(c.line) + Ink(remaining)) + tail == done + Ink(c.line) + (Ink(remaining) + tail);
  }

  lemma BreakingKeepsInk(page: Page, c: Cursor)
    requires Blank(page.continuation) && c.pending != []
    requires ByteLen(c.pending[0]) > Available(page, c) && (c.hasContent || Available(page, c) == 0)
    ensures AllInk(Step(page, c)) == AllInk(c)
  {
    hide Ink, TrimEnd, ByteLen, Flatten, FitCount;
    InkOfPush(c.lines, c.line);
    InkOfTrimEnd(c.line);
    InkOfBlank(page.continuation);
    InkOfBlank("");
    var next := Step(page, c);
    assert Ink(Flatten(next.lines)) == Ink(Flatten(c.lines)) + Ink(c.line);
    assert Ink(next.line) == "";
  }

  lemma SplittingKeepsInk(page: Page, c: Cursor)
    requires Blank(page.continuation) && c.pending != []
    requires ByteLen(c.pending[0]) > Available(page, c) > 0 && !c.hasContent
    ensures AllInk(Step(page, c)) == AllInk(c)
  {
    hide Ink, TrimEnd, ByteLen, Flatten, FitCount;
    var remaining, rest, next := c.pending[0], c.pending[1..], Step(page, c);
    FitCountMeaning(remaining, Available(page, c));
    var k := FittingPrefix(remaining, Available(page, c));
    var head, tail := remaining[..k], remaining[k..];
    InkOfPending(c.pending);
    InkOfPush(c.lines, c.line + head);
    InkConcat(c.line, head);
    InkConcat(head, tail);
    assert head + tail == remaining;
    InkOfBlank(page.continuation);
    InkOfPending(next.pending);
    assert next.pending[1..] == rest;
    var done, after := Ink(Flatten(c.lines)), Ink(Flatten(rest));
    assert AllInk(next) == (done + (Ink(c.line) + Ink(head))) + "" + (Ink(tail) + after);
    assert AllInk(c) == done + Ink(c.line) + ((Ink(head) + Ink(tail)) + after);
  }

  /** One pass neither loses nor invents ink, nor reorders it. */
  lemma StepKeepsInk(page: Page, c: Cursor)
    requires Blank(page.separator) && Blank(page.continuation)
    requires c.pending != []
    ensures AllInk(Step(page, c)) == AllInk(c)
  {
    if ByteLen(c.pending[0]) <= Available(page, c) {
      PlacingKeepsInk(page, c);
    } else if c.hasContent || Available(page, c) == 0 {
      BreakingKeepsInk(page, c);
    } else {
      SplittingKeepsInk(page, c);
    }
  }

  /** After a line has been emitted, a line without content is a bare continuation prefix. */
  predicate FreshLine(page: Page, c: Cursor) {
    !c.hasContent && c.lines != [] ==> c.line == page.continuation
  }

  lemma StepKeepsFreshLine(page: Page, c: Cursor)
    requires c.pending != []
    ensures FreshLine(page, Step(page, c))
  {}

  lemma {:induction false} RunKeepsInk(page: Page, c: Cursor, n: nat)
    requires Blank(page.separator) && Blank(page.continuation)
    requires FreshLine(page, c)
    ensures AllInk(Iterate(page, c, n)) == AllInk(c)
    ensures FreshLine(page, Iterate(page, c, n))
    decreases n
  {
    hide AllInk, FreshLine, Step;
    if n > 0 && c.pending != [] {
      StepKeepsInk(page, c);
      StepKeepsFreshLine(page, c);
      RunKeepsInk(page, Step(page, c), n - 1);
    }
  }

  /** With white-space separators the output, white space aside, is the prefix and the segments. */
  lemma WrappedKeepsInk(prefix: string, continuation: string, segments: seq<string>,
                        separator: string, width: nat)
    requires CanRender(prefix, continuation, segments, separator, width)
    requires Blank(separator) && Blank(continuation)
    ensures Ink(Flatten(Wrapped(prefix, continuation, segments, separator, width)))
         == Ink(prefix) + Ink(Flatten(segments))
  {
    hide Iterate, Wrappable, NonEmpty, Ink, TrimEnd, ByteLen;
    var page := MakePage(prefix, continuation, separator, width);
    var start := Start(page, NonEmpty(segments));
    NonEmptyMeaning(segments);
    HaltsExactlyWhenWrappable(page, NonEmpty(segments));
    var n: nat :| Iterate(page, start, n).pending == [];
    FinalIs(page, start, n);
    RunKeepsInk(page, start, n);
    var end := Final(page, start);
    InkOfPush(end.lines, end.line);
    InkOfBlank(page.continuation);
    InkOfBlank("");
    assert AllInk(start) == Ink(prefix) + Ink(Flatten(NonEmpty(segments)));
    assert AllInk(end) == Ink(Flatten(end.lines)) + Ink(end.line);
  }

  // ----- nothing is too wide -----

  /** Within the width, or over it only by the last character, which started inside it. */
  predicate Within(line: string, width: nat) {
    ByteLen(line) <= width || (line != "" && ByteLen(line[..|line| - 1]) < width)
  }

  lemma WithinMeansThreeBytes(line: string, width: nat)
    requires Within(line, width)
    ensures ByteLen(line) <= width + 3
  {
    if ByteLen(line) > width {
      var k := |line| - 1;
      ByteLenSplit(line, k);
      assert line[k..] == [line[k]];
      assert ByteLen([line[k]]) == Utf8Len(line[k]) + ByteLen("");
    }
  }

  predicate Ascii(s: string) {
    forall i | 0 <= i < |s| :: s[i] as int < 0x80
  }

  predicate AllAscii(segments: seq<string>) {
    forall i | 0 <= i < |segments| :: Ascii(segments[i])
  }

  /** Only the head of the pending list may be empty, and only on a line without content. */
  predicate Tidy(c: Cursor) {
    forall i | 0 <= i < |c.pending| && (i > 0 || c.hasContent) :: c.pending[i] != ""
  }

  predicate LineFits(line: string, width: nat, exact: bool) {
    if exact then ByteLen(line) <= width else Within(line, width)
  }

  /** Emitted lines are within the width, exactly so while only one-byte text is placed. */
  predicate Bounded(page: Page, c: Cursor, exact: bool) {
    && (forall i | 0 <= i < |c.lines| :: LineFits(c.lines[i], page.width, exact))
    && ByteLen(TrimEnd(c.line)) <= page.width
    && (exact ==> AllAscii(c.pending))
    && Tidy(c)
  }

  lemma SplitLineIsWithin(page: Page, line: string, remaining: string, room: nat)
    requires room == SaturatingSub(page.width, ByteLen(line)) && 0 < room < ByteLen(remaining)
    ensures FittingPrefix(remaining, room) <= |remaining|
    ensures Within(TrimEnd(line + remaining[..FittingPrefix(remaining, room)]), page.width)
    ensures Ascii(remaining) ==>
              ByteLen(TrimEnd(line + remaining[..FittingPrefix(remaining, room)])) <= page.width
  {
    FitCountMeaning(remaining, room);
    var k := FittingPrefix(remaining, room);
    var full := line + remaining[..k];
    ByteLenConcat(line, remaining[..k]);
    TrimEndShortens(full);
    if ByteLen(full) > page.width {
      assert k == 1 && full[..|full| - 1] == line;
      TrimEndMeaning(full);
      if TrimEnd(full) != full {
        assert TrimEnd(full) == TrimEnd(line);
        TrimEndShortens(line);
      }
    }
  }

  lemma PlacingStaysBounded(page: Page, c: Cursor, exact: bool)
    requires c.pending != [] && Bounded(page, c, exact)
    requires ByteLen(c.pending[0]) <= Available(page, c)
    ensures Bounded(page, Step(page, c), exact)
  {
    var remaining, next := c.pending[0], Step(page, c);
    if remaining == "" {
      assert next.line == c.line;
    } else {
      ByteLenConcat(c.line + Joiner(page, c), remaining);
      ByteLenConcat(c.line, Joiner(page, c));
      ByteLenAtLeastLength(remaining);
      TrimEndShortens(next.line);
    }
  }

  lemma BreakingStaysBounded(page: Page, c: Cursor, exact: bool)
    requires ValidPage(page) && c.pending != [] && Bounded(page, c, exact)
    requires ByteLen(c.pending[0]) > Available(page, c) && (c.hasContent || Available(page, c) == 0)
    ensures Bounded(page, Step(page, c), exact)
  {
    TrimEndShortens(page.continuation);
    assert LineFits(TrimEnd(c.line), page.width, exact);
  }

  lemma SplittingStaysBounded(page: Page, c: Cursor, exact: bool)
    requires ValidPage(page) && c.pending != [] && Bounded(page, c, exact)
    requires ByteLen(c.pending[0]) > Available(page, c) > 0 && !c.hasContent
    ensures Bounded(page, Step(page, c), exact)
  {
    hide TrimEnd, FittingPrefix;
    TrimEndShortens(page.continuation);
    var remaining, next := c.pending[0], Step(page, c);
    assert ByteLen("") == 0;
    SplitLineIsWithin(page, c.line, remaining, Available(page, c));
    var k := FittingPrefix(remaining, Available(page, c));
    assert LineFits(TrimEnd(c.line + remaining[..k]), page.width, exact);
    assert next.pending == [remaining[k..]] + c.pending[1..];
  }

  /** One pass emits no line that is too wide. */
  lemma StepStaysBounded(page: Page, c: Cursor, exact: bool)
    requires ValidPage(page) && c.pending != [] && Bounded(page, c, exact)
    ensures Bounded(page, Step(page, c), exact)
  {
    hide Bounded, Step;
    if ByteLen(c.pending[0]) <= Available(page, c) {
      PlacingStaysBounded(page, c, exact);
    } else if c.hasContent || Available(page, c) == 0 {
      BreakingStaysBounded(page, c, exact);
    } else {
      SplittingStaysBounded(page, c, exact);
    }
  }

  lemma {:induction false} RunStaysBounded(page: Page, c: Cursor, n: nat, exact: bool)
    requires ValidPage(page) && Bounded(page, c, exact)
    ensures Bounded(page, Iterate(page, c, n), exact)
    decreases n
  {
    hide Bounded, Step;
    if n > 0 && c.pending != [] {
      StepStaysBounded(page, c, exact);
      RunStaysBounded(page, Step(page, c), n - 1, exact);
    }
  }

  /** Every line is within the effective width: exactly for one-byte text, by 3 bytes for any text. */
  lemma WrappedStaysWithin(prefix: string, continuation: string, segments: seq<string>,
                           separator: string, width: nat)
    requires CanRender(prefix, continuation, segments, separator, width)
    ensures var limit := MakePage(prefix, continuation, separator, width).width;
            var lines := Wrapped(prefix, continuation, segments, separator, width);
            forall i | 0 <= i < |lines| ::
              && Within(lines[i], limit)
              && ByteLen(lines[i]) <= limit + 3
              && (AllAscii(segments) ==> ByteLen(lines[i]) <= limit)
  {
    hide Iterate, Wrappable, NonEmpty;
    var page := MakePage(prefix, continuation, separator, width);
    var start := Start(page, NonEmpty(segments));
    NonEmptyMeaning(segments);
    HaltsExactlyWhenWrappable(page, NonEmpty(segments));
    var n: nat :| Iterate(page, start, n).pending == [];
    FinalIs(page, start, n);
    RunStaysBounded(page, start, n, false);
    if AllAscii(segments) {
      NonEmptyAscii(segments);
      RunStaysBounded(page, start, n, true);
    }
    var lines := Finish(Final(page, start));
    forall i | 0 <= i < |lines| ensures ByteLen(lines[i]) <= page.width + 3 {
      WithinMeansThreeBytes(lines[i], page.width);
    }
  }

  lemma {:induction false} NonEmptyAscii(segments: seq<string>)
    requires AllAscii(segments)
    ensures AllAscii(NonEmpty(segments))
  {
    if segments != [] {
      NonEmptyAscii(segments[1..]);
    }
  }
}
