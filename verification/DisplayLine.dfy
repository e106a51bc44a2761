/** Wrapping of display lines: the plain, bulleted, labelled and overlong-label paths. */
module DisplayLine {
  import opened Text
  import opened Wrapping
  import opened WrappingLaws

  /** One run of the text-line wrapper. A display line is rendered by one or two of them. */
  datatype Call = Call(prefix: string, continuation: string, value: string)

  ghost predicate Renders(call: Call, width: nat) {
    CanRender(call.prefix, call.continuation, SplitWhitespace(call.value), " ", width)
  }

  ghost function TextLines(call: Call, width: nat): seq<string>
    requires Renders(call, width)
  {
    Wrapped(call.prefix, call.continuation, SplitWhitespace(call.value), " ", width)
  }

  ghost function AllLines(calls: seq<Call>, width: nat): seq<string>
    requires AllRender(calls, width)
  {
    if calls == [] then [] else TextLines(calls[0], width) + AllLines(calls[1..], width)
  }

  function IndentWidth(line: string): (n: nat)
    ensures n <= |line|
    ensures forall i | 0 <= i < n :: IsAsciiWhitespace(line[i])
    ensures n < |line| ==> !IsAsciiWhitespace(line[n])
  {
    if line == "" || !IsAsciiWhitespace(line[0]) then 0 else 1 + IndentWidth(line[1..])
  }

  predicate IsBullet(trimmed: string) {
    |trimmed| >= 2 && trimmed[0] == '-' && trimmed[1] == ' '
  }

  function Indent(line: string): string {
    line[..IndentWidth(line)]
  }

  /** The indent, and the bullet if there is one. */
  function Lead(line: string): string {
    if IsBullet(line[IndentWidth(line)..]) then Indent(line) + "- " else Indent(line)
  }

  /** What follows the lead. */
  function Body(line: string): string {
    var trimmed := line[IndentWidth(line)..];
    if IsBullet(trimmed) then trimmed[2..] else trimmed
  }

  function LabeledCalls(prefix: string, continuation: string, tag: string, value: string, width: nat): seq<Call> {
    if ByteLen(prefix + tag + ": ") <= width then
      [Call(prefix + tag + ": ", continuation, value)]
    else
      [Call(prefix, continuation, tag + ":"), Call(continuation, continuation, value)]
  }

  /** The runs made for a line that is not blank. */
  function Calls(line: string, width: nat): seq<Call> {
    match SplitLabel(Body(line))
    case Some((tag, value)) => LabeledCalls(Lead(line), Indent(line) + "  ", tag, value, width)
    case None =>
      var bullet := IsBullet(line[IndentWidth(line)..]);
      [Call(Lead(line), if bullet then Indent(line) + "  " else Indent(line), Body(line))]
  }

  /** Every run ends; see `HaltsExactlyWhenWrappable`. */
  ghost predicate CanDisplay(line: string, width: nat) {
    Trim(line) != "" ==> AllRender(Calls(line, width), width)
  }

  ghost function DisplayLines(line: string, width: nat): seq<string>
    requires CanDisplay(line, width)
  {
    if Trim(line) == "" then [""] else AllLines(Calls(line, width), width)
  }

  // ----- the functions of the source -----

  method RenderWrappedTextLineWithContinuation(prefix: string, continuation: string, value: string, width: nat)
    returns (lines: seq<string>)
    requires Renders(Call(prefix, continuation, value), width)
    ensures lines == TextLines(Call(prefix, continuation, value), width)
    ensures Trim(value) == "" ==> lines == [TrimEnd(prefix)]
    ensures Blank(continuation) ==> Ink(Flatten(lines)) == Ink(prefix) + Ink(value)
  {
    lines := RenderWrappedSegments(prefix, continuation, SplitWhitespace(value), " ", width);
    NoWordsMeansBlank(value);
    if Trim(value) == "" {
      PrefixAlone(prefix, continuation, width);
    }
    if Blank(continuation) {
      TextLineKeepsInk(Call(prefix, continuation, value), width);
    }
  }

  lemma NoWordsMeansBlank(s: string)
    ensures SplitWhitespace(s) == [] <==> Trim(s) == ""
  {
    hide Trim;
    SplitWhitespaceKeepsInk(s);
    InkOfTrim(s);
    if Trim(s) == "" {
      assert Ink(s) == "";
    } else {
      VisibleAfterTrim(s);
    }
  }

  lemma PrefixAlone(prefix: string, continuation: string, width: nat)
    ensures CanRender(prefix, continuation, [], " ", width)
    ensures Wrapped(prefix, continuation, [], " ", width) == [TrimEnd(prefix)]
  {
    var page := MakePage(prefix, continuation, " ", width);
    assert NonEmpty([]) == [];
    HaltsAtEnd(page, Start(page, []));
  }

  lemma TextLineKeepsInk(call: Call, width: nat)
    requires Renders(call, width) && Blank(call.continuation)
    ensures Ink(Flatten(TextLines(call, width))) == Ink(call.prefix) + Ink(call.value)
  {
    var words := SplitWhitespace(call.value);
    assert Blank(" ");
    WrappedKeepsInk(call.prefix, call.continuation, words, " ", width);
    SplitWhitespaceKeepsInk(call.value);
    InkOfInk(call.value);
  }

  lemma OneCall(call: Call, width: nat)
    requires Renders(call, width)
    ensures AllLines([call], width) == TextLines(call, width)
  {
    assert [call][1..] == [];
  }

  lemma TwoCalls(first: Call, second: Call, width: nat)
    requires Renders(first, width) && Renders(second, width)
    ensures AllLines([first, second], width) == TextLines(first, width) + TextLines(second, width)
  {
    assert [first, second][1..] == [second];
    OneCall(second, width);
  }

  ghost predicate AllRender(calls: seq<Call>, width: nat) {
    forall i | 0 <= i < |calls| :: Renders(calls[i], width)
  }

  method RenderWrappedLabeledDisplayLine(prefix: string, continuation: string, tag: string, value: string,
                                         width: nat)
    returns (lines: seq<string>)
    requires AllRender(LabeledCalls(prefix, continuation, tag, value, width), width)
    ensures lines == AllLines(LabeledCalls(prefix, continuation, tag, value, width), width)
  {
    hide Renders, TextLines;
    ghost var calls := LabeledCalls(prefix, continuation, tag, value, width);
    assert Renders(calls[0], width);
    var labeledPrefix := prefix + tag + ": ";
    if ByteLen(labeledPrefix) <= width {
      OneCall(calls[0], width);
      lines := RenderWrappedTextLineWithContinuation(labeledPrefix, continuation, value, width);
      return;
    }
    assert Renders(calls[1], width);
    TwoCalls(calls[0], calls[1], width);
    lines := RenderWrappedTextLineWithContinuation(prefix, continuation, tag + ":", width);
    var more := RenderWrappedTextLineWithContinuation(continuation, continuation, value, width);
    lines := lines + more;
  }

  /** Prints the line: all of its ink, and nothing wider than the width allows. */
  method RenderWrappedDisplayLine(line: string, width: nat) returns (lines: seq<string>)
    requires CanDisplay(line, width)
    ensures lines == DisplayLines(line, width)
    ensures Ink(Flatten(lines)) == Ink(line)
    ensures width > IndentWidth(line) + 2 ==> LinesWithin(lines, width, Ascii(line))
  {
    hide Renders, TextLines, AllLines, Ink, Flatten, LinesWithin, Trim, IndentWidth, LabeledCalls, SplitLabel;
    DisplayKeepsInk(line, width);
    if width > IndentWidth(line) + 2 {
      DisplayStaysWithin(line, width);
    }
    if Trim(line) == "" {
      return [""];
    }
    if SplitLabel(Body(line)).None? {
      assert Renders(Calls(line, width)[0], width);
      OneCall(Calls(line, width)[0], width);
    }
    var indent, trimmed := line[..IndentWidth(line)], line[IndentWidth(line)..];
    if IsBullet(trimmed) {
      var rest := trimmed[2..];
      match SplitLabel(rest) {
        case Some((tag, value)) =>
          lines := RenderWrappedLabeledDisplayLine(indent + "- ", indent + "  ", tag, value, width);
        case None =>
          lines := RenderWrappedTextLineWithContinuation(indent + "- ", indent + "  ", rest, width);
      }
    } else {
      match SplitLabel(trimmed) {
        case Some((tag, value)) =>
          lines := RenderWrappedLabeledDisplayLine(indent, indent + "  ", tag, value, width);
        case None =>
          lines := RenderWrappedTextLineWithContinuation(indent, indent, trimmed, width);
      }
    }
  }

  // ----- nothing is lost -----

  function CallsInk(calls: seq<Call>): string {
    if calls == [] then "" else Ink(calls[0].prefix) + Ink(calls[0].value) + CallsInk(calls[1..])
  }

  predicate BlankContinuations(calls: seq<Call>) {
    forall i | 0 <= i < |calls| :: Blank(calls[i].continuation)
  }

  lemma {:induction false} AllLinesInk(calls: seq<Call>, width: nat)
    requires BlankContinuations(calls)
    requires AllRender(calls, width)
    ensures Ink(Flatten(AllLines(calls, width))) == CallsInk(calls)
  {
    if calls != [] {
      var call := calls[0];
      WrappedKeepsInk(call.prefix, call.continuation, SplitWhitespace(call.value), " ", width);
      SplitWhitespaceKeepsInk(call.value);
      InkOfInk(call.value);
      AllLinesInk(calls[1..], width);
      FlattenConcat(TextLines(call, width), AllLines(calls[1..], width));
      InkConcat(Flatten(TextLines(call, width)), Flatten(AllLines(calls[1..], width)));
    }
  }

  lemma {:induction false} InkOfInk(s: string)
    ensures Ink(Ink(s)) == Ink(s)
  {
    if s != "" {
      InkOfInk(s[1..]);
      var first := if IsWhitespace(s[0]) then "" else [s[0]];
      InkConcat(first, Ink(s[1..]));
      assert first != "" ==> first[1..] == "";
    }
  }

  lemma LabeledInk(prefix: string, continuation: string, tag: string, value: string, width: nat)
    requires Blank(continuation)
    ensures CallsInk(LabeledCalls(prefix, continuation, tag, value, width)) == Ink(prefix) + Ink(tag + ": " + value)
    ensures BlankContinuations(LabeledCalls(prefix, continuation, tag, value, width))
  {
    hide Ink;
    InkConcat(prefix + tag, ": ");
    InkConcat(prefix, tag);
    InkConcat(tag, ":");
    InkConcat(tag, ": ");
    InkConcat(tag + ": ", value);
    InkOfBlank(continuation);
    InkConcat(":", " ");
    InkOfBlank(" ");
    assert ":" + " " == ": ";
    var calls := LabeledCalls(prefix, continuation, tag, value, width);
    assert |calls| == 1 ==> calls[1..] == [];
    assert |calls| == 2 ==> calls[1..] == [calls[1]] && calls[1..][1..] == [];
  }

  lemma LeadAndBodyKeepInk(line: string)
    ensures Ink(Lead(line)) + Ink(Body(line)) == Ink(line)
    ensures Blank(Indent(line)) && Blank(Indent(line) + "  ")
  {
    hide Ink;
    var indent, trimmed := Indent(line), line[IndentWidth(line)..];
    assert line == indent + trimmed;
    InkConcat(indent, trimmed);
    if IsBullet(trimmed) {
      assert trimmed == "- " + Body(line);
      InkConcat("- ", Body(line));
      InkConcat(indent, "- ");
    }
  }

  /** The runs carry the ink of the line, whichever path it takes. */
  lemma CallsKeepInk(line: string, width: nat)
    ensures CallsInk(Calls(line, width)) == Ink(line)
    ensures BlankContinuations(Calls(line, width))
  {
    LeadAndBodyKeepInk(line);
    hide Ink, Lead, Body, Indent;
    match SplitLabel(Body(line)) {
      case Some((tag, value)) =>
        LabeledInk(Lead(line), Indent(line) + "  ", tag, value, width);
      case None =>
        assert Calls(line, width)[1..] == [];
    }
  }

  /** White space aside, the lines printed are the line given. */
  lemma DisplayKeepsInk(line: string, width: nat)
    requires CanDisplay(line, width)
    ensures Ink(Flatten(DisplayLines(line, width))) == Ink(line)
  {
    if Trim(line) == "" {
      InkOfTrim(line);
      FlattenOne("");
    } else {
      CallsKeepInk(line, width);
      AllLinesInk(Calls(line, width), width);
    }
  }

  // ----- widths -----

  /** The effective width of the run is the width asked for, and its continuation leaves room. */
  predicate Comfortable(call: Call, width: nat) {
    ByteLen(TrimEnd(call.prefix)) <= width && ByteLen(call.continuation) < width
  }

  lemma {:induction false} AsciiWhitespaceBytes(s: string)
    requires forall i | 0 <= i < |s| :: IsAsciiWhitespace(s[i])
    ensures ByteLen(s) == |s| && Blank(s)
  {
    if s != "" {
      AsciiWhitespaceBytes(s[1..]);
    }
  }

  predicate AllComfortable(calls: seq<Call>, width: nat) {
    forall i | 0 <= i < |calls| :: Comfortable(calls[i], width)
  }

  lemma LeadBytes(line: string)
    ensures ByteLen(Indent(line)) == IndentWidth(line)
    ensures ByteLen(Indent(line) + "  ") == IndentWidth(line) + 2
    ensures ByteLen(Lead(line)) <= IndentWidth(line) + 2
  {
    var indent := Indent(line);
    AsciiWhitespaceBytes(indent);
    AsciiWhitespaceBytes(indent + "  ");
    ByteLenConcat(indent, "- ");
    assert ByteLen("- ") == 2;
  }

  lemma CallsAreComfortable(line: string, width: nat)
    requires width > IndentWidth(line) + 2
    ensures AllComfortable(Calls(line, width), width)
  {
    LeadBytes(line);
    hide ByteLen, TrimEnd, Lead, Body, Indent;
    TrimEndShortens(Lead(line));
    TrimEndShortens(Indent(line) + "  ");
    match SplitLabel(Body(line)) {
      case Some((tag, value)) => TrimEndShortens(Lead(line) + tag + ": ");
      case None =>
    }
  }

  /** A width of more than two beyond the indent is enough for every line. */
  lemma WideEnoughDisplays(line: string, width: nat)
    requires width > IndentWidth(line) + 2
    ensures CanDisplay(line, width)
  {
    CallsAreComfortable(line, width);
    AllLinesWithin(Calls(line, width), width, false);
  }

  /** Within the width up to the last character, or exactly within it. */
  predicate LinesWithin(lines: seq<string>, width: nat, exact: bool) {
    forall i | 0 <= i < |lines| ::
      && Within(lines[i], width)
      && ByteLen(lines[i]) <= width + 3
      && (exact ==> ByteLen(lines[i]) <= width)
  }

  predicate AsciiValues(calls: seq<Call>) {
    forall i | 0 <= i < |calls| :: Ascii(calls[i].value)
  }

  lemma TextLinesWithin(call: Call, width: nat, exact: bool)
    requires Comfortable(call, width) && (exact ==> Ascii(call.value))
    ensures Renders(call, width) && LinesWithin(TextLines(call, width), width, exact)
  {
    WrappedStaysWithin(call.prefix, call.continuation, SplitWhitespace(call.value), " ", width);
    if exact {
      WordsAreAscii(call.value);
    }
  }

  lemma {:induction false} AllLinesWithin(calls: seq<Call>, width: nat, exact: bool)
    requires AllComfortable(calls, width) && (exact ==> AsciiValues(calls))
    ensures AllRender(calls, width) && LinesWithin(AllLines(calls, width), width, exact)
  {
    hide Renders, TextLines, Within;
    if calls != [] {
      AllLinesWithin(calls[1..], width, exact);
      TextLinesWithin(calls[0], width, exact);
      assert forall i | 1 <= i < |calls| :: calls[i] == calls[1..][i - 1];
    }
  }

  lemma {:induction false} WordsAreAscii(s: string)
    requires Ascii(s)
    ensures AllAscii(SplitWhitespace(s))
    decreases |s|
  {
    if s == "" {
    } else if IsWhitespace(s[0]) {
      WordsAreAscii(s[1..]);
    } else {
      WordsAreAscii(s[WordLength(s)..]);
    }
  }

  lemma AsciiConcat(a: string, b: string)
    ensures Ascii(a + b) <==> Ascii(a) && Ascii(b)
  {
    assert forall i | 0 <= i < |a| :: (a + b)[i] == a[i];
    assert forall i | 0 <= i < |b| :: (a + b)[|a| + i] == b[i];
  }

  lemma BodyIsAscii(line: string)
    requires Ascii(line)
    ensures Ascii(Body(line))
  {}

  lemma CallValuesAreAscii(line: string, width: nat)
    requires Ascii(line)
    ensures AsciiValues(Calls(line, width))
  {
    hide Body, Lead, Indent, IndentWidth, ByteLen, Ascii;
    BodyIsAscii(line);
    match SplitLabel(Body(line)) {
      case Some((tag, value)) =>
        AsciiConcat(tag + ": ", value);
        AsciiConcat(tag, ": ");
        assert ": " == ":" + " ";
        AsciiConcat(":", " ");
        AsciiConcat(tag, ":");
      case None =>
    }
  }

  /** Every printed line is within the width: exactly for one-byte text, by 3 bytes for any text. */
  lemma DisplayStaysWithin(line: string, width: nat)
    requires width > IndentWidth(line) + 2
    ensures CanDisplay(line, width)
    ensures LinesWithin(DisplayLines(line, width), width, Ascii(line))
  {
    if Trim(line) != "" {
      CallsAreComfortable(line, width);
      if Ascii(line) {
        CallValuesAreAscii(line, width);
      }
      AllLinesWithin(Calls(line, width), width, Ascii(line));
    } else {
      assert ByteLen("") == 0;
    }
  }

  // ----- too narrow -----

  /** The words of a value with one blank between each two. */
  function Joined(value: string): string {
    Join(SplitWhitespace(value), " ")
  }

  lemma JoinedMeaning(value: string)
    ensures Trim(value) == "" <==> ByteLen(Joined(value)) == 0
    ensures NonEmpty(SplitWhitespace(value)) == SplitWhitespace(value)
  {
    var words := SplitWhitespace(value);
    hide Trim;
    NoWordsMeansBlank(value);
    SplitWhitespaceKeepsInk(value);
    NonEmptyMeaning(words);
    if words != [] {
      JoinHasBytes(words, " ");
    }
  }

  /** A run whose visible prefix is no longer than its continuation, on any width. */
  lemma RendersExactly(call: Call, width: nat)
    requires ByteLen(TrimEnd(call.prefix)) <= ByteLen(call.continuation)
    ensures var words, room := SplitWhitespace(call.value), ByteLen(call.continuation);
            Renders(call, width) <==>
              || width > room || Trim(call.value) == ""
              || ByteLen(call.prefix) + ByteLen(Joined(call.value)) <= room
              || (|words| == 1 && |words[0]| == 1 && ByteLen(call.prefix) < room)
  {
    JoinedMeaning(call.value);
    NoWordsMeansBlank(call.value);
    hide ByteLen, TrimEnd, Trim, SplitWhitespace, Join, NonEmpty;
  }

  lemma LeadTrimmed(line: string)
    ensures ByteLen(TrimEnd(Lead(line))) <= IndentWidth(line) + 2
    ensures ByteLen(TrimEnd(Indent(line))) <= ByteLen(Indent(line))
    ensures ByteLen(Lead(line)) == IndentWidth(line) + if IsBullet(line[IndentWidth(line)..]) then 2 else 0
  {
    LeadBytes(line);
    TrimEndShortens(Lead(line));
    TrimEndShortens(Indent(line));
    if IsBullet(line[IndentWidth(line)..]) {
      ByteLenConcat(Indent(line), "- ");
    }
  }

  lemma OneRun(line: string, width: nat, call: Call)
    requires Trim(line) != "" && Calls(line, width) == [call]
    ensures CanDisplay(line, width) <==> Renders(call, width)
  {
    assert Calls(line, width)[0] == call;
  }

  lemma TwoRuns(line: string, width: nat, first: Call, second: Call)
    requires Trim(line) != "" && Calls(line, width) == [first, second]
    ensures CanDisplay(line, width) <==> Renders(first, width) && Renders(second, width)
  {
    assert Calls(line, width)[0] == first && Calls(line, width)[1] == second;
  }

  predicate Plain(line: string) {
    !IsBullet(line[IndentWidth(line)..]) && SplitLabel(Body(line)).None?
  }

  /** A line with neither bullet nor label is rendered exactly when the width exceeds its indent. */
  lemma PlainLineNeedsMoreThanItsIndent(line: string, width: nat)
    requires Trim(line) != "" && Plain(line)
    ensures CanDisplay(line, width) <==> width > IndentWidth(line)
  {
    var call := Call(Indent(line), Indent(line), Body(line));
    assert Calls(line, width) == [call];
    OneRun(line, width, call);
    LeadTrimmed(line);
    LeadBytes(line);
    BodyIsVisible(line);
    hide IndentWidth, Trim, ByteLen, TrimEnd, Renders, Joined, SplitLabel;
    RendersExactly(call, width);
    JoinedMeaning(Body(line));
  }

  /** Without bullet, what follows the indent is visible. */
  lemma BodyIsVisible(line: string)
    requires Trim(line) != "" && !IsBullet(line[IndentWidth(line)..])
    ensures Trim(Body(line)) != ""
  {
    LeadAndBodyKeepInk(line);
    InkOfBlank(Indent(line));
    VisibleAfterTrim(line);
    InkOfTrim(Body(line));
  }

  /** A bulleted line needs more than indent and bullet, unless nothing follows the bullet. */
  lemma BulletNeedsMoreThanItself(line: string, width: nat)
    requires Trim(line) != "" && IsBullet(line[IndentWidth(line)..]) && SplitLabel(Body(line)).None?
    ensures CanDisplay(line, width) <==> width > IndentWidth(line) + 2 || Trim(Body(line)) == ""
  {
    var call := Call(Lead(line), Indent(line) + "  ", Body(line));
    assert Calls(line, width) == [call];
    OneRun(line, width, call);
    LeadTrimmed(line);
    LeadBytes(line);
    hide IndentWidth, Trim, ByteLen, TrimEnd, Renders, Joined, SplitLabel;
    RendersExactly(call, width);
    JoinedMeaning(Body(line));
  }

  /** A label that goes in the two columns between the indent and the continuation. */
  predicate TinyLabel(tag: string) {
    ByteLen(Joined(tag + ":")) <= 2
  }

  /** A label on its own line ends in a colon, so a lone character there is the colon. */
  lemma LoneColon(tag: string)
    ensures Trim(tag + ":") != ""
    ensures var words := SplitWhitespace(tag + ":"); |words| == 1 && |words[0]| == 1 ==> TinyLabel(tag)
    ensures tag == "" ==> TinyLabel(tag)
  {
    var words := SplitWhitespace(tag + ":");
    SplitWhitespaceKeepsInk(tag + ":");
    InkConcat(tag, ":");
    InkOfSolid(":");
    InkOfTrim(tag + ":");
    assert Ink(tag + ":") == Ink(tag) + ":" && ByteLen(":") == 1;
    if |words| == 1 {
      FlattenOne(words[0]);
      assert words == [words[0]] && words[0] == Ink(tag) + ":";
    }
    if tag == "" {
      assert tag + ":" == ":" && WordLength(":") == 1 && ":"[..1] == ":" && ":"[1..] == "";
      assert SplitWhitespace(":") == [":"];
    }
  }

  /** The run of an overlong label: in two columns, if at all. */
  lemma LabelAlone(line: string, tag: string, width: nat)
    requires width <= IndentWidth(line) + 2
    ensures Renders(Call(Lead(line), Indent(line) + "  ", tag + ":"), width) <==>
            !IsBullet(line[IndentWidth(line)..]) && TinyLabel(tag)
  {
    LeadTrimmed(line);
    LeadBytes(line);
    hide IndentWidth, Trim, ByteLen, TrimEnd, Renders, Joined;
    LoneColon(tag);
    JoinedMeaning(tag + ":");
    RendersExactly(Call(Lead(line), Indent(line) + "  ", tag + ":"), width);
  }

  /** The run of the value below an overlong label. */
  lemma ValueBelow(line: string, value: string, width: nat)
    requires width <= IndentWidth(line) + 2
    ensures var continuation := Indent(line) + "  ";
            Renders(Call(continuation, continuation, value), width) <==> Trim(value) == ""
  {
    var continuation := Indent(line) + "  ";
    LeadBytes(line);
    TrimEndShortens(continuation);
    hide IndentWidth, Trim, ByteLen, TrimEnd, Renders, Joined;
    JoinedMeaning(value);
    RendersExactly(Call(continuation, continuation, value), width);
  }

  /** The run of a label that does fit a narrow width: it is empty and takes both columns. */
  lemma ValueBehind(line: string, tag: string, value: string, width: nat)
    requires width <= IndentWidth(line) + 2 && ByteLen(Lead(line) + tag + ": ") <= width
    ensures Renders(Call(Lead(line) + tag + ": ", Indent(line) + "  ", value), width) <==> Trim(value) == ""
    ensures tag == "" && !IsBullet(line[IndentWidth(line)..])
  {
    var prefix := Lead(line) + tag + ": ";
    LeadTrimmed(line);
    LeadBytes(line);
    ByteLenConcat(Lead(line) + tag, ": ");
    ByteLenConcat(Lead(line), tag);
    ByteLenAtLeastLength(tag);
    assert ByteLen(": ") == 2;
    TrimEndShortens(prefix);
    hide IndentWidth, Trim, ByteLen, TrimEnd, Renders, Joined;
    JoinedMeaning(value);
    RendersExactly(Call(prefix, Indent(line) + "  ", value), width);
  }

  /** A labelled line needs more than indent and two columns, unless it is a tiny label without a value. */
  lemma LabelNeedsMoreThanTwoColumns(line: string, width: nat)
    requires Trim(line) != "" && SplitLabel(Body(line)).Some?
    ensures var (tag, value) := SplitLabel(Body(line)).value;
            CanDisplay(line, width) <==>
              || width > IndentWidth(line) + 2
              || (!IsBullet(line[IndentWidth(line)..]) && TinyLabel(tag) && Trim(value) == "")
  {
    var (tag, value) := SplitLabel(Body(line)).value;
    var continuation := Indent(line) + "  ";
    hide IndentWidth, Trim, ByteLen, Renders, TinyLabel, SplitLabel, CanDisplay, AllRender;
    if width > IndentWidth(line) + 2 {
      WideEnoughDisplays(line, width);
    } else if ByteLen(Lead(line) + tag + ": ") <= width {
      var call := Call(Lead(line) + tag + ": ", continuation, value);
      assert Calls(line, width) == [call];
      LoneColon(tag);
      ValueBehind(line, tag, value, width);
      OneRun(line, width, call);
    } else {
      var first, second := Call(Lead(line), continuation, tag + ":"), Call(continuation, continuation, value);
      assert Calls(line, width) == [first, second];
      LabelAlone(line, tag, width);
      ValueBelow(line, value, width);
      TwoRuns(line, width, first, second);
    }
  }

  /** A width of two, as a terminal may report, and a line indented by two: the loop never ends. */
  lemma NarrowTerminalNeverEnds()
    ensures !CanDisplay("  a", 2)
  {
    var line := "  a";
    assert line[1..] == " a" && line[1..][1..] == "a";
    assert IndentWidth(line[1..][1..]) == 0 && IndentWidth(line[1..]) == 1 && IndentWidth(line) == 2;
    assert line[2..] == "a" && Body(line) == "a";
    InkOfTrim(line);
    assert Ink(line[1..][1..]) == "a" && Ink(line[1..]) == "a" && Ink(line) == "a";
    hide IndentWidth, Trim, Ink, SplitLabel;
    assert SplitLabel("a").None?;
    PlainLineNeedsMoreThanItsIndent(line, 2);
  }

  lemma VisibleAfterTrim(line: string)
    requires Trim(line) != ""
    ensures Ink(line) != ""
  {
    var s := Trim(line);
    TrimEndMeaning(TrimStart(line));
    InkOfTrim(line);
    var k := |s| - 1;
    InkConcat(s[..k], s[k..]);
    assert s == s[..k] + s[k..] && s[k..] == [s[k]];
    InkOfSolid([s[k]]);
  }

  lemma JoinHasBytes(words: seq<string>, separator: string)
    requires words != [] && words[0] != ""
    ensures ByteLen(Join(words, separator)) > 0
  {
    ByteLenAtLeastLength(Join(words, separator));
  }
}
