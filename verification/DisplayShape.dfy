/** What display lines look like when printed: which runs are made shows in where lines start and end. */
module DisplayShape {
  import opened Text
  import opened Wrapping
  import opened WrappingOptimal
  import opened WrappingLayout
  import opened DisplayLine

  /** The line starts with `start`, or is nothing but `start` without its trailing blanks. */
  predicate StartsOn(line: string, start: string) {
    start <= line || line == TrimEnd(start)
  }

  predicate AllStartOn(lines: seq<string>, start: string) {
    forall i | 0 <= i < |lines| :: StartsOn(lines[i], start)
  }

  // ----- trimming keeps the start of a line -----

  lemma {:induction false} TrimEndOfBlankTail(a: string, b: string)
    requires Blank(b)
    ensures TrimEnd(a + b) == TrimEnd(a)
  {
    if b == "" {
      assert a + b == a;
    } else {
      var front := b[..|b| - 1];
      TrimEndOfBlankTail(a, front);
      assert (a + b)[..|a + b| - 1] == a + front && (a + b)[|a + b| - 1] == b[|b| - 1];
    }
  }

  lemma TrimmedStartsOn(start: string, more: string)
    ensures StartsOn(TrimEnd(start + more), start)
    ensures TrimEnd(start) <= TrimEnd(start + more)
  {
    var line := start + more;
    TrimEndMeaning(line);
    TrimEndMeaning(start);
    var k := |TrimEnd(line)|;
    if k >= |start| {
      assert line[..|start|] == start;
    } else {
      forall i | 0 <= i < |more| ensures IsWhitespace(more[i]) {
        assert line[k..][|start| - k + i] == more[i];
      }
      TrimEndOfBlankTail(start, more);
    }
  }

  lemma {:induction false} ExtendStarts(page: Page, line: string, hasContent: bool, pieces: seq<string>)
    ensures line <= Extend(page, line, hasContent, pieces)
    decreases |pieces|
  {
    if pieces != [] {
      ExtendStarts(page, line + (if hasContent then page.separator else "") + pieces[0], true, pieces[1..]);
    }
  }

  lemma RowStartsOn(page: Page, line: string, hasContent: bool, pieces: seq<string>)
    ensures StartsOn(TrimEnd(Extend(page, line, hasContent, pieces)), line)
    ensures TrimEnd(line) <= TrimEnd(Extend(page, line, hasContent, pieces))
  {
    ExtendStarts(page, line, hasContent, pieces);
    var text := Extend(page, line, hasContent, pieces);
    assert text == line + text[|line|..];
    TrimmedStartsOn(line, text[|line|..]);
  }

  lemma {:induction false} RowsStartOn(page: Page, rows: seq<Row>)
    ensures AllStartOn(Printed(page, page.continuation, false, rows), page.continuation)
    decreases |rows|
  {
    if rows != [] {
      RowsStartOn(page, rows[1..]);
      RowStartsOn(page, page.continuation, false, rows[0].pieces);
      hide StartsOn, TrimEnd, Extend;
    }
  }

  // ----- one run -----

  /** The first line of a run starts with its prefix, the others with its continuation. */
  lemma RunStarts(call: Call, width: nat)
    requires Renders(call, width)
    ensures var lines := TextLines(call, width);
            && lines != [] && AllStartOn(lines[1..], call.continuation)
            && (TrimEnd(call.prefix) != "" ==> StartsOn(lines[0], call.prefix) && TrimEnd(call.prefix) <= lines[0])
  {
    var words := SplitWhitespace(call.value);
    var rows := WrappedIsTheTightLayout(call.prefix, call.continuation, words, " ", width);
    var page := MakePage(call.prefix, call.continuation, " ", width);
    assert rows != [] && TextLines(call, width) == Printed(page, call.prefix, false, rows);
    RowStartsOn(page, call.prefix, false, rows[0].pieces);
    RowsStartOn(page, rows[1..]);
    hide StartsOn, TrimEnd, TextLines, SplitWhitespace, Tight, Spelled;
    var first, below := TrimEnd(Extend(page, call.prefix, false, rows[0].pieces)), rows[1..];
    SomeLine(page, page.continuation, false, below);
    var lines := Printed(page, call.prefix, false, rows);
    if |rows| > 1 && rows[0].pieces == [] && first == "" {
      assert AllStartOn(lines[1..], call.continuation);
    } else {
      assert lines == [first] + Printed(page, page.continuation, false, below);
      assert lines[1..] == Printed(page, page.continuation, false, below);
    }
  }

  lemma {:induction false} SomeLine(page: Page, line: string, hasContent: bool, rows: seq<Row>)
    ensures rows != [] ==> Printed(page, line, hasContent, rows) != []
    decreases |rows|
  {
    if |rows| > 1 {
      SomeLine(page, page.continuation, false, rows[1..]);
    }
  }

  /** A run whose prefix and words fit in the width is one line. */
  lemma RunOfOneLine(call: Call, width: nat)
    requires ByteLen(call.prefix) + ByteLen(Joined(call.value)) <= width
    ensures Renders(call, width) && TextLines(call, width) == [TrimEnd(call.prefix + Joined(call.value))]
  {
    var words := SplitWhitespace(call.value);
    JoinedMeaning(call.value);
    var page := MakePage(call.prefix, call.continuation, " ", width);
    var one := [Row(words, false)];
    ExtendIsJoin(page, call.prefix, words);
    ByteLenConcat(call.prefix, Joined(call.value));
    assert one[1..] == [] && words + [] == words;
    assert Tight(page, call.prefix, false, one) && Spelled(one) == words;
    var rows := WrappedIsTheTightLayout(call.prefix, call.continuation, words, " ", width);
    assert rows == one;
  }

  // ----- labelled lines -----

  lemma LabelStart(prefix: string, tag: string)
    ensures TrimEnd(prefix + tag + ": ") == prefix + tag + ":"
  {
    var head := prefix + tag + ":";
    assert prefix + tag + ": " == head + " " && Blank(" ");
    TrimEndOfBlankTail(head, " ");
    TrimEndOfSolidTail(head);
  }

  /** A head that leaves room stays in front of its value: all on one line if that fits. */
  lemma LabelInFront(prefix: string, continuation: string, tag: string, value: string, width: nat)
    requires ByteLen(prefix + tag + ": ") <= width
    requires AllRender(LabeledCalls(prefix, continuation, tag, value, width), width)
    ensures var lines := AllLines(LabeledCalls(prefix, continuation, tag, value, width), width);
            && lines != [] && prefix + tag + ":" <= lines[0] && AllStartOn(lines[1..], continuation)
            && (ByteLen(prefix + tag + ": ") + ByteLen(Joined(value)) <= width ==>
                  lines == [TrimEnd(prefix + tag + ": " + Joined(value))])
  {
    var call := Call(prefix + tag + ": ", continuation, value);
    assert LabeledCalls(prefix, continuation, tag, value, width) == [call];
    assert LabeledCalls(prefix, continuation, tag, value, width)[0] == call;
    LabelStart(prefix, tag);
    hide Renders, TextLines, ByteLen, TrimEnd, Joined, AllStartOn;
    OneCall(call, width);
    RunStarts(call, width);
    if ByteLen(call.prefix) + ByteLen(Joined(value)) <= width {
      RunOfOneLine(call, width);
    }
  }

  /** A label that leaves no room has lines of its own, and the value starts on a line behind the continuation. */
  lemma LabelAbove(prefix: string, continuation: string, tag: string, value: string, width: nat) returns (k: nat)
    requires ByteLen(prefix + tag + ": ") > width && Blank(continuation)
    requires AllRender(LabeledCalls(prefix, continuation, tag, value, width), width)
    ensures var lines := AllLines(LabeledCalls(prefix, continuation, tag, value, width), width);
            && 0 < k < |lines|
            && Ink(Flatten(lines[..k])) == Ink(prefix) + Ink(tag + ":")
            && Ink(Flatten(lines[k..])) == Ink(value)
            && (TrimEnd(prefix) != "" ==> StartsOn(lines[0], prefix))
            && AllStartOn(lines[1..k], continuation) && AllStartOn(lines[k + 1..], continuation)
  {
    var first, second := Call(prefix, continuation, tag + ":"), Call(continuation, continuation, value);
    var calls := LabeledCalls(prefix, continuation, tag, value, width);
    assert calls == [first, second] && calls[0] == first && calls[1] == second;
    InkOfBlank(continuation);
    hide Renders, TextLines, ByteLen, TrimEnd, AllStartOn, Ink, Flatten, StartsOn;
    TwoCalls(first, second, width);
    RunStarts(first, width);
    RunStarts(second, width);
    TextLineKeepsInk(first, width);
    TextLineKeepsInk(second, width);
    var a, b := TextLines(first, width), TextLines(second, width);
    k := |a|;
    assert (a + b)[..k] == a && (a + b)[k..] == b && (a + b)[1..k] == a[1..] && (a + b)[k + 1..] == b[1..];
    assert "" + Ink(value) == Ink(value);
  }

  // ----- whole display lines -----

  /** A line taken apart: white space, a bullet perhaps, and the rest. */
  datatype Parts = Parts(indent: string, bullet: string, rest: string)

  function PartsOf(line: string): (p: Parts)
    ensures line == p.indent + p.bullet + p.rest && (p.bullet == "" || p.bullet == "- ")
    ensures p.bullet == "" ==> !("- " <= p.rest)
  {
    var n := IndentWidth(line);
    if "- " <= line[n..] then Parts(line[..n], "- ", line[n + 2..]) else Parts(line[..n], "", line[n..])
  }

  lemma PartsAgree(line: string)
    ensures var p := PartsOf(line);
            && Indent(line) == p.indent && Lead(line) == p.indent + p.bullet && Body(line) == p.rest
            && (IsBullet(line[IndentWidth(line)..]) <==> p.bullet != "")
  {
    assert "- "[0] == '-' && "- "[1] == ' ';
    var t := line[IndentWidth(line)..];
    if IsBullet(t) {
      assert t[..2] == "- ";
    }
  }

  /** A line that fits is printed as it is, but for single blanks between the words behind the lead and the label. */
  lemma FittingLineIsPrintedWhole(line: string, width: nat)
    requires Trim(line) != "" && CanDisplay(line, width)
    ensures var p := PartsOf(line);
            var lead := p.indent + p.bullet;
            var lines := DisplayLines(line, width);
            match SplitLabel(p.rest)
            case Some((tag, value)) =>
              ByteLen(lead + tag + ": ") + ByteLen(Joined(value)) <= width ==>
                lines == [TrimEnd(lead + tag + ": " + Joined(value))]
            case None =>
              ByteLen(lead) + ByteLen(Joined(p.rest)) <= width ==> lines == [TrimEnd(lead + Joined(p.rest))]
  {
    PartsAgree(line);
    hide Renders, TextLines, ByteLen, TrimEnd, Joined, AllStartOn, Trim, IndentWidth, SplitLabel, Indent, Lead, Body;
    hide PartsOf;
    match SplitLabel(Body(line)) {
      case Some((tag, value)) =>
        if ByteLen(Lead(line) + tag + ": ") <= width {
          LabelInFront(Lead(line), Indent(line) + "  ", tag, value, width);
        }
      case None =>
        var call := Calls(line, width)[0];
        assert Calls(line, width) == [call];
        OneCall(call, width);
        if ByteLen(call.prefix) + ByteLen(Joined(call.value)) <= width {
          RunOfOneLine(call, width);
        }
    }
  }

  /** Lines without a label hang under their lead: behind the bullet, or at the indent. */
  lemma UnlabelledLinesHang(line: string, width: nat)
    requires Trim(line) != "" && CanDisplay(line, width) && SplitLabel(PartsOf(line).rest).None?
    ensures var p := PartsOf(line);
            var lines := DisplayLines(line, width);
            && lines != [] && AllStartOn(lines[1..], if p.bullet == "" then p.indent else p.indent + "  ")
            && (p.bullet != "" ==> StartsOn(lines[0], p.indent + p.bullet))
  {
    PartsAgree(line);
    BulletShows(PartsOf(line).indent);
    hide Renders, TextLines, TrimEnd, AllStartOn, StartsOn, Trim, IndentWidth, SplitLabel, Indent, Lead, Body, PartsOf;
    var call := Calls(line, width)[0];
    assert Calls(line, width) == [call] && call.prefix == Lead(line);
    OneCall(call, width);
    RunStarts(call, width);
  }

  lemma BulletShows(indent: string)
    ensures TrimEnd(indent + "- ") != ""
  {
    assert indent + "- " == indent + "-" + " " && Blank(" ");
    TrimEndOfBlankTail(indent + "-", " ");
    TrimEndOfSolidTail(indent + "-");
  }

  /** Labelled lines hang two columns under the indent, label in front or above. */
  lemma LabelledLinesHang(line: string, width: nat) returns (k: nat)
    requires Trim(line) != "" && CanDisplay(line, width) && SplitLabel(PartsOf(line).rest).Some?
    ensures var p := PartsOf(line);
            var (tag, value) := SplitLabel(p.rest).value;
            var lead, hang := p.indent + p.bullet, p.indent + "  ";
            var lines := DisplayLines(line, width);
            if ByteLen(lead + tag + ": ") <= width
            then lines != [] && lead + tag + ":" <= lines[0] && AllStartOn(lines[1..], hang)
            else && 0 < k < |lines|
                 && Ink(Flatten(lines[..k])) == Ink(lead) + Ink(tag + ":") && Ink(Flatten(lines[k..])) == Ink(value)
                 && AllStartOn(lines[1..k], hang) && AllStartOn(lines[k + 1..], hang)
  {
    PartsAgree(line);
    LeadAndBodyKeepInk(line);
    hide Renders, TextLines, ByteLen, TrimEnd, Joined, AllStartOn, Trim, IndentWidth, SplitLabel, Indent, Lead, Body;
    hide PartsOf, Ink, Flatten, StartsOn;
    var (tag, value) := SplitLabel(Body(line)).value;
    k := 0;
    if ByteLen(Lead(line) + tag + ": ") <= width {
      LabelInFront(Lead(line), Indent(line) + "  ", tag, value, width);
    } else {
      k := LabelAbove(Lead(line), Indent(line) + "  ", tag, value, width);
    }
  }
}
