/**
 Greedy wrapping uses the fewest lines. A cut groups the segments, in order, into lines;
 the reference definition knows nothing of how the loop places segments.
 */
module WrappingOptimal {
  import opened Text
  import opened Wrapping

  /** A line after a group of segments has been appended to it. */
  function Extend(page: Page, line: string, hasContent: bool, group: seq<string>): string
    decreases |group|
  {
    if group == [] then line
    else Extend(page, line + (if hasContent then page.separator else "") + group[0], true, group[1..])
  }

  /** Every line of the cut, trimmed as it would be printed, is within the width. */
  predicate CutFits(page: Page, line: string, hasContent: bool, cut: seq<seq<string>>)
    decreases |cut|
  {
    && cut != []
    && ByteLen(TrimEnd(Extend(page, line, hasContent, cut[0]))) <= page.width
    && (|cut| > 1 ==> CutFits(page, page.continuation, false, cut[1..]))
  }

  /** The printed lines of a cut. */
  function Print(page: Page, line: string, hasContent: bool, cut: seq<seq<string>>): seq<string>
    decreases |cut|
  {
    if cut == [] then []
    else [TrimEnd(Extend(page, line, hasContent, cut[0]))] + Print(page, page.continuation, false, cut[1..])
  }

  lemma {:induction false} PrintLength(page: Page, line: string, hasContent: bool, cut: seq<seq<string>>)
    ensures |Print(page, line, hasContent, cut)| == |cut|
    decreases |cut|
  {
    if cut != [] {
      PrintLength(page, page.continuation, false, cut[1..]);
    }
  }

  /** A group extends a line by its join. */
  lemma {:induction false} ExtendIsJoin(page: Page, line: string, group: seq<string>)
    ensures Extend(page, line, false, group) == line + Join(group, page.separator)
    ensures group != [] ==>
              Extend(page, line, true, group) == line + page.separator + Join(group, page.separator)
    decreases |group|
  {
    if |group| == 1 {
      assert group[1..] == [];
    } else if |group| > 1 {
      ExtendIsJoin(page, line + group[0], group[1..]);
      ExtendIsJoin(page, line + page.separator + group[0], group[1..]);
      assert line + "" + group[0] == line + group[0];
      assert (line + group[0]) + page.separator + Join(group[1..], page.separator)
          == line + Join(group, page.separator);
    }
  }

  predicate AllSolid(segments: seq<string>) {
    forall i | 0 <= i < |segments| :: Solid(segments[i])
  }

  predicate AllFitAlone(page: Page, segments: seq<string>) {
    forall i | 0 <= i < |segments| :: ByteLen(page.continuation) + ByteLen(segments[i]) <= page.width
  }

  /**
   Every pending segment that may start a fresh line fits there, and the next one fits on a
   line without content.
   */
  predicate Roomy(page: Page, c: Cursor) {
    && ByteLen(page.continuation) <= page.width
    && AllSolid(c.pending)
    && (c.pending != [] ==> AllFitAlone(page, if c.hasContent then c.pending else c.pending[1..]))
    && (!c.hasContent && c.pending != [] ==> ByteLen(c.line) + ByteLen(c.pending[0]) <= page.width)
    && (c.pending != [] || c.hasContent || c.lines == [])
    && ByteLen(TrimEnd(c.line)) <= page.width
  }

  // ----- lengths of extended lines -----

  lemma {:induction false} ExtendGrows(page: Page, line: string, hasContent: bool, group: seq<string>)
    ensures ByteLen(line) <= ByteLen(Extend(page, line, hasContent, group))
    decreases |group|
  {
    if group != [] {
      var joiner := if hasContent then page.separator else "";
      ExtendGrows(page, line + joiner + group[0], true, group[1..]);
      ByteLenConcat(line + joiner, group[0]);
      ByteLenConcat(line, joiner);
    }
  }

  /** A line that ends in a visible segment is not shortened by trimming. */
  lemma {:induction false} ExtendIsTrimmed(page: Page, line: string, hasContent: bool, group: seq<string>)
    requires group != [] && AllSolid(group)
    ensures TrimEnd(Extend(page, line, hasContent, group)) == Extend(page, line, hasContent, group)
    decreases |group|
  {
    var longer := line + (if hasContent then page.separator else "") + group[0];
    if |group| == 1 {
      assert group[1..] == [];
      assert longer[|longer| - 1] == group[0][|group[0]| - 1];
      TrimEndOfSolidTail(longer);
    } else {
      ExtendIsTrimmed(page, longer, true, group[1..]);
    }
  }

  /** Dropping the first segment of a group never makes its line too wide. */
  lemma DropFirstFits(page: Page, group: seq<string>)
    requires group != [] && AllSolid(group) && ByteLen(page.continuation) <= page.width
    requires ByteLen(TrimEnd(Extend(page, page.continuation, false, group))) <= page.width
    ensures ByteLen(TrimEnd(Extend(page, page.continuation, false, group[1..]))) <= page.width
  {
    var start, rest := page.continuation, group[1..];
    ExtendIsTrimmed(page, start, false, group);
    if rest == [] {
      TrimEndShortens(start);
    } else {
      ExtendIsTrimmed(page, start, false, rest);
      ExtendIsJoin(page, start, group);
      ExtendIsJoin(page, start, rest);
      JoinLonger(page, group);
      ByteLenConcat(start, Join(group, page.separator));
      ByteLenConcat(start, Join(rest, page.separator));
    }
  }

  /** Removing the first segment of a cut leaves a cut with as many lines. */
  lemma {:induction false} DropFirst(page: Page, cut: seq<seq<string>>) returns (smaller: seq<seq<string>>)
    requires CutFits(page, page.continuation, false, cut) && ByteLen(page.continuation) <= page.width
    requires Flatten(cut) != [] && AllSolid(Flatten(cut))
    ensures CutFits(page, page.continuation, false, smaller)
    ensures |smaller| == |cut| && Flatten(smaller) == Flatten(cut)[1..]
    decreases |cut|
  {
    if cut[0] == [] {
      assert Flatten(cut) == Flatten(cut[1..]);
      var rest := DropFirst(page, cut[1..]);
      smaller := [[]] + rest;
      assert smaller[1..] == rest;
    } else {
      assert forall i | 0 <= i < |cut[0]| :: cut[0][i] == Flatten(cut)[i];
      DropFirstFits(page, cut[0]);
      smaller := [cut[0][1..]] + cut[1..];
      assert smaller[1..] == cut[1..];
    }
  }

  // ----- greedy stays ahead of every cut -----

  /** When the next segment fits, some equally good cut also puts it on the current line. */
  lemma PlaceFirst(page: Page, c: Cursor, cut: seq<seq<string>>) returns (next: seq<seq<string>>)
    requires Roomy(page, c) && c.pending != [] && ByteLen(c.pending[0]) <= Available(page, c)
    requires CutFits(page, c.line, c.hasContent, cut) && Flatten(cut) == c.pending
    ensures var d := Step(page, c);
            CutFits(page, d.line, true, next) && Flatten(next) == d.pending && |next| == |cut|
  {
    PlacedLineFits(page, c);
    assert Step(page, c).pending == c.pending[1..];
    if cut[0] != [] {
      next := PlaceInGroup(page, c, cut);
    } else {
      next := PlaceInEmptyGroup(page, c, cut);
    }
  }

  lemma PlaceInGroup(page: Page, c: Cursor, cut: seq<seq<string>>) returns (next: seq<seq<string>>)
    requires c.pending != [] && CutFits(page, c.line, c.hasContent, cut) && Flatten(cut) == c.pending && cut[0] != []
    ensures CutFits(page, c.line + Joiner(page, c) + c.pending[0], true, next)
    ensures Flatten(next) == c.pending[1..] && |next| == |cut|
  {
    hide ByteLen, TrimEnd;
    assert cut[0][0] == c.pending[0];
    next := [cut[0][1..]] + cut[1..];
    assert next[1..] == cut[1..];
    assert Flatten(next) == (cut[0] + Flatten(cut[1..]))[1..];
  }

  lemma PlaceInEmptyGroup(page: Page, c: Cursor, cut: seq<seq<string>>) returns (next: seq<seq<string>>)
    requires Roomy(page, c) && c.pending != []
    requires ByteLen(TrimEnd(c.line + Joiner(page, c) + c.pending[0])) <= page.width
    requires CutFits(page, c.line, c.hasContent, cut) && Flatten(cut) == c.pending && cut[0] == []
    ensures CutFits(page, c.line + Joiner(page, c) + c.pending[0], true, next)
    ensures Flatten(next) == c.pending[1..] && |next| == |cut|
  {
    hide ByteLen, TrimEnd, Roomy;
    assert Flatten(cut) == Flatten(cut[1..]);
    var rest := RoomyDropFirst(page, c, cut[1..]);
    next := [[]] + rest;
    assert next[1..] == rest;
    assert Flatten(next) == Flatten(rest);
  }

  lemma RoomyDropFirst(page: Page, c: Cursor, cut: seq<seq<string>>) returns (smaller: seq<seq<string>>)
    requires Roomy(page, c) && c.pending != []
    requires CutFits(page, page.continuation, false, cut) && Flatten(cut) == c.pending
    ensures CutFits(page, page.continuation, false, smaller)
    ensures |smaller| == |cut| && Flatten(smaller) == c.pending[1..]
  {
    smaller := DropFirst(page, cut);
  }

  lemma PlacedLineFits(page: Page, c: Cursor)
    requires c.pending != [] && Solid(c.pending[0]) && ByteLen(c.pending[0]) <= Available(page, c)
    ensures ByteLen(Step(page, c).line) <= page.width
    ensures ByteLen(TrimEnd(Step(page, c).line)) <= page.width
  {
    ByteLenConcat(c.line + Joiner(page, c), c.pending[0]);
    ByteLenConcat(c.line, Joiner(page, c));
    ByteLenAtLeastLength(c.pending[0]);
    TrimEndShortens(Step(page, c).line);
  }

  /** When it does not fit, every cut leaves the current line as it is. */
  lemma NothingFits(page: Page, c: Cursor, cut: seq<seq<string>>)
    requires Roomy(page, c) && c.pending != [] && ByteLen(c.pending[0]) > Available(page, c)
    requires CutFits(page, c.line, c.hasContent, cut) && Flatten(cut) == c.pending
    ensures c.hasContent && cut[0] == [] && |cut| > 1 && Flatten(cut[1..]) == c.pending
  {
    ByteLenConcat(c.line + Joiner(page, c), c.pending[0]);
    ByteLenConcat(c.line, Joiner(page, c));
    if cut[0] != [] {
      var group := cut[0];
      assert forall i | 0 <= i < |group| :: group[i] == Flatten(cut)[i];
      ExtendIsTrimmed(page, c.line, c.hasContent, group);
      ExtendGrows(page, c.line + Joiner(page, c) + group[0], true, group[1..]);
    }
  }

  lemma StepStaysRoomy(page: Page, c: Cursor)
    requires Roomy(page, c) && c.pending != []
    requires ByteLen(c.pending[0]) <= Available(page, c) || c.hasContent
    ensures Roomy(page, Step(page, c))
  {
    TrimEndShortens(page.continuation);
    if ByteLen(c.pending[0]) <= Available(page, c) {
      PlacedLineFits(page, c);
    }
  }

  /** A line without content always has room for the next segment. */
  lemma RoomyPlaces(page: Page, c: Cursor)
    requires Roomy(page, c) && c.pending != []
    ensures ByteLen(c.pending[0]) <= Available(page, c) || c.hasContent
    ensures ByteLen(TrimEnd(c.line)) <= page.width
  {}

  lemma {:induction false} StaysAhead(page: Page, c: Cursor, cut: seq<seq<string>>)
    requires Roomy(page, c) && Halts(page, c)
    requires CutFits(page, c.line, c.hasContent, cut) && Flatten(cut) == c.pending
    ensures |Finish(Final(page, c))| <= |c.lines| + |cut|
    decreases |c.pending|, c.hasContent
  {
    hide Halts, Final, Roomy, CutFits;
    if c.pending == [] {
      HaltsAtEnd(page, c);
      CutIsNotEmpty(page, c, cut);
    } else {
      HaltsStep(page, c);
      RoomyPlaces(page, c);
      StepStaysRoomy(page, c);
      if ByteLen(c.pending[0]) <= Available(page, c) {
        var next := PlaceFirst(page, c, cut);
        StaysAhead(page, Step(page, c), next);
      } else {
        NothingFits(page, c, cut);
        TailFits(page, c, cut);
        StaysAhead(page, Step(page, c), cut[1..]);
      }
    }
  }

  lemma CutIsNotEmpty(page: Page, c: Cursor, cut: seq<seq<string>>)
    requires CutFits(page, c.line, c.hasContent, cut)
    ensures cut != []
  {}

  lemma TailFits(page: Page, c: Cursor, cut: seq<seq<string>>)
    requires CutFits(page, c.line, c.hasContent, cut) && |cut| > 1
    ensures CutFits(page, page.continuation, false, cut[1..])
  {}

  // ----- greedy is itself a cut -----

  /** The next segment joins the first group of what follows, or starts a new line. */
  lemma CutThroughStep(page: Page, c: Cursor, rest: seq<seq<string>>) returns (cut: seq<seq<string>>)
    requires Roomy(page, c) && c.pending != []
    requires var d := Step(page, c);
             CutFits(page, d.line, d.hasContent, rest) && Flatten(rest) == d.pending
    ensures CutFits(page, c.line, c.hasContent, cut) && Flatten(cut) == c.pending
    ensures var d := Step(page, c);
            d.lines + Print(page, d.line, d.hasContent, rest) == c.lines + Print(page, c.line, c.hasContent, cut)
  {
    hide ByteLen, TrimEnd, Roomy;
    RoomyPlaces(page, c);
    if ByteLen(c.pending[0]) <= Available(page, c) {
      cut := [[c.pending[0]] + rest[0]] + rest[1..];
      assert cut[0][1..] == rest[0] && cut[1..] == rest[1..];
      assert Flatten(cut) == [c.pending[0]] + (rest[0] + Flatten(rest[1..]));
    } else {
      cut := [[]] + rest;
      assert cut[1..] == rest;
    }
  }

  lemma {:induction false} GreedyCut(page: Page, c: Cursor) returns (cut: seq<seq<string>>)
    requires Roomy(page, c) && Halts(page, c)
    ensures CutFits(page, c.line, c.hasContent, cut) && Flatten(cut) == c.pending
    ensures Finish(Final(page, c)) == c.lines + Print(page, c.line, c.hasContent, cut)
    decreases |c.pending|, c.hasContent
  {
    hide Halts, Final, ByteLen;
    if c.pending == [] {
      HaltsAtEnd(page, c);
      cut := [[]];
    } else {
      HaltsStep(page, c);
      RoomyPlaces(page, c);
      StepStaysRoomy(page, c);
      var rest := GreedyCut(page, Step(page, c));
      cut := CutThroughStep(page, c, rest);
    }
  }

  /**
   When every segment is visible text that fits after the prefix it may start behind, the
   lines printed are those of a cut, and no cut of the same segments has fewer lines.
   */
  lemma GreedyIsOptimal(prefix: string, continuation: string, segments: seq<string>,
                        separator: string, width: nat)
    returns (best: seq<seq<string>>)
    requires var page := MakePage(prefix, continuation, separator, width);
             && AllSolid(segments)
             && (segments != [] ==> AllFitAlone(page, segments[1..]))
             && (segments != [] ==> ByteLen(prefix) + ByteLen(segments[0]) <= page.width)
    ensures CanRender(prefix, continuation, segments, separator, width)
    ensures var page := MakePage(prefix, continuation, separator, width);
            var lines := Wrapped(prefix, continuation, segments, separator, width);
            && Flatten(best) == segments && CutFits(page, prefix, false, best)
            && lines == Print(page, prefix, false, best) && |lines| == |best|
            && forall cut | Flatten(cut) == segments && CutFits(page, prefix, false, cut) ::
                 |lines| <= |cut|
  {
    var page := MakePage(prefix, continuation, separator, width);
    var start := Start(page, segments);
    NonEmptyMeaning(segments);
    if segments != [] {
      ByteLenAtLeastLength(segments[0]);
    }
    HaltsExactlyWhenWrappable(page, segments);
    best := GreedyCut(page, start);
    PrintLength(page, prefix, false, best);
    forall cut | Flatten(cut) == segments && CutFits(page, prefix, false, cut)
      ensures |Finish(Final(page, start))| <= |cut|
    {
      StaysAhead(page, start, cut);
    }
  }
}
