/**
 What the wrapped lines are, without the loop. A layout puts pieces of segments on rows; a
 tight one breaks a row only where the next segment does not fit and cuts a segment only
 where the row is full. There is one tight layout of every input, and the loop prints it.
 */
module WrappingLayout {
  import opened Text
  import opened Wrapping
  import opened WrappingOptimal

  /** The pieces on a row. A row is cut if its last piece goes on in the next row. */
  datatype Row = Row(pieces: seq<string>, cut: bool)

  /** The segments the rows spell. */
  function Spelled(rows: seq<Row>): seq<string> {
    if rows == [] then []
    else
      var row, rest := rows[0], Spelled(rows[1..]);
      if row.cut && |row.pieces| == 1 && rest != [] then [row.pieces[0] + rest[0]] + rest[1..]
      else row.pieces + rest
  }

  /** Whether the next segment, or what is left of it, goes over the width behind this text. */
  predicate Overflows(page: Page, text: string, hasContent: bool, next: string) {
    ByteLen(text) + (if hasContent then ByteLen(page.separator) else 0) + ByteLen(next) > page.width
  }

  /** The first row of a tight layout: `line` is what the row starts with, `rest` what the next rows spell. */
  predicate TightRow(page: Page, line: string, hasContent: bool, row: Row, rest: seq<string>) {
    var text := Extend(page, line, hasContent, row.pieces);
    if row.cut then
      var piece := if |row.pieces| == 1 then row.pieces[0] else "";
      && !hasContent && |row.pieces| == 1 && piece != "" && rest != []
      && ByteLen(line) < page.width && Overflows(page, line, false, piece + rest[0])
      && (ByteLen(line) + ByteLen(piece) <= page.width || |piece| == 1)
      && (rest[0] != "" ==> ByteLen(line) + ByteLen(piece) + Utf8Len(rest[0][0]) > page.width)
    else
      && (row.pieces != [] ==> ByteLen(text) <= page.width)
      && (rest != [] ==> Overflows(page, text, hasContent || row.pieces != [], rest[0]))
      && (rest != [] && !hasContent && row.pieces == [] ==> ByteLen(line) >= page.width)
  }

  predicate Tight(page: Page, line: string, hasContent: bool, rows: seq<Row>)
    decreases |rows|
  {
    && rows != []
    && TightRow(page, line, hasContent, rows[0], Spelled(rows[1..]))
    && (|rows| > 1 ==> Spelled(rows[1..]) != [] && Tight(page, page.continuation, false, rows[1..]))
  }

  /** The rows as lines. A row with nothing on it but blanks is left out, unless it is the only one. */
  function Printed(page: Page, line: string, hasContent: bool, rows: seq<Row>): seq<string>
    decreases |rows|
  {
    if rows == [] then []
    else
      var text := TrimEnd(Extend(page, line, hasContent, rows[0].pieces));
      if |rows| > 1 && !hasContent && rows[0].pieces == [] && text == ""
      then Printed(page, page.continuation, false, rows[1..])
      else [text] + Printed(page, page.continuation, false, rows[1..])
  }

  // ----- the loop prints a tight layout -----

  /**
   What every state of the loop has: segments are only gone from a line without content at the
   very start, and nothing is left of a segment only on a fresh line.
   */
  predicate Started(page: Page, c: Cursor) {
    && (c.pending != [] || c.hasContent || c.lines == [])
    && (forall i | 0 < i < |c.pending| :: c.pending[i] != "")
    && (c.pending != [] && c.pending[0] == "" ==> !c.hasContent && c.line == page.continuation)
  }

  lemma StaysStarted(page: Page, c: Cursor)
    requires Started(page, c) && c.pending != []
    ensures Started(page, Step(page, c))
  {
    hide ByteLen, TrimEnd;
  }

  /** A segment placed in front of a tight layout of the rest of the row. */
  lemma PlaceInRow(page: Page, line: string, hasContent: bool, segment: string, rows: seq<Row>)
    requires var text := line + (if hasContent then page.separator else "") + segment;
             Tight(page, text, true, rows) && ByteLen(text) <= page.width
    ensures var text := line + (if hasContent then page.separator else "") + segment;
            var all := [Row([segment] + rows[0].pieces, false)] + rows[1..];
            && Tight(page, line, hasContent, all) && Spelled(all) == [segment] + Spelled(rows)
            && Printed(page, line, hasContent, all) == Printed(page, text, true, rows)
  {
    hide ByteLen, TrimEnd;
    var pieces, below := [segment] + rows[0].pieces, rows[1..];
    var all := [Row(pieces, false)] + below;
    assert all[1..] == below && pieces[1..] == rows[0].pieces;
    assert pieces + Spelled(below) == [segment] + (rows[0].pieces + Spelled(below));
    var text := line + (if hasContent then page.separator else "") + segment;
    assert Extend(page, line, hasContent, pieces) == Extend(page, text, true, rows[0].pieces);
    assert TightRow(page, line, hasContent, all[0], Spelled(below));
  }

  lemma LayPlaced(page: Page, c: Cursor, rows: seq<Row>) returns (all: seq<Row>)
    requires c.pending != [] && ByteLen(c.pending[0]) <= Available(page, c)
    requires var d := Step(page, c); Tight(page, d.line, d.hasContent, rows) && Spelled(rows) == d.pending
    requires ByteLen(Step(page, c).line) <= page.width
    ensures var d := Step(page, c);
            && Tight(page, c.line, c.hasContent, all) && Spelled(all) == c.pending
            && c.lines + Printed(page, c.line, c.hasContent, all) == d.lines + Printed(page, d.line, d.hasContent, rows)
  {
    assert rows != [];
    hide ByteLen, Tight, Printed, Spelled, Available;
    all := [Row([c.pending[0]] + rows[0].pieces, false)] + rows[1..];
    PlaceInRow(page, c.line, c.hasContent, c.pending[0], rows);
    assert c.pending == [c.pending[0]] + c.pending[1..];
  }

  /** The line of a row that others follow, if it is printed. */
  function FirstLine(page: Page, line: string, hasContent: bool, row: Row): seq<string> {
    var text := TrimEnd(Extend(page, line, hasContent, row.pieces));
    if !hasContent && row.pieces == [] && text == "" then [] else [text]
  }

  lemma TightCons(page: Page, line: string, hasContent: bool, row: Row, rows: seq<Row>)
    requires Tight(page, page.continuation, false, rows) && Spelled(rows) != []
    requires TightRow(page, line, hasContent, row, Spelled(rows))
    ensures Tight(page, line, hasContent, [row] + rows)
    ensures Printed(page, line, hasContent, [row] + rows)
         == FirstLine(page, line, hasContent, row) + Printed(page, page.continuation, false, rows)
    ensures Spelled([row] + rows)
         == (if row.cut && |row.pieces| == 1 then [row.pieces[0] + Spelled(rows)[0]] + Spelled(rows)[1..]
             else row.pieces + Spelled(rows))
  {
    hide TightRow, Extend, TrimEnd;
    assert ([row] + rows)[1..] == rows;
  }

  lemma LayBroken(page: Page, c: Cursor, rows: seq<Row>) returns (all: seq<Row>)
    requires c.pending != [] && ByteLen(c.pending[0]) > Available(page, c) && (c.hasContent || Available(page, c) == 0)
    requires var d := Step(page, c); Tight(page, d.line, d.hasContent, rows) && Spelled(rows) == d.pending
    ensures var d := Step(page, c);
            && Tight(page, c.line, c.hasContent, all) && Spelled(all) == c.pending
            && c.lines + Printed(page, c.line, c.hasContent, all) == d.lines + Printed(page, d.line, d.hasContent, rows)
  {
    hide Step, ByteLen, TrimEnd, Tight, Printed, Spelled, TightRow, Extend, Available;
    var row := Row([], false);
    all := [row] + rows;
    BrokenStep(page, c);
    TightCons(page, c.line, c.hasContent, row, rows);
    assert [] + Spelled(rows) == Spelled(rows);
    Regroup(c.lines, FirstLine(page, c.line, c.hasContent, row), Printed(page, page.continuation, false, rows));
  }

  lemma BrokenStep(page: Page, c: Cursor)
    requires c.pending != [] && ByteLen(c.pending[0]) > Available(page, c) && (c.hasContent || Available(page, c) == 0)
    ensures TightRow(page, c.line, c.hasContent, Row([], false), c.pending)
    ensures Step(page, c) == Cursor(c.lines + FirstLine(page, c.line, c.hasContent, Row([], false)), page.continuation,
                                    false, c.pending)
  {
    assert ByteLen("") == 0;
    hide ByteLen, TrimEnd;
    assert c.lines + [] == c.lines;
  }

  lemma LaySplit(page: Page, c: Cursor, rows: seq<Row>) returns (all: seq<Row>)
    requires c.pending != [] && ByteLen(c.pending[0]) > Available(page, c) > 0 && !c.hasContent
    requires var d := Step(page, c); Tight(page, d.line, d.hasContent, rows) && Spelled(rows) == d.pending
    ensures var d := Step(page, c);
            && Tight(page, c.line, c.hasContent, all) && Spelled(all) == c.pending
            && c.lines + Printed(page, c.line, c.hasContent, all) == d.lines + Printed(page, d.line, d.hasContent, rows)
  {
    hide Step, ByteLen, TrimEnd, Tight, Printed, Spelled, TightRow, FitCount, FittingPrefix, Extend;
    hide Available, FirstLine;
    var k := SplitStep(page, c);
    var remaining, rest := c.pending[0], c.pending[1..];
    var piece, left := remaining[..k], remaining[k..];
    var row := Row([piece], true);
    all := [row] + rows;
    SplitIsTight(page, c.line, remaining, k, Spelled(rows));
    TightCons(page, c.line, false, row, rows);
    assert piece + left == remaining && ([left] + rest)[1..] == rest;
    FirstLineOfPiece(page, c.line, piece);
    Regroup(c.lines, FirstLine(page, c.line, false, row), Printed(page, page.continuation, false, rows));
  }

  lemma SplitStep(page: Page, c: Cursor) returns (k: nat)
    requires c.pending != [] && ByteLen(c.pending[0]) > Available(page, c) > 0 && !c.hasContent
    ensures var room := SaturatingSub(page.width, ByteLen(c.line));
            0 < room < ByteLen(c.pending[0]) && k == FittingPrefix(c.pending[0], room) && 0 < k <= |c.pending[0]|
    ensures var remaining, rest := c.pending[0], c.pending[1..];
            && c.pending == [remaining] + rest
            && Step(page, c) == Cursor(c.lines + [TrimEnd(c.line + remaining[..k])], page.continuation, false,
                                       [remaining[k..]] + rest)
  {
    assert ByteLen("") == 0;
    hide ByteLen, TrimEnd, FitCount;
    var room := Available(page, c);
    FitCountMeaning(c.pending[0], room);
    k := FittingPrefix(c.pending[0], room);
    assert c.pending[0] != "";
  }

  lemma ExtendByOne(page: Page, line: string, piece: string)
    ensures Extend(page, line, false, [piece]) == line + piece
  {
    assert [piece][1..] == [] && line + "" + piece == line + piece;
  }

  lemma FirstLineOfPiece(page: Page, line: string, piece: string)
    ensures FirstLine(page, line, false, Row([piece], true)) == [TrimEnd(line + piece)]
  {
    ExtendByOne(page, line, piece);
  }

  lemma SplitIsTight(page: Page, line: string, remaining: string, k: nat, rest: seq<string>)
    requires var room := SaturatingSub(page.width, ByteLen(line));
             0 < room < ByteLen(remaining) && k == FittingPrefix(remaining, room) && 0 < k <= |remaining|
    requires rest != [] && rest[0] == remaining[k..]
    ensures TightRow(page, line, false, Row([remaining[..k]], true), rest)
  {
    var room := SaturatingSub(page.width, ByteLen(line));
    FitCountMeaning(remaining, room);
    assert remaining == remaining[..k] + remaining[k..];
    ByteLenConcat(remaining[..k], remaining[k..]);
    if k < |remaining| && FitCount(remaining, room) == 0 {
      assert remaining[..1] == [remaining[0]];
      ByteLenAtLeastLength(remaining[..1]);
      assert ByteLen(remaining[..0]) == 0;
    }
  }

  lemma LayNothing(page: Page, c: Cursor) returns (rows: seq<Row>)
    requires c.pending == [] && (c.hasContent || c.lines == [])
    ensures Tight(page, c.line, c.hasContent, rows) && Spelled(rows) == []
    ensures Finish(c) == c.lines + Printed(page, c.line, c.hasContent, rows)
  {
    hide ByteLen, TrimEnd;
    rows := [Row([], false)];
    assert rows[1..] == [];
  }

  lemma LayStep(page: Page, c: Cursor, next: seq<Row>) returns (rows: seq<Row>)
    requires ValidPage(page) && Started(page, c) && c.pending != []
    requires var d := Step(page, c); Tight(page, d.line, d.hasContent, next) && Spelled(next) == d.pending
    ensures Tight(page, c.line, c.hasContent, rows) && Spelled(rows) == c.pending
    ensures var d := Step(page, c);
            c.lines + Printed(page, c.line, c.hasContent, rows) == d.lines + Printed(page, d.line, d.hasContent, next)
  {
    hide Tight, Printed, Spelled, ByteLen, Available, Started;
    if ByteLen(c.pending[0]) <= Available(page, c) {
      PlacedFits(page, c);
      rows := LayPlaced(page, c, next);
    } else if c.hasContent || Available(page, c) == 0 {
      rows := LayBroken(page, c, next);
    } else {
      rows := LaySplit(page, c, next);
    }
  }

  /** From every state the loop can be in, the lines to come are those of a tight layout of what is pending. */
  lemma {:induction false} LayOut(page: Page, c: Cursor, n: nat) returns (rows: seq<Row>)
    requires ValidPage(page) && Iterate(page, c, n).pending == [] && Started(page, c)
    ensures Tight(page, c.line, c.hasContent, rows) && Spelled(rows) == c.pending
    ensures Finish(Iterate(page, c, n)) == c.lines + Printed(page, c.line, c.hasContent, rows)
    decreases n
  {
    hide Tight, Printed, Spelled, Finish, Step, ByteLen, Available;
    if c.pending == [] {
      rows := LayNothing(page, c);
    } else {
      var d := Step(page, c);
      Advance(page, c, d, n);
      hide Iterate, Started;
      StaysStarted(page, c);
      var next := LayOut(page, d, n - 1);
      rows := LayStep(page, c, next);
    }
  }

  lemma PlacedFits(page: Page, c: Cursor)
    requires ValidPage(page) && Started(page, c) && c.pending != [] && ByteLen(c.pending[0]) <= Available(page, c)
    ensures ByteLen(Step(page, c).line) <= page.width
  {
    ByteLenConcat(c.line + Joiner(page, c), c.pending[0]);
    ByteLenConcat(c.line, Joiner(page, c));
    ByteLenAtLeastLength(c.pending[0]);
    assert ByteLen("") == 0;
  }

  // ----- there is only one -----

  lemma {:induction false} ExtendConcat(page: Page, line: string, hasContent: bool, a: seq<string>, b: seq<string>)
    ensures Extend(page, line, hasContent, a + b)
         == Extend(page, Extend(page, line, hasContent, a), hasContent || a != [], b)
    decreases |a|
  {
    if a == [] {
      assert a + b == b;
    } else {
      ExtendConcat(page, line + (if hasContent then page.separator else "") + a[0], true, a[1..], b);
      assert (a + b)[1..] == a[1..] + b;
    }
  }

  /** The segments of a row and of those below it. */
  function Joint(row: Row, rest: seq<string>): seq<string> {
    if row.cut && |row.pieces| == 1 && rest != [] then [row.pieces[0] + rest[0]] + rest[1..] else row.pieces + rest
  }

  /** A row that goes on where another breaks would go over the width. */
  lemma LongerRowOverflows(page: Page, line: string, hasContent: bool, pieces: seq<string>, longer: seq<string>)
    requires |pieces| < |longer| && pieces == longer[..|pieces|]
    requires Overflows(page, Extend(page, line, hasContent, pieces), hasContent || pieces != [], longer[|pieces|])
    ensures ByteLen(Extend(page, line, hasContent, longer)) > page.width
  {
    var x, more := longer[|pieces|], longer[|pieces|..];
    var text, full := Extend(page, line, hasContent, pieces), hasContent || pieces != [];
    assert longer == pieces + more && more == [x] + more[1..];
    ExtendConcat(page, line, hasContent, pieces, more);
    var joiner := if full then page.separator else "";
    ByteLenConcat(text + joiner, x);
    ByteLenConcat(text, joiner);
    assert ByteLen("") == 0;
    ExtendGrows(page, text + joiner + x, true, more[1..]);
    assert more[0] == x;
  }

  /** A segment cut later than where the row is full would go over the width. */
  lemma LaterCutOverflows(page: Page, line: string, piece: string, left: string, longer: string, rest: string)
    requires piece + left == longer + rest && 0 < |piece| < |longer|
    requires left != "" ==> ByteLen(line) + ByteLen(piece) + Utf8Len(left[0]) > page.width
    ensures ByteLen(line) + ByteLen(longer) > page.width && |longer| > 1
  {
    hide ByteLen, Utf8Len;
    var k := |piece|;
    var c, tail := longer[k], longer[k + 1..];
    assert (piece + left)[..k] == piece && (longer + rest)[..k] == longer[..k];
    assert (piece + left)[k] == left[0] && (longer + rest)[k] == c;
    assert longer == piece + [c] + tail;
    ByteLenConcat(piece + [c], tail);
    ByteLenConcat(piece, [c]);
    ByteLenOfChar(c);
  }

  lemma ByteLenOfChar(c: char)
    ensures ByteLen([c]) == Utf8Len(c)
  {
    assert [c][1..] == "";
  }

  lemma FirstRowUnique(page: Page, line: string, hasContent: bool, row: Row, rest: seq<string>, other: Row,
                       below: seq<string>)
    requires TightRow(page, line, hasContent, row, rest) && TightRow(page, line, hasContent, other, below)
    requires Joint(row, rest) == Joint(other, below)
    ensures row == other && rest == below
  {
    if row.cut && other.cut {
      CutsAgree(page, line, hasContent, row, rest, other, below);
    } else if row.cut {
      CutOrWhole(page, line, hasContent, row, rest, other, below);
    } else if other.cut {
      CutOrWhole(page, line, hasContent, other, below, row, rest);
    } else {
      BreaksAgree(page, line, hasContent, row, rest, other, below);
    }
  }

  lemma CutsAgree(page: Page, line: string, hasContent: bool, row: Row, rest: seq<string>, other: Row,
                  below: seq<string>)
    requires TightRow(page, line, hasContent, row, rest) && TightRow(page, line, hasContent, other, below)
    requires Joint(row, rest) == Joint(other, below) && row.cut && other.cut
    ensures row == other && rest == below
  {
    var a, x, b, y := row.pieces[0], rest[0], other.pieces[0], below[0];
    var p, q := [a + x] + rest[1..], [b + y] + below[1..];
    assert p[0] == q[0] && p[1..] == rest[1..] && q[1..] == below[1..];
    hide ByteLen, Utf8Len;
    if |a| < |b| {
      LaterCutOverflows(page, line, a, x, b, y);
    } else if |b| < |a| {
      LaterCutOverflows(page, line, b, y, a, x);
    } else {
      assert (a + x)[..|a|] == a && (b + y)[..|b|] == b && (a + x)[|a|..] == x && (b + y)[|b|..] == y;
      assert rest == [x] + rest[1..] && below == [y] + below[1..];
      assert row.pieces == [a] && other.pieces == [b];
    }
  }

  /** A segment that fits is not cut. */
  lemma CutOrWhole(page: Page, line: string, hasContent: bool, row: Row, rest: seq<string>, other: Row,
                   below: seq<string>)
    requires TightRow(page, line, hasContent, row, rest) && TightRow(page, line, hasContent, other, below)
    requires Joint(row, rest) == Joint(other, below) && row.cut
    ensures other.cut
  {
    var whole := row.pieces[0] + rest[0];
    assert Joint(row, rest)[0] == whole;
    if !other.cut {
      if other.pieces != [] {
        assert other.pieces[0] == whole;
        assert ByteLen("") == 0;
        hide ByteLen;
        LongerRowOverflows(page, line, hasContent, [], other.pieces);
      }
    }
  }

  lemma BreaksAgree(page: Page, line: string, hasContent: bool, row: Row, rest: seq<string>, other: Row,
                    below: seq<string>)
    requires TightRow(page, line, hasContent, row, rest) && TightRow(page, line, hasContent, other, below)
    requires Joint(row, rest) == Joint(other, below) && !row.cut && !other.cut
    ensures row == other && rest == below
  {
    var a, b := row.pieces, other.pieces;
    assert a + rest == b + below;
    hide ByteLen;
    if |a| < |b| {
      assert (a + rest)[..|a|] == a && (b + below)[..|a|] == b[..|a|] && rest[0] == (a + rest)[|a|] == b[|a|];
      LongerRowOverflows(page, line, hasContent, a, b);
    } else if |b| < |a| {
      assert (b + below)[..|b|] == b && (a + rest)[..|b|] == a[..|b|] && below[0] == (b + below)[|b|] == a[|b|];
      LongerRowOverflows(page, line, hasContent, b, a);
    } else {
      assert (a + rest)[..|a|] == a && (b + below)[..|b|] == b;
      assert (a + rest)[|a|..] == rest && (b + below)[|b|..] == below;
    }
  }

  lemma {:induction false} TightIsUnique(page: Page, line: string, hasContent: bool, rows: seq<Row>, others: seq<Row>)
    requires Tight(page, line, hasContent, rows) && Tight(page, line, hasContent, others)
    requires Spelled(rows) == Spelled(others)
    ensures rows == others
    decreases |rows|
  {
    assert Spelled(rows) == Joint(rows[0], Spelled(rows[1..]));
    assert Spelled(others) == Joint(others[0], Spelled(others[1..]));
    hide TightRow, Joint;
    FirstRowUnique(page, line, hasContent, rows[0], Spelled(rows[1..]), others[0], Spelled(others[1..]));
    if |rows| > 1 {
      TightIsUnique(page, page.continuation, false, rows[1..], others[1..]);
    }
    assert rows == [rows[0]] + rows[1..] && others == [others[0]] + others[1..];
  }

  /** The wrapped lines are those of the one tight layout of the segments. */
  lemma WrappedIsTheTightLayout(prefix: string, continuation: string, segments: seq<string>, separator: string,
                                width: nat)
    returns (rows: seq<Row>)
    requires CanRender(prefix, continuation, segments, separator, width)
    ensures var page := Page(prefix, continuation, separator,
                             Max(Max(width, ByteLen(TrimEnd(prefix))), ByteLen(continuation)));
            var lines := Wrapped(prefix, continuation, segments, separator, width);
            && Tight(page, prefix, false, rows) && Spelled(rows) == NonEmpty(segments)
            && lines == Printed(page, prefix, false, rows)
            && forall others | Tight(page, prefix, false, others) && Spelled(others) == NonEmpty(segments) ::
                 others == rows
  {
    var page, pending := MakePage(prefix, continuation, separator, width), NonEmpty(segments);
    var start := Start(page, pending);
    NonEmptyMeaning(segments);
    HaltsExactlyWhenWrappable(page, pending);
    var n: nat :| Iterate(page, start, n).pending == [];
    FinalIs(page, start, n);
    hide Iterate, Tight, Printed, Spelled, Halts, Final;
    rows := LayOut(page, start, n);
    assert [] + Printed(page, prefix, false, rows) == Printed(page, prefix, false, rows);
    forall others | Tight(page, prefix, false, others) && Spelled(others) == pending ensures others == rows {
      TightIsUnique(page, prefix, false, others, rows);
    }
  }
}
