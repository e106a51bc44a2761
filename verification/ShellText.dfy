/** The exact text of a quoted argument. */
module ShellText {
  import opened Text
  import opened ShellQuote

  function Glued(pieces: seq<string>, glue: string): string {
    if pieces == [] then "" else if |pieces| == 1 then pieces[0] else pieces[0] + glue + Glued(pieces[1..], glue)
  }

  lemma {:induction false} ReplaceConcat(a: string, b: string)
    ensures ReplaceQuotes(a + b) == ReplaceQuotes(a) + ReplaceQuotes(b)
  {
    if a == "" {
      assert a + b == b;
    } else {
      ReplaceConcat(a[1..], b);
      assert (a + b)[1..] == a[1..] + b && (a + b)[0] == a[0];
      Regroup(if a[0] == '\'' then "'\"'\"'" else [a[0]], ReplaceQuotes(a[1..]), ReplaceQuotes(b));
    }
  }

  lemma {:induction false} ReplaceNothing(s: string)
    requires '\'' !in s
    ensures ReplaceQuotes(s) == s
  {
    if s != "" {
      ReplaceNothing(s[1..]);
    }
  }

  lemma ReplaceQuote()
    ensures ReplaceQuotes("'") == "'\"'\"'"
  {
    assert "'"[1..] == "";
  }

  lemma {:induction false} ReplacedPieces(pieces: seq<string>)
    requires forall i | 0 <= i < |pieces| :: '\'' !in pieces[i]
    ensures ReplaceQuotes(Glued(pieces, "'")) == Glued(pieces, "'\"'\"'")
  {
    if pieces != [] {
      ReplaceNothing(pieces[0]);
      if |pieces| > 1 {
        var rest := Glued(pieces[1..], "'");
        ReplacedPieces(pieces[1..]);
        ReplaceConcat(pieces[0] + "'", rest);
        ReplaceConcat(pieces[0], "'");
        ReplaceQuote();
        hide ReplaceQuotes;
      }
    }
  }

  /** The pieces between single quotes stand unchanged, and every single quote is written '"'"'. */
  lemma QuotedText(pieces: seq<string>)
    requires pieces != [] && forall i | 0 <= i < |pieces| :: '\'' !in pieces[i]
    ensures ShellQuoteArgument(Glued(pieces, "'")) == "'" + Glued(pieces, "'\"'\"'") + "'"
  {
    ReplacedPieces(pieces);
    hide ReplaceQuotes;
  }

  /** Every text is its pieces between single quotes. */
  lemma {:induction false} PiecesOf(s: string) returns (pieces: seq<string>)
    ensures pieces != [] && forall i | 0 <= i < |pieces| :: '\'' !in pieces[i]
    ensures s == Glued(pieces, "'")
  {
    if s == "" {
      pieces := [""];
    } else {
      var rest := PiecesOf(s[1..]);
      assert s == [s[0]] + s[1..];
      if s[0] == '\'' {
        pieces := [""] + rest;
        assert pieces[1..] == rest;
      } else {
        pieces := [[s[0]] + rest[0]] + rest[1..];
        assert pieces[1..] == rest[1..];
        if |rest| > 1 {
          Regroup([s[0]], rest[0], "'" + Glued(rest[1..], "'"));
          Regroup(rest[0], "'", Glued(rest[1..], "'"));
          Regroup([s[0]] + rest[0], "'", Glued(rest[1..], "'"));
        }
      }
    }
  }
}
