/** How the parts of a provider's identity are normalized, and the algebra of merging two providers. */
module ProviderFields {
  import opened Text
  import opened ProviderMerge

  // ----- the words of a segment -----

  predicate IsWord(w: string) {
    w != "" && forall i | 0 <= i < |w| :: IsAlnum(w[i])
  }

  predicate IsGap(g: string) {
    forall i | 0 <= i < |g| :: !IsAlnum(g[i])
  }

  /** Words with what stands in front of each; only the first may stand at the very beginning. */
  predicate WordsAndGaps(gaps: seq<string>, words: seq<string>) {
    && |gaps| == |words|
    && (forall i | 0 <= i < |words| :: IsWord(words[i]) && IsGap(gaps[i]))
    && (forall i | 0 < i < |gaps| :: gaps[i] != "")
  }

  function Laid(gaps: seq<string>, words: seq<string>): string
    requires |gaps| == |words|
  {
    var n := |words| - 1;
    if n < 0 then "" else Laid(gaps[..n], words[..n]) + gaps[n] + words[n]
  }

  function DashJoined(words: seq<string>): string {
    var n := |words| - 1;
    if n < 0 then "" else if n == 0 then Lower(words[0]) else DashJoined(words[..n]) + "-" + Lower(words[n])
  }

  lemma {:induction false} LowerConcat(s: string, t: string)
    ensures Lower(s + t) == Lower(s) + Lower(t)
  {
    if s == "" {
      assert s + t == t;
    } else {
      LowerConcat(s[1..], t);
      assert (s + t)[1..] == s[1..] + t && (s + t)[0] == s[0];
      hide LowerChar;
      Regroup([LowerChar(s[0])], Lower(s[1..]), Lower(t));
    }
  }

  lemma {:induction false} DashedWord(s: string, w: string)
    requires IsWord(w)
    ensures Dashed(s + w) == (Dashed(s).0 + Lower(w), false)
  {
    var n := |w| - 1;
    var front, c := w[..n], w[n];
    assert w == front + [c] && (s + w)[..|s + w| - 1] == s + front;
    LowerConcat(front, [c]);
    assert Lower([c]) == [LowerChar(c)];
    if n > 0 {
      DashedWord(s, front);
      Regroup(Dashed(s).0, Lower(front), [LowerChar(c)]);
    } else {
      assert s + front == s;
    }
  }

  lemma {:induction false} DashedGap(s: string, g: string)
    requires IsGap(g)
    ensures var (before, dash) := Dashed(s);
            Dashed(s + g) == if g == "" || before == "" || dash then (before, dash) else (before + "-", true)
  {
    if g == "" {
      assert s + g == s;
    } else {
      var n := |g| - 1;
      assert (s + g)[..|s + g| - 1] == s + g[..n];
      DashedGap(s, g[..n]);
    }
  }

  lemma {:induction false} DashJoinedEnd(words: seq<string>)
    requires |words| > 0 && forall i | 0 <= i < |words| :: IsWord(words[i])
    ensures DashJoined(words) != "" && DashJoined(words)[|DashJoined(words)| - 1] != '-'
  {
    var last := words[|words| - 1];
    LowerConcat(last[..|last| - 1], [last[|last| - 1]]);
    assert last == last[..|last| - 1] + [last[|last| - 1]];
  }

  lemma {:induction false} DashedLaid(gaps: seq<string>, words: seq<string>)
    requires WordsAndGaps(gaps, words)
    ensures Dashed(Laid(gaps, words)) == (DashJoined(words), false)
  {
    var n := |words| - 1;
    if n >= 0 {
      var front := Laid(gaps[..n], words[..n]);
      DashedLaid(gaps[..n], words[..n]);
      if n > 0 {
        DashJoinedEnd(words[..n]);
      }
      DashedGap(front, gaps[n]);
      DashedWord(front + gaps[n], words[n]);
      hide Dashed;
      assert n == 0 ==> words[..n] == [];
      assert "" + Lower(words[0]) == Lower(words[0]);
    }
  }

  /** What leads or trails outside the words leaves no trace. */
  lemma {:induction false} LeadingGap(g: string, s: string)
    requires IsGap(g)
    ensures Dashed(g + s) == Dashed(s)
  {
    if s == "" {
      assert g + s == "" + g;
      DashedGap("", g);
    } else {
      var n := |s| - 1;
      LeadingGap(g, s[..n]);
      assert (g + s)[..|g + s| - 1] == g + s[..n];
    }
  }

  lemma TrailingGap(s: string, g: string)
    requires IsGap(g)
    ensures DropDashes(Dashed(s + g).0) == DropDashes(Dashed(s).0)
  {
    DashedGap(s, g);
    DashedMeaning(s);
    var before := Dashed(s).0;
    hide Dashed;
    assert (before + "-")[..|before + "-"| - 1] == before;
  }

  /** White space is never part of a word, so trimming first changes nothing. */
  lemma TrimmingIsNoLoss(raw: string)
    ensures DropDashes(Dashed(Trim(raw)).0) == DropDashes(Dashed(raw).0)
  {
    var t, u := TrimStart(raw), Trim(raw);
    TrimStartMeaning(raw);
    TrimEndMeaning(t);
    hide TrimStart, TrimEnd, Dashed, DropDashes;
    var pre, post := raw[..|raw| - |t|], t[|u|..];
    assert raw == pre + t && t == u + post;
    LeadingGap(pre, t);
    TrailingGap(u, post);
  }

  /** The segment of any text is its words in lower case, joined by single dashes. */
  lemma SegmentIsJoinedWords(gaps: seq<string>, words: seq<string>, tail: string)
    requires WordsAndGaps(gaps, words) && IsGap(tail)
    ensures Segment(Laid(gaps, words) + tail) == if words == [] then None else Some(DashJoined(words))
  {
    var raw := Laid(gaps, words) + tail;
    TrimmingIsNoLoss(raw);
    TrailingGap(Laid(gaps, words), tail);
    DashedLaid(gaps, words);
    if words != [] {
      DashJoinedEnd(words);
    }
    hide Dashed, Trim, Laid;
  }

  lemma LaidMore(gaps: seq<string>, words: seq<string>, gap: string, word: string)
    requires |gaps| == |words|
    ensures Laid(gaps + [gap], words + [word]) == Laid(gaps, words) + gap + word
  {
    assert (gaps + [gap])[..|gaps|] == gaps && (words + [word])[..|gaps|] == words;
  }

  lemma LaidLonger(gaps: seq<string>, words: seq<string>, c: char)
    requires |gaps| == |words| > 0
    ensures var m := |words| - 1;
            Laid(gaps, words[m := words[m] + [c]]) == Laid(gaps, words) + [c]
  {
    var m := |words| - 1;
    var gaps', words' := gaps[..m], words[..m];
    assert gaps == gaps' + [gaps[m]] && words == words' + [words[m]];
    assert words[m := words[m] + [c]] == words' + [words[m] + [c]];
    LaidMore(gaps', words', gaps[m], words[m]);
    LaidMore(gaps', words', gaps[m], words[m] + [c]);
    Regroup(Laid(gaps', words') + gaps[m], words[m], [c]);
  }

  /** The words and gaps with one more character. */
  lemma OneMore(gaps: seq<string>, words: seq<string>, tail: string, c: char)
    returns (gaps': seq<string>, words': seq<string>, tail': string)
    requires WordsAndGaps(gaps, words) && IsGap(tail)
    ensures WordsAndGaps(gaps', words') && IsGap(tail')
    ensures Laid(gaps', words') + tail' == Laid(gaps, words) + tail + [c]
  {
    hide Laid, IsAlnum;
    gaps', words', tail' := gaps, words, "";
    if !IsAlnum(c) {
      Regroup(Laid(gaps, words), tail, [c]);
      tail' := tail + [c];
    } else if tail == "" && words != [] {
      LaidLonger(gaps, words, c);
      words' := words[|words| - 1 := words[|words| - 1] + [c]];
    } else {
      LaidMore(gaps, words, tail, [c]);
      gaps', words' := gaps + [tail], words + [[c]];
    }
  }

  /** Every text is made of words and gaps. */
  lemma {:induction false} WordsOf(raw: string) returns (gaps: seq<string>, words: seq<string>, tail: string)
    ensures WordsAndGaps(gaps, words) && IsGap(tail)
    ensures raw == Laid(gaps, words) + tail
  {
    if raw == "" {
      gaps, words, tail := [], [], "";
    } else {
      var n := |raw| - 1;
      gaps, words, tail := WordsOf(raw[..n]);
      assert raw == raw[..n] + [raw[n]];
      hide *;
      gaps, words, tail := OneMore(gaps, words, tail, raw[n]);
    }
  }

  // ----- comparing with a kind's defaults -----

  predicate AllSlashes(s: string) {
    forall i | 0 <= i < |s| :: s[i] == '/'
  }

  /** Base URLs are compared up to trailing slashes. */
  lemma {:induction false} TrimSlashesMeaning(s: string)
    ensures TrimSlashes(s) <= s && AllSlashes(s[|TrimSlashes(s)|..])
    ensures TrimSlashes(s) == "" || TrimSlashes(s)[|TrimSlashes(s)| - 1] != '/'
  {
    if s != "" && s[|s| - 1] == '/' {
      var front := s[..|s| - 1];
      TrimSlashesMeaning(front);
      var k := |TrimSlashes(s)|;
      assert s[k..] == front[k..] + "/";
    }
  }

  // ----- the algebra of merging -----

  predicate Complete(table: Table, p: Provider) {
    !ModelIsOpen(p) && !BaseIsDefault(table, p) && !PathIsDefault(table, p) && p.endpoint.Some?
  }

  /** Nothing overrides what is set. */
  lemma CompleteIsKept(table: Table, a: Provider, b: Provider)
    requires Complete(table, a)
    ensures Merge(table, a, b) == a
  {
    hide ModelIsOpen, BaseIsDefault, PathIsDefault;
  }

  /** What is open is filled in from a complete provider of the kind. */
  lemma OpenIsFilled(table: Table, a: Provider, b: Provider)
    requires Complete(table, b) && a.kind == b.kind
    requires ModelIsOpen(a) && BaseIsDefault(table, a) && PathIsDefault(table, a) && a.endpoint.None?
    ensures Merge(table, a, b) == b
  {
    hide ModelIsOpen, BaseIsDefault, PathIsDefault;
  }

  /** Merging the same provider in twice changes nothing, and merging is the same however it is grouped. */
  lemma MergeIsIdempotent(table: Table, a: Provider, b: Provider)
    ensures Merge(table, a, a) == a
    ensures Merge(table, Merge(table, a, b), b) == Merge(table, a, b)
  {
    hide Trim, Lower, TrimSlashes, ApiPath;
  }

  lemma MergeIsAssociative(table: Table, a: Provider, b: Provider, c: Provider)
    requires a.kind == b.kind == c.kind
    ensures Merge(table, Merge(table, a, b), c) == Merge(table, a, Merge(table, b, c))
  {
    hide Trim, Lower, TrimSlashes, ApiPath;
  }

  /** Fields are merged one by one: replacing one field of either side leaves the others as they were. */
  lemma FieldsAreIndependent(table: Table, a: Provider, b: Provider, c: Provider, d: Provider)
    requires a.kind == c.kind && b.kind == d.kind
    ensures a.model == c.model && b.model == d.model ==> Merge(table, a, b).model == Merge(table, c, d).model
    ensures a.baseUrl == c.baseUrl && b.baseUrl == d.baseUrl ==>
              Merge(table, a, b).baseUrl == Merge(table, c, d).baseUrl
    ensures a.chatPath == c.chatPath && b.chatPath == d.chatPath ==>
              Merge(table, a, b).chatPath == Merge(table, c, d).chatPath
    ensures a.endpoint == c.endpoint && b.endpoint == d.endpoint ==>
              Merge(table, a, b).endpoint == Merge(table, c, d).endpoint
  {
    hide Trim, Lower, TrimSlashes, ApiPath;
  }
}
