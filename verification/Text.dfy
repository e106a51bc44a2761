/**
 Text as the wrapper sees it: sequences of Unicode scalar values whose width is
 measured in UTF-8 bytes, the Unicode white-space class, and the standard-library
 string operations the presentation code leans on.

 A byte offset that lies on a character boundary is represented by the number of
 characters before it.
 */
module Text {

  datatype Option<+T> = None | Some(value: T)

  function Max(a: int, b: int): int {
    if a >= b then a else b
  }

  function Min(a: int, b: int): int {
    if a <= b then a else b
  }

  /** Unsigned subtraction that stops at zero. */
  function SaturatingSub(a: nat, b: nat): nat {
    if a >= b then a - b else 0
  }

  /** Number of bytes of a character in UTF-8. */
  function Utf8Len(c: char): nat {
    var code := c as int;
    if code < 0x80 then 1 else if code < 0x800 then 2 else if code < 0x1_0000 then 3 else 4
  }

  /** Number of bytes of a string in UTF-8. */
  function ByteLen(s: string): nat {
    if s == "" then 0 else Utf8Len(s[0]) + ByteLen(s[1..])
  }

  /** Unicode White_Space. */
  predicate IsWhitespace(c: char) {
    var code := c as int;
    || 0x09 <= code <= 0x0D || code == 0x20 || code == 0x85 || code == 0xA0 || code == 0x1680
    || 0x2000 <= code <= 0x200A || code == 0x2028 || code == 0x2029 || code == 0x202F
    || code == 0x205F || code == 0x3000
  }

  /** ASCII white space: no vertical tab. */
  predicate IsAsciiWhitespace(c: char) {
    var code := c as int;
    code == 0x09 || code == 0x0A || code == 0x0C || code == 0x0D || code == 0x20
  }

  predicate Blank(s: string) {
    forall i | 0 <= i < |s| :: IsWhitespace(s[i])
  }

  predicate Solid(s: string) {
    s != "" && forall i | 0 <= i < |s| :: !IsWhitespace(s[i])
  }

  function TrimEnd(s: string): string {
    if s != "" && IsWhitespace(s[|s| - 1]) then TrimEnd(s[..|s| - 1]) else s
  }

  function TrimStart(s: string): string {
    if s != "" && IsWhitespace(s[0]) then TrimStart(s[1..]) else s
  }

  function Trim(s: string): string {
    TrimEnd(TrimStart(s))
  }

  /** The string with every white-space character deleted: its ink. */
  function Ink(s: string): string {
    if s == "" then "" else (if IsWhitespace(s[0]) then "" else [s[0]]) + Ink(s[1..])
  }

  function Flatten<T>(parts: seq<seq<T>>): seq<T> {
    if parts == [] then [] else parts[0] + Flatten(parts[1..])
  }

  // ----- byte length -----

  lemma {:induction false} ByteLenConcat(a: string, b: string)
    ensures ByteLen(a + b) == ByteLen(a) + ByteLen(b)
  {
    if a == "" {
      assert a + b == b;
    } else {
      ByteLenConcat(a[1..], b);
      assert (a + b)[1..] == a[1..] + b;
    }
  }

  lemma {:induction false} ByteLenSplit(s: string, k: nat)
    requires k <= |s|
    ensures ByteLen(s) == ByteLen(s[..k]) + ByteLen(s[k..])
  {
    ByteLenConcat(s[..k], s[k..]);
    assert s == s[..k] + s[k..];
  }

  lemma {:induction false} ByteLenAtLeastLength(s: string)
    ensures |s| <= ByteLen(s) <= 4 * |s|
  {
    if s != "" {
      ByteLenAtLeastLength(s[1..]);
    }
  }

  // ----- trimming -----

  /** TrimEnd returns the prefix that ends just after the last visible character. */
  lemma {:induction false} TrimEndMeaning(s: string)
    ensures TrimEnd(s) <= s
    ensures Blank(s[|TrimEnd(s)|..])
    ensures TrimEnd(s) == "" || !IsWhitespace(TrimEnd(s)[|TrimEnd(s)| - 1])
  {
    if s != "" && IsWhitespace(s[|s| - 1]) {
      var front := s[..|s| - 1];
      TrimEndMeaning(front);
      var k := |TrimEnd(s)|;
      assert s[k..] == front[k..] + [s[|s| - 1]];
    }
  }

  lemma {:induction false} TrimEndShortens(s: string)
    ensures ByteLen(TrimEnd(s)) <= ByteLen(s)
  {
    TrimEndMeaning(s);
    ByteLenSplit(s, |TrimEnd(s)|);
    assert s[..|TrimEnd(s)|] == TrimEnd(s);
  }

  lemma TrimEndOfSolidTail(s: string)
    requires s == "" || !IsWhitespace(s[|s| - 1])
    ensures TrimEnd(s) == s
  {}

  lemma {:induction false} TrimStartMeaning(s: string)
    ensures |TrimStart(s)| <= |s| && TrimStart(s) == s[|s| - |TrimStart(s)|..]
    ensures Blank(s[..|s| - |TrimStart(s)|])
    ensures TrimStart(s) == "" || !IsWhitespace(TrimStart(s)[0])
  {
    if s != "" && IsWhitespace(s[0]) {
      TrimStartMeaning(s[1..]);
      var k := |s| - |TrimStart(s)|;
      assert s[..k] == [s[0]] + s[1..][..k - 1];
    }
  }

  /** Trimming leaves nothing exactly of a blank text. */
  lemma TrimmedAway(s: string)
    ensures Trim(s) == "" <==> Blank(s)
  {
    var t := TrimStart(s);
    TrimStartMeaning(s);
    TrimEndMeaning(t);
    hide TrimStart, TrimEnd, IsWhitespace;
  }

  // ----- ink -----

  lemma {:induction false} InkConcat(a: string, b: string)
    ensures Ink(a + b) == Ink(a) + Ink(b)
  {
    if a == "" {
      assert a + b == b;
    } else {
      InkConcat(a[1..], b);
      var first := if IsWhitespace(a[0]) then "" else [a[0]];
      assert (a + b)[1..] == a[1..] + b && (a + b)[0] == a[0];
      assert first + (Ink(a[1..]) + Ink(b)) == (first + Ink(a[1..])) + Ink(b);
    }
  }

  lemma {:induction false} InkOfBlank(s: string)
    requires Blank(s)
    ensures Ink(s) == ""
  {
    if s != "" {
      assert forall i | 0 <= i < |s[1..]| :: s[1..][i] == s[i + 1];
      InkOfBlank(s[1..]);
    }
  }

  lemma {:induction false} InkOfSolid(s: string)
    requires forall i | 0 <= i < |s| :: !IsWhitespace(s[i])
    ensures Ink(s) == s
  {
    if s != "" {
      InkOfSolid(s[1..]);
    }
  }

  lemma {:induction false} InkOfTrimEnd(s: string)
    ensures Ink(TrimEnd(s)) == Ink(s)
  {
    TrimEndMeaning(s);
    var k := |TrimEnd(s)|;
    InkConcat(s[..k], s[k..]);
    InkOfBlank(s[k..]);
    assert s == s[..k] + s[k..] && s[..k] == TrimEnd(s);
  }

  lemma {:induction false} InkOfTrim(s: string)
    ensures Ink(Trim(s)) == Ink(s)
  {
    TrimStartMeaning(s);
    var k := |s| - |TrimStart(s)|;
    InkConcat(s[..k], s[k..]);
    InkOfBlank(s[..k]);
    assert s == s[..k] + s[k..];
    InkOfTrimEnd(TrimStart(s));
  }

  lemma {:induction false} FlattenConcat<T>(a: seq<seq<T>>, b: seq<seq<T>>)
    ensures Flatten(a + b) == Flatten(a) + Flatten(b)
  {
    if a == [] {
      assert a + b == b;
    } else {
      FlattenConcat(a[1..], b);
      assert (a + b)[1..] == a[1..] + b;
      Regroup(a[0], Flatten(a[1..]), Flatten(b));
    }
  }

  lemma Regroup<T>(x: seq<T>, y: seq<T>, z: seq<T>)
    ensures x + (y + z) == (x + y) + z
  {}

  lemma FlattenOne<T>(x: seq<T>)
    ensures Flatten([x]) == x
  {
    assert Flatten([x]) == x + Flatten([]);
  }

  // ----- splitting on white space -----

  /** Length of the leading run of visible characters. */
  function WordLength(s: string): (n: nat)
    ensures n <= |s|
    ensures forall i | 0 <= i < n :: !IsWhitespace(s[i])
    ensures n < |s| ==> IsWhitespace(s[n])
  {
    if s == "" || IsWhitespace(s[0]) then 0 else 1 + WordLength(s[1..])
  }

  /** The maximal runs of visible characters, in order. */
  function SplitWhitespace(s: string): seq<string>
    decreases |s|
  {
    if s == "" then []
    else if IsWhitespace(s[0]) then SplitWhitespace(s[1..])
    else var n := WordLength(s); [s[..n]] + SplitWhitespace(s[n..])
  }

  lemma {:induction false} SplitWhitespaceKeepsInk(s: string)
    ensures Flatten(SplitWhitespace(s)) == Ink(s)
    ensures forall i | 0 <= i < |SplitWhitespace(s)| :: Solid(SplitWhitespace(s)[i])
    decreases |s|
  {
    if s == "" {
    } else if IsWhitespace(s[0]) {
      SplitWhitespaceKeepsInk(s[1..]);
    } else {
      var n := WordLength(s);
      SplitWhitespaceKeepsInk(s[n..]);
      InkConcat(s[..n], s[n..]);
      InkOfSolid(s[..n]);
      assert s == s[..n] + s[n..];
    }
  }

  // ----- splitting on the first ": " -----

  /** Words with gaps around them. */
  function Woven(gaps: seq<string>, words: seq<string>): string
    requires |gaps| == |words| + 1
  {
    if words == [] then gaps[0] else gaps[0] + words[0] + Woven(gaps[1..], words[1..])
  }

  /** Blank gaps divide the text into the words, and no gap between two words is empty. */
  predicate Divides(gaps: seq<string>, words: seq<string>, s: string) {
    && |gaps| == |words| + 1 && s == Woven(gaps, words)
    && (forall i | 0 <= i < |gaps| :: Blank(gaps[i]))
    && (forall i | 0 < i < |gaps| - 1 :: gaps[i] != "")
  }

  lemma DividesBehindBlank(c: char, gaps: seq<string>, words: seq<string>, s: string)
    requires IsWhitespace(c) && Divides(gaps, words, s)
    ensures Divides([[c] + gaps[0]] + gaps[1..], words, [c] + s)
  {
    var more := [[c] + gaps[0]] + gaps[1..];
    assert more[1..] == gaps[1..] && forall i | 0 < i < |gaps| :: more[i] == gaps[i];
    if words != [] {
      assert [c] + (gaps[0] + words[0] + Woven(gaps[1..], words[1..]))
          == ([c] + gaps[0]) + words[0] + Woven(gaps[1..], words[1..]);
    }
  }

  lemma DividesBehindWord(w: string, gaps: seq<string>, words: seq<string>, s: string)
    requires Divides(gaps, words, s) && (words == [] || gaps[0] != "")
    ensures Divides([""] + gaps, [w] + words, w + s)
  {
    var more := [""] + gaps;
    assert more[1..] == gaps && ([w] + words)[1..] == words && forall i | 0 < i < |more| :: more[i] == gaps[i - 1];
    assert "" + w + Woven(gaps, words) == w + s;
  }

  /** The words are the maximal runs of visible characters. */
  lemma {:induction false} SplitWhitespaceDivides(s: string) returns (gaps: seq<string>)
    ensures Divides(gaps, SplitWhitespace(s), s)
    ensures forall i | 0 <= i < |SplitWhitespace(s)| :: Solid(SplitWhitespace(s)[i])
    ensures s != "" && IsWhitespace(s[0]) ==> gaps[0] != ""
    decreases |s|
  {
    SplitWhitespaceKeepsInk(s);
    if s == "" {
      gaps := [""];
    } else if IsWhitespace(s[0]) {
      var more := SplitWhitespaceDivides(s[1..]);
      hide Divides;
      gaps := [[s[0]] + more[0]] + more[1..];
      DividesBehindBlank(s[0], more, SplitWhitespace(s[1..]), s[1..]);
      assert s == [s[0]] + s[1..];
    } else {
      var n := WordLength(s);
      var more := SplitWhitespaceDivides(s[n..]);
      hide Divides;
      gaps := [""] + more;
      assert n < |s| ==> s[n..] != "" && s[n..][0] == s[n];
      DividesBehindWord(s[..n], more, SplitWhitespace(s[n..]), s[n..]);
      assert s == s[..n] + s[n..];
    }
  }

  /** The first index at which ": " occurs, or the length of the string. */
  function LabelEnd(s: string): (k: nat)
    ensures k <= |s|
    ensures k < |s| ==> k + 2 <= |s| && s[k] == ':' && s[k + 1] == ' '
    ensures forall i | 0 <= i < k && i + 1 < |s| :: !(s[i] == ':' && s[i + 1] == ' ')
  {
    if |s| >= 2 && s[0] == ':' && s[1] == ' ' then 0
    else if s == "" then 0
    else 1 + LabelEnd(s[1..])
  }

  function SplitLabel(s: string): (r: Option<(string, string)>)
    ensures r.None? <==> forall i | 0 <= i && i + 1 < |s| :: !(s[i] == ':' && s[i + 1] == ' ')
    ensures r.Some? ==> s == r.value.0 + ": " + r.value.1
    ensures r.Some? ==> forall i | 0 <= i < |r.value.0| :: !(s[i] == ':' && s[i + 1] == ' ')
  {
    var k := LabelEnd(s);
    if k == |s| then None else Some((s[..k], s[k + 2..]))
  }
}
