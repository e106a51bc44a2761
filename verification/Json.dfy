/**
 JSON values and the compact form they are printed in (sections 4, 5 and 7 of RFC 8259):
 no white space, object members in key order, short escapes where there are any.
 */
module Json {
  import opened Ordered

  /** A number keeps its digits; nothing here looks inside them. */
  datatype Value =
    | Null
    | Bool(b: bool)
    | Number(digits: string)
    | Text(s: string)
    | Array(items: seq<Value>)
    | Object(members: map<string, Value>)

  function HexDigit(n: nat): char
    requires n < 16
  {
    if n < 10 then '0' + n as char else 'a' + (n - 10) as char
  }

  /** The letter of the short escape of a character, if it has one. */
  function ShortEscape(c: char): string {
    var code := c as int;
    if c == '\"' then "\""
    else if c == '\\' then "\\"
    else if code == 8 then "b"
    else if code == 9 then "t"
    else if code == 10 then "n"
    else if code == 12 then "f"
    else if code == 13 then "r"
    else ""
  }

  /** One character inside a string literal. */
  function Escape(c: char): string {
    if ShortEscape(c) != "" then "\\" + ShortEscape(c)
    else if c as int < 0x20 then "\\u00" + [HexDigit(c as int / 16), HexDigit(c as int % 16)]
    else [c]
  }

  function EscapeAll(s: string): string {
    if s == "" then "" else Escape(s[0]) + EscapeAll(s[1..])
  }

  function Quote(s: string): string {
    "\"" + EscapeAll(s) + "\""
  }

  function Print(v: Value): string
    decreases v
  {
    match v
    case Null => "null"
    case Bool(b) => if b then "true" else "false"
    case Number(digits) => digits
    case Text(s) => Quote(s)
    case Array(items) => "[" + PrintItems(items)
    case Object(members) => "{" + PrintMembers(v, SortedKeys(members.Keys))
  }

  /** The items and the closing bracket. */
  function PrintItems(items: seq<Value>): string
    decreases items, 1
  {
    if items == [] then "]" else Print(items[0]) + PrintMoreItems(items[1..])
  }

  /** The items after the first, and the closing bracket. */
  function PrintMoreItems(items: seq<Value>): string
    decreases items, 0
  {
    if items == [] then "]" else "," + Print(items[0]) + PrintMoreItems(items[1..])
  }

  predicate HasKeys(v: Value, keys: seq<string>) {
    v.Object? && forall i | 0 <= i < |keys| :: keys[i] in v.members
  }

  function PrintMember(v: Value, key: string): string
    requires v.Object? && key in v.members
    decreases v, 0
  {
    Quote(key) + ":" + Print(v.members[key])
  }

  /** The members and the closing brace. */
  function PrintMembers(v: Value, keys: seq<string>): string
    requires HasKeys(v, keys)
    decreases v, 2
  {
    if keys == [] then "}" else PrintMember(v, keys[0]) + PrintMoreMembers(v, keys[1..])
  }

  /** The members after the first, and the closing brace. */
  function PrintMoreMembers(v: Value, keys: seq<string>): string
    requires HasKeys(v, keys)
    decreases v, 1, |keys|
  {
    if keys == [] then "}" else "," + PrintMember(v, keys[0]) + PrintMoreMembers(v, keys[1..])
  }

  // ----- string literals can be read back -----

  function HexValue(c: char): int {
    if '0' <= c <= '9' then c as int - '0' as int
    else if 'a' <= c <= 'f' then 10 + c as int - 'a' as int
    else if 'A' <= c <= 'F' then 10 + c as int - 'A' as int
    else -1
  }

  /** The code point one character of a string literal stands for (section 7 of RFC 8259), or -1. */
  function Unescape(s: string): int {
    if |s| == 1 && s[0] as int >= 0x20 && s[0] != '\"' && s[0] != '\\' then s[0] as int
    else if |s| == 2 && s[0] == '\\' then
      match s[1]
      case '\"' => 0x22
      case '\\' => 0x5C
      case '/' => 0x2F
      case 'b' => 0x08
      case 'f' => 0x0C
      case 'n' => 0x0A
      case 'r' => 0x0D
      case 't' => 0x09
      case _ => -1
    else if |s| == 6 && s[0] == '\\' && s[1] == 'u' && forall i | 2 <= i < 6 :: HexValue(s[i]) >= 0 then
      ((HexValue(s[2]) * 16 + HexValue(s[3])) * 16 + HexValue(s[4])) * 16 + HexValue(s[5])
    else -1
  }

  /** Every character is written in a form that stands for it. */
  lemma EscapeStandsForCharacter(c: char)
    ensures Unescape(Escape(c)) == c as int
  {
    var e, code := Escape(c), c as int;
    if ShortEscape(c) == "" && code < 0x20 {
      assert e == ['\\', 'u', '0', '0', HexDigit(code / 16), HexDigit(code % 16)];
      assert HexValue('0') == 0;
      assert HexValue(HexDigit(code / 16)) == code / 16 && HexValue(HexDigit(code % 16)) == code % 16;
    }
  }

  lemma HexDigitInjective(m: nat, n: nat)
    requires m < 16 && n < 16 && HexDigit(m) == HexDigit(n)
    ensures m == n
  {}

  /** No escape starts with a quote, and none is a prefix of another. */
  lemma EscapeUnambiguous(c: char, d: char, r: string, s: string)
    requires Escape(c) + r == Escape(d) + s
    ensures c == d && r == s
  {
    var x, y := Escape(c), Escape(d);
    assert (x + r)[0] == x[0] && (y + s)[0] == y[0];
    if x[0] == '\\' {
      assert (x + r)[1] == x[1] && (y + s)[1] == y[1];
      if x[1] == 'u' {
        assert (x + r)[4] == x[4] && (y + s)[4] == y[4];
        assert (x + r)[5] == x[5] && (y + s)[5] == y[5];
        HexDigitInjective(c as int / 16, d as int / 16);
        HexDigitInjective(c as int % 16, d as int % 16);
      }
    }
    assert c == d;
    assert r == (x + r)[|x|..] && s == (x + s)[|x|..];
  }

  lemma EscapeStart(c: char)
    ensures Escape(c) != "" && Escape(c)[0] != '\"'
  {}

  lemma {:induction false} LiteralUnambiguous(a: string, b: string, r: string, s: string)
    requires EscapeAll(a) + "\"" + r == EscapeAll(b) + "\"" + s
    ensures a == b && r == s
    decreases |a| + |b|
  {
    hide Escape;
    if a != "" && b != "" {
      var u, v := EscapeAll(a[1..]) + "\"" + r, EscapeAll(b[1..]) + "\"" + s;
      assert EscapeAll(a) + "\"" + r == Escape(a[0]) + u && EscapeAll(b) + "\"" + s == Escape(b[0]) + v;
      EscapeUnambiguous(a[0], b[0], u, v);
      LiteralUnambiguous(a[1..], b[1..], r, s);
      assert a == [a[0]] + a[1..] && b == [b[0]] + b[1..];
    } else {
      LiteralEnd(a, r);
      LiteralEnd(b, s);
      assert r == ("\"" + r)[1..] && s == ("\"" + s)[1..];
    }
  }

  /** A literal is over exactly where its text starts with a quote. */
  lemma LiteralEnd(a: string, r: string)
    ensures (EscapeAll(a) + "\"" + r)[0] == '\"' <==> a == ""
    ensures a == "" ==> EscapeAll(a) + "\"" + r == "\"" + r
  {
    if a != "" {
      EscapeStart(a[0]);
    }
  }

  lemma QuoteUnambiguous(a: string, b: string, r: string, s: string)
    requires Quote(a) + r == Quote(b) + s
    ensures a == b && r == s
  {
    hide EscapeAll;
    assert Quote(a) + r == "\"" + (EscapeAll(a) + "\"" + r);
    assert Quote(b) + s == "\"" + (EscapeAll(b) + "\"" + s);
    Peel("\"", "\"", EscapeAll(a) + "\"" + r, EscapeAll(b) + "\"" + s);
    LiteralUnambiguous(a, b, r, s);
  }

  // ----- values made of strings, arrays and objects can be read back -----

  /** No null, boolean or number anywhere. */
  predicate Wordy(v: Value) {
    match v
    case Null => false
    case Bool(_) => false
    case Number(_) => false
    case Text(_) => true
    case Array(items) => forall i | 0 <= i < |items| :: Wordy(items[i])
    case Object(members) => forall k | k in members :: Wordy(members[k])
  }

  /** The character a value starts with. */
  function Opener(v: Value): char {
    if v.Text? then '\"' else if v.Array? then '[' else '{'
  }

  lemma PrintStart(v: Value)
    requires Wordy(v)
    ensures Print(v) != "" && Print(v)[0] == Opener(v)
  {}

  lemma Peel(a: string, b: string, x: string, y: string)
    requires |a| == 1 && |b| == 1 && a + x == b + y
    ensures a == b && x == y
  {
    assert a[0] == (a + x)[0] && b[0] == (b + y)[0];
    assert x == (a + x)[1..] && y == (b + y)[1..];
  }

  lemma SameStart(x: string, y: string, r: string, s: string)
    requires x != "" && y != "" && x + r == y + s
    ensures x[0] == y[0]
  {
    assert x[0] == (x + r)[0] && y[0] == (y + s)[0];
  }

  /** The printed form is a prefix code: what follows a value cannot be mistaken for part of it. */
  lemma {:induction false} PrintUnambiguous(v: Value, w: Value, r: string, s: string)
    requires Wordy(v) && Wordy(w)
    requires Print(v) + r == Print(w) + s
    ensures v == w && r == s
    decreases v, 4
  {
    PrintStart(v);
    PrintStart(w);
    SameStart(Print(v), Print(w), r, s);
    match v {
      case Text(a) =>
        QuoteUnambiguous(a, w.s, r, s);
      case Array(items) =>
        hide Print, PrintItems, SortedKeys;
        ArrayForm(v, r);
        ArrayForm(w, s);
        Peel("[", "[", PrintItems(v.items) + r, PrintItems(w.items) + s);
        ItemsUnambiguous(v.items, w.items, r, s);
      case Object(members) =>
        ObjectUnambiguous(v, w, r, s);
    }
  }

  // Arrays: items, each but the first announced by a comma.

  predicate AllWordy(items: seq<Value>) {
    forall i | 0 <= i < |items| :: Wordy(items[i])
  }

  lemma ArrayForm(v: Value, r: string)
    requires v.Array?
    ensures Print(v) + r == "[" + (PrintItems(v.items) + r)
  {
    assert Print(v) == "[" + PrintItems(v.items);
  }

  lemma ItemsStart(items: seq<Value>)
    requires AllWordy(items)
    ensures PrintItems(items) != "" && (PrintItems(items)[0] == ']' <==> items == [])
  {
    if items != [] {
      PrintStart(items[0]);
    }
  }

  lemma {:induction false} ItemsUnambiguous(a: seq<Value>, b: seq<Value>, r: string, s: string)
    requires AllWordy(a) && AllWordy(b)
    requires PrintItems(a) + r == PrintItems(b) + s
    ensures a == b && r == s
    decreases a, 1
  {
    hide Print, PrintMoreItems;
    ItemsStart(a);
    ItemsStart(b);
    SameStart(PrintItems(a), PrintItems(b), r, s);
    if a == [] {
      Peel("]", "]", r, s);
    } else {
      var u, t := PrintMoreItems(a[1..]) + r, PrintMoreItems(b[1..]) + s;
      assert PrintItems(a) + r == Print(a[0]) + u && PrintItems(b) + s == Print(b[0]) + t;
      PrintUnambiguous(a[0], b[0], u, t);
      MoreItemsUnambiguous(a[1..], b[1..], r, s);
      assert a == [a[0]] + a[1..] && b == [b[0]] + b[1..];
    }
  }

  lemma MoreItemsForm(items: seq<Value>, r: string)
    ensures items == [] ==> PrintMoreItems(items) + r == "]" + r
    ensures items != [] ==> PrintMoreItems(items) + r == "," + (Print(items[0]) + (PrintMoreItems(items[1..]) + r))
  {
    hide Print;
  }

  lemma {:induction false} MoreItemsUnambiguous(a: seq<Value>, b: seq<Value>, r: string, s: string)
    requires AllWordy(a) && AllWordy(b)
    requires PrintMoreItems(a) + r == PrintMoreItems(b) + s
    ensures a == b && r == s
    decreases a, 0
  {
    hide Print, PrintMoreItems;
    MoreItemsForm(a, r);
    MoreItemsForm(b, s);
    var u, t := if a == [] then "" else PrintMoreItems(a[1..]) + r, if b == [] then "" else PrintMoreItems(b[1..]) + s;
    var x, y := if a == [] then r else Print(a[0]) + u, if b == [] then s else Print(b[0]) + t;
    Peel(if a == [] then "]" else ",", if b == [] then "]" else ",", x, y);
    if a != [] {
      PrintUnambiguous(a[0], b[0], u, t);
      MoreItemsUnambiguous(a[1..], b[1..], r, s);
      assert a == [a[0]] + a[1..] && b == [b[0]] + b[1..];
    }
  }

  // Objects: the same with members, each a quoted key, a colon and a value.

  predicate AgreeOn(v: Value, w: Value, keys: seq<string>) {
    HasKeys(v, keys) && HasKeys(w, keys) &&
    forall i | 0 <= i < |keys| :: v.members[keys[i]] == w.members[keys[i]]
  }

  lemma AgreeOnAll(v: Value, w: Value, keys: seq<string>)
    requires v.Object? && w.Object? && AgreeOn(v, w, keys)
    requires keys == SortedKeys(v.members.Keys) == SortedKeys(w.members.Keys)
    ensures v == w
  {
    forall key | key in v.members ensures key in w.members && v.members[key] == w.members[key] {
      assert key in keys;
    }
    forall key | key in w.members ensures key in v.members {
      assert key in keys;
    }
    assert v.members == w.members;
  }

  lemma ObjectForm(v: Value, r: string) returns (keys: seq<string>)
    requires v.Object?
    ensures keys == SortedKeys(v.members.Keys) && HasKeys(v, keys)
    ensures Print(v) + r == "{" + (PrintMembers(v, keys) + r)
  {
    hide PrintMembers;
    keys := SortedKeys(v.members.Keys);
    assert Print(v) == "{" + PrintMembers(v, keys);
  }

  lemma {:induction false} ObjectUnambiguous(v: Value, w: Value, r: string, s: string)
    requires v.Object? && w.Object? && Wordy(v) && Wordy(w)
    requires Print(v) + r == Print(w) + s
    ensures v == w && r == s
    decreases v, 3
  {
    hide Print, PrintMembers, SortedKeys;
    var k := ObjectForm(v, r);
    var l := ObjectForm(w, s);
    Peel("{", "{", PrintMembers(v, k) + r, PrintMembers(w, l) + s);
    MembersUnambiguous(v, w, k, l, r, s);
    AgreeOnAll(v, w, k);
  }

  lemma MemberStart(v: Value, key: string)
    requires v.Object? && key in v.members
    ensures PrintMember(v, key) != "" && PrintMember(v, key)[0] == '\"'
  {}

  lemma MembersStart(v: Value, keys: seq<string>)
    requires HasKeys(v, keys)
    ensures PrintMembers(v, keys) != "" && (PrintMembers(v, keys)[0] == '}' <==> keys == [])
  {
    if keys != [] {
      MemberStart(v, keys[0]);
    }
  }

  lemma {:induction false} MembersUnambiguous(v: Value, w: Value, k: seq<string>, l: seq<string>, r: string, s: string)
    requires Wordy(v) && Wordy(w) && HasKeys(v, k) && HasKeys(w, l)
    requires PrintMembers(v, k) + r == PrintMembers(w, l) + s
    ensures k == l && AgreeOn(v, w, k) && r == s
    decreases v, 2
  {
    hide PrintMember, PrintMoreMembers, Wordy;
    MembersStart(v, k);
    MembersStart(w, l);
    SameStart(PrintMembers(v, k), PrintMembers(w, l), r, s);
    if k == [] {
      Peel("}", "}", r, s);
    } else {
      var u, t := PrintMoreMembers(v, k[1..]) + r, PrintMoreMembers(w, l[1..]) + s;
      assert PrintMembers(v, k) + r == PrintMember(v, k[0]) + u;
      assert PrintMembers(w, l) + s == PrintMember(w, l[0]) + t;
      MemberUnambiguous(v, w, k[0], l[0], u, t);
      MoreMembersUnambiguous(v, w, k[1..], l[1..], r, s);
      assert k == [k[0]] + k[1..] && l == [l[0]] + l[1..];
      assert forall i | 1 <= i < |k| :: k[i] == k[1..][i - 1];
    }
  }

  lemma {:induction false} MemberUnambiguous(v: Value, w: Value, k: string, l: string, r: string, s: string)
    requires v.Object? && w.Object? && Wordy(v) && Wordy(w) && k in v.members && l in w.members
    requires PrintMember(v, k) + r == PrintMember(w, l) + s
    ensures k == l && v.members[k] == w.members[l] && r == s
    decreases v, 0
  {
    hide Quote, Print;
    var u, t := ":" + (Print(v.members[k]) + r), ":" + (Print(w.members[l]) + s);
    assert PrintMember(v, k) + r == Quote(k) + u && PrintMember(w, l) + s == Quote(l) + t;
    QuoteUnambiguous(k, l, u, t);
    Peel(":", ":", Print(v.members[k]) + r, Print(w.members[l]) + s);
    PrintUnambiguous(v.members[k], w.members[l], r, s);
  }

  lemma MoreMembersForm(v: Value, keys: seq<string>, r: string)
    requires HasKeys(v, keys)
    ensures keys == [] ==> PrintMoreMembers(v, keys) + r == "}" + r
    ensures keys != [] ==>
              PrintMoreMembers(v, keys) + r == "," + (PrintMember(v, keys[0]) + (PrintMoreMembers(v, keys[1..]) + r))
  {
    hide PrintMember;
  }

  lemma {:induction false} MoreMembersUnambiguous(v: Value, w: Value, k: seq<string>, l: seq<string>, r: string,
                                                  s: string)
    requires Wordy(v) && Wordy(w) && HasKeys(v, k) && HasKeys(w, l)
    requires PrintMoreMembers(v, k) + r == PrintMoreMembers(w, l) + s
    ensures k == l && AgreeOn(v, w, k) && r == s
    decreases v, 1, |k|
  {
    hide PrintMember, PrintMoreMembers, Wordy;
    MoreMembersForm(v, k, r);
    MoreMembersForm(w, l, s);
    var u := if k == [] then "" else PrintMoreMembers(v, k[1..]) + r;
    var t := if l == [] then "" else PrintMoreMembers(w, l[1..]) + s;
    var x, y := if k == [] then r else PrintMember(v, k[0]) + u, if l == [] then s else PrintMember(w, l[0]) + t;
    Peel(if k == [] then "}" else ",", if l == [] then "}" else ",", x, y);
    if k != [] {
      MemberUnambiguous(v, w, k[0], l[0], u, t);
      MoreMembersUnambiguous(v, w, k[1..], l[1..], r, s);
      assert k == [k[0]] + k[1..] && l == [l[0]] + l[1..];
      assert forall i | 1 <= i < |k| :: k[i] == k[1..][i - 1];
    }
  }

  /** Different values print differently. */
  lemma PrintInjective(v: Value, w: Value)
    requires Wordy(v) && Wordy(w)
    ensures Print(v) == Print(w) <==> v == w
  {
    if Print(v) == Print(w) {
      PrintUnambiguous(v, w, "", "");
    }
  }
}
