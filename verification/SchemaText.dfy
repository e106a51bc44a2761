/** The text a fingerprint is taken of, defined on texts alone: no descriptor values, no sorting by key. */
module SchemaText {
  import opened Ordered
  import opened Text
  import opened Json
  import opened SchemaShape

  function Commas(texts: seq<string>): string {
    if texts == [] then "" else if |texts| == 1 then texts[0] else texts[0] + "," + Commas(texts[1..])
  }

  /** A scalar is its kind, an array the ascending set of its element texts, an object its members by key. */
  ghost function ShapeText(v: Value): string
    decreases v, 1
  {
    match v
    case Null => "\"null\""
    case Bool(_) => "\"bool\""
    case Number(_) => "\"number\""
    case Text(_) => "\"string\""
    case Array(items) =>
      "{\"array\":[" + Commas(SortedKeys(set i | 0 <= i < |items| :: ShapeText(items[i]))) + "]}"
    case Object(members) => "{" + Commas(MemberShapes(v, SortedKeys(members.Keys))) + "}"
  }

  ghost function MemberShapes(v: Value, keys: seq<string>): seq<string>
    requires HasKeys(v, keys)
    decreases v, 0
  {
    seq(|keys|, i requires 0 <= i < |keys| => Quote(keys[i]) + ":" + ShapeText(v.members[keys[i]]))
  }

  // ----- printing in one piece -----

  function Texts(items: seq<Value>): seq<string> {
    seq(|items|, i requires 0 <= i < |items| => Print(items[i]))
  }

  lemma CommasCons(text: string, texts: seq<string>)
    ensures Commas([text] + texts) == text + (if texts == [] then "" else "," + Commas(texts))
  {
    assert ([text] + texts)[1..] == texts;
  }

  lemma {:induction false} MoreItemsText(items: seq<Value>)
    ensures PrintMoreItems(items) == (if items == [] then "" else "," + Commas(Texts(items))) + "]"
  {
    if items != [] {
      var head, rest := Print(items[0]), items[1..];
      MoreItemsText(rest);
      assert PrintMoreItems(items) == "," + head + PrintMoreItems(rest);
      TextsCons(items);
      hide *;
      CommasCons(head, Texts(rest));
      Splice(head, if rest == [] then "" else "," + Commas(Texts(rest)));
    }
  }

  lemma TextsCons(items: seq<Value>)
    requires items != []
    ensures Texts(items) == [Print(items[0])] + Texts(items[1..])
    ensures Texts(items[1..]) == [] <==> items[1..] == []
  {
    hide Print;
  }

  lemma Splice(head: string, more: string)
    ensures "," + head + (more + "]") == "," + (head + more) + "]"
  {}

  lemma ItemsText(items: seq<Value>)
    ensures PrintItems(items) == Commas(Texts(items)) + "]"
  {
    hide Quote, SortedKeys;
    if items != [] {
      MoreItemsText(items[1..]);
      assert Texts(items)[1..] == Texts(items[1..]);
    }
  }

  function MemberTexts(v: Value, keys: seq<string>): seq<string>
    requires HasKeys(v, keys)
  {
    seq(|keys|, i requires 0 <= i < |keys| => PrintMember(v, keys[i]))
  }

  lemma {:induction false} MoreMembersText(v: Value, keys: seq<string>)
    requires HasKeys(v, keys)
    ensures PrintMoreMembers(v, keys) == (if keys == [] then "" else "," + Commas(MemberTexts(v, keys))) + "}"
    decreases |keys|
  {
    hide PrintMember, Quote;
    if keys != [] {
      MoreMembersText(v, keys[1..]);
      assert MemberTexts(v, keys)[1..] == MemberTexts(v, keys[1..]);
      if |keys| == 1 {
        assert keys[1..] == [];
      }
    }
  }

  lemma MembersText(v: Value, keys: seq<string>)
    requires HasKeys(v, keys)
    ensures PrintMembers(v, keys) == Commas(MemberTexts(v, keys)) + "}"
  {
    hide PrintMember, Quote;
    if keys != [] {
      MoreMembersText(v, keys[1..]);
      assert MemberTexts(v, keys)[1..] == MemberTexts(v, keys[1..]);
    }
  }

  lemma ListText(items: seq<Value>)
    ensures Print(Array(items)) == "[" + (Commas(Texts(items)) + "]")
  {
    ItemsText(items);
  }

  lemma ObjectText(v: Value)
    requires v.Object?
    ensures HasKeys(v, SortedKeys(v.members.Keys))
    ensures Print(v) == "{" + (Commas(MemberTexts(v, SortedKeys(v.members.Keys))) + "}")
  {
    hide SortedKeys, Quote, PrintMember;
    var keys := SortedKeys(v.members.Keys);
    assert forall i | 0 <= i < |keys| :: keys[i] in keys;
    MembersText(v, keys);
  }

  // ----- the printed descriptor -----

  lemma PlainWordQuoted(s: string)
    requires forall i | 0 <= i < |s| :: 'a' <= s[i] <= 'z'
    ensures Quote(s) == "\"" + s + "\""
  {
    PlainWordEscaped(s);
  }

  lemma {:induction false} PlainWordEscaped(s: string)
    requires forall i | 0 <= i < |s| :: 'a' <= s[i] <= 'z'
    ensures EscapeAll(s) == s
  {
    if s != "" {
      PlainWordEscaped(s[1..]);
    }
  }

  lemma OneKey(key: string)
    ensures SortedKeys({key}) == [key]
  {
    hide SortedKeys;
    AscendingUnique(SortedKeys({key}), [key]);
  }

  /** An object with one member. */
  lemma WrappedText(key: string, value: Value)
    ensures Print(Object(map[key := value])) == "{" + (Quote(key) + ":" + Print(value) + "}")
  {
    hide SortedKeys, Quote, Print;
    var v := Object(map[key := value]);
    assert v.members.Keys == {key};
    OneKey(key);
    ObjectText(v);
    MemberText(v, key);
    assert MemberTexts(v, [key]) == [PrintMember(v, key)];
  }

  lemma MemberText(v: Value, key: string)
    requires v.Object? && key in v.members
    ensures PrintMember(v, key) == Quote(key) + ":" + Print(v.members[key])
  {
    assert PrintMember(v, key) == Quote(key) + ":" + Print(v.members[key]);
  }

  ghost function TextSet(values: seq<Value>): set<string> {
    set i | 0 <= i < |values| :: Print(values[i])
  }

  lemma KeySet(values: seq<Value>)
    ensures (set i | 0 <= i < |WithKeys(values)| :: WithKeys(values)[i].0) == TextSet(values)
  {
    var keyed := WithKeys(values);
    var keys := set i | 0 <= i < |keyed| :: keyed[i].0;
    forall x | x in keys ensures x in TextSet(values) {
      var i :| 0 <= i < |keyed| && keyed[i].0 == x;
      assert Print(values[i]) == x;
    }
    forall x | x in TextSet(values) ensures x in keys {
      var i :| 0 <= i < |values| && Print(values[i]) == x;
      assert keyed[i].0 == x;
    }
  }

  lemma TextsOfWellKeyed(xs: seq<Keyed<Value>>)
    requires WellKeyed(xs)
    ensures Texts(WithoutKeys(xs)) == KeysOf(xs)
  {
    hide Wordy;
    assert forall i | 0 <= i < |xs| :: Texts(WithoutKeys(xs))[i] == Print(xs[i].1) == KeysOf(xs)[i];
  }

  /** The items printed for an array are its element texts, each once and ascending. */
  lemma CanonicalTexts(values: seq<Value>)
    requires AllWordy(values)
    ensures Texts(Canonical(values)) == SortedKeys(TextSet(values))
  {
    hide Print, SortedKeys, Wordy, WithKeys, Dedup, Sort, Texts, KeysOf, TextSet;
    KeysDetermine(values);
    CanonicalMeaning(values);
    CanonicalKeys(WithKeys(values));
    KeySet(values);
    TextsOfWellKeyed(Dedup(Sort(WithKeys(values))));
  }

  lemma ArrayText(items: seq<Value>, shapes: seq<Value>)
    requires shapes == Descriptors(items)
    ensures Print(Descriptor(Array(items)))
         == "{" + (Quote("array") + ":" + ("[" + (Commas(SortedKeys(TextSet(shapes))) + "]")) + "}")
  {
    DescriptorsAreWordy(items);
    assert Descriptor(Array(items)) == Object(map["array" := Array(Canonical(shapes))]);
    hide Print, SortedKeys, Wordy, Descriptor, Descriptors, Canonical, TextSet, Texts, Commas, Quote;
    CanonicalTexts(shapes);
    ListText(Canonical(shapes));
    WrappedText("array", Array(Canonical(shapes)));
  }

  ghost function ShapeTexts(items: seq<Value>): set<string> {
    set i | 0 <= i < |items| :: ShapeText(items[i])
  }

  lemma ArrayShape(items: seq<Value>)
    requires forall i | 0 <= i < |items| :: Print(Descriptor(items[i])) == ShapeText(items[i])
    ensures Print(Descriptor(Array(items))) == ShapeText(Array(items))
  {
    hide *;
    var shapes := Descriptors(items);
    ArrayText(items, shapes);
    PlainWordQuoted("array");
    SameTexts(items, shapes);
    ArrayBrackets(Commas(SortedKeys(TextSet(shapes))));
    ShapeTextOfArray(items);
  }

  lemma ShapeTextOfArray(items: seq<Value>)
    ensures ShapeText(Array(items)) == "{\"array\":[" + Commas(SortedKeys(ShapeTexts(items))) + "]}"
  {
    hide SortedKeys, Commas;
  }

  lemma SameTexts(items: seq<Value>, shapes: seq<Value>)
    requires shapes == Descriptors(items)
    requires forall i | 0 <= i < |items| :: Print(Descriptor(items[i])) == ShapeText(items[i])
    ensures TextSet(shapes) == ShapeTexts(items)
  {
    hide Print, Descriptor, ShapeText;
    forall x | x in TextSet(shapes) ensures x in ShapeTexts(items) {
      var i :| 0 <= i < |shapes| && Print(shapes[i]) == x;
      assert shapes[i] == Descriptor(items[i]);
    }
    forall x | x in ShapeTexts(items) ensures x in TextSet(shapes) {
      var i :| 0 <= i < |items| && ShapeText(items[i]) == x;
      assert shapes[i] == Descriptor(items[i]);
    }
  }

  lemma ArrayBrackets(body: string)
    ensures "{" + ("\"array\"" + ":" + ("[" + (body + "]")) + "}") == "{\"array\":[" + body + "]}"
  {}

  lemma ObjectShape(v: Value, d: Value)
    requires v.Object? && d == Descriptor(v)
    requires forall k | k in v.members :: Print(Descriptor(v.members[k])) == ShapeText(v.members[k])
    ensures Print(d) == ShapeText(v)
  {
    var keys := SortedKeys(v.members.Keys);
    MembersDescribed(v);
    ShapeTextOfObject(v, keys);
    ObjectText(d);
    hide Print, SortedKeys, Descriptor, ShapeText, Commas, Quote, PrintMember, MemberShapes, MemberTexts;
    forall i | 0 <= i < |keys|
      ensures PrintMember(d, keys[i]) == Quote(keys[i]) + ":" + Print(Descriptor(v.members[keys[i]]))
    {
      MemberText(d, keys[i]);
    }
    SameMembers(v, d, keys);
    Regroup("{", Commas(MemberShapes(v, keys)), "}");
  }

  lemma ShapeTextOfObject(v: Value, keys: seq<string>)
    requires v.Object? && keys == SortedKeys(v.members.Keys)
    ensures HasKeys(v, keys)
    ensures ShapeText(v) == "{" + Commas(MemberShapes(v, keys)) + "}"
  {
    assert forall i | 0 <= i < |keys| :: keys[i] in keys;
    hide SortedKeys, Commas, Quote;
  }

  lemma MembersDescribed(v: Value)
    requires v.Object?
    ensures Descriptor(v).Object? && Descriptor(v).members.Keys == v.members.Keys
    ensures forall k | k in v.members :: Descriptor(v).members[k] == Descriptor(v.members[k])
  {}

  lemma SameMembers(v: Value, d: Value, keys: seq<string>)
    requires HasKeys(v, keys) && HasKeys(d, keys)
    requires forall i | 0 <= i < |keys| ::
               PrintMember(d, keys[i]) == Quote(keys[i]) + ":" + Print(Descriptor(v.members[keys[i]]))
    requires forall i | 0 <= i < |keys| ::
               Print(Descriptor(v.members[keys[i]])) == ShapeText(v.members[keys[i]])
    ensures MemberTexts(d, keys) == MemberShapes(v, keys)
  {
    hide Print, Descriptor, Quote, PrintMember, Commas, SortedKeys;
    forall i | 0 <= i < |keys| ensures MemberTexts(d, keys)[i] == MemberShapes(v, keys)[i] {
      assert MemberTexts(d, keys)[i] == PrintMember(d, keys[i]);
      assert MemberShapes(v, keys)[i] == Quote(keys[i]) + ":" + ShapeText(v.members[keys[i]]);
    }
  }

  lemma ScalarShape(v: Value)
    requires !v.Array? && !v.Object?
    ensures Print(Descriptor(v)) == ShapeText(v)
  {
    hide Quote, SortedKeys;
    PlainWordQuoted("null");
    PlainWordQuoted("bool");
    PlainWordQuoted("number");
    PlainWordQuoted("string");
  }

  /** The text hashed for a fingerprint is the shape text, for every value. */
  lemma {:induction false} PrintedDescriptorIsShapeText(v: Value)
    ensures Print(Descriptor(v)) == ShapeText(v)
    decreases v
  {
    hide *;
    match v {
      case Array(items) =>
        forall i | 0 <= i < |items| ensures Print(Descriptor(items[i])) == ShapeText(items[i]) {
          PrintedDescriptorIsShapeText(items[i]);
        }
        ArrayShape(items);
      case Object(members) =>
        forall k | k in members ensures Print(Descriptor(members[k])) == ShapeText(members[k]) {
          PrintedDescriptorIsShapeText(members[k]);
        }
        ObjectShape(v, Descriptor(v));
      case _ => ScalarShape(v);
    }
  }
}
