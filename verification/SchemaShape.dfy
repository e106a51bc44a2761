/**
 The schema descriptor of crates/bench/src/lib.rs: the shape of a JSON value with every
 array reduced to the sorted, deduplicated list of its element shapes. It is a canonical
 form: equal descriptors are exactly equal shapes.
 */
module SchemaShape {
  import opened Ordered
  import opened Json

  function Descriptor(v: Value): Value
    decreases v
  {
    match v
    case Null => Text("null")
    case Bool(_) => Text("bool")
    case Number(_) => Text("number")
    case Text(_) => Text("string")
    case Array(items) => Object(map["array" := Array(Canonical(Descriptors(items)))])
    case Object(members) => Object(map k | k in members :: Descriptor(members[k]))
  }

  function Descriptors(items: seq<Value>): (r: seq<Value>)
    ensures |r| == |items|
    ensures forall i | 0 <= i < |r| :: r[i] == Descriptor(items[i])
    decreases items
  {
    if items == [] then [] else [Descriptor(items[0])] + Descriptors(items[1..])
  }

  /** Each value with its printed form as sort key. */
  function WithKeys(values: seq<Value>): seq<Keyed<Value>> {
    seq(|values|, i requires 0 <= i < |values| => (Print(values[i]), values[i]))
  }

  function WithoutKeys(xs: seq<Keyed<Value>>): seq<Value> {
    seq(|xs|, i requires 0 <= i < |xs| => xs[i].1)
  }

  /** Sorted by printed form, one of each. */
  function Canonical(values: seq<Value>): seq<Value> {
    WithoutKeys(Dedup(Sort(WithKeys(values))))
  }

  /** The fingerprint hashes the printed descriptor of the step outputs. */
  function Fingerprint(hash: string -> string, stepOutputs: Value): string {
    hash(Print(Descriptor(stepOutputs)))
  }

  /**
   Equality of shapes, defined on the values themselves: scalars of one kind, arrays with the
   same shapes among their elements, objects with the same keys and shapes under them.
   */
  ghost predicate SameShape(v: Value, w: Value)
    decreases v, 1
  {
    match (v, w)
    case (Null, Null) => true
    case (Bool(_), Bool(_)) => true
    case (Number(_), Number(_)) => true
    case (Text(_), Text(_)) => true
    case (Array(a), Array(b)) =>
      (forall i | 0 <= i < |a| :: ShapeIn(a[i], b)) && (forall j | 0 <= j < |b| :: ShapeAmong(v, b[j]))
    case (Object(m), Object(n)) =>
      m.Keys == n.Keys && forall k | k in m && k in n :: SameShape(m[k], n[k])
    case _ => false
  }

  /** Some element of the list has the shape of the value. */
  ghost predicate ShapeIn(v: Value, list: seq<Value>)
    decreases v, 2
  {
    exists j | 0 <= j < |list| :: SameShape(v, list[j])
  }

  /** Some item of the array has the shape of the value. */
  ghost predicate ShapeAmong(v: Value, w: Value)
    requires v.Array?
    decreases v, 0
  {
    exists i | 0 <= i < |v.items| :: SameShape(v.items[i], w)
  }

  // ----- the canonical list of an array -----

  /** The sort key never confuses two values, so removing duplicates by key loses nothing. */
  lemma KeysDetermine(values: seq<Value>)
    requires AllWordy(values)
    ensures KeyDetermines(WithKeys(values))
  {
    hide Wordy, Print;
    var x := WithKeys(values);
    forall i, j | 0 <= i < |x| && 0 <= j < |x| && x[i].0 == x[j].0 ensures x[i] == x[j] {
      PrintInjective(values[i], values[j]);
    }
  }

  predicate WellKeyed(xs: seq<Keyed<Value>>) {
    forall i | 0 <= i < |xs| :: xs[i].0 == Print(xs[i].1) && Wordy(xs[i].1)
  }

  lemma CanonicalMeaning(values: seq<Value>)
    requires AllWordy(values)
    ensures WellKeyed(Dedup(Sort(WithKeys(values))))
  {
    KeysDetermine(values);
    CanonicalElements(WithKeys(values));
    var xs := Dedup(Sort(WithKeys(values)));
    forall i | 0 <= i < |xs| ensures xs[i].0 == Print(xs[i].1) && Wordy(xs[i].1) {
      var j :| 0 <= j < |values| && WithKeys(values)[j] == xs[i];
      assert Wordy(values[j]);
    }
  }

  lemma WithoutKeysInjective(xs: seq<Keyed<Value>>, ys: seq<Keyed<Value>>)
    requires WellKeyed(xs) && WellKeyed(ys)
    ensures WithoutKeys(xs) == WithoutKeys(ys) <==> xs == ys
  {
    if WithoutKeys(xs) == WithoutKeys(ys) {
      assert |xs| == |WithoutKeys(xs)| == |WithoutKeys(ys)| == |ys|;
      forall i | 0 <= i < |xs| ensures xs[i] == ys[i] {
        assert WithoutKeys(xs)[i] == xs[i].1 && WithoutKeys(ys)[i] == ys[i].1;
      }
    }
  }

  lemma WithKeysSameElements(x: seq<Value>, y: seq<Value>)
    ensures SameElements(WithKeys(x), WithKeys(y)) <==> SameElements(x, y)
  {
    hide Print;
    var a, b := WithKeys(x), WithKeys(y);
    if SameElements(a, b) {
      forall i | 0 <= i < |x| ensures x[i] in y { assert a[i] in b; }
      forall i | 0 <= i < |y| ensures y[i] in x { assert b[i] in a; }
    }
    if SameElements(x, y) {
      forall i | 0 <= i < |a| ensures a[i] in b { var j :| 0 <= j < |y| && y[j] == x[i]; assert b[j] == a[i]; }
      forall i | 0 <= i < |b| ensures b[i] in a { var j :| 0 <= j < |x| && x[j] == y[i]; assert a[j] == b[i]; }
    }
  }

  /** Two lists have one canonical list exactly when they have the same elements. */
  lemma CanonicalIsSet(x: seq<Value>, y: seq<Value>)
    requires AllWordy(x) && AllWordy(y)
    ensures Canonical(x) == Canonical(y) <==> SameElements(x, y)
  {
    hide AllWordy, Dedup, Sort, SameElements, WithKeys, WellKeyed;
    KeysDetermine(x);
    KeysDetermine(y);
    CanonicalForm(WithKeys(x), WithKeys(y));
    CanonicalMeaning(x);
    CanonicalMeaning(y);
    WithoutKeysInjective(Dedup(Sort(WithKeys(x))), Dedup(Sort(WithKeys(y))));
    WithKeysSameElements(x, y);
  }

  lemma CanonicalIsWordy(values: seq<Value>)
    requires AllWordy(values)
    ensures AllWordy(Canonical(values))
  {
    CanonicalMeaning(values);
    var xs := Dedup(Sort(WithKeys(values)));
    forall i | 0 <= i < |WithoutKeys(xs)| ensures Wordy(WithoutKeys(xs)[i]) {
      assert WithoutKeys(xs)[i] == xs[i].1;
    }
  }

  // ----- descriptors are strings and objects, with arrays only under "array" -----

  lemma {:induction false} DescriptorIsWordy(v: Value)
    ensures Wordy(Descriptor(v)) && !Descriptor(v).Array?
    decreases v
  {
    match v {
      case Array(items) =>
        DescriptorsAreWordy(items);
        CanonicalIsWordy(Descriptors(items));
      case Object(members) =>
        forall k | k in members ensures Wordy(Descriptor(members[k])) {
          DescriptorIsWordy(members[k]);
        }
      case _ =>
    }
  }

  lemma {:induction false} DescriptorsAreWordy(items: seq<Value>)
    ensures AllWordy(Descriptors(items))
    decreases items
  {
    forall i | 0 <= i < |items| ensures Wordy(Descriptors(items)[i]) {
      DescriptorIsWordy(items[i]);
    }
  }

  // ----- arrays -----

  /** Arrays have one descriptor exactly when the same descriptors occur among their elements. */
  lemma ArrayDescriptors(a: seq<Value>, b: seq<Value>)
    ensures Descriptor(Array(a)) == Descriptor(Array(b)) <==> SameElements(Descriptors(a), Descriptors(b))
  {
    DescriptorsAreWordy(a);
    DescriptorsAreWordy(b);
    CanonicalIsSet(Descriptors(a), Descriptors(b));
    ArrayWrapping(Canonical(Descriptors(a)), Canonical(Descriptors(b)));
  }

  lemma ArrayWrapping(x: seq<Value>, y: seq<Value>)
    ensures Object(map["array" := Array(x)]) == Object(map["array" := Array(y)]) <==> x == y
  {
    if Object(map["array" := Array(x)]) == Object(map["array" := Array(y)]) {
      assert map["array" := Array(x)]["array"] == map["array" := Array(y)]["array"];
    }
  }

  /** If `x` and `y` tell shapes apart element by element, they tell the arrays apart. */
  lemma ArrayShapes(a: seq<Value>, b: seq<Value>, x: seq<Value>, y: seq<Value>)
    requires |x| == |a| && |y| == |b|
    requires forall i, j | 0 <= i < |a| && 0 <= j < |b| :: x[i] == y[j] <==> SameShape(a[i], b[j])
    ensures SameElements(x, y) <==> SameShape(Array(a), Array(b))
  {
    forall i | 0 <= i < |a| ensures ShapeIn(a[i], b) <==> x[i] in y {
      if ShapeIn(a[i], b) {
        var j :| 0 <= j < |b| && SameShape(a[i], b[j]);
        assert x[i] == y[j];
      }
      if x[i] in y {
        var j :| 0 <= j < |y| && y[j] == x[i];
        assert SameShape(a[i], b[j]);
      }
    }
    forall j | 0 <= j < |b| ensures ShapeAmong(Array(a), b[j]) <==> y[j] in x {
      if ShapeAmong(Array(a), b[j]) {
        var i :| 0 <= i < |a| && SameShape(Array(a).items[i], b[j]);
        assert x[i] == y[j];
      }
      if y[j] in x {
        var i :| 0 <= i < |x| && x[i] == y[j];
        assert SameShape(Array(a).items[i], b[j]);
      }
    }
    ArrayShapeMeaning(a, b);
  }

  lemma ArrayShapeMeaning(a: seq<Value>, b: seq<Value>)
    ensures SameShape(Array(a), Array(b)) <==>
            (forall i | 0 <= i < |a| :: ShapeIn(a[i], b)) && (forall j | 0 <= j < |b| :: ShapeAmong(Array(a), b[j]))
  {
    hide ShapeIn, ShapeAmong;
  }

  // ----- objects -----

  lemma ObjectDescriptors(m: map<string, Value>, n: map<string, Value>)
    ensures Descriptor(Object(m)) == Descriptor(Object(n)) <==>
            m.Keys == n.Keys && forall k | k in m && k in n :: Descriptor(m[k]) == Descriptor(n[k])
  {
    var x, y := Descriptor(Object(m)).members, Descriptor(Object(n)).members;
    assert x.Keys == m.Keys && y.Keys == n.Keys;
    if x == y {
      forall k | k in m && k in n ensures Descriptor(m[k]) == Descriptor(n[k]) {
        assert x[k] == y[k];
      }
    }
    if m.Keys == n.Keys && forall k | k in m && k in n :: Descriptor(m[k]) == Descriptor(n[k]) {
      forall k | k in x ensures k in y && x[k] == y[k] {
        assert k in m && k in n;
      }
      assert x == y;
    }
  }

  /** The "array" member of an array's descriptor is an array; no object's descriptor has one. */
  lemma ArrayIsNotObject(items: seq<Value>, members: map<string, Value>)
    ensures Descriptor(Array(items)) != Descriptor(Object(members))
  {
    var d := Descriptor(Object(members));
    if "array" in d.members {
      DescriptorIsWordy(members["array"]);
    }
    assert Descriptor(Array(items)).members["array"].Array?;
  }

  // ----- the canonical form -----

  lemma {:induction false} DescriptorIsCanonical(v: Value, w: Value)
    ensures Descriptor(v) == Descriptor(w) <==> SameShape(v, w)
    decreases v
  {
    match v {
      case Array(a) =>
        match w {
          case Array(b) =>
            forall i, j | 0 <= i < |a| && 0 <= j < |b|
              ensures Descriptors(a)[i] == Descriptors(b)[j] <==> SameShape(a[i], b[j])
            {
              DescriptorIsCanonical(a[i], b[j]);
            }
            ArrayDescriptors(a, b);
            ArrayShapes(a, b, Descriptors(a), Descriptors(b));
          case Object(n) => ArrayIsNotObject(a, n);
          case _ => ScalarDescriptors(v, w);
        }
      case Object(m) =>
        match w {
          case Array(b) => ArrayIsNotObject(b, m);
          case Object(n) =>
            forall k | k in m && k in n ensures Descriptor(m[k]) == Descriptor(n[k]) <==> SameShape(m[k], n[k]) {
              DescriptorIsCanonical(m[k], n[k]);
            }
            ObjectDescriptors(m, n);
          case _ => ScalarDescriptors(v, w);
        }
      case _ => ScalarDescriptors(v, w);
    }
  }

  predicate Scalar(v: Value) {
    !v.Array? && !v.Object?
  }

  lemma ScalarDescriptors(v: Value, w: Value)
    requires Scalar(v) || Scalar(w)
    ensures Descriptor(v) == Descriptor(w) <==> SameShape(v, w)
  {
    assert |"null"| == 4 && |"bool"| == 4 && |"number"| == 6 && |"string"| == 6;
    assert "null"[0] == 'n' && "bool"[0] == 'b' && "number"[0] == 'n' && "string"[0] == 's';
  }

  // ----- what the fingerprint sees -----

  /** The printed descriptors differ and the hash does not tell them apart. */
  predicate Collide(hash: string -> string, v: Value, w: Value) {
    Print(Descriptor(v)) != Print(Descriptor(w)) && hash(Print(Descriptor(v))) == hash(Print(Descriptor(w)))
  }

  /** For any hash, fingerprints agree exactly when shapes do or their descriptors collide. */
  lemma FingerprintIsShape(hash: string -> string, v: Value, w: Value)
    ensures Fingerprint(hash, v) == Fingerprint(hash, w) <==> SameShape(v, w) || Collide(hash, v, w)
    ensures !(SameShape(v, w) && Collide(hash, v, w))
  {
    DescriptorIsWordy(v);
    DescriptorIsWordy(w);
    PrintInjective(Descriptor(v), Descriptor(w));
    DescriptorIsCanonical(v, w);
  }

  /** A way down into a value: by array index or by key. */
  datatype Turn = Index(i: nat) | Key(key: string)

  predicate LeadsSomewhere(v: Value, path: seq<Turn>) {
    path == [] ||
    match (v, path[0])
    case (Array(items), Index(i)) => i < |items| && LeadsSomewhere(items[i], path[1..])
    case (Object(m), Key(key)) => key in m && LeadsSomewhere(m[key], path[1..])
    case _ => false
  }

  function Below(v: Value, path: seq<Turn>): Value
    requires LeadsSomewhere(v, path)
  {
    if path == [] then v
    else if v.Array? then Below(v.items[path[0].i], path[1..])
    else Below(v.members[path[0].key], path[1..])
  }

  function Replace(v: Value, path: seq<Turn>, w: Value): Value
    requires LeadsSomewhere(v, path)
  {
    if path == [] then w
    else if v.Array? then
      var i := path[0].i;
      Array(v.items[i := Replace(v.items[i], path[1..], w)])
    else
      var key := path[0].key;
      Object(v.members[key := Replace(v.members[key], path[1..], w)])
  }

  /** A part replaced by one with the same descriptor leaves the descriptor of the whole alone. */
  lemma {:induction false} ReplaceKeepsDescriptor(v: Value, path: seq<Turn>, w: Value)
    requires LeadsSomewhere(v, path) && Descriptor(Below(v, path)) == Descriptor(w)
    ensures Descriptor(Replace(v, path, w)) == Descriptor(v)
    decreases |path|
  {
    if path == [] {
    } else if v.Array? {
      var i, rest := path[0].i, path[1..];
      ReplaceKeepsDescriptor(v.items[i], rest, w);
      var items := v.items[i := Replace(v.items[i], rest, w)];
      assert Descriptors(items) == Descriptors(v.items);
    } else {
      var key, rest := path[0].key, path[1..];
      ReplaceKeepsDescriptor(v.members[key], rest, w);
      ObjectDescriptors(v.members, v.members[key := Replace(v.members[key], rest, w)]);
    }
  }

  /** Whatever the hash, a change at any depth that keeps the shape of the part keeps the fingerprint. */
  lemma FingerprintIgnoresEdits(hash: string -> string, v: Value, path: seq<Turn>, w: Value)
    requires LeadsSomewhere(v, path) && SameShape(Below(v, path), w)
    ensures Fingerprint(hash, Replace(v, path, w)) == Fingerprint(hash, v)
  {
    hide Descriptor, SameShape;
    DescriptorIsCanonical(Below(v, path), w);
    ReplaceKeepsDescriptor(v, path, w);
  }

  /** Reordering or repeating array elements at any depth is such a change. */
  lemma FingerprintIgnoresOrder(hash: string -> string, v: Value, path: seq<Turn>, items: seq<Value>)
    requires LeadsSomewhere(v, path) && Below(v, path).Array? && SameElements(Below(v, path).items, items)
    ensures Fingerprint(hash, Replace(v, path, Array(items))) == Fingerprint(hash, v)
  {
    hide Descriptor;
    RearrangedDescriptors(Below(v, path).items, items);
    ReplaceKeepsDescriptor(v, path, Array(items));
  }

  lemma RearrangedDescriptors(a: seq<Value>, b: seq<Value>)
    requires SameElements(a, b)
    ensures Descriptor(Array(a)) == Descriptor(Array(b))
  {
    hide Descriptor;
    ArrayDescriptors(a, b);
    var x, y := Descriptors(a), Descriptors(b);
    forall i | 0 <= i < |x| ensures x[i] in y {
      var j :| 0 <= j < |b| && b[j] == a[i];
      assert y[j] == x[i];
    }
    forall j | 0 <= j < |y| ensures y[j] in x {
      var i :| 0 <= i < |a| && a[i] == b[j];
      assert x[i] == y[j];
    }
  }
}
