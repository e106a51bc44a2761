/**
 The order of strings, and what sorting by a string key does.

 Strings are compared character by character on code points, which for UTF-8 is the order
 of their bytes, the order sorted maps keep their keys in.
 */
module Ordered {

  predicate Le(a: string, b: string) {
    a == "" || (b != "" && (a[0] < b[0] || (a[0] == b[0] && Le(a[1..], b[1..]))))
  }

  lemma {:induction false} LeTotal(a: string, b: string)
    ensures Le(a, b) || Le(b, a)
    ensures Le(a, a)
  {
    if a != "" && b != "" {
      LeTotal(a[1..], b[1..]);
    } else if a != "" {
      LeTotal(a[1..], "");
    }
  }

  lemma {:induction false} LeAntisymmetric(a: string, b: string)
    requires Le(a, b) && Le(b, a)
    ensures a == b
  {
    if a != "" {
      LeAntisymmetric(a[1..], b[1..]);
      assert a == [a[0]] + a[1..] && b == [b[0]] + b[1..];
    }
  }

  lemma {:induction false} LeTransitive(a: string, b: string, c: string)
    requires Le(a, b) && Le(b, c)
    ensures Le(a, c)
  {
    if a != "" && a[0] == b[0] == c[0] {
      LeTransitive(a[1..], b[1..], c[1..]);
    }
  }

  // ----- the keys of a sorted map -----

  predicate Ascending(keys: seq<string>) {
    forall i, j | 0 <= i < j < |keys| :: Le(keys[i], keys[j]) && keys[i] != keys[j]
  }

  predicate IsLeast(m: string, s: set<string>) {
    m in s && forall x | x in s :: Le(m, x)
  }

  lemma {:induction false} LeastExists(s: set<string>)
    requires s != {}
    ensures exists m :: IsLeast(m, s)
  {
    var x :| x in s;
    LeTotal(x, x);
    if s == {x} {
      assert IsLeast(x, s);
    } else {
      LeastExists(s - {x});
      var m :| IsLeast(m, s - {x});
      LeTotal(x, m);
      if Le(m, x) {
        assert IsLeast(m, s);
      } else {
        forall y | y in s ensures Le(x, y) {
          if y != x {
            LeTransitive(x, m, y);
          }
        }
        assert IsLeast(x, s);
      }
    }
  }

  lemma LeastUnique(s: set<string>)
    ensures forall m, n | IsLeast(m, s) && IsLeast(n, s) :: m == n
  {
    forall m, n | IsLeast(m, s) && IsLeast(n, s) ensures m == n {
      LeAntisymmetric(m, n);
    }
  }

  /** The keys in the order a sorted map iterates over them. */
  function SortedKeys(s: set<string>): (keys: seq<string>)
    ensures Ascending(keys)
    ensures forall k :: k in keys <==> k in s
    ensures |keys| == |s|
  {
    if s == {} then []
    else
      LeastExists(s);
      LeastUnique(s);
      var m :| IsLeast(m, s);
      var rest := SortedKeys(s - {m});
      assert forall i | 0 <= i < |rest| :: rest[i] in rest;
      [m] + rest
  }

  /** An ascending list is determined by what is in it. */
  lemma {:induction false} AscendingUnique(a: seq<string>, b: seq<string>)
    requires Ascending(a) && Ascending(b) && forall x :: x in a <==> x in b
    ensures a == b
  {
    assert |a| > 0 ==> a[0] in a;
    assert |b| > 0 ==> b[0] in b;
    if |a| > 0 && |b| > 0 {
      LeastKeyFirst(a, b);
      assert a == [a[0]] + a[1..] && b == [b[0]] + b[1..];
      forall x ensures x in a[1..] <==> x in b[1..] {
        assert x in a[1..] ==> x in a && x != a[0];
        assert x in b[1..] ==> x in b && x != b[0];
      }
      AscendingUnique(a[1..], b[1..]);
    }
  }

  lemma LeastKeyFirst(a: seq<string>, b: seq<string>)
    requires Ascending(a) && Ascending(b) && a != [] && b != [] && a[0] in b && b[0] in a
    ensures a[0] == b[0]
  {
    var i :| 0 <= i < |b| && b[i] == a[0];
    var j :| 0 <= j < |a| && a[j] == b[0];
    if i > 0 && j > 0 {
      LeAntisymmetric(a[0], b[0]);
    }
  }

  // ----- sorting and deduplicating by key -----

  type Keyed<T> = (string, T)

  predicate SameElements<T(==)>(xs: seq<T>, ys: seq<T>) {
    (forall i | 0 <= i < |xs| :: xs[i] in ys) && (forall i | 0 <= i < |ys| :: ys[i] in xs)
  }

  predicate Sorted<T>(xs: seq<Keyed<T>>) {
    forall i, j | 0 <= i < j < |xs| :: Le(xs[i].0, xs[j].0)
  }

  predicate StrictlySorted<T>(xs: seq<Keyed<T>>) {
    forall i, j | 0 <= i < j < |xs| :: Le(xs[i].0, xs[j].0) && xs[i].0 != xs[j].0
  }

  function Insert<T>(x: Keyed<T>, xs: seq<Keyed<T>>): seq<Keyed<T>> {
    if xs == [] || Le(x.0, xs[0].0) then [x] + xs else [xs[0]] + Insert(x, xs[1..])
  }

  /** A stable sort: of two entries with one key the earlier stays in front. */
  function Sort<T>(xs: seq<Keyed<T>>): seq<Keyed<T>> {
    if xs == [] then [] else Insert(xs[0], Sort(xs[1..]))
  }

  /** Keeps the first entry of every run of equal keys. */
  function Dedup<T>(xs: seq<Keyed<T>>): seq<Keyed<T>>
    decreases |xs|
  {
    if |xs| <= 1 then xs
    else if xs[0].0 == xs[1].0 then Dedup([xs[0]] + xs[2..])
    else [xs[0]] + Dedup(xs[1..])
  }

  lemma {:induction false} InsertMeaning<T>(x: Keyed<T>, xs: seq<Keyed<T>>)
    requires Sorted(xs)
    ensures Sorted(Insert(x, xs))
    ensures SameElements(Insert(x, xs), [x] + xs)
  {
    hide Le;
    if xs == [] {
    } else if Le(x.0, xs[0].0) {
      forall j | 0 <= j < |xs| ensures Le(x.0, xs[j].0) {
        LeTotal(xs[0].0, xs[0].0);
        LeTransitive(x.0, xs[0].0, xs[j].0);
      }
    } else {
      var rest := Insert(x, xs[1..]);
      InsertMeaning(x, xs[1..]);
      LeTotal(x.0, xs[0].0);
      forall j | 0 <= j < |rest| ensures Le(xs[0].0, rest[j].0) {
        assert rest[j] in [x] + xs[1..];
      }
      forall j | 0 <= j < |[x] + xs| ensures ([x] + xs)[j] in [xs[0]] + rest {
        assert j == 1 || ([x] + xs)[j] in [x] + xs[1..];
      }
    }
  }

  lemma {:induction false} SortMeaning<T>(xs: seq<Keyed<T>>)
    ensures Sorted(Sort(xs)) && SameElements(Sort(xs), xs)
  {
    if xs != [] {
      var rest := Sort(xs[1..]);
      SortMeaning(xs[1..]);
      InsertMeaning(xs[0], rest);
      assert xs == [xs[0]] + xs[1..];
      SameElementsTransitive(Sort(xs), [xs[0]] + rest, xs);
    }
  }

  lemma SameElementsTransitive<T>(xs: seq<T>, ys: seq<T>, zs: seq<T>)
    requires SameElements(xs, ys) && SameElements(ys, zs)
    ensures SameElements(xs, zs)
  {}

  /** Entries with one key are one entry. */
  predicate KeyDetermines<T(==)>(xs: seq<Keyed<T>>) {
    forall i, j | 0 <= i < |xs| && 0 <= j < |xs| && xs[i].0 == xs[j].0 :: xs[i] == xs[j]
  }

  predicate Above<T>(key: string, xs: seq<Keyed<T>>) {
    forall j | 0 <= j < |xs| :: Le(key, xs[j].0) && key != xs[j].0
  }

  lemma SameCons<T>(x: T, xs: seq<T>, ys: seq<T>)
    requires SameElements(xs, ys)
    ensures SameElements([x] + xs, [x] + ys)
  {}

  lemma AboveSame<T>(key: string, xs: seq<Keyed<T>>, ys: seq<Keyed<T>>)
    requires Above(key, xs) && SameElements(xs, ys)
    ensures Above(key, ys)
  {
    forall j | 0 <= j < |ys| ensures Le(key, ys[j].0) && key != ys[j].0 {
      var k :| 0 <= k < |xs| && xs[k] == ys[j];
    }
  }

  /** In a sorted list whose second key differs from the first, all later keys do. */
  lemma TailAbove<T>(xs: seq<Keyed<T>>)
    requires |xs| > 1 && Sorted(xs) && xs[0].0 != xs[1].0
    ensures Above(xs[0].0, xs[1..])
  {
    forall j | 1 <= j < |xs| ensures Le(xs[0].0, xs[j].0) && xs[0].0 != xs[j].0 {
      if j > 1 && xs[0].0 == xs[j].0 {
        LeAntisymmetric(xs[0].0, xs[1].0);
      }
    }
  }

  lemma {:induction false} DedupMeaning<T>(xs: seq<Keyed<T>>)
    requires Sorted(xs) && KeyDetermines(xs)
    ensures StrictlySorted(Dedup(xs)) && SameElements(Dedup(xs), xs)
    decreases |xs|
  {
    hide Le, SameElements;
    if |xs| > 1 {
      assert xs == [xs[0]] + xs[1..];
      DedupMeaning(xs[1..]);
      var rest := Dedup(xs[1..]);
      if xs[0].0 == xs[1].0 {
        assert [xs[0]] + xs[2..] == xs[1..];
        SameRepeated(xs[1..]);
        SameElementsTransitive(rest, xs[1..], xs);
      } else {
        TailAbove(xs);
        SameSymmetric(rest, xs[1..]);
        AboveSame(xs[0].0, xs[1..], rest);
        SameCons(xs[0], rest, xs[1..]);
      }
    } else {
      SameRefl(xs);
    }
  }

  lemma SameRefl<T>(xs: seq<T>)
    ensures SameElements(xs, xs)
  {}

  lemma SameSymmetric<T>(xs: seq<T>, ys: seq<T>)
    requires SameElements(xs, ys)
    ensures SameElements(ys, xs)
  {}

  lemma SameRepeated<T>(xs: seq<T>)
    requires xs != []
    ensures SameElements(xs, [xs[0]] + xs)
  {}

  /** A strictly sorted list is determined by its elements. */
  lemma {:induction false} StrictlySortedUnique<T>(xs: seq<Keyed<T>>, ys: seq<Keyed<T>>)
    requires StrictlySorted(xs) && StrictlySorted(ys) && SameElements(xs, ys)
    ensures xs == ys
    decreases |xs|
  {
    hide Le;
    if xs != [] {
      SameHead(xs, ys);
      TailElements(xs, ys);
      TailElements(ys, xs);
      StrictlySortedUnique(xs[1..], ys[1..]);
      assert xs == [xs[0]] + xs[1..] && ys == [ys[0]] + ys[1..];
    }
  }

  lemma SameHead<T>(xs: seq<Keyed<T>>, ys: seq<Keyed<T>>)
    requires xs != [] && StrictlySorted(xs) && StrictlySorted(ys) && SameElements(xs, ys)
    ensures ys != [] && xs[0] == ys[0]
  {
    assert xs[0] in ys;
    var i :| 0 <= i < |ys| && ys[i] == xs[0];
    var j :| 0 <= j < |xs| && xs[j] == ys[0];
    if i > 0 {
      LeAntisymmetric(xs[0].0, ys[0].0);
    }
  }

  lemma TailElements<T>(xs: seq<Keyed<T>>, ys: seq<Keyed<T>>)
    requires xs != [] && ys != [] && xs[0] == ys[0] && StrictlySorted(xs) && SameElements(xs, ys)
    ensures forall k | 0 <= k < |xs[1..]| :: xs[1..][k] in ys[1..]
  {
    assert ys == [ys[0]] + ys[1..];
    assert forall k | 1 <= k < |xs| :: xs[k] in ys;
  }

  /** Sorting and deduplicating by a determining key computes exactly the set of entries. */
  lemma CanonicalForm<T>(xs: seq<Keyed<T>>, ys: seq<Keyed<T>>)
    requires KeyDetermines(xs) && KeyDetermines(ys)
    ensures Dedup(Sort(xs)) == Dedup(Sort(ys)) <==> SameElements(xs, ys)
  {
    CanonicalElements(xs);
    CanonicalElements(ys);
    var a, b := Dedup(Sort(xs)), Dedup(Sort(ys));
    if SameElements(xs, ys) {
      SameElementsTransitive(a, xs, ys);
      SameElementsTransitive(a, ys, b);
      StrictlySortedUnique(a, b);
    }
    if a == b {
      SameElementsTransitive(xs, a, ys);
    }
  }

  lemma CanonicalElements<T>(xs: seq<Keyed<T>>)
    requires KeyDetermines(xs)
    ensures StrictlySorted(Dedup(Sort(xs))) && SameElements(Dedup(Sort(xs)), xs)
  {
    var sorted := Sort(xs);
    SortMeaning(xs);
    forall i, j | 0 <= i < |sorted| && 0 <= j < |sorted| && sorted[i].0 == sorted[j].0
      ensures sorted[i] == sorted[j]
    {
      var k :| 0 <= k < |xs| && xs[k] == sorted[i];
      var l :| 0 <= l < |xs| && xs[l] == sorted[j];
    }
    DedupMeaning(sorted);
    SameElementsTransitive(Dedup(sorted), sorted, xs);
  }

  function KeysOf<T>(xs: seq<Keyed<T>>): seq<string> {
    seq(|xs|, i requires 0 <= i < |xs| => xs[i].0)
  }

  /** Sorting and deduplicating by key leaves exactly the keys that occur, ascending. */
  lemma CanonicalKeys<T>(xs: seq<Keyed<T>>)
    requires KeyDetermines(xs)
    ensures KeysOf(Dedup(Sort(xs))) == SortedKeys(set i | 0 <= i < |xs| :: xs[i].0)
  {
    CanonicalElements(xs);
    var unique, all := Dedup(Sort(xs)), set i | 0 <= i < |xs| :: xs[i].0;
    hide Dedup, Sort, SortedKeys, Le;
    SameKeys(unique, xs);
    AscendingUnique(KeysOf(unique), SortedKeys(all));
  }

  lemma SameKeys<T>(unique: seq<Keyed<T>>, xs: seq<Keyed<T>>)
    requires StrictlySorted(unique) && SameElements(unique, xs)
    ensures Ascending(KeysOf(unique))
    ensures forall x :: x in KeysOf(unique) <==> x in (set i | 0 <= i < |xs| :: xs[i].0)
  {
    hide Le;
    var keys, all := KeysOf(unique), set i | 0 <= i < |xs| :: xs[i].0;
    forall x | x in keys ensures x in all {
      var k :| 0 <= k < |keys| && keys[k] == x;
      var n :| 0 <= n < |xs| && xs[n] == unique[k];
    }
    forall x | x in all ensures x in keys {
      var n :| 0 <= n < |xs| && xs[n].0 == x;
      var k :| 0 <= k < |unique| && unique[k] == xs[n];
      assert keys[k] == x;
    }
  }
}
