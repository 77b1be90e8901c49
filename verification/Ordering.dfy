/** The total order on values and path elements that sorted sets rely on. */
module Ordering {
  import opened Values
  import opened PathElements

  /** -1, 0 or 1, as a comparison returns it. */
  type Sign = c: int | -1 <= c <= 1

  function Flip(c: Sign): Sign { -c }

  function CompareReals(a: real, b: real): Sign {
    if a > b then 1 else if a < b then -1 else 0
  }

  function CompareInts(a: int, b: int): Sign {
    if a > b then 1 else if a < b then -1 else 0
  }

  function CompareBools(a: bool, b: bool): Sign {
    if a == b then 0 else if !a then -1 else 1
  }

  /** Lexicographic, by characters. */
  function CompareStrings(a: string, b: string): Sign {
    if a == [] && b == [] then 0
    else if a == [] then -1
    else if b == [] then 1
    else if a[0] < b[0] then -1
    else if a[0] > b[0] then 1
    else CompareStrings(a[1..], b[1..])
  }

  lemma {:induction false} StringsOrdered(a: string, b: string)
    ensures CompareStrings(b, a) == Flip(CompareStrings(a, b))
    ensures CompareStrings(a, b) == 0 <==> a == b
  {
    if a != [] && b != [] {
      StringsOrdered(a[1..], b[1..]);
      assert a == [a[0]] + a[1..] && b == [b[0]] + b[1..];
    }
  }

  lemma {:induction false} StringsTransitive(a: string, b: string, c: string)
    requires CompareStrings(a, b) == -1 && CompareStrings(b, c) == -1
    ensures CompareStrings(a, c) == -1
  {
    if a != [] {
      if a[0] == b[0] == c[0] {
        StringsTransitive(a[1..], b[1..], c[1..]);
      }
    }
  }

  /** `k` comes first among the keys. */
  predicate IsFirst(keys: set<string>, k: string) {
    k in keys && forall j | j in keys && j != k :: CompareStrings(k, j) == -1
  }

  lemma {:induction false} FirstExists(keys: set<string>)
    requires keys != {}
    ensures exists k :: IsFirst(keys, k)
  {
    var k :| k in keys;
    var rest := keys - {k};
    if rest == {} {
      assert keys == {k};
      assert IsFirst(keys, k);
    } else {
      FirstExists(rest);
      var f :| IsFirst(rest, f);
      StringsOrdered(k, f);
      if CompareStrings(k, f) == -1 {
        forall j | j in keys && j != k
          ensures CompareStrings(k, j) == -1
        {
          if j != f {
            StringsTransitive(k, f, j);
          }
        }
        assert IsFirst(keys, k);
      } else {
        assert IsFirst(keys, f);
      }
    }
  }

  lemma {:induction false} FirstUnique(keys: set<string>, j: string, k: string)
    requires IsFirst(keys, j) && IsFirst(keys, k)
    ensures j == k
  {
    StringsOrdered(j, k);
  }

  function FirstKey(keys: set<string>): (k: string)
    requires keys != {}
    ensures IsFirst(keys, k)
  {
    FirstExists(keys);
    assert forall j, k | IsFirst(keys, j) && IsFirst(keys, k) :: j == k by {
      forall j, k | IsFirst(keys, j) && IsFirst(keys, k)
        ensures j == k
      {
        FirstUnique(keys, j, k);
      }
    }
    var k :| IsFirst(keys, k);
    k
  }

  /** The entries of a map, sorted by key. */
  function SortedEntries(m: map<string, Value>): (es: seq<Field>)
    ensures forall e | e in es :: e.name in m && m[e.name] == e.value
    decreases |m|
  {
    if m == map[] then []
    else
      var k := FirstKey(m.Keys);
      var rest := m - {k};
      assert rest.Keys == m.Keys - {k};
      assert |rest| == |rest.Keys| < |m.Keys| == |m|;
      [Field(k, m[k])] + SortedEntries(rest)
  }

  ghost function ListedHeight(fs: seq<Field>): nat {
    if fs == [] then 0 else Max(Height(fs[0].value), ListedHeight(fs[1..]))
  }

  lemma {:induction false} ListedBelow(fs: seq<Field>, v: Value)
    requires v.Map? && forall e | e in fs :: e.name in v.fields && v.fields[e.name] == e.value
    ensures ListedHeight(fs) < Height(v)
  {
    if fs != [] {
      assert fs[0] in fs;
      FieldHeight(v, v.fields.Keys, fs[0].name);
      ListedBelow(fs[1..], v);
    }
  }

  /** Numbers before strings, booleans, lists, maps and null. */
  function CompareValues(l: Value, r: Value): Sign
    decreases Height(l), 0
  {
    if l.Num? then (if r.Num? then CompareReals(l.n, r.n) else -1)
    else if r.Num? then 1
    else if l.Str? then (if r.Str? then CompareStrings(l.s, r.s) else -1)
    else if r.Str? then 1
    else if l.Bool? then (if r.Bool? then CompareBools(l.b, r.b) else -1)
    else if r.Bool? then 1
    else if l.List? then (if r.List? then CompareLists(l.items, r.items) else -1)
    else if r.List? then 1
    else if l.Map? then
      if r.Map? then
        ListedBelow(SortedEntries(l.fields), l);
        CompareFields(SortedEntries(l.fields), SortedEntries(r.fields))
      else -1
    else if r.Map? then 1
    else 0
  }

  /** Lexicographic. */
  function CompareLists(l: seq<Value>, r: seq<Value>): Sign
    decreases SeqHeight(l), 1, |l|
  {
    if l == [] && r == [] then 0
    else if l == [] then -1
    else if r == [] then 1
    else
      var c := CompareValues(l[0], r[0]);
      if c != 0 then c else CompareLists(l[1..], r[1..])
  }

  /** Lexicographic, each field by name and then by value. */
  function CompareFields(l: seq<Field>, r: seq<Field>): Sign
    decreases ListedHeight(l), 1, |l|
  {
    if l == [] && r == [] then 0
    else if l == [] then -1
    else if r == [] then 1
    else
      var n := CompareStrings(l[0].name, r[0].name);
      if n != 0 then n
      else
        var c := CompareValues(l[0].value, r[0].value);
        if c != 0 then c else CompareFields(l[1..], r[1..])
  }

  /** Field names before keys, values, indices and the zero element. */
  function Compare(a: PathElement, b: PathElement): Sign {
    if a.FieldName? then (if b.FieldName? then CompareStrings(a.name, b.name) else -1)
    else if b.FieldName? then 1
    else if a.Key? then (if b.Key? then CompareFields(a.fields, b.fields) else -1)
    else if b.Key? then 1
    else if a.Element? then (if b.Element? then CompareValues(a.value, b.value) else -1)
    else if b.Element? then 1
    else if a.Index? then (if b.Index? then CompareInts(a.index, b.index) else -1)
    else if b.Index? then 1
    else 0
  }

  predicate Less(a: PathElement, b: PathElement) {
    Compare(a, b) < 0
  }

  /** Sorted entries determine the map. */
  lemma {:induction false} EntriesDetermine(m: map<string, Value>, n: map<string, Value>)
    requires SortedEntries(m) == SortedEntries(n)
    ensures m == n
    decreases |m|
  {
    if m != map[] {
      assert SortedEntries(m) != [] && n != map[];
      var j, k := FirstKey(m.Keys), FirstKey(n.Keys);
      var m', n' := m - {j}, n - {k};
      assert SortedEntries(m) == [Field(j, m[j])] + SortedEntries(m');
      assert SortedEntries(n) == [Field(k, n[k])] + SortedEntries(n');
      SameHead(Field(j, m[j]), SortedEntries(m'), Field(k, n[k]), SortedEntries(n'));
      assert m'.Keys == m.Keys - {j};
      assert |m'| == |m'.Keys| < |m.Keys| == |m|;
      EntriesDetermine(m', n');
      assert m == m'[j := m[j]] && n == n'[k := n[k]];
    }
  }

  lemma {:induction false} SameHead<T>(a: T, xs: seq<T>, b: T, ys: seq<T>)
    requires [a] + xs == [b] + ys
    ensures a == b && xs == ys
  {
    assert a == ([a] + xs)[0] == ([b] + ys)[0] == b;
    assert xs == ([a] + xs)[1..] == ([b] + ys)[1..] == ys;
  }

  /** Swapping the operands flips the sign, and zero means equality. */
  lemma {:induction false} ValuesOrdered(l: Value, r: Value)
    ensures CompareValues(r, l) == Flip(CompareValues(l, r))
    ensures CompareValues(l, r) == 0 <==> l == r
    decreases Height(l), 0
  {
    if l.Str? && r.Str? {
      StringsOrdered(l.s, r.s);
    } else if l.List? && r.List? {
      ListsOrdered(l.items, r.items);
    } else if l.Map? && r.Map? {
      var le, re := SortedEntries(l.fields), SortedEntries(r.fields);
      ListedBelow(le, l);
      ListedBelow(re, r);
      FieldsOrdered(le, re);
      if le == re {
        EntriesDetermine(l.fields, r.fields);
      }
    }
  }

  lemma {:induction false} ListsOrdered(l: seq<Value>, r: seq<Value>)
    ensures CompareLists(r, l) == Flip(CompareLists(l, r))
    ensures CompareLists(l, r) == 0 <==> l == r
    decreases SeqHeight(l), 1, |l|
  {
    if l != [] && r != [] {
      ValuesOrdered(l[0], r[0]);
      ListsOrdered(l[1..], r[1..]);
      assert l == [l[0]] + l[1..] && r == [r[0]] + r[1..];
    }
  }

  lemma {:induction false} FieldsOrdered(l: seq<Field>, r: seq<Field>)
    ensures CompareFields(r, l) == Flip(CompareFields(l, r))
    ensures CompareFields(l, r) == 0 <==> l == r
    decreases ListedHeight(l), 1, |l|
  {
    if l != [] && r != [] {
      StringsOrdered(l[0].name, r[0].name);
      ValuesOrdered(l[0].value, r[0].value);
      FieldsOrdered(l[1..], r[1..]);
      assert l == [l[0]] + l[1..] && r == [r[0]] + r[1..];
    }
  }

  lemma {:induction false} ValuesTransitive(a: Value, b: Value, c: Value)
    requires CompareValues(a, b) == -1 && CompareValues(b, c) == -1
    ensures CompareValues(a, c) == -1
    decreases Height(a), 0
  {
    if a.Str? && b.Str? && c.Str? {
      StringsTransitive(a.s, b.s, c.s);
    } else if a.List? && b.List? && c.List? {
      ListsTransitive(a.items, b.items, c.items);
    } else if a.Map? && b.Map? && c.Map? {
      ListedBelow(SortedEntries(a.fields), a);
      FieldsTransitive(SortedEntries(a.fields), SortedEntries(b.fields), SortedEntries(c.fields));
    }
  }

  lemma {:induction false} ListsTransitive(a: seq<Value>, b: seq<Value>, c: seq<Value>)
    requires CompareLists(a, b) == -1 && CompareLists(b, c) == -1
    ensures CompareLists(a, c) == -1
    decreases SeqHeight(a), 1, |a|
  {
    if a != [] {
      ValuesOrdered(a[0], b[0]);
      ValuesOrdered(b[0], c[0]);
      if CompareValues(a[0], b[0]) == 0 && CompareValues(b[0], c[0]) == 0 {
        ListsTransitive(a[1..], b[1..], c[1..]);
      } else if CompareValues(a[0], b[0]) == -1 && CompareValues(b[0], c[0]) == -1 {
        ValuesTransitive(a[0], b[0], c[0]);
      }
    }
  }

  lemma {:induction false} FieldsTransitive(a: seq<Field>, b: seq<Field>, c: seq<Field>)
    requires CompareFields(a, b) == -1 && CompareFields(b, c) == -1
    ensures CompareFields(a, c) == -1
    decreases ListedHeight(a), 1, |a|
  {
    if a != [] {
      var n, m := CompareStrings(a[0].name, b[0].name), CompareStrings(b[0].name, c[0].name);
      StringsOrdered(a[0].name, b[0].name);
      StringsOrdered(b[0].name, c[0].name);
      ValuesOrdered(a[0].value, b[0].value);
      ValuesOrdered(b[0].value, c[0].value);
      if n == -1 && m == -1 {
        StringsTransitive(a[0].name, b[0].name, c[0].name);
      } else if n == 0 && m == 0 {
        var x, y := CompareValues(a[0].value, b[0].value), CompareValues(b[0].value, c[0].value);
        if x == 0 && y == 0 {
          FieldsTransitive(a[1..], b[1..], c[1..]);
        } else if x == -1 && y == -1 {
          ValuesTransitive(a[0].value, b[0].value, c[0].value);
        }
      }
    }
  }

  /** Path elements are totally ordered, and comparing equal is being equal. */
  lemma {:induction false} Ordered(a: PathElement, b: PathElement)
    ensures Compare(b, a) == Flip(Compare(a, b))
    ensures Compare(a, b) == 0 <==> a == b
  {
    if a.FieldName? && b.FieldName? {
      StringsOrdered(a.name, b.name);
    } else if a.Key? && b.Key? {
      FieldsOrdered(a.fields, b.fields);
    } else if a.Element? && b.Element? {
      ValuesOrdered(a.value, b.value);
    }
  }

  lemma {:induction false} Transitive(a: PathElement, b: PathElement, c: PathElement)
    requires Less(a, b) && Less(b, c)
    ensures Less(a, c)
  {
    if a.FieldName? && b.FieldName? && c.FieldName? {
      StringsTransitive(a.name, b.name, c.name);
    } else if a.Key? && b.Key? && c.Key? {
      FieldsTransitive(a.fields, b.fields, c.fields);
    } else if a.Element? && b.Element? && c.Element? {
      ValuesTransitive(a.value, b.value, c.value);
    }
  }
}
