/** Which order the comparisons give: by kind first, and then numeric, lexicographic or by sorted entries. */
module OrderTheory {
  import opened Values
  import opened PathElements
  import opened Ordering

  /** Equal up to position `n`. */
  predicate Agree<T(==)>(l: seq<T>, r: seq<T>, n: nat) {
    n <= |l| && n <= |r| && l[..n] == r[..n]
  }

  lemma {:induction false} AgreeNext<T>(l: seq<T>, r: seq<T>, n: nat)
    requires l != [] && r != []
    ensures Agree(l, r, n + 1) <==> l[0] == r[0] && Agree(l[1..], r[1..], n)
  {
    if n + 1 <= |l| && n + 1 <= |r| {
      assert l[..n + 1] == [l[0]] + l[1..][..n] && r[..n + 1] == [r[0]] + r[1..][..n];
      assert l[..n + 1][1..] == l[1..][..n] && r[..n + 1][1..] == r[1..][..n];
    }
  }

  /** At position `n` the first string ends, or has the smaller character. */
  predicate StringBreak(a: string, b: string, n: nat) {
    Agree(a, b, n) && (n == |a| < |b| || (n < |a| && n < |b| && a[n] < b[n]))
  }

  /** Strings: by the first character that differs, a prefix first. */
  lemma {:induction false} StringsLexicographic(a: string, b: string)
    ensures CompareStrings(a, b) == -1 <==> exists n: nat :: StringBreak(a, b, n)
  {
    assert StringBreak(a, b, 0) <==> b != [] && (a == [] || a[0] < b[0]);
    if a != [] && b != [] {
      StringsLexicographic(a[1..], b[1..]);
      if n: nat :| StringBreak(a, b, n) && n > 0 {
        AgreeNext(a, b, n - 1);
        assert StringBreak(a[1..], b[1..], n - 1);
      }
      if a[0] == b[0] {
        forall n: nat | StringBreak(a[1..], b[1..], n)
          ensures StringBreak(a, b, n + 1)
        {
          AgreeNext(a, b, n);
        }
      }
    }
  }

  /** At position `n` the first list ends, or has the smaller value. */
  predicate ListBreak(l: seq<Value>, r: seq<Value>, n: nat) {
    Agree(l, r, n) && (n == |l| < |r| || (n < |l| && n < |r| && CompareValues(l[n], r[n]) == -1))
  }

  /** Lists: by the first items that differ, a prefix first. */
  lemma {:induction false} ListsLexicographic(l: seq<Value>, r: seq<Value>)
    ensures CompareLists(l, r) == -1 <==> exists n: nat :: ListBreak(l, r, n)
  {
    assert ListBreak(l, r, 0) <==> r != [] && (l == [] || CompareValues(l[0], r[0]) == -1);
    if l != [] && r != [] {
      ValuesOrdered(l[0], r[0]);
      ListsLexicographic(l[1..], r[1..]);
      if n: nat :| ListBreak(l, r, n) && n > 0 {
        AgreeNext(l, r, n - 1);
        assert ListBreak(l[1..], r[1..], n - 1);
      }
      if l[0] == r[0] {
        forall n: nat | ListBreak(l[1..], r[1..], n)
          ensures ListBreak(l, r, n + 1)
        {
          AgreeNext(l, r, n);
        }
      }
    }
  }

  /** One field before another: by name, then by value. */
  predicate FieldLess(f: Field, g: Field) {
    CompareStrings(f.name, g.name) == -1 || (f.name == g.name && CompareValues(f.value, g.value) == -1)
  }

  /** At position `n` the first field list ends, or has the smaller field. */
  predicate FieldBreak(l: seq<Field>, r: seq<Field>, n: nat) {
    Agree(l, r, n) && (n == |l| < |r| || (n < |l| && n < |r| && FieldLess(l[n], r[n])))
  }

  /** Field lists: by the first fields that differ, a prefix first. */
  lemma {:induction false} FieldsLexicographic(l: seq<Field>, r: seq<Field>)
    ensures CompareFields(l, r) == -1 <==> exists n: nat :: FieldBreak(l, r, n)
  {
    assert FieldBreak(l, r, 0) <==> r != [] && (l == [] || FieldLess(l[0], r[0]));
    if l != [] && r != [] {
      StringsOrdered(l[0].name, r[0].name);
      ValuesOrdered(l[0].value, r[0].value);
      FieldsLexicographic(l[1..], r[1..]);
      if n: nat :| FieldBreak(l, r, n) && n > 0 {
        AgreeNext(l, r, n - 1);
        assert FieldBreak(l[1..], r[1..], n - 1);
      }
      if l[0] == r[0] {
        forall n: nat | FieldBreak(l[1..], r[1..], n)
          ensures FieldBreak(l, r, n + 1)
        {
          AgreeNext(l, r, n);
        }
      }
    }
  }

  /** A map's entries are compared in the order of their names, each name once. */
  lemma {:induction false} EntriesSorted(m: map<string, Value>)
    ensures var es := SortedEntries(m);
            |es| == |m| && (forall i, j | 0 <= i < j < |es| :: CompareStrings(es[i].name, es[j].name) == -1) &&
            forall k, x :: Field(k, x) in es <==> k in m && m[k] == x
    decreases |m|
  {
    if m != map[] {
      var k := FirstKey(m.Keys);
      var rest := m - {k};
      assert rest.Keys == m.Keys - {k};
      assert |rest| == |rest.Keys| < |m.Keys| == |m|;
      EntriesSorted(rest);
      var es := SortedEntries(rest);
      forall e | e in es
        ensures CompareStrings(k, e.name) == -1
      {
        assert e.name in rest;
      }
    }
  }

  /** The rank of a value's kind. */
  function KindRank(v: Value): nat {
    match v
    case Num(_) => 0
    case Str(_) => 1
    case Bool(_) => 2
    case List(_) => 3
    case Map(_) => 4
    case Null => 5
  }

  /** Values: by kind, and in a kind numbers by size, false before true, the others by their first difference. */
  lemma {:induction false} ValuesRanked(l: Value, r: Value)
    ensures KindRank(l) != KindRank(r) ==> (CompareValues(l, r) == -1 <==> KindRank(l) < KindRank(r))
    ensures l.Num? && r.Num? ==> (CompareValues(l, r) == -1 <==> l.n < r.n)
    ensures l.Str? && r.Str? ==> (CompareValues(l, r) == -1 <==> exists n: nat :: StringBreak(l.s, r.s, n))
    ensures l.Bool? && r.Bool? ==> (CompareValues(l, r) == -1 <==> !l.b && r.b)
    ensures l.List? && r.List? ==> (CompareValues(l, r) == -1 <==> exists n: nat :: ListBreak(l.items, r.items, n))
    ensures l.Map? && r.Map? ==>
              (CompareValues(l, r) == -1 <==> exists n: nat :: FieldBreak(SortedEntries(l.fields), SortedEntries(r.fields), n))
  {
    if l.Str? && r.Str? {
      StringsLexicographic(l.s, r.s);
    } else if l.List? && r.List? {
      ListsLexicographic(l.items, r.items);
    } else if l.Map? && r.Map? {
      ListedBelow(SortedEntries(l.fields), l);
      assert CompareValues(l, r) == CompareFields(SortedEntries(l.fields), SortedEntries(r.fields));
      FieldsLexicographic(SortedEntries(l.fields), SortedEntries(r.fields));
    }
  }

  function ElementRank(pe: PathElement): nat {
    match pe
    case FieldName(_) => 0
    case Key(_) => 1
    case Element(_) => 2
    case Index(_) => 3
    case NoElement => 4
  }

  /** Path elements: field names, keys, values, indices; names and keys by their first difference. */
  lemma {:induction false} ElementsRanked(a: PathElement, b: PathElement)
    ensures ElementRank(a) != ElementRank(b) ==> (Compare(a, b) == -1 <==> ElementRank(a) < ElementRank(b))
    ensures a.FieldName? && b.FieldName? ==> (Compare(a, b) == -1 <==> exists n: nat :: StringBreak(a.name, b.name, n))
    ensures a.Key? && b.Key? ==> (Compare(a, b) == -1 <==> exists n: nat :: FieldBreak(a.fields, b.fields, n))
    ensures a.Element? && b.Element? ==> Compare(a, b) == CompareValues(a.value, b.value)
    ensures a.Index? && b.Index? ==> (Compare(a, b) == -1 <==> a.index < b.index)
  {
    if a.FieldName? && b.FieldName? {
      StringsLexicographic(a.name, b.name);
    } else if a.Key? && b.Key? {
      FieldsLexicographic(a.fields, b.fields);
    }
  }
}
