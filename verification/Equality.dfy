/** Equality of values, field lists and path elements, decided without ordering them. */
module Equality {
  import opened Values
  import opened PathElements
  import opened Ordering

  /** `EqualsUsing`: kind by kind, with numbers compared as numbers. */
  method ValuesEqual(l: Value, r: Value) returns (equal: bool)
    ensures equal <==> CompareValues(l, r) == 0
    ensures equal <==> l == r
    decreases Height(l), 0
  {
    ValuesOrdered(l, r);
    if l.Num? || r.Num? {
      return l.Num? && r.Num? && l.n == r.n;
    }
    if l.Str? {
      return r.Str? && l.s == r.s;
    } else if r.Str? {
      return false;
    }
    if l.Bool? {
      return r.Bool? && l.b == r.b;
    } else if r.Bool? {
      return false;
    }
    if l.List? {
      if r.List? {
        equal := ListsEqual(l.items, r.items);
        return;
      }
      return false;
    } else if r.List? {
      return false;
    }
    if l.Map? {
      if r.Map? {
        equal := MapsEqual(l.fields, r.fields);
        return;
      }
      return false;
    } else if r.Map? {
      return false;
    }
    equal := true;
  }

  /** `ListEqualsUsing`: the same length, and equal items at every index. */
  method ListsEqual(l: seq<Value>, r: seq<Value>) returns (equal: bool)
    ensures equal <==> CompareValues(List(l), List(r)) == 0
    ensures equal <==> l == r
    decreases SeqHeight(l), 1
  {
    ValuesOrdered(List(l), List(r));
    if |l| != |r| {
      return false;
    }
    for i := 0 to |l|
      invariant forall j | 0 <= j < i :: l[j] == r[j]
    {
      ItemHeight(l, l[i]);
      var same := ValuesEqual(l[i], r[i]);
      if !same {
        return false;
      }
    }
    equal := true;
  }

  /** `MapEqualsUsing`: the same number of entries, and each with an equal one on the other side. */
  method MapsEqual(l: map<string, Value>, r: map<string, Value>) returns (equal: bool)
    ensures equal <==> CompareValues(Map(l), Map(r)) == 0
    ensures equal <==> l == r
    decreases Height(Map(l)), 0, 0
  {
    ValuesOrdered(Map(l), Map(r));
    if |l| != |r| {
      return false;
    }
    var todo := l.Keys + r.Keys;
    while todo != {}
      invariant todo <= l.Keys + r.Keys
      invariant forall k | k in l.Keys + r.Keys && k !in todo :: k in l && k in r && l[k] == r[k]
      decreases |todo|
    {
      var k :| k in todo;
      if k !in l || k !in r {
        return false;
      }
      FieldHeight(Map(l), l.Keys, k);
      var same := ValuesEqual(l[k], r[k]);
      if !same {
        return false;
      }
      todo := todo - {k};
    }
    equal := true;
  }

  /** `FieldList.Equals`: the same length, and equal names and values at every index. */
  method FieldListsEqual(l: seq<Field>, r: seq<Field>) returns (equal: bool)
    ensures equal <==> CompareFields(l, r) == 0
    ensures equal <==> l == r
  {
    FieldsOrdered(l, r);
    if |l| != |r| {
      return false;
    }
    for i := 0 to |l|
      invariant forall j | 0 <= j < i :: l[j] == r[j]
    {
      if l[i].name != r[i].name {
        return false;
      }
      var same := ValuesEqual(l[i].value, r[i].value);
      if !same {
        return false;
      }
    }
    equal := true;
  }

  /** `PathElement.Equals`: kind by kind. */
  method ElementsEqual(a: PathElement, b: PathElement) returns (equal: bool)
    ensures equal <==> Compare(a, b) == 0
    ensures equal <==> a == b
  {
    Ordered(a, b);
    if a.FieldName? {
      return b.FieldName? && a.name == b.name;
    } else if b.FieldName? {
      return false;
    }
    if a.Key? {
      if b.Key? {
        equal := FieldListsEqual(a.fields, b.fields);
        return;
      }
      return false;
    } else if b.Key? {
      return false;
    }
    if a.Element? {
      if b.Element? {
        equal := ValuesEqual(a.value, b.value);
        return;
      }
      return false;
    } else if b.Element? {
      return false;
    }
    if a.Index? {
      return b.Index? && a.index == b.index;
    } else if b.Index? {
      return false;
    }
    equal := true;
  }

  /** `PathElementSet.Equals`: the same length, and equal members at every index. */
  method MembersEqual(l: seq<PathElement>, r: seq<PathElement>) returns (equal: bool)
    ensures equal <==> l == r
  {
    if |l| != |r| {
      return false;
    }
    for i := 0 to |l|
      invariant forall j | 0 <= j < i :: l[j] == r[j]
    {
      var same := ElementsEqual(l[i], r[i]);
      if !same {
        return false;
      }
    }
    equal := true;
  }
}
