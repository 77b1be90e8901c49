/** Which path element selects a list item. */
module ElementTheory {
  import opened Values
  import opened PathElements
  import opened Ordering
  import opened Schemas
  import opened ListKeys
  import ValueLoops

  /** The value of a key: the item's own, or else the default that the element type declares for the field. */
  predicate HasKeyValue(s: Schema, t: ListType, item: map<string, Value>, k: string, x: Value) {
    if k in item then item[k] == x
    else
      var e := Resolve(s, t.elementType);
      e.Some? && e.value.mapping.Some? && k in e.value.mapping.value.fields && e.value.mapping.value.fields[k].default == Some(x)
  }

  lemma {:induction false} KeyValueIs(s: Schema, t: ListType, item: map<string, Value>, k: string)
    ensures forall x :: HasKeyValue(s, t, item, k, x) <==> KeyValue(s, t, item, k) == Some(x)
  {
  }

  lemma {:induction false} KeyFieldsExist(s: Schema, t: ListType, keys: seq<string>, item: map<string, Value>)
    ensures KeyFields(s, t, keys, item).Some? <==> forall k | k in keys :: KeyValue(s, t, item, k).Some?
    ensures KeyFields(s, t, keys, item).Some? ==> |KeyFields(s, t, keys, item).value| == |keys|
  {
    if keys != [] {
      KeyFieldsExist(s, t, keys[1..], item);
      assert KeyFields(s, t, keys, item).Some? <==>
             KeyValue(s, t, item, keys[0]).Some? && KeyFields(s, t, keys[1..], item).Some?;
      assert keys[0] in keys && forall k :: k in keys <==> k == keys[0] || k in keys[1..];
    }
  }

  /** With keys: a map that has a value for each key, selected by these values sorted by name. */
  lemma {:induction false} KeyedElementIs(s: Schema, t: ListType, item: Value)
    requires t.relationship.Associative? && t.keys != []
    ensures var pe := ItemElement(s, t, item);
            (pe.Some? <==> item.Map? && forall k | k in t.keys :: exists x :: HasKeyValue(s, t, item.fields, k, x)) &&
            (pe.Some? ==>
               pe.value.Key? && |pe.value.fields| == |t.keys| &&
               (forall i, j | 0 <= i < j < |pe.value.fields| :: CompareStrings(pe.value.fields[i].name, pe.value.fields[j].name) <= 0) &&
               forall f :: f in pe.value.fields <==> f.name in t.keys && HasKeyValue(s, t, item.fields, f.name, f.value))
  {
    if item.Map? {
      KeyFieldsExist(s, t, t.keys, item.fields);
      forall k
        ensures (exists x :: HasKeyValue(s, t, item.fields, k, x)) <==> KeyValue(s, t, item.fields, k).Some?
      {
        KeyValueIs(s, t, item.fields, k);
        if KeyValue(s, t, item.fields, k).Some? {
          assert HasKeyValue(s, t, item.fields, k, KeyValue(s, t, item.fields, k).value);
        }
      }
      if ItemElement(s, t, item).Some? {
        SortedKeys(s, t, item.fields);
      }
    }
  }

  lemma {:induction false} SortedKeys(s: Schema, t: ListType, item: map<string, Value>)
    requires KeyFields(s, t, t.keys, item).Some?
    ensures var fs := SortFields(KeyFields(s, t, t.keys, item).value);
            |fs| == |t.keys| &&
            (forall i, j | 0 <= i < j < |fs| :: CompareStrings(fs[i].name, fs[j].name) <= 0) &&
            forall f :: f in fs <==> f.name in t.keys && HasKeyValue(s, t, item, f.name, f.value)
  {
    var ks := KeyFields(s, t, t.keys, item).value;
    var fs := SortFields(ks);
    KeyFieldsExist(s, t, t.keys, item);
    SortKeeps(ks);
    assert |fs| == |ks| by {
      assert |fs| == |multiset(fs)| && |ks| == |multiset(ks)|;
    }
    Increasing(ks);
    forall f
      ensures f in fs <==> f.name in t.keys && HasKeyValue(s, t, item, f.name, f.value)
    {
      SameMembers(fs, ks, f);
      KeyFieldsHave(s, t, t.keys, item, f);
      KeyValueIs(s, t, item, f.name);
    }
  }

  lemma {:induction false} SameMembers(fs: seq<Field>, ks: seq<Field>, f: Field)
    requires multiset(fs) == multiset(ks)
    ensures f in fs <==> f in ks
  {
    assert f in fs <==> f in multiset(fs);
    assert f in ks <==> f in multiset(ks);
  }

  lemma {:induction false} Increasing(ks: seq<Field>)
    ensures var fs := SortFields(ks);
            forall i, j | 0 <= i < j < |fs| :: CompareStrings(fs[i].name, fs[j].name) <= 0
  {
    var fs := SortFields(ks);
    ValueLoops.SortOrders(ks, "");
    forall i, j | 0 <= i < j < |fs|
      ensures CompareStrings(fs[i].name, fs[j].name) <= 0
    {
      StringsOrdered(fs[j].name, fs[i].name);
    }
  }

  /** Without keys: a scalar, selected by itself; other lists have no path elements. */
  lemma {:induction false} SetElementIs(s: Schema, t: ListType, item: Value)
    requires t.keys == []
    ensures ItemElement(s, t, item) ==
            if t.relationship.Associative? && (item.Num? || item.Str? || item.Bool?) then Some(Element(item)) else None
  {
  }
}
