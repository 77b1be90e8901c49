/** The keys of list items: what a path element says about the item it selects. */
module ListKeys {
  import opened Values
  import opened PathElements
  import opened Schemas

  /** The value an item has for a key: its own, or else the default. */
  function KeyValue(s: Schema, t: ListType, item: map<string, Value>, k: string): Option<Value> {
    if k in item then Some(item[k]) else KeyDefault(s, t, k)
  }

  lemma {:induction false} InsertKeeps(fs: seq<Field>, f: Field)
    ensures multiset(InsertField(fs, f)) == multiset(fs) + multiset{f}
  {
    if fs != [] {
      assert fs == [fs[0]] + fs[1..];
      InsertKeeps(fs[1..], f);
    }
  }

  /** Sorting the key fields loses none. */
  lemma {:induction false} SortKeeps(fs: seq<Field>)
    ensures multiset(SortFields(fs)) == multiset(fs)
  {
    if fs != [] {
      var n := |fs| - 1;
      assert fs == fs[..n] + [fs[n]];
      SortKeeps(fs[..n]);
      InsertKeeps(SortFields(fs[..n]), fs[n]);
    }
  }

  /** Key fields depend on the key values only. */
  lemma {:induction false} KeyFieldsDepend(s: Schema, t: ListType, keys: seq<string>, m: map<string, Value>, n: map<string, Value>)
    requires forall k | k in keys :: KeyValue(s, t, m, k) == KeyValue(s, t, n, k)
    ensures KeyFields(s, t, keys, m) == KeyFields(s, t, keys, n)
  {
    if keys != [] {
      assert keys[0] in keys;
      assert KeyValue(s, t, m, keys[0]) == KeyValue(s, t, n, keys[0]);
      KeyFieldsDepend(s, t, keys[1..], m, n);
    }
  }

  /** The key fields are the keys with their values. */
  lemma {:induction false} KeyFieldsHave(s: Schema, t: ListType, keys: seq<string>, m: map<string, Value>, f: Field)
    requires KeyFields(s, t, keys, m).Some?
    ensures f in KeyFields(s, t, keys, m).value <==> f.name in keys && KeyValue(s, t, m, f.name) == Some(f.value)
  {
    if keys != [] {
      assert keys[0] in keys;
      KeyFieldsHave(s, t, keys[1..], m, f);
    }
  }

  /** Every key of an item with a path element has a value. */
  lemma {:induction false} HasKey(s: Schema, t: ListType, keys: seq<string>, m: map<string, Value>, k: string)
    requires KeyFields(s, t, keys, m).Some? && k in keys
    ensures KeyValue(s, t, m, k).Some?
  {
    if k != keys[0] {
      HasKey(s, t, keys[1..], m, k);
    }
  }

  /** Items with the same path element have the same key values. */
  lemma {:induction false} SameKeys(s: Schema, t: ListType, x: Value, y: Value, k: string)
    requires t.keys != [] && k in t.keys
    requires ItemElement(s, t, x).Some? && ItemElement(s, t, x) == ItemElement(s, t, y)
    ensures x.Map? && y.Map? && KeyValue(s, t, x.fields, k).Some?
    ensures KeyValue(s, t, x.fields, k) == KeyValue(s, t, y.fields, k)
  {
    var fx, fy := KeyFields(s, t, t.keys, x.fields).value, KeyFields(s, t, t.keys, y.fields).value;
    SortKeeps(fx);
    SortKeeps(fy);
    HasKey(s, t, t.keys, x.fields, k);
    var f := Field(k, KeyValue(s, t, x.fields, k).value);
    KeyFieldsHave(s, t, t.keys, x.fields, f);
    KeyFieldsHave(s, t, t.keys, y.fields, f);
    assert f in multiset(fx);
    assert f in multiset(fy);
  }

  /** The path element says that `k` has its default value. */
  predicate Defaulted(s: Schema, t: ListType, pe: PathElement, k: string) {
    pe.Key? && KeyDefault(s, t, k).Some? && Field(k, KeyDefault(s, t, k).value) in pe.fields
  }

  /** In terms of the item: the value of the key is its default. */
  lemma {:induction false} DefaultedIs(s: Schema, t: ListType, x: Value, k: string)
    requires t.keys != [] && k in t.keys && ItemElement(s, t, x).Some?
    ensures x.Map? && KeyValue(s, t, x.fields, k).Some? && ItemElement(s, t, x).value.Key?
    ensures Defaulted(s, t, ItemElement(s, t, x).value, k) <==> KeyValue(s, t, x.fields, k) == KeyDefault(s, t, k)
  {
    var fs := KeyFields(s, t, t.keys, x.fields).value;
    HasKey(s, t, t.keys, x.fields, k);
    SortKeeps(fs);
    if KeyDefault(s, t, k).Some? {
      var f := Field(k, KeyDefault(s, t, k).value);
      KeyFieldsHave(s, t, t.keys, x.fields, f);
      assert f in SortFields(fs) <==> f in multiset(SortFields(fs));
      assert f in fs <==> f in multiset(fs);
    }
  }
}
