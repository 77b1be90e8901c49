/** The loops that order maps, lists and field lists, and that build list keys. */
module ValueLoops {
  import opened Values
  import opened PathElements
  import opened Ordering
  import opened Schemas
  import ListKeys

  /** The keys in order, as a library sort leaves them. */
  function SortedKeys(keys: set<string>): (ks: seq<string>)
    ensures |ks| == |keys|
    decreases |keys|
  {
    if keys == {} then []
    else
      var k := FirstKey(keys);
      [k] + SortedKeys(keys - {k})
  }

  /** A key that comes first in a set comes first in any subset that has it. */
  lemma {:induction false} FirstOfSubset(all: set<string>, some: set<string>)
    requires some <= all && all != {} && FirstKey(all) in some
    ensures FirstKey(some) == FirstKey(all)
  {
    FirstUnique(some, FirstKey(some), FirstKey(all));
  }

  /** How two maps compare at the first key of their union. */
  lemma {:induction false} CompareAtFirst(l: map<string, Value>, r: map<string, Value>)
    requires l.Keys + r.Keys != {}
    ensures var k, c := FirstKey(l.Keys + r.Keys), CompareFields(SortedEntries(l), SortedEntries(r));
            if l == map[] then c == -1
            else if r == map[] then c == 1
            else if k !in l then c == 1
            else if k !in r then c == -1
            else c == if CompareValues(l[k], r[k]) != 0 then CompareValues(l[k], r[k])
                      else CompareFields(SortedEntries(l - {k}), SortedEntries(r - {k}))
  {
    var k := FirstKey(l.Keys + r.Keys);
    if l != map[] && r != map[] {
      var lk, rk := FirstKey(l.Keys), FirstKey(r.Keys);
      StringsOrdered(lk, rk);
      if k in l {
        FirstOfSubset(l.Keys + r.Keys, l.Keys);
      }
      if k in r {
        FirstOfSubset(l.Keys + r.Keys, r.Keys);
      }
      assert SortedEntries(l) == [Field(lk, l[lk])] + SortedEntries(l - {lk});
      assert SortedEntries(r) == [Field(rk, r[rk])] + SortedEntries(r - {rk});
      assert SortedEntries(l)[1..] == SortedEntries(l - {lk}) && SortedEntries(r)[1..] == SortedEntries(r - {rk});
    }
  }

  /** What is left of a map when some keys have been passed. */
  ghost predicate Remains(m: map<string, Value>, rest: map<string, Value>, keys: set<string>, i: nat) {
    |rest| + i == |m| && rest.Keys <= keys &&
    (forall k | k in keys :: k in m <==> k in rest) && (forall k | k in rest :: k in m && m[k] == rest[k])
  }

  lemma {:induction false} RemainsNext(m: map<string, Value>, rest: map<string, Value>, keys: set<string>, i: nat, k: string)
    requires Remains(m, rest, keys, i) && k in rest
    ensures Remains(m, rest - {k}, keys - {k}, i + 1)
  {
    assert (rest - {k}).Keys == rest.Keys - {k};
    assert |rest - {k}| == |(rest - {k}).Keys| == |rest.Keys| - 1 == |rest| - 1;
  }

  /** What the next key decides, in terms of the whole maps and the number of keys passed. */
  lemma {:induction false} CompareRound(l: map<string, Value>, r: map<string, Value>, lr: map<string, Value>, rr: map<string, Value>, i: nat, k: string)
    requires lr.Keys + rr.Keys != {} && k == FirstKey(lr.Keys + rr.Keys)
    requires Remains(l, lr, lr.Keys + rr.Keys, i) && Remains(r, rr, lr.Keys + rr.Keys, i)
    ensures var c := CompareFields(SortedEntries(lr), SortedEntries(rr));
            if i == |l| then c == -1
            else if i == |r| then c == 1
            else if k !in l then c == 1
            else if k !in r then c == -1
            else
              (CompareValues(l[k], r[k]) != 0 ==> c == CompareValues(l[k], r[k])) &&
              (CompareValues(l[k], r[k]) == 0 ==> c == CompareFields(SortedEntries(lr - {k}), SortedEntries(rr - {k}))) &&
              (lr - {k}).Keys + (rr - {k}).Keys == lr.Keys + rr.Keys - {k} &&
              Remains(l, lr - {k}, lr.Keys + rr.Keys - {k}, i + 1) && Remains(r, rr - {k}, lr.Keys + rr.Keys - {k}, i + 1)
  {
    CompareAtFirst(lr, rr);
    assert i == |l| <==> |lr| == 0;
    assert i == |r| <==> |rr| == 0;
    assert (|lr| == 0 <==> lr == map[]) && (|rr| == 0 <==> rr == map[]);
    if k in l && k in r {
      RemainsNext(l, lr, lr.Keys + rr.Keys, i, k);
      RemainsNext(r, rr, lr.Keys + rr.Keys, i, k);
    }
  }

  lemma {:induction false} NextKey(ordered: seq<string>, i: nat, keys: set<string>)
    requires i < |ordered| && ordered[i..] == SortedKeys(keys)
    ensures keys != {} && ordered[i] == FirstKey(keys) && ordered[i + 1..] == SortedKeys(keys - {ordered[i]})
  {
    assert ordered[i..][0] == ordered[i] && ordered[i..][1..] == ordered[i + 1..];
  }

  /** `MapCompare`: zips the maps by sorted key with a step counter, and stops at the first difference. */
  method CompareMaps(l: map<string, Value>, r: map<string, Value>) returns (c: Sign)
    ensures c == CompareValues(Map(l), Map(r))
  {
    c := 0;
    if |l| == 0 && |r| == 0 {
      assert l == map[] && r == map[];
      return;
    }
    ghost var lr, rr := l, r;
    var ordered := SortedKeys(l.Keys + r.Keys);
    assert ordered[0..] == ordered;
    var i := 0;
    while i < |ordered| && c == 0
      invariant 0 <= i <= |ordered|
      invariant c != 0 ==> c == CompareValues(Map(l), Map(r))
      invariant c == 0 ==> CompareValues(Map(l), Map(r)) == CompareFields(SortedEntries(lr), SortedEntries(rr))
      invariant c == 0 ==> ordered[i..] == SortedKeys(lr.Keys + rr.Keys)
      invariant c == 0 ==> Remains(l, lr, lr.Keys + rr.Keys, i) && Remains(r, rr, lr.Keys + rr.Keys, i)
      decreases |ordered| - i
    {
      var key := ordered[i];
      NextKey(ordered, i, lr.Keys + rr.Keys);
      CompareRound(l, r, lr, rr, i, key);
      if i == |l| {
        c := -1;
      } else if i == |r| {
        c := 1;
      } else if key !in l {
        c := 1;
      } else if key !in r {
        c := -1;
      } else {
        c := CompareValues(l[key], r[key]);
        lr, rr := lr - {key}, rr - {key};
      }
      i := i + 1;
    }
    if c == 0 {
      assert ordered[i..] == [] && lr.Keys + rr.Keys == {};
      assert lr == map[] && rr == map[];
    }
  }

  /** `ListCompare`. */
  method CompareItems(l: seq<Value>, r: seq<Value>) returns (c: Sign)
    ensures c == CompareValues(List(l), List(r))
  {
    var i := 0;
    assert l[0..] == l && r[0..] == r;
    while true
      invariant 0 <= i <= |l| && i <= |r|
      invariant CompareLists(l, r) == CompareLists(l[i..], r[i..])
      decreases |l| - i
    {
      if i >= |l| && i >= |r| {
        return 0;
      }
      if i >= |l| {
        return -1;
      }
      if i >= |r| {
        return 1;
      }
      assert l[i..][0] == l[i] && r[i..][0] == r[i] && l[i..][1..] == l[i + 1..] && r[i..][1..] == r[i + 1..];
      c := CompareValues(l[i], r[i]);
      if c != 0 {
        return;
      }
      i := i + 1;
    }
  }

  /** `FieldList.Compare`. */
  method CompareFieldLists(l: seq<Field>, r: seq<Field>) returns (c: Sign)
    ensures c == Compare(Key(l), Key(r))
  {
    var i := 0;
    assert l[0..] == l && r[0..] == r;
    while true
      invariant 0 <= i <= |l| && i <= |r|
      invariant CompareFields(l, r) == CompareFields(l[i..], r[i..])
      decreases |l| - i
    {
      if i >= |l| && i >= |r| {
        return 0;
      }
      if i >= |l| {
        return -1;
      }
      if i >= |r| {
        return 1;
      }
      assert l[i..][0] == l[i] && r[i..][0] == r[i] && l[i..][1..] == l[i + 1..] && r[i..][1..] == r[i + 1..];
      c := CompareStrings(l[i].name, r[i].name);
      if c != 0 {
        return;
      }
      c := CompareValues(l[i].value, r[i].value);
      if c != 0 {
        return;
      }
      i := i + 1;
    }
  }

  /** Sorted by name. */
  predicate ByName(fs: seq<Field>) {
    forall i, j | 0 <= i < j < |fs| :: CompareStrings(fs[j].name, fs[i].name) != -1
  }

  /** `FieldList.Sort` orders the fields by name, loses none, and keeps fields of one name in order. */
  lemma {:induction false} SortSorts(fs: seq<Field>, n: string)
    ensures ByName(SortFields(fs)) && multiset(SortFields(fs)) == multiset(fs)
    ensures Named(SortFields(fs), n) == Named(fs, n)
  {
    ListKeys.SortKeeps(fs);
    SortOrders(fs, n);
  }

  lemma {:induction false} SortOrders(fs: seq<Field>, n: string)
    ensures ByName(SortFields(fs)) && Named(SortFields(fs), n) == Named(fs, n)
    decreases |fs|
  {
    if fs != [] {
      var front, f := fs[..|fs| - 1], fs[|fs| - 1];
      SortOrders(front, n);
      InsertSorts(SortFields(front), f);
      NamedPush(front, f, n);
      InsertNamed(SortFields(front), f, n);
      assert fs == front + [f];
    }
  }

  /** The fields of one name, in order. */
  function Named(fs: seq<Field>, n: string): seq<Field> {
    if fs == [] then [] else (if fs[0].name == n then [fs[0]] else []) + Named(fs[1..], n)
  }

  lemma {:induction false} NamedPush(fs: seq<Field>, f: Field, n: string)
    ensures Named(fs + [f], n) == Named(fs, n) + if f.name == n then [f] else []
  {
    if fs == [] {
      assert (fs + [f])[1..] == [];
    } else {
      NamedPush(fs[1..], f, n);
      assert (fs + [f])[1..] == fs[1..] + [f];
      assert Named(fs + [f], n) == (if fs[0].name == n then [fs[0]] else []) + Named(fs[1..] + [f], n);
    }
  }

  lemma {:induction false} InsertSorts(fs: seq<Field>, f: Field)
    requires ByName(fs)
    ensures ByName(InsertField(fs, f))
  {
    if fs != [] && CompareStrings(f.name, fs[0].name) >= 0 {
      InsertSorts(fs[1..], f);
      ListKeys.InsertKeeps(fs[1..], f);
      HeadByName(fs, f, InsertField(fs[1..], f));
    } else if fs != [] {
      BeforeAll(fs, f);
    }
  }

  lemma {:induction false} InsertNamed(fs: seq<Field>, f: Field, n: string)
    requires ByName(fs)
    ensures Named(InsertField(fs, f), n) == Named(fs, n) + if f.name == n then [f] else []
  {
    if fs != [] && CompareStrings(f.name, fs[0].name) >= 0 {
      InsertNamed(fs[1..], f, n);
      assert InsertField(fs, f)[1..] == InsertField(fs[1..], f);
    } else {
      if fs != [] {
        BeforeAll(fs, f);
      }
      assert ([f] + fs)[1..] == fs;
    }
  }

  lemma {:induction false} BeforeAll(fs: seq<Field>, f: Field)
    requires ByName(fs) && fs != [] && CompareStrings(f.name, fs[0].name) == -1
    ensures ByName([f] + fs)
    ensures Named(fs, f.name) == []
  {
    forall j | 0 <= j < |fs|
      ensures CompareStrings(f.name, fs[j].name) == -1
    {
      if j > 0 {
        StringsOrdered(fs[0].name, fs[j].name);
        if fs[0].name != fs[j].name {
          StringsTransitive(f.name, fs[0].name, fs[j].name);
        }
      }
      StringsOrdered(f.name, fs[j].name);
    }
    forall j | 0 <= j < |fs|
      ensures CompareStrings(fs[j].name, f.name) == 1
    {
      StringsOrdered(f.name, fs[j].name);
    }
    NoneNamed(fs, f.name);
  }

  lemma {:induction false} NoneNamed(fs: seq<Field>, n: string)
    requires forall j | 0 <= j < |fs| :: CompareStrings(n, fs[j].name) == -1
    ensures Named(fs, n) == []
  {
    if fs != [] {
      StringsOrdered(n, fs[0].name);
      assert forall j | 0 <= j < |fs[1..]| :: fs[1..][j] == fs[j + 1];
      NoneNamed(fs[1..], n);
    }
  }

  lemma {:induction false} HeadByName(fs: seq<Field>, f: Field, rest: seq<Field>)
    requires fs != [] && ByName(fs) && ByName(rest) && multiset(rest) == multiset(fs[1..]) + multiset{f}
    requires CompareStrings(f.name, fs[0].name) >= 0
    ensures ByName([fs[0]] + rest)
  {
    forall j | 0 <= j < |rest|
      ensures CompareStrings(rest[j].name, fs[0].name) != -1
    {
      assert rest[j] in multiset(rest);
      if rest[j] != f {
        assert rest[j] in multiset(fs[1..]);
        var i :| 0 <= i < |fs[1..]| && fs[1..][i] == rest[j];
        assert fs[i + 1] == rest[j];
      }
    }
  }

  /** `FieldList.Sort` in place: the shortcut for two fields agrees with the stable library sort. */
  method SortInPlace(a: array<Field>)
    modifies a
    ensures a[..] == SortFields(old(a[..]))
  {
    ghost var before := a[..];
    if a.Length < 2 {
      SortFew(before);
      return;
    }
    if a.Length == 2 {
      SortTwo(before);
      if CompareStrings(a[1].name, a[0].name) < 0 {
        a[0], a[1] := a[1], a[0];
      }
      assert a[..] == [a[0], a[1]];
      return;
    }
    var sorted := SortFields(a[..]);
    SortLength(a[..]);
    forall i | 0 <= i < a.Length {
      a[i] := sorted[i];
    }
  }

  lemma {:induction false} SortLength(fs: seq<Field>)
    ensures |SortFields(fs)| == |fs|
  {
    ListKeys.SortKeeps(fs);
    assert |multiset(SortFields(fs))| == |multiset(fs)|;
  }

  lemma {:induction false} SortFew(fs: seq<Field>)
    requires |fs| < 2
    ensures SortFields(fs) == fs
  {
    if |fs| == 1 {
      assert fs[..0] == [] && SortFields(fs[..0]) == [];
      assert fs == [fs[0]];
    }
  }

  lemma {:induction false} SortTwo(fs: seq<Field>)
    requires |fs| == 2
    ensures SortFields(fs) == if CompareStrings(fs[1].name, fs[0].name) < 0 then [fs[1], fs[0]] else fs
  {
    SortFew(fs[..1]);
    assert fs[..1] == [fs[0]] && fs == [fs[0], fs[1]];
    assert [fs[0]][1..] == [];
    assert InsertField([fs[0]], fs[1]) ==
           if CompareStrings(fs[1].name, fs[0].name) < 0 then [fs[1]] + [fs[0]] else [fs[0]] + InsertField([], fs[1]);
  }

  /** `keyedAssociativeListItemToPathElement`: collects the keys of an item, or their defaults, and sorts them. */
  method KeyedItemElement(s: Schema, t: ListType, item: Value) returns (pe: Option<PathElement>)
    requires t.relationship.Associative? && t.keys != []
    ensures pe == ItemElement(s, t, item)
  {
    if !item.Map? {
      return None;
    }
    var keyMap: seq<Field> := [];
    assert t.keys[0..] == t.keys;
    Unprefixed(KeyFields(s, t, t.keys, item.fields));
    for i := 0 to |t.keys|
      invariant KeyFields(s, t, t.keys, item.fields) == Prepended(keyMap, KeyFields(s, t, t.keys[i..], item.fields))
    {
      var k := t.keys[i];
      assert t.keys[i..][0] == k && t.keys[i..][1..] == t.keys[i + 1..];
      var v := if k in item.fields then Some(item.fields[k]) else KeyDefault(s, t, k);
      if v.None? {
        return None;
      }
      PrependedNext(keyMap, Field(k, v.value), KeyFields(s, t, t.keys[i + 1..], item.fields));
      keyMap := keyMap + [Field(k, v.value)];
    }
    assert t.keys[|t.keys|..] == [] && keyMap + [] == keyMap;
    pe := Some(Key(SortFields(keyMap)));
  }

  ghost function Prepended(front: seq<Field>, rest: Option<seq<Field>>): Option<seq<Field>> {
    if rest.None? then None else Some(front + rest.value)
  }

  lemma {:induction false} Unprefixed(fs: Option<seq<Field>>)
    ensures Prepended([], fs) == fs
  {
    if fs.Some? {
      assert [] + fs.value == fs.value;
    }
  }

  lemma {:induction false} PrependedNext(front: seq<Field>, f: Field, rest: Option<seq<Field>>)
    ensures Prepended(front + [f], rest) == Prepended(front, if rest.None? then None else Some([f] + rest.value))
  {
    if rest.Some? {
      assert (front + [f]) + rest.value == front + ([f] + rest.value);
    }
  }
}
