/** The validating walk: it finds an error exactly if the value does not conform to its type. */
module ValidateWalk {
  import opened Values
  import opened PathElements
  import opened Schemas
  import opened Merging
  import E = ElementSets
  import opened MergeWalk

  /** `TypedValue.Validate`. */
  method Validate(s: Schema, tr: TypeRef, v: Value, allowDuplicates: bool) returns (ok: bool)
    ensures ok <==> Valid(s, tr, v, allowDuplicates)
    decreases v, 3
  {
    var a := Resolve(s, tr);
    if a.None? {
      return false;
    }
    ok := HandleAtom(s, DeduceAtom(a.value, Some(v)), v, allowDuplicates);
  }

  method HandleAtom(s: Schema, a: Atom, v: Value, allowDuplicates: bool) returns (ok: bool)
    ensures ok <==> ValidAtom(s, a, v, allowDuplicates)
    decreases v, 2
  {
    if a.mapping.Some? {
      if v.Null? {
        return true;
      }
      if !v.Map? {
        return false;
      }
      ok := VisitMapItems(s, a.mapping.value, v, allowDuplicates);
    } else if a.scalar.Some? {
      ok := ValidScalar(a.scalar.value, Some(v));
    } else if a.list.Some? {
      if v.Null? {
        return true;
      }
      if !v.List? {
        return false;
      }
      ok := VisitListItems(s, a.list.value, v, allowDuplicates);
      assert Indexable(s, a.list.value, v.items, allowDuplicates) <==>
             (forall x | x in v.items :: ItemElement(s, a.list.value, x).Some?) &&
             (allowDuplicates || Distinct(Elements(s, a.list.value, v.items)));
    } else {
      ok := false;
    }
  }

  /** The field is declared or the map takes any field, and its value is valid. */
  ghost predicate FieldOk(s: Schema, t: MapType, v: Value, k: string, dups: bool)
    requires v.Map? && k in v.fields
  {
    (k in t.fields || t.elementType != NO_TYPE) && Valid(s, FieldType(t, k), v.fields[k], dups)
  }

  /** Stops at the first field that the map does not have. */
  method VisitMapItems(s: Schema, t: MapType, v: Value, allowDuplicates: bool) returns (ok: bool)
    requires v.Map?
    ensures ok <==> forall k | k in v.fields :: FieldOk(s, t, v, k, allowDuplicates)
    decreases v, 1
  {
    ok := true;
    var todo := v.fields.Keys;
    while todo != {}
      invariant todo <= v.fields.Keys
      invariant ok <==> forall k | k in v.fields && k !in todo :: FieldOk(s, t, v, k, allowDuplicates)
      decreases |todo|
    {
      var k :| k in todo;
      if k !in t.fields && t.elementType == NO_TYPE {
        assert !FieldOk(s, t, v, k, allowDuplicates);
        return false;
      }
      var item := Validate(s, FieldType(t, k), v.fields[k], allowDuplicates);
      assert item <==> FieldOk(s, t, v, k, allowDuplicates);
      ok := ok && item;
      todo := todo - {k};
    }
  }

  /** Remembers the keys seen; stops at the first item without a path element. */
  method VisitListItems(s: Schema, t: ListType, v: Value, allowDuplicates: bool) returns (ok: bool)
    requires v.List?
    ensures ok <==>
            (forall x | x in v.items :: Valid(s, t.elementType, x, allowDuplicates)) &&
            (t.relationship.Associative? ==> Indexable(s, t, v.items, allowDuplicates))
    decreases v, 1
  {
    ok := true;
    var observed: seq<PathElement> := [];
    var items := v.items;
    for i := 0 to |items|
      invariant E.Sorted(observed)
      invariant t.relationship.Associative? ==> forall pe :: pe in observed <==> pe in Elements(s, t, items[..i])
      invariant ok <==> PrefixOk(s, t, items, i, allowDuplicates)
    {
      NextItem(s, t, items, i, allowDuplicates);
      if t.relationship.Associative? {
        var pe := ItemElement(s, t, items[i]);
        if pe.None? {
          assert items[i] in items && !Indexable(s, t, items, allowDuplicates);
          return false;
        }
        var has := E.Has(observed, pe.value);
        if has && !allowDuplicates {
          ok := false;
        }
        ghost var before := observed;
        observed := E.Insert(observed, pe.value);
        assert forall q :: q in observed <==> q in before || q == pe.value by {
          assert forall q :: (q in observed <==> q in E.AsSet(observed)) && (q in before <==> q in E.AsSet(before));
        }
      }
      var item := Validate(s, t.elementType, items[i], allowDuplicates);
      ok := ok && item;
    }
    assert items[..|items|] == items;
  }

  ghost predicate PrefixOk(s: Schema, t: ListType, items: seq<Value>, i: nat, dups: bool)
    requires i <= |items|
  {
    (forall x | x in items[..i] :: Valid(s, t.elementType, x, dups)) &&
    (t.relationship.Associative? ==> Indexable(s, t, items[..i], dups))
  }
}
