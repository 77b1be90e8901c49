/** Removing two sets one after the other, on any schema. */
module RemoveFusion {
  import opened Values
  import opened PathElements
  import opened Schemas
  import opened Removing

  /** Removing `paths` leaves every kept list item with the path element it had. */
  predicate KeysStay(s: Schema, tr: TypeRef, v: Value, paths: PathSet)
    decreases v, 1
  {
    var a := Resolve(s, tr);
    a.None? || KeysStayAtom(s, DeduceAtom(a.value, Some(v)), v, paths)
  }

  predicate KeysStayAtom(s: Schema, a: Atom, v: Value, paths: PathSet)
    decreases v, 0
  {
    if a.mapping.Some? then
      v.Map? && !a.mapping.value.relationship.Atomic? ==>
        forall k | k in v.fields && [FieldName(k)] !in paths ::
          KeysStay(s, FieldType(a.mapping.value, k), v.fields[k], Below(paths, FieldName(k)))
    else
      a.scalar.None? && a.list.Some? && v.List? && !a.list.value.relationship.Atomic? ==>
        forall x | x in v.items && [ElementOf(s, a.list.value, x)] !in paths ::
          var t := a.list.value;
          var sub := Below(paths, ElementOf(s, t, x));
          KeysStay(s, t.elementType, x, sub) &&
          (sub != {} ==> ElementOf(s, t, Remove(s, t.elementType, x, sub)) == ElementOf(s, t, x))
  }

  lemma {:induction false} BelowUnion(a: PathSet, b: PathSet, pe: PathElement)
    ensures Below(a + b, pe) == Below(a, pe) + Below(b, pe)
    ensures Below(a, pe) == {} ==> Below(a + b, pe) == Below(b, pe)
    ensures Below(b, pe) == {} ==> Below(a + b, pe) == Below(a, pe)
    ensures Below(a, pe) != {} || Below(b, pe) != {} ==> Below(a + b, pe) != {}
  {
    assert Below(a + b, pe) == Below(a, pe) + Below(b, pe);
    if Below(a, pe) != {} {
      var p :| p in Below(a, pe);
      assert p in Below(a + b, pe);
    }
    if Below(b, pe) != {} {
      var p :| p in Below(b, pe);
      assert p in Below(a + b, pe);
    }
  }

  /** Removing `a` and then `b` is removing their union. */
  lemma {:induction false} RemoveFuses(s: Schema, tr: TypeRef, v: Value, a: PathSet, b: PathSet)
    requires KeysStay(s, tr, v, a)
    ensures Remove(s, tr, Remove(s, tr, v, a), b) == Remove(s, tr, v, a + b)
    decreases v, 2
  {
    if Resolve(s, tr).Some? {
      var atom := Resolve(s, tr).value;
      var d := DeduceAtom(atom, Some(v));
      AtomFuses(s, d, v, a, b);
      var w := Remove(s, tr, v, a);
      if w == Null {
        assert WalkAtom(s, atom, Null, b, false) == Null;
      } else {
        assert DeduceAtom(atom, Some(w)) == d;
      }
    }
  }

  lemma {:induction false} AtomFuses(s: Schema, d: Atom, v: Value, a: PathSet, b: PathSet)
    requires KeysStayAtom(s, d, v, a)
    ensures WalkAtom(s, d, WalkAtom(s, d, v, a, false), b, false) == WalkAtom(s, d, v, a + b, false)
    decreases v, 1
  {
    if d.mapping.Some? && v.Map? {
      MapFuses(s, d, v, a, b);
    } else if d.mapping.None? && d.scalar.None? && d.list.Some? && v.List? {
      if !d.list.value.relationship.Atomic? {
        ItemsFuse(s, d.list.value, v.items, a, b);
      }
    }
  }

  lemma {:induction false} FieldFuses(s: Schema, t: MapType, k: string, x: Value, a: PathSet, b: PathSet)
    requires [FieldName(k)] !in a ==> KeysStay(s, FieldType(t, k), x, Below(a, FieldName(k)))
    ensures var y := WalkField(s, t, k, x, a, false);
            WalkField(s, t, k, x, a + b, false) == if y.None? then None else WalkField(s, t, k, y.value, b, false)
    decreases x, 4
  {
    var pe := FieldName(k);
    BelowUnion(a, b, pe);
    if [pe] !in a {
      RemoveFuses(s, FieldType(t, k), x, Below(a, pe), Below(b, pe));
    }
  }

  lemma {:induction false} MapFuses(s: Schema, d: Atom, v: Value, a: PathSet, b: PathSet)
    requires KeysStayAtom(s, d, v, a) && d.mapping.Some? && v.Map?
    ensures WalkAtom(s, d, WalkAtom(s, d, v, a, false), b, false) == WalkAtom(s, d, v, a + b, false)
    decreases v, 0
  {
    var t := d.mapping.value;
    if !t.relationship.Atomic? && v.fields != map[] {
      var ma := map k | k in v.fields && WalkField(s, t, k, v.fields[k], a, false).Some? :: WalkField(s, t, k, v.fields[k], a, false).value;
      var w := WalkAtom(s, d, v, a, false);
      assert w == if ma == map[] then Null else Map(ma);
      var mb := map k | k in v.fields && WalkField(s, t, k, v.fields[k], a + b, false).Some?
                  :: WalkField(s, t, k, v.fields[k], a + b, false).value;
      forall k | k in v.fields
        ensures k in mb ==> k in ma
        ensures k in ma ==> WalkField(s, t, k, ma[k], b, false) == WalkField(s, t, k, v.fields[k], a + b, false)
      {
        FieldFuses(s, t, k, v.fields[k], a, b);
      }
      if ma != map[] {
        var mc := map k | k in w.fields && WalkField(s, t, k, w.fields[k], b, false).Some? :: WalkField(s, t, k, w.fields[k], b, false).value;
        assert mc == mb;
      } else {
        assert mb == map[];
      }
    }
  }

  lemma {:induction false} ItemsFuse(s: Schema, t: ListType, items: seq<Value>, a: PathSet, b: PathSet)
    requires KeysStayAtom(s, Atom(None, Some(t), None), List(items), a) && !t.relationship.Atomic?
    ensures WalkItems(s, t, WalkItems(s, t, items, a, false), b, false) == WalkItems(s, t, items, a + b, false)
    decreases items, 0
  {
    if items != [] {
      var x, pe := items[0], ElementOf(s, t, items[0]);
      ItemsFuse(s, t, items[1..], a, b);
      BelowUnion(a, b, pe);
      if [pe] !in a {
        assert x in List(items).items;
        RemoveFuses(s, t.elementType, x, Below(a, pe), Below(b, pe));
        var y := if Below(a, pe) == {} then x else Remove(s, t.elementType, x, Below(a, pe));
        assert WalkItems(s, t, items, a, false) == [y] + WalkItems(s, t, items[1..], a, false);
        assert WalkItem(s, t, y, b, false) == WalkItem(s, t, x, a + b, false);
      } else {
        assert WalkItems(s, t, items, a, false) == WalkItems(s, t, items[1..], a, false);
      }
    }
  }
}
