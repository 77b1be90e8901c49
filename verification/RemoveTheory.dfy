/** Removing items on plain schemas: exactly the paths without a removed prefix survive. */
module RemoveTheory {
  import opened Values
  import opened PathElements
  import opened Schemas
  import opened Merging
  import opened Removing
  import opened RemoveFusion
  import opened PlainSetting
  import opened ItemTheory
  import opened ListMergeTheory

  /** The item that `pe` selects. */
  function Find(s: Schema, t: ListType, items: seq<Value>, pe: PathElement): Option<Value> {
    if items == [] then None
    else if ElementOf(s, t, items[0]) == pe then Some(items[0])
    else Find(s, t, items[1..], pe)
  }

  lemma {:induction false} FindIs(s: Schema, t: ListType, items: seq<Value>, pe: PathElement)
    ensures var ks := Elements(s, t, items);
            Find(s, t, items, pe) == if pe in ks then Some(items[IndexOf(ks, pe)]) else None
  {
    if items != [] {
      var ks := Elements(s, t, items);
      assert ks[1..] == Elements(s, t, items[1..]);
      FindIs(s, t, items[1..], pe);
    }
  }

  lemma {:induction false} ElementsCons(s: Schema, t: ListType, x: Value, rest: seq<Value>)
    ensures Elements(s, t, [x] + rest) == [ElementOf(s, t, x)] + Elements(s, t, rest)
  {
  }

  /** Every item that is kept keeps its path element. */
  predicate ItemsStay(s: Schema, t: ListType, items: seq<Value>, paths: PathSet) {
    forall x | x in items && [ElementOf(s, t, x)] !in paths ::
      ElementOf(s, t, Trim(s, t.elementType, x, Below(paths, ElementOf(s, t, x)))) == ElementOf(s, t, x)
  }

  /** Removal acts on list items one by one, by their path elements. */
  lemma {:induction false} KeptItems(s: Schema, t: ListType, items: seq<Value>, paths: PathSet, pe: PathElement)
    requires ItemsStay(s, t, items, paths)
    ensures var out := WalkItems(s, t, items, paths, false);
            Find(s, t, out, pe) ==
            if [pe] in paths || Find(s, t, items, pe).None? then None
            else Some(Trim(s, t.elementType, Find(s, t, items, pe).value, Below(paths, pe)))
  {
    if items != [] {
      KeptItems(s, t, items[1..], paths, pe);
      var x, rest := items[0], WalkItems(s, t, items[1..], paths, false);
      if [ElementOf(s, t, x)] !in paths {
        var y := Trim(s, t.elementType, x, Below(paths, ElementOf(s, t, x)));
        assert ElementOf(s, t, y) == ElementOf(s, t, x);
        assert WalkItems(s, t, items, paths, false) == [y] + rest;
        assert ([y] + rest)[1..] == rest;
      } else {
        assert WalkItems(s, t, items, paths, false) == rest;
      }
    }
  }

  /** What staying keys say about a list, and about a child. */
  lemma {:induction false} StayNode(s: Schema, tr: TypeRef, v: Value, paths: PathSet)
    requires Plain(s, tr) && KeysStay(s, tr, v, paths)
    ensures ShapeOf(s, tr).ListShape? && v.List? ==> ItemsStay(s, ShapeOf(s, tr).lt, v.items, paths)
  {
    PlainNode(s, tr);
  }

  lemma {:induction false} StayKid(s: Schema, tr: TypeRef, v: Value, paths: PathSet, pe: PathElement)
    requires Plain(s, tr) && Valid(s, tr, v, false) && KeysStay(s, tr, v, paths)
    requires Kid(s, tr, v, pe).Some? && [pe] !in paths
    ensures KeysStay(s, ChildType(s, tr, pe), Kid(s, tr, v, pe).value, Below(paths, pe))
  {
    PlainNode(s, tr);
    if ShapeOf(s, tr).ListShape? {
      ListElements(s, tr, v);
    }
  }

  /** A child of the remaining object. */
  lemma {:induction false} KeptKid(s: Schema, tr: TypeRef, v: Value, paths: PathSet, pe: PathElement)
    requires Plain(s, tr) && Valid(s, tr, v, false)
    requires ShapeOf(s, tr).ListShape? && v.List? ==> ItemsStay(s, ShapeOf(s, tr).lt, v.items, paths)
    ensures Kid(s, tr, Remove(s, tr, v, paths), pe) ==
            if [pe] in paths || Kid(s, tr, v, pe).None? then None
            else Some(Trim(s, ChildType(s, tr, pe), Kid(s, tr, v, pe).value, Below(paths, pe)))
  {
    PlainNode(s, tr);
    RemoveIsAtom(s, tr, v, paths);
    match ShapeOf(s, tr)
    case LeafShape =>
    case MapShape(t) =>
      if v.Map? {
        MapLeft(s, Resolve(s, tr).value, t, v, paths);
      }
    case ListShape(t) =>
      if v.List? && v.items != [] {
        KeptItems(s, t, v.items, paths, pe);
        FindIs(s, t, v.items, pe);
        FindIs(s, t, WalkItems(s, t, v.items, paths, false), pe);
      }
  }

  /** What remains is valid. */
  lemma {:induction false} KeptValid(s: Schema, tr: TypeRef, v: Value, paths: PathSet)
    requires Plain(s, tr) && Valid(s, tr, v, false) && KeysStay(s, tr, v, paths)
    ensures Valid(s, tr, Remove(s, tr, v, paths), false)
    decreases v, 1
  {
    PlainNode(s, tr);
    var a := Resolve(s, tr).value;
    RemoveIsAtom(s, tr, v, paths);
    StayNode(s, tr, v, paths);
    assert ValidAtom(s, a, v, false);
    var out := Remove(s, tr, v, paths);
    match ShapeOf(s, tr)
    case LeafShape =>
    case MapShape(t) =>
      if out.Map? {
        forall k | k in out.fields
          ensures Valid(s, FieldType(t, k), out.fields[k], false)
        {
          KidValid(s, tr, v, FieldName(k), false);
          if [FieldName(k)] !in paths {
            StayKid(s, tr, v, paths, FieldName(k));
          }
          KeptValid(s, FieldType(t, k), v.fields[k], Below(paths, FieldName(k)));
        }
      }
    case ListShape(t) =>
      if v.List? && v.items != [] {
        ListElements(s, tr, v);
        forall x | x in v.items && [ElementOf(s, t, x)] !in paths
          ensures Valid(s, t.elementType, Trim(s, t.elementType, x, Below(paths, ElementOf(s, t, x))), false)
        {
          KeptValid(s, t.elementType, x, Below(paths, ElementOf(s, t, x)));
        }
        KeptItemsValid(s, t, v.items, paths);
      }
    assert ValidAtom(s, a, out, false);
  }

  /** An element that no item has is not among those kept. */
  lemma {:induction false} NotKept(s: Schema, t: ListType, items: seq<Value>, paths: PathSet, pe: PathElement)
    requires ItemsStay(s, t, items, paths) && pe !in Elements(s, t, items)
    ensures pe !in Elements(s, t, WalkItems(s, t, items, paths, false))
  {
    KeptItems(s, t, items, paths, pe);
    FindIs(s, t, items, pe);
    FindIs(s, t, WalkItems(s, t, items, paths, false), pe);
  }

  /** If the kept items stay valid and keep their path elements, the list that is left is valid. */
  lemma {:induction false} KeptItemsValid(s: Schema, t: ListType, items: seq<Value>, paths: PathSet)
    requires ItemsStay(s, t, items, paths) && Distinct(Elements(s, t, items))
    requires forall x | x in items :: ItemElement(s, t, x).Some?
    requires forall x | x in items && [ElementOf(s, t, x)] !in paths ::
               Valid(s, t.elementType, Trim(s, t.elementType, x, Below(paths, ElementOf(s, t, x))), false)
    ensures var out := WalkItems(s, t, items, paths, false);
            (forall x | x in out :: Valid(s, t.elementType, x, false) && ItemElement(s, t, x).Some?) &&
            Distinct(Elements(s, t, out))
  {
    if items != [] {
      var ks, rest := Elements(s, t, items), WalkItems(s, t, items[1..], paths, false);
      assert ks[1..] == Elements(s, t, items[1..]);
      KeptItemsValid(s, t, items[1..], paths);
      if [ks[0]] !in paths {
        var y := Trim(s, t.elementType, items[0], Below(paths, ks[0]));
        assert WalkItems(s, t, items, paths, false) == [y] + rest;
        NotKept(s, t, items[1..], paths, ks[0]);
        ElementsCons(s, t, y, rest);
        DistinctCons(ks[0], Elements(s, t, rest));
      } else {
        assert WalkItems(s, t, items, paths, false) == rest;
      }
    }
  }

  /** The paths strictly below `p`. */
  function BelowPath(paths: PathSet, p: Path): PathSet
    decreases |p|
  {
    if p == [] then paths else BelowPath(Below(paths, p[0]), p[1..])
  }

  lemma {:induction false} NothingBelow(p: Path)
    ensures BelowPath({}, p) == {}
  {
    if p != [] {
      assert Below({}, p[0]) == {};
      NothingBelow(p[1..]);
    }
  }

  /** The node that remains at a path: none if a prefix was removed, else what is left of it. */
  lemma {:induction false} KeptAt(s: Schema, tr: TypeRef, v: Value, paths: PathSet, p: Path)
    requires Plain(s, tr) && Valid(s, tr, v, false) && KeysStay(s, tr, v, paths) && p != []
    ensures At(s, tr, Some(Remove(s, tr, v, paths)), p) ==
            if Covered(p, paths) || At(s, tr, Some(v), p).None? then None
            else Some(Trim(s, TypeAt(s, tr, p), At(s, tr, Some(v), p).value, BelowPath(paths, p)))
    decreases |p|
  {
    var pe, rest, ct, sub := p[0], p[1..], ChildType(s, tr, p[0]), Below(paths, p[0]);
    StayNode(s, tr, v, paths);
    KeptKid(s, tr, v, paths, pe);
    CoveredStep(p, paths);
    var k := Kid(s, tr, v, pe);
    if [pe] in paths || k.None? {
      AtNone(s, ct, rest);
    } else {
      KidValid(s, tr, v, pe, false);
      StayKid(s, tr, v, paths, pe);
      if sub == {} {
        NothingBelow(rest);
      } else if rest != [] {
        KeptAt(s, ct, k.value, sub, rest);
      }
    }
  }

  /** A removal takes nothing from a scalar, and all from an atomic container. */
  lemma {:induction false} LeafRemoved(s: Schema, tr: TypeRef, v: Value, paths: PathSet)
    requires Plain(s, tr) && ShapeOf(s, tr).LeafShape?
    ensures Remove(s, tr, v, paths) == if ScalarType(s, tr) then v else Null
  {
    PlainNode(s, tr);
    assert Remove(s, tr, v, paths) == WalkAtom(s, Resolve(s, tr).value, v, paths, false);
  }

  /** A leaf that is not removed itself stays as it is, unless something below an atomic container is removed; then null is left. */
  lemma {:induction false} LeafLeft(s: Schema, tr: TypeRef, v: Value, paths: PathSet, p: Path)
    requires Plain(s, tr) && Valid(s, tr, v, false) && KeysStay(s, tr, v, paths) && p != []
    requires At(s, tr, Some(v), p).Some? && !Covered(p, paths) && ShapeOf(s, TypeAt(s, tr, p)).LeafShape?
    ensures At(s, tr, Some(Remove(s, tr, v, paths)), p) ==
            if BelowPath(paths, p) == {} || ScalarType(s, TypeAt(s, tr, p)) then At(s, tr, Some(v), p) else Some(Null)
  {
    KeptAt(s, tr, v, paths, p);
    NodeValid(s, tr, v, p);
    LeafRemoved(s, TypeAt(s, tr, p), At(s, tr, Some(v), p).value, BelowPath(paths, p));
  }

  lemma {:induction false} LeafNotBelow(s: Schema, tr: TypeRef, paths: PathSet, p: Path)
    requires Fitting(s, tr, paths) && p != [] && ShapeOf(s, TypeAt(s, tr, p)).LeafShape?
    ensures BelowPath(paths, p) == {}
    decreases |p|
  {
    FittingBelow(s, tr, paths, p[0]);
    if |p| > 1 {
      LeafNotBelow(s, ChildType(s, tr, p[0]), Below(paths, p[0]), p[1..]);
    }
  }

  /** The removal did exactly what was asked: no other path is gone, and leaves keep their values. */
  ghost predicate Exact(s: Schema, tr: TypeRef, v: Value, paths: PathSet) {
    var out := Remove(s, tr, v, paths);
    Valid(s, tr, out, false) &&
    AllPaths(s, tr, out) == (set p | p in AllPaths(s, tr, v) && !Covered(p, paths)) &&
    forall p | p in AllPaths(s, tr, out) && p != [] && ShapeOf(s, TypeAt(s, tr, p)).LeafShape? ::
      At(s, tr, Some(out), p) == At(s, tr, Some(v), p)
  }

  /** If kept list items keep their path elements, exactly the paths without a removed prefix survive. */
  lemma {:induction false} KeptExact(s: Schema, tr: TypeRef, v: Value, paths: PathSet)
    requires Plain(s, tr) && Valid(s, tr, v, false) && Fitting(s, tr, paths) && KeysStay(s, tr, v, paths)
    ensures Exact(s, tr, v, paths)
  {
    var out := Remove(s, tr, v, paths);
    KeptValid(s, tr, v, paths);
    forall p
      ensures p in AllPaths(s, tr, out) <==> p in AllPaths(s, tr, v) && !Covered(p, paths)
      ensures p in AllPaths(s, tr, out) && p != [] && ShapeOf(s, TypeAt(s, tr, p)).LeafShape? ==>
                At(s, tr, Some(out), p) == At(s, tr, Some(v), p)
    {
      AllPathsIn(s, tr, v, p);
      AllPathsIn(s, tr, out, p);
      if p != [] {
        KeptAt(s, tr, v, paths, p);
        if ShapeOf(s, TypeAt(s, tr, p)).LeafShape? {
          LeafNotBelow(s, tr, paths, p);
        }
      }
    }
  }

  /** Removing nothing leaves list keys alone. */
  lemma {:induction false} NothingStays(s: Schema, tr: TypeRef, v: Value)
    ensures KeysStay(s, tr, v, {})
    decreases v
  {
    assert forall pe :: Below({}, pe) == {};
    var a := Resolve(s, tr);
    if a.Some? {
      var d := DeduceAtom(a.value, Some(v));
      if d.mapping.Some? {
        if v.Map? {
          forall k | k in v.fields
            ensures KeysStay(s, FieldType(d.mapping.value, k), v.fields[k], {})
          {
            NothingStays(s, FieldType(d.mapping.value, k), v.fields[k]);
          }
        }
      } else if d.scalar.None? && d.list.Some? && v.List? {
        forall x | x in v.items
          ensures KeysStay(s, d.list.value.elementType, x, {})
        {
          NothingStays(s, d.list.value.elementType, x);
        }
      }
    }
  }

  /** Removing nothing from an object that is not empty changes nothing. */
  lemma {:induction false} RemoveNothing(s: Schema, tr: TypeRef, v: Value)
    requires Plain(s, tr) && Valid(s, tr, v, false) && !ShapeOf(s, tr).LeafShape?
    requires FieldsOf(Some(v)) != map[] || ItemsOf(Some(v)) != []
    ensures Remove(s, tr, v, {}) == v
  {
    RemoveIsAtom(s, tr, v, {});
    PlainNode(s, tr);
    assert ValidAtom(s, Resolve(s, tr).value, v, false);
    match ShapeOf(s, tr)
    case MapShape(t) => NoFieldRemoved(s, Resolve(s, tr).value, t, v);
    case ListShape(t) => NoItemRemoved(s, t, v.items);
  }

  lemma {:induction false} NoFieldRemoved(s: Schema, a: Atom, t: MapType, v: Value)
    requires a.mapping == Some(t) && !t.relationship.Atomic? && v.Map? && v.fields != map[]
    ensures WalkAtom(s, a, v, {}, false) == v
  {
    forall k | k in v.fields
      ensures WalkField(s, t, k, v.fields[k], {}, false) == Some(v.fields[k])
    {
      assert Below({}, FieldName(k)) == {};
    }
    var out := map k | k in v.fields && WalkField(s, t, k, v.fields[k], {}, false).Some?
                 :: WalkField(s, t, k, v.fields[k], {}, false).value;
    assert out == v.fields;
  }

  lemma {:induction false} NoItemRemoved(s: Schema, t: ListType, items: seq<Value>)
    ensures WalkItems(s, t, items, {}, false) == items
  {
    if items != [] {
      NoItemRemoved(s, t, items[1..]);
      assert Below({}, ElementOf(s, t, items[0])) == {};
    }
  }
}
