/** What removing below a list item does to the item's keys, and with them to its path element. */
module ItemTheory {
  import opened Values
  import opened PathElements
  import opened Schemas
  import opened Removing
  import opened PlainSetting
  import opened ListKeys

  /** The path stays within containers that are not atomic, by the types alone. */
  predicate Fits(s: Schema, tr: TypeRef, p: Path)
    decreases |p|
  {
    p == [] || (!ShapeOf(s, tr).LeafShape? && Fits(s, ChildType(s, tr, p[0]), p[1..]))
  }

  /**
   * `p` selects an item of a keyed list whose items are separable maps, and `k` is one of its keys,
   * with a value other than its default.
   */
  predicate IsKeyOf(s: Schema, tr: TypeRef, p: Path, k: string)
    decreases |p|
  {
    p != [] &&
    if |p| > 1 then IsKeyOf(s, ChildType(s, tr, p[0]), p[1..], k)
    else
      var sh := ShapeOf(s, tr);
      sh.ListShape? && k in sh.lt.keys && ShapeOf(s, sh.lt.elementType).MapShape? &&
      p[0].Key? && !Defaulted(s, sh.lt, p[0], k)
  }

  /** The set has a list item exactly if it has each key field of the item that is not at its default. */
  ghost predicate KeyClosed(s: Schema, tr: TypeRef, paths: PathSet) {
    forall p, k | IsKeyOf(s, tr, p, k) :: p in paths <==> p + [FieldName(k)] in paths
  }

  /** No path leads strictly below an atomic container or a scalar. */
  ghost predicate Fitting(s: Schema, tr: TypeRef, paths: PathSet) {
    forall p | p in paths :: Fits(s, tr, p)
  }

  /** A removal that takes no such key from a list item it keeps, and stays out of atomic containers. */
  ghost predicate Removable(s: Schema, tr: TypeRef, paths: PathSet) {
    Fitting(s, tr, paths) && forall p, k | IsKeyOf(s, tr, p, k) && p + [FieldName(k)] in paths :: p in paths
  }

  /** Something is removed below the list item `x`, and every field of it is removed. */
  predicate EmptiedHere(s: Schema, tr: TypeRef, x: Value, sub: PathSet) {
    ShapeOf(s, tr).ListShape? && ShapeOf(s, ShapeOf(s, tr).lt.elementType).MapShape? &&
    x.Map? && sub != {} && forall f | f in x.fields :: [FieldName(f)] in sub
  }

  /** The node at `p` is a list item that the removal leaves without any field. */
  predicate Emptied(s: Schema, tr: TypeRef, v: Value, paths: PathSet, p: Path)
    decreases |p|
  {
    p != [] &&
    var x := Kid(s, tr, v, p[0]);
    x.Some? &&
    if |p| == 1 then EmptiedHere(s, tr, x.value, Below(paths, p[0]))
    else Emptied(s, ChildType(s, tr, p[0]), x.value, Below(paths, p[0]), p[1..])
  }

  lemma {:induction false} FittingBelow(s: Schema, tr: TypeRef, paths: PathSet, pe: PathElement)
    requires Fitting(s, tr, paths)
    ensures Fitting(s, ChildType(s, tr, pe), Below(paths, pe))
    ensures ShapeOf(s, ChildType(s, tr, pe)).LeafShape? ==> Below(paths, pe) == {}
    ensures [] !in Below(paths, pe)
  {
    var sub, ct := Below(paths, pe), ChildType(s, tr, pe);
    forall p | p in sub
      ensures Fits(s, ct, p) && !ShapeOf(s, ct).LeafShape?
    {
      BelowIn(paths, pe, p);
      assert Fits(s, tr, [pe] + p);
      assert ([pe] + p)[1..] == p;
    }
  }

  lemma {:induction false} RemovableBelow(s: Schema, tr: TypeRef, paths: PathSet, pe: PathElement)
    requires Removable(s, tr, paths)
    ensures Removable(s, ChildType(s, tr, pe), Below(paths, pe))
    ensures ShapeOf(s, ChildType(s, tr, pe)).LeafShape? ==> Below(paths, pe) == {}
    ensures [] !in Below(paths, pe)
  {
    var sub, ct := Below(paths, pe), ChildType(s, tr, pe);
    FittingBelow(s, tr, paths, pe);
    forall p, k | IsKeyOf(s, ct, p, k) && p + [FieldName(k)] in sub
      ensures p in sub
    {
      BelowIn(paths, pe, p);
      BelowIn(paths, pe, p + [FieldName(k)]);
      assert ([pe] + p)[1..] == p;
      assert IsKeyOf(s, tr, [pe] + p, k);
      assert [pe] + (p + [FieldName(k)]) == ([pe] + p) + [FieldName(k)];
    }
  }

  /** What becomes of a child: it is only walked if a path goes below it. */
  function Trim(s: Schema, tr: TypeRef, v: Value, paths: PathSet): Value {
    if paths == {} then v else Remove(s, tr, v, paths)
  }

  lemma {:induction false} RemoveIsAtom(s: Schema, tr: TypeRef, v: Value, paths: PathSet)
    requires Plain(s, tr)
    ensures Remove(s, tr, v, paths) == WalkAtom(s, Resolve(s, tr).value, v, paths, false)
  {
    PlainNode(s, tr);
  }

  /** A valid item of the list, with the paths to remove below it. */
  ghost predicate ItemInput(s: Schema, tr: TypeRef, x: Value, sub: PathSet) {
    Plain(s, tr) && ShapeOf(s, tr).ListShape? &&
    var t := ShapeOf(s, tr).lt;
    Valid(s, t.elementType, x, false) && ItemElement(s, t, x).Some? && Fitting(s, t.elementType, sub) && [] !in sub
  }

  /** An item below which something can be removed is a map, of a list with keys. */
  lemma {:induction false} KeyedItem(s: Schema, tr: TypeRef, x: Value, sub: PathSet)
    requires ItemInput(s, tr, x, sub) && sub != {}
    ensures var t := ShapeOf(s, tr).lt;
            t.keys != [] && ShapeOf(s, t.elementType).MapShape? && x.Map? && KeyedByScalars(s, t) && Plain(s, t.elementType)
  {
    PlainNode(s, tr);
    var t := ShapeOf(s, tr).lt;
    PlainNode(s, t.elementType);
    assert ValidAtom(s, Resolve(s, t.elementType).value, x, false);
    assert Fits(s, t.elementType, Pick(sub));
  }

  /** What is left of a list item: null if nothing is, else a map in which a key is as it was or at its default. */
  lemma {:induction false} ItemLeft(s: Schema, tr: TypeRef, x: Value, sub: PathSet)
    requires ItemInput(s, tr, x, sub) && sub != {}
    ensures var t := ShapeOf(s, tr).lt;
            var y := Remove(s, t.elementType, x, sub);
            (EmptiedHere(s, tr, x, sub) ==> y == Null) && (!EmptiedHere(s, tr, x, sub) ==> y.Map?)
    ensures var t := ShapeOf(s, tr).lt;
            var y := Remove(s, t.elementType, x, sub);
            x.Map? &&
            forall k | k in t.keys && y.Map? ::
              KeyValue(s, t, y.fields, k) ==
              if [FieldName(k)] in sub then KeyDefault(s, t, k) else KeyValue(s, t, x.fields, k)
  {
    KeyedItem(s, tr, x, sub);
    var t := ShapeOf(s, tr).lt;
    var mt, y := ShapeOf(s, t.elementType).mt, Remove(s, t.elementType, x, sub);
    RemoveIsAtom(s, t.elementType, x, sub);
    PlainNode(s, t.elementType);
    MapLeft(s, Resolve(s, t.elementType).value, mt, x, sub);
    forall k | k in t.keys && y.Map?
      ensures KeyValue(s, t, y.fields, k) ==
              if [FieldName(k)] in sub then KeyDefault(s, t, k) else KeyValue(s, t, x.fields, k)
    {
      FittingBelow(s, t.elementType, sub, FieldName(k));
    }
  }

  /** What is left of a map, field by field. */
  lemma {:induction false} MapLeft(s: Schema, a: Atom, t: MapType, v: Value, paths: PathSet)
    requires a.mapping == Some(t) && !t.relationship.Atomic? && v.Map?
    ensures var y := WalkAtom(s, a, v, paths, false);
            if forall k | k in v.fields :: [FieldName(k)] in paths then y == Null
            else
              y.Map? && y.fields != map[] &&
              (forall k :: k in y.fields <==> k in v.fields && [FieldName(k)] !in paths) &&
              (forall k | k in y.fields :: y.fields[k] == Trim(s, FieldType(t, k), v.fields[k], Below(paths, FieldName(k))))
  {
    forall k | k in v.fields
      ensures WalkField(s, t, k, v.fields[k], paths, false) ==
              if [FieldName(k)] in paths then None
              else Some(Trim(s, FieldType(t, k), v.fields[k], Below(paths, FieldName(k))))
    {
    }
    var out := map k | k in v.fields && WalkField(s, t, k, v.fields[k], paths, false).Some?
                 :: WalkField(s, t, k, v.fields[k], paths, false).value;
    if k :| k in v.fields && [FieldName(k)] !in paths {
      assert k in out;
    }
  }

  /** An item keeps its path element exactly if it keeps its keys that are not at their defaults, and some field. */
  lemma {:induction false} ElementStaysIff(s: Schema, tr: TypeRef, x: Value, sub: PathSet)
    requires ItemInput(s, tr, x, sub)
    ensures var t := ShapeOf(s, tr).lt;
            var pe := ElementOf(s, t, x);
            ElementOf(s, t, Trim(s, t.elementType, x, sub)) == pe <==>
            !EmptiedHere(s, tr, x, sub) && forall k | IsKeyOf(s, tr, [pe], k) :: [FieldName(k)] !in sub
  {
    var t := ShapeOf(s, tr).lt;
    var pe, y := ElementOf(s, t, x), Trim(s, t.elementType, x, sub);
    if sub != {} && !EmptiedHere(s, tr, x, sub) {
      PlainNode(s, tr);
      KeyedItem(s, tr, x, sub);
      ItemLeft(s, tr, x, sub);
      if forall k | IsKeyOf(s, tr, [pe], k) :: [FieldName(k)] !in sub {
        forall k | k in t.keys
          ensures KeyValue(s, t, y.fields, k) == KeyValue(s, t, x.fields, k)
        {
          DefaultedIs(s, t, x, k);
          assert Defaulted(s, t, pe, k) || IsKeyOf(s, tr, [pe], k);
        }
        KeyFieldsDepend(s, t, t.keys, y.fields, x.fields);
      } else {
        var k :| IsKeyOf(s, tr, [pe], k) && [FieldName(k)] in sub;
        DefaultedIs(s, t, x, k);
        if ElementOf(s, t, y) == pe {
          SameKeys(s, t, x, y, k);
        }
      }
    } else if sub != {} {
      ItemLeft(s, tr, x, sub);
      KeyedItem(s, tr, x, sub);
    }
  }

  /** The keys that a path element gives their default values. */
  function DefaultedKeys(s: Schema, t: ListType, pe: PathElement): set<string> {
    set k | k in t.keys && Defaulted(s, t, pe, k)
  }

  /** A removal can only bring more keys to their defaults; if it brings none, the path element is the same. */
  lemma {:induction false} DefaultsGrow(s: Schema, tr: TypeRef, x: Value, sub: PathSet)
    requires ItemInput(s, tr, x, sub)
    requires ItemElement(s, ShapeOf(s, tr).lt, Trim(s, ShapeOf(s, tr).lt.elementType, x, sub)).Some?
    ensures var t := ShapeOf(s, tr).lt;
            var y := Trim(s, t.elementType, x, sub);
            ElementOf(s, t, y) == ElementOf(s, t, x) ||
            DefaultedKeys(s, t, ElementOf(s, t, x)) < DefaultedKeys(s, t, ElementOf(s, t, y))
  {
    var t := ShapeOf(s, tr).lt;
    var y := Trim(s, t.elementType, x, sub);
    if sub != {} {
      PlainNode(s, tr);
      KeyedItem(s, tr, x, sub);
      ItemLeft(s, tr, x, sub);
      forall k | k in t.keys
        ensures k in DefaultedKeys(s, t, ElementOf(s, t, x)) ==> k in DefaultedKeys(s, t, ElementOf(s, t, y))
        ensures KeyValue(s, t, y.fields, k) != KeyValue(s, t, x.fields, k) ==>
                  k in DefaultedKeys(s, t, ElementOf(s, t, y)) - DefaultedKeys(s, t, ElementOf(s, t, x))
      {
        DefaultedIs(s, t, x, k);
        DefaultedIs(s, t, y, k);
      }
      if forall k | k in t.keys :: KeyValue(s, t, y.fields, k) == KeyValue(s, t, x.fields, k) {
        KeyFieldsDepend(s, t, t.keys, y.fields, x.fields);
      }
    }
  }
}
