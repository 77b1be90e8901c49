/** Comparing whole objects, also with what a merge or a removal made of them, and fusing removals. */
module DiffTheory {
  import opened Values
  import opened PathElements
  import opened Schemas
  import opened Merging
  import opened Comparing
  import opened Removing
  import opened Updating
  import opened PlainSetting
  import opened CompareTheory
  import opened RepeatTheory
  import opened MergeTheory
  import opened ItemTheory
  import opened RemoveTheory
  import opened RemoveFusion
  import opened RemoveIff
  import opened OwningTheory
  import opened LeftoverTheory

  /**
   * With a map as root, comparing two objects finds nothing exactly if they are equal up to the
   * order of associative lists, also with repeated keys; only null and an empty root map are not told apart.
   */
  lemma {:induction false} SameObjectsIff(s: Schema, tr: TypeRef, l: Value, r: Value)
    requires Plain(s, tr) && ShapeOf(s, tr).MapShape? && Valid(s, tr, l, true) && Valid(s, tr, r, true)
    ensures NoDifference(CompareObjects(s, tr, l, r)) <==>
            SameUpToOrder(s, tr, l, r) || (FieldsOf(Some(l)) == map[] && FieldsOf(Some(r)) == map[])
  {
    NoDifferenceIff(s, tr, l, r);
    NodeCompared(s, tr, Some(l), Some(r));
    PlainNode(s, tr);
    assert ValidAtom(s, Resolve(s, tr).value, l, true) && ValidAtom(s, Resolve(s, tr).value, r, true);
    if FieldsOf(Some(l)) == map[] && FieldsOf(Some(r)) == map[] {
      assert Compare(s, tr, Some(l), Some(r)) == CompareLeaf(Some(l), Some(r));
    }
  }

  /** Merging removes nothing, and adds and modifies only at paths of the right operand. */
  lemma {:induction false} MergeChanges(s: Schema, tr: TypeRef, l: Value, r: Value)
    requires Plain(s, tr) && Valid(s, tr, l, false) && Valid(s, tr, r, false)
    ensures var m := Merge(s, tr, Some(l), Some(r));
            m.ok && m.out.Some? &&
            var c := Compare(s, tr, Some(l), m.out);
            c.ok && c.removed == {} && c.added == AllPaths(s, tr, r) - AllPaths(s, tr, l) &&
            c.modified <= AllPaths(s, tr, r) * AllPaths(s, tr, l)
  {
    MergePaths(s, tr, l, r);
    var m := Merge(s, tr, Some(l), Some(r)).out.value;
    CompareExact(s, tr, l, m);
    var c := Compare(s, tr, Some(l), Some(m));
    forall p | p in c.modified
      ensures p in AllPaths(s, tr, r)
    {
      CompareAt(s, tr, Some(l), Some(m), p);
      MergeBias(s, tr, l, r, p);
      AllPathsIn(s, tr, r, p);
    }
  }

  /** Removing two sets one after the other is removing their union, if the first leaves list keys alone. */
  lemma {:induction false} RemovalsFuse(s: Schema, tr: TypeRef, v: Value, a: PathSet, b: PathSet)
    requires Plain(s, tr) && Valid(s, tr, v, false) && Fitting(s, tr, a) && KeysUntouched(s, tr, v, a)
    ensures Remove(s, tr, Remove(s, tr, v, a), b) == Remove(s, tr, v, a + b)
  {
    KeysStayIff(s, tr, v, a);
    RemoveFuses(s, tr, v, a, b);
  }

  /** An element that is not repeated has a group of one. */
  lemma {:induction false} GroupOnce(s: Schema, t: ListType, items: seq<Value>, pe: PathElement)
    requires Once(Elements(s, t, items), pe) && pe != NoElement
    ensures Group(s, t, items, pe) == if Find(s, t, items, pe).None? then [] else [Find(s, t, items, pe).value]
  {
    if items != [] {
      var ks := Elements(s, t, items);
      assert ks[1..] == Elements(s, t, items[1..]);
      assert forall i, j | 0 <= i < j < |ks[1..]| :: ks[1..][i] == ks[i + 1] && ks[1..][j] == ks[j + 1];
      GroupOnce(s, t, items[1..], pe);
      FindIs(s, t, items[1..], pe);
    }
  }

  /** If comparing with what a removal left reports no error, every kept item has its path element. */
  lemma {:induction false} ComparedStays(s: Schema, tr: TypeRef, l: Option<Value>, v: Value, gone: PathSet)
    requires Plain(s, tr) && ValidOpt(s, tr, l) && Valid(s, tr, v, false) && Removable(s, tr, gone)
    requires Compare(s, tr, l, Some(Trim(s, tr, v, gone))).ok
    ensures KeysStay(s, tr, v, gone)
    decreases v, 1
  {
    PlainNode(s, tr);
    assert ValidAtom(s, Resolve(s, tr).value, v, false);
    if gone == {} {
      NothingStays(s, tr, v);
    } else {
      RemoveIsAtom(s, tr, v, gone);
      match ShapeOf(s, tr)
      case LeafShape =>
      case MapShape(t) =>
        if v.Map? {
          forall k | k in v.fields && [FieldName(k)] !in gone
            ensures KeysStay(s, FieldType(t, k), v.fields[k], Below(gone, FieldName(k)))
          {
            ComparedField(s, tr, l, v, gone, k);
          }
        }
      case ListShape(t) =>
        if v.List? {
          forall x | x in v.items && [ElementOf(s, t, x)] !in gone
            ensures var sub := Below(gone, ElementOf(s, t, x));
                    KeysStay(s, t.elementType, x, sub) &&
                    (sub != {} ==> ElementOf(s, t, Remove(s, t.elementType, x, sub)) == ElementOf(s, t, x))
          {
            ComparedItem(s, tr, l, v, gone, x);
          }
        }
    }
  }

  lemma {:induction false} ComparedField(s: Schema, tr: TypeRef, l: Option<Value>, v: Value, gone: PathSet, k: string)
    requires Plain(s, tr) && ValidOpt(s, tr, l) && Valid(s, tr, v, false) && Removable(s, tr, gone)
    requires Compare(s, tr, l, Some(Remove(s, tr, v, gone))).ok
    requires ShapeOf(s, tr).MapShape? && v.Map? && k in v.fields && [FieldName(k)] !in gone
    ensures KeysStay(s, FieldType(ShapeOf(s, tr).mt, k), v.fields[k], Below(gone, FieldName(k)))
    decreases v, 0
  {
    var t, w := ShapeOf(s, tr).mt, Remove(s, tr, v, gone);
    PlainNode(s, tr);
    RemoveIsAtom(s, tr, v, gone);
    MapLeft(s, Resolve(s, tr).value, t, v, gone);
    KidValid(s, tr, v, FieldName(k), false);
    KidValidOpt(s, tr, l, FieldName(k));
    RemovableBelow(s, tr, gone, FieldName(k));
    FieldCompared(s, tr, l, w, k);
    ComparedStays(s, FieldType(t, k), KidOf(s, tr, l, FieldName(k)), v.fields[k], Below(gone, FieldName(k)));
  }

  /** A comparison without error has none at a field. */
  lemma {:induction false} FieldCompared(s: Schema, tr: TypeRef, l: Option<Value>, w: Value, k: string)
    requires Plain(s, tr) && ShapeOf(s, tr).MapShape? && w.Map? && k in w.fields && Compare(s, tr, l, Some(w)).ok
    ensures Compare(s, FieldType(ShapeOf(s, tr).mt, k), KidOf(s, tr, l, FieldName(k)), Some(w.fields[k])).ok
  {
    PlainNode(s, tr);
    var kids := CompareFields(s, ShapeOf(s, tr).mt, l, Some(w));
    assert FieldName(k) in kids && kids[FieldName(k)].ok;
    assert KidOf(s, tr, l, FieldName(k)) == Lookup(FieldsOf(l), k);
    assert kids[FieldName(k)] == CompareField(s, ShapeOf(s, tr).mt, l, Some(w), k);
  }

  /** Nor at an item, which then has a path element. */
  lemma {:induction false} ItemCompared(s: Schema, tr: TypeRef, l: Option<Value>, w: Value, y: Value)
    requires Plain(s, tr) && ShapeOf(s, tr).ListShape? && w.List? && y in w.items && Compare(s, tr, l, Some(w)).ok
    ensures var t := ShapeOf(s, tr).lt;
            ItemElement(s, t, y).Some? && ItemElement(s, t, y).value in ElementSet(s, t, ItemsOf(Some(w))) &&
            CompareGroup(s, t, l, Some(w), ItemElement(s, t, y).value).ok
  {
    PlainNode(s, tr);
    var t := ShapeOf(s, tr).lt;
    var kids := CompareItems(s, t, l, Some(w));
    assert y in ItemsOf(l) + ItemsOf(Some(w));
    assert ItemElement(s, t, y).Some?;
    var pe := ItemElement(s, t, y).value;
    assert pe in kids && kids[pe] == CompareGroup(s, t, l, Some(w), pe) && kids[pe].ok;
  }

  lemma {:induction false} ComparedItem(s: Schema, tr: TypeRef, l: Option<Value>, v: Value, gone: PathSet, x: Value)
    requires Plain(s, tr) && ValidOpt(s, tr, l) && Valid(s, tr, v, false) && Removable(s, tr, gone)
    requires Compare(s, tr, l, Some(Remove(s, tr, v, gone))).ok
    requires ShapeOf(s, tr).ListShape? && v.List? && x in v.items && [ElementOf(s, ShapeOf(s, tr).lt, x)] !in gone
    ensures var t := ShapeOf(s, tr).lt;
            var sub := Below(gone, ElementOf(s, t, x));
            KeysStay(s, t.elementType, x, sub) && ElementOf(s, t, Trim(s, t.elementType, x, sub)) == ElementOf(s, t, x)
    decreases v, 0
  {
    var t := ShapeOf(s, tr).lt;
    var pe := ElementOf(s, t, x);
    var y := Trim(s, t.elementType, x, Below(gone, pe));
    ItemLeftHere(s, tr, v, gone, x);
    ItemCompared(s, tr, l, Remove(s, tr, v, gone), y);
    LeftElement(s, tr, v, gone, x);
    ItemChecked(s, tr, v, gone, x);
    SameItem(s, tr, v, x, pe);
    ItemGroups(s, tr, l, v, gone, pe);
    KidValidOpt(s, tr, l, pe);
    RemovableBelow(s, tr, gone, pe);
    ComparedStays(s, t.elementType, KidOf(s, tr, l, pe), x, Below(gone, pe));
  }

  /** What is left of a kept item is in the list that is left. */
  lemma {:induction false} ItemLeftHere(s: Schema, tr: TypeRef, v: Value, gone: PathSet, x: Value)
    requires Plain(s, tr) && ShapeOf(s, tr).ListShape? && v.List? && x in v.items && [ElementOf(s, ShapeOf(s, tr).lt, x)] !in gone
    ensures var t, w := ShapeOf(s, tr).lt, Remove(s, tr, v, gone);
            w.List? && Trim(s, t.elementType, x, Below(gone, ElementOf(s, t, x))) in w.items
  {
    var t := ShapeOf(s, tr).lt;
    PlainNode(s, tr);
    RemoveIsAtom(s, tr, v, gone);
    LeftIn(s, t, v.items, gone, x);
  }

  /** The items compared under an element that is still there. */
  lemma {:induction false} ItemGroups(s: Schema, tr: TypeRef, l: Option<Value>, v: Value, gone: PathSet, pe: PathElement)
    requires Plain(s, tr) && ValidOpt(s, tr, l) && Valid(s, tr, v, false) && Removable(s, tr, gone)
    requires ShapeOf(s, tr).ListShape? && v.List? && pe != NoElement && Remove(s, tr, v, gone).List?
    requires Kid(s, tr, v, pe).Some? && [pe] !in gone && !EmptiedHere(s, tr, Kid(s, tr, v, pe).value, Below(gone, pe))
    ensures var t, w := ShapeOf(s, tr).lt, Remove(s, tr, v, gone);
            var y := Trim(s, t.elementType, Kid(s, tr, v, pe).value, Below(gone, pe));
            pe in ElementSet(s, t, ItemsOf(Some(w))) &&
            CompareGroup(s, t, l, Some(w), pe) == Compare(s, t.elementType, KidOf(s, tr, l, pe), Some(y))
  {
    var t, w := ShapeOf(s, tr).lt, Remove(s, tr, v, gone);
    LeftKid(s, tr, v, gone, w, pe);
    GroupOnce(s, t, w.items, pe);
    FindIs(s, t, w.items, pe);
    GroupHeight(s, t, Some(w), pe);
    GroupIsKid(s, tr, l, pe);
  }

  /** Comparing with what a removal left reports an error exactly if it emptied a kept item. */
  lemma {:induction false} CompareLeftIff(s: Schema, tr: TypeRef, l: Value, v: Value, gone: PathSet)
    requires Plain(s, tr) && Valid(s, tr, l, false) && Valid(s, tr, v, false) && Removable(s, tr, gone) && gone != {}
    ensures Compare(s, tr, Some(l), Some(Remove(s, tr, v, gone))).ok <==> !Empties(s, tr, v, gone)
  {
    RemovableIff(s, tr, v, gone);
    KeysStayIff(s, tr, v, gone);
    if Compare(s, tr, Some(l), Some(Remove(s, tr, v, gone))).ok {
      ComparedStays(s, tr, Some(l), v, gone);
    }
    if KeysStay(s, tr, v, gone) {
      KeptValid(s, tr, v, gone);
      CompareOk(s, tr, Some(l), Some(Remove(s, tr, v, gone)));
    }
  }
}
