/** Types with several kinds: a value is treated as by a type of its own kind alone, and comparing two kinds. */
module NarrowTheory {
  import opened Values
  import opened PathElements
  import opened Schemas
  import M = Merging
  import opened Comparing
  import opened Removing
  import opened Owning
  import opened CompareTheory
  import opened KindTheory

  /** The type with no kind but that of the value. */
  function KindAlone(a: Atom, v: Value): TypeRef {
    var alone :=
      match v
      case List(_) => Atom(None, a.list, None)
      case Map(_) => Atom(None, None, a.mapping)
      case _ => Atom(a.scalar, None, None);
    TypeRef(None, alone, None)
  }

  predicate SameKind(l: Value, r: Value) {
    (IsScalar(l) && IsScalar(r)) || (l.List? && r.List?) || (l.Map? && r.Map?)
  }

  /** Every operation on one value reads the type as if it had the value's kind alone. */
  lemma {:induction false} Narrowed(s: Schema, tr: TypeRef, v: Value, paths: PathSet, flag: bool)
    requires Resolve(s, tr).Some? && HasKind(Resolve(s, tr).value, v)
    ensures var alone := KindAlone(Resolve(s, tr).value, v);
            (Valid(s, tr, v, flag) <==> Valid(s, alone, v, flag)) &&
            Mentioned(s, tr, v) == Mentioned(s, alone, v) && (MentionedOk(s, tr, v) <==> MentionedOk(s, alone, v)) &&
            Walk(s, tr, v, paths, flag) == Walk(s, alone, v, paths, flag) &&
            M.Merge(s, tr, Some(v), None) == M.Merge(s, alone, Some(v), None) &&
            M.Merge(s, tr, None, Some(v)) == M.Merge(s, alone, None, Some(v)) &&
            Compare(s, tr, Some(v), None) == Compare(s, alone, Some(v), None) &&
            Compare(s, tr, None, Some(v)) == Compare(s, alone, None, Some(v))
  {
  }

  /** And so do the operations on two values of one kind. */
  lemma {:induction false} NarrowedPair(s: Schema, tr: TypeRef, l: Value, r: Value)
    requires Resolve(s, tr).Some? && HasKind(Resolve(s, tr).value, l) && SameKind(l, r)
    ensures var alone := KindAlone(Resolve(s, tr).value, l);
            M.Merge(s, tr, Some(l), Some(r)) == M.Merge(s, alone, Some(l), Some(r)) &&
            Compare(s, tr, Some(l), Some(r)) == Compare(s, alone, Some(l), Some(r))
  {
  }

  /** The value is compared as a whole: a scalar, an atomic or an empty container. */
  predicate Whole(a: Atom, v: Value) {
    IsScalar(v) ||
    (v.Map? && a.mapping.Some? && (a.mapping.value.relationship.Atomic? || v.fields == map[])) ||
    (v.List? && a.list.Some? && (a.list.value.relationship.Atomic? || v.items == []))
  }

  /**
   * Comparing values of two kinds of a type: what is below the left one is removed, what is below the right
   * one is added, and the node itself is modified if one of them is compared as a whole.
   */
  lemma {:induction false} KindsCompared(s: Schema, tr: TypeRef, l: Value, r: Value)
    requires Resolve(s, tr).Some? && !SameKind(l, r)
    requires HasKind(Resolve(s, tr).value, l) && HasKind(Resolve(s, tr).value, r)
    requires Compare(s, tr, Some(l), Some(r)).ok
    ensures var c, a := Compare(s, tr, Some(l), Some(r)), Resolve(s, tr).value;
            c.removed == Compare(s, tr, Some(l), None).removed - {[]} &&
            c.added == Compare(s, tr, None, Some(r)).added - {[]} &&
            c.modified == if Whole(a, l) || Whole(a, r) then {[]} else {}
  {
    var a := Resolve(s, tr).value;
    var al, ar := DeduceAtom(a, Some(l)), DeduceAtom(a, Some(r));
    assert Compare(s, tr, Some(l), Some(r)) == Join(CompareAtom(s, al, Some(l), Some(r)), CompareAtom(s, ar, Some(l), Some(r)));
    SideCompared(s, a, l, r);
    SideCompared(s, a, r, l);
    AtomSymmetric(s, ar, Some(l), Some(r));
    CompareSymmetric(s, tr, None, Some(r));
  }

  /** The comparison by the kind of one side: what is below it is gone. */
  lemma {:induction false} SideCompared(s: Schema, a: Atom, l: Value, r: Value)
    requires HasKind(a, l) && !SameKind(l, r)
    ensures var al := DeduceAtom(a, Some(l));
            var c := CompareAtom(s, al, Some(l), Some(r));
            c.ok ==>
              c.removed == CompareAtom(s, al, Some(l), None).removed - {[]} && c.added == {} &&
              c.modified == if Whole(a, l) then {[]} else {}
  {
    if !Whole(a, l) {
      if l.Map? {
        FieldsGone(s, a.mapping.value, l, r);
      } else {
        ItemsGone(s, a.list.value, l, r);
      }
    }
  }

  lemma {:induction false} FieldsGone(s: Schema, t: MapType, l: Value, r: Value)
    requires l.Map? && !r.Map?
    ensures CompareFields(s, t, Some(l), Some(r)) == CompareFields(s, t, Some(l), None)
    ensures var g := Gather(CompareFields(s, t, Some(l), None)); g.added == {} && g.modified == {}
  {
    forall k | k in l.fields
      ensures CompareField(s, t, Some(l), Some(r), k) == CompareField(s, t, Some(l), None, k)
      ensures OnlyGone(CompareField(s, t, Some(l), None, k))
    {
      AloneGone(s, FieldType(t, k), l.fields[k]);
    }
  }

  lemma {:induction false} ItemsGone(s: Schema, t: ListType, l: Value, r: Value)
    requires l.List? && !r.List?
    ensures CompareItems(s, t, Some(l), Some(r)) == CompareItems(s, t, Some(l), None)
    ensures var g := Gather(CompareItems(s, t, Some(l), None)); g.added == {} && g.modified == {}
  {
    forall pe | pe in ElementSet(s, t, l.items)
      ensures CompareGroup(s, t, Some(l), Some(r), pe) == CompareGroup(s, t, Some(l), None, pe)
      ensures OnlyGone(CompareGroup(s, t, Some(l), None, pe))
    {
      GroupGone(s, t, l, pe);
    }
  }

  lemma {:induction false} GroupGone(s: Schema, t: ListType, l: Value, pe: PathElement)
    requires l.List? && pe in ElementSet(s, t, l.items)
    ensures OnlyGone(CompareGroup(s, t, Some(l), None, pe))
    decreases l, 0
  {
    var g := Group(s, t, l.items, pe);
    GroupHeight(s, t, Some(l), pe);
    assert g[0] in g;
    if |g| == 1 {
      AloneGone(s, t.elementType, g[0]);
    }
  }

  predicate OnlyGone(c: Comparison) {
    c.added == {} && c.modified == {}
  }

  /** Against nothing, all that is found is removed. */
  lemma {:induction false} AloneGone(s: Schema, tr: TypeRef, v: Value)
    ensures OnlyGone(Compare(s, tr, Some(v), None))
    decreases v, 1
  {
    if Resolve(s, tr).Some? {
      var a := DeduceAtom(Resolve(s, tr).value, Some(v));
      assert Compare(s, tr, Some(v), None) == CompareAtom(s, a, Some(v), None);
      if a.mapping.Some? && v.Map? {
        var t := a.mapping.value;
        forall k | k in v.fields
          ensures OnlyGone(CompareField(s, t, Some(v), None, k))
        {
          AloneGone(s, FieldType(t, k), v.fields[k]);
        }
      } else if a.mapping.None? && a.list.Some? && v.List? {
        forall pe | pe in ElementSet(s, a.list.value, v.items)
          ensures OnlyGone(CompareGroup(s, a.list.value, Some(v), None, pe))
        {
          GroupGone(s, a.list.value, v, pe);
        }
      }
    }
  }

  /** A reference's own relationship replaces that of the map it refers to, or else of the list, and nothing more; a scalar has none to replace. */
  lemma {:induction false} Overridden(s: Schema, tr: TypeRef, rel: ElementRelationship)
    requires tr.relationship.None?
    ensures tr.named.Some? ==> Resolve(s, tr) == Lookup(s.types, tr.named.value)
    ensures tr.named.None? ==> Resolve(s, tr) == Some(tr.inlined)
    ensures var a, b := Resolve(s, tr), Resolve(s, tr.(relationship := Some(rel)));
            (b.Some? <==> a.Some? && (a.value.mapping.Some? || a.value.list.Some?)) &&
            (b.Some? ==>
               b.value.scalar == a.value.scalar && (b.value.mapping.Some? <==> a.value.mapping.Some?) &&
               (if b.value.mapping.Some? then
                  b.value.list == a.value.list && b.value.mapping.value.relationship == rel &&
                  b.value.mapping.value.fields == a.value.mapping.value.fields &&
                  b.value.mapping.value.elementType == a.value.mapping.value.elementType
                else
                  a.value.list.Some? && b.value.list.Some? && b.value.list.value.relationship == rel &&
                  b.value.list.value.keys == a.value.list.value.keys &&
                  b.value.list.value.elementType == a.value.list.value.elementType))
  {
  }
}
