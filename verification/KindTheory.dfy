/** Merging operands of different kinds, on every schema: the right one replaces the left one, or is ignored. */
module KindTheory {
  import opened Values
  import opened Schemas
  import opened Merging
  import opened Reconciling

  /** The type has the kind of the value; it never has the kind of null. */
  predicate HasKind(a: Atom, v: Value) {
    (a.scalar.Some? && (v.Num? || v.Str? || v.Bool?)) || (a.list.Some? && v.List?) || (a.mapping.Some? && v.Map?)
  }

  /** Both are merged child by child; otherwise the right one is taken for the left one. */
  predicate BothWalked(l: Value, r: Value) {
    (l.Map? && r.Map?) || (l.List? && r.List?)
  }

  /** A type that has not the kind of the right operand still walks the left one. */
  predicate WalksLeft(a: Atom, l: Value) {
    if a.mapping.Some? then !a.mapping.value.relationship.Atomic? && FieldsOf(Some(l)) != map[]
    else a.scalar.None? && a.list.Some? && !a.list.value.relationship.Atomic? && ItemsOf(Some(l)) != []
  }

  /** A map merge looks at the fields of its operands only. */
  lemma {:induction false} MapMergeDepends(s: Schema, a: Atom, l: Option<Value>, l': Option<Value>, r: Option<Value>, r': Option<Value>)
    requires a.mapping.Some? && !a.mapping.value.relationship.Atomic?
    requires FieldsOf(l) == FieldsOf(l') && FieldsOf(r) == FieldsOf(r') && (FieldsOf(l) != map[] || FieldsOf(r) != map[])
    ensures MergeAtom(s, a, l, r) == MergeAtom(s, a, l', r')
  {
    var t := a.mapping.value;
    forall k | k in FieldsOf(l).Keys + FieldsOf(r).Keys
      ensures MergeField(s, t, l, r, k) == MergeField(s, t, l', r', k)
    {
    }
    var out := map k | k in FieldsOf(l).Keys + FieldsOf(r).Keys && MergeField(s, t, l, r, k).out.Some?
                 :: MergeField(s, t, l, r, k).out.value;
    var out' := map k | k in FieldsOf(l').Keys + FieldsOf(r').Keys && MergeField(s, t, l', r', k).out.Some?
                  :: MergeField(s, t, l', r', k).out.value;
    assert out == out';
  }

  /** A list merge looks at the items of its operands only. */
  lemma {:induction false} ListMergeDepends(s: Schema, a: Atom, l: Option<Value>, l': Option<Value>, r: Option<Value>, r': Option<Value>)
    requires a.mapping.None? && a.scalar.None? && a.list.Some? && !a.list.value.relationship.Atomic?
    requires ItemsOf(l) == ItemsOf(l') && ItemsOf(r) == ItemsOf(r') && (ItemsOf(l) != [] || ItemsOf(r) != [])
    ensures MergeAtom(s, a, l, r) == MergeAtom(s, a, l', r')
  {
    var t := a.list.value;
    var steps := Plan(Elements(s, t, ItemsOf(l)), Elements(s, t, ItemsOf(r)), 0, 0);
    StepsDepend(s, t, l, l', r, r', steps);
  }

  lemma {:induction false} StepsDepend(s: Schema, t: ListType, l: Option<Value>, l': Option<Value>, r: Option<Value>, r': Option<Value>, steps: seq<Step>)
    requires ItemsOf(l) == ItemsOf(l') && ItemsOf(r) == ItemsOf(r')
    requires forall step | step in steps :: StepOk(l, r, step)
    ensures MergeSteps(s, t, l, r, steps) == MergeSteps(s, t, l', r', steps)
  {
    if steps != [] {
      assert StepOk(l, r, steps[0]);
      assert MergeStep(s, t, l, r, steps[0]) == MergeStep(s, t, l', r', steps[0]);
      StepsDepend(s, t, l, l', r, r', steps[1..]);
    }
  }

  /** A right operand of a kind the type has replaces a left one of another kind, whatever that was. */
  lemma {:induction false} KindReplaces(s: Schema, tr: TypeRef, l: Value, r: Value)
    requires Resolve(s, tr).Some? && HasKind(Resolve(s, tr).value, r) && !BothWalked(l, r)
    requires Merge(s, tr, Some(l), Some(r)).ok
    ensures Merge(s, tr, Some(l), Some(r)).out == Merge(s, tr, None, Some(r)).out
  {
    var ar := DeduceAtom(Resolve(s, tr).value, Some(r));
    assert Merge(s, tr, Some(l), Some(r)).out == MergeAtom(s, ar, Some(l), Some(r)).out;
    if r.Map? && !ar.mapping.value.relationship.Atomic? && r.fields != map[] {
      MapMergeDepends(s, ar, Some(l), None, Some(r), Some(r));
    } else if r.List? && !ar.list.value.relationship.Atomic? && r.items != [] {
      ListMergeDepends(s, ar, Some(l), None, Some(r), Some(r));
    }
  }

  /** So a scalar replaces anything, as it is. */
  lemma {:induction false} ScalarReplaces(s: Schema, tr: TypeRef, l: Option<Value>, r: Value)
    requires Resolve(s, tr).Some? && Resolve(s, tr).value.scalar.Some? && IsScalar(r)
    requires Merge(s, tr, l, Some(r)).ok
    ensures Merge(s, tr, l, Some(r)).out == Some(r)
  {
    if l.Some? {
      KindReplaces(s, tr, l.value, r);
    }
  }

  /** It fails exactly if the left operand alone does, or neither is a scalar that the type takes. */
  lemma {:induction false} ScalarFails(s: Schema, tr: TypeRef, l: Value, r: Value)
    requires Resolve(s, tr).Some? && Resolve(s, tr).value.scalar.Some? && IsScalar(r)
    ensures Merge(s, tr, Some(l), Some(r)).ok <==>
            Merge(s, tr, Some(l), None).ok &&
            (l.Null? || Valid(s, tr, r, true) || (IsScalar(l) && Valid(s, tr, l, true)))
  {
    var a := Resolve(s, tr).value;
    var al, ar := DeduceAtom(a, Some(l)), Atom(a.scalar, None, None);
    AloneOk(s, al, l, r);
    assert DeduceAtom(a, Some(r)) == ar;
    assert MergeAtom(s, ar, Some(l), Some(r)).ok <==> l.Null? || Valid(s, tr, r, true) || (IsScalar(l) && Valid(s, tr, l, true));
    assert MergeAtom(s, al, Some(l), None).ok == Merge(s, tr, Some(l), None).ok;
  }

  /** A right operand of no kind of the type, such as null, replaces the left one unless that one is walked; then it is ignored. */
  lemma {:induction false} OtherKindReplaces(s: Schema, tr: TypeRef, l: Value, r: Value)
    requires Resolve(s, tr).Some? && !HasKind(Resolve(s, tr).value, r)
    requires Merge(s, tr, Some(l), Some(r)).ok
    ensures Merge(s, tr, Some(l), Some(r)).out ==
            if WalksLeft(Resolve(s, tr).value, l) then Merge(s, tr, Some(l), None).out else Some(r)
  {
    var a := Resolve(s, tr).value;
    var al := DeduceAtom(a, Some(l));
    assert Merge(s, tr, Some(l), Some(r)).out == MergeAtom(s, a, Some(l), Some(r)).out;
    if WalksLeft(a, l) {
      if a.mapping.Some? {
        MapMergeDepends(s, a, Some(l), Some(l), Some(r), None);
        MapMergeDepends(s, al, Some(l), Some(l), Some(r), None);
        assert MergeAtom(s, a, Some(l), None) == MergeAtom(s, al, Some(l), None);
      } else {
        ListMergeDepends(s, a, Some(l), Some(l), Some(r), None);
      }
    }
  }

  /**
   * Operands that deduce different atoms: the left one contributes nothing, except when the right one is of
   * no kind of the type and the left one is a map with fields to walk; then the right one contributes nothing.
   */
  lemma {:induction false} KindsMerged(s: Schema, tr: TypeRef, l: Value, r: Value)
    requires Resolve(s, tr).Some? && Merge(s, tr, Some(l), Some(r)).ok
    requires DeduceAtom(Resolve(s, tr).value, Some(l)) != DeduceAtom(Resolve(s, tr).value, Some(r))
    ensures var a := Resolve(s, tr).value;
            var ignored := a.mapping.Some? && !a.mapping.value.relationship.Atomic? && FieldsOf(Some(l)) != map[] && !HasKind(a, r);
            (Merge(s, tr, Some(l), Some(r)).out == Merge(s, tr, None, Some(r)).out <==> !ignored) &&
            (ignored ==> Merge(s, tr, Some(l), Some(r)).out == Merge(s, tr, Some(l), None).out)
  {
    var a := Resolve(s, tr).value;
    if HasKind(a, r) {
      KindReplaces(s, tr, l, r);
    } else {
      OtherKindReplaces(s, tr, l, r);
      assert Merge(s, tr, None, Some(r)) == MergeAtom(s, a, None, Some(r));
    }
  }

  /** It fails exactly if one of them alone does, or one is a scalar that the type's scalar kind does not take and the other is not null. */
  lemma {:induction false} KindsFail(s: Schema, tr: TypeRef, l: Value, r: Value)
    requires Resolve(s, tr).Some? && DeduceAtom(Resolve(s, tr).value, Some(l)) != DeduceAtom(Resolve(s, tr).value, Some(r))
    requires HasKind(Resolve(s, tr).value, l) || l.Null?
    requires HasKind(Resolve(s, tr).value, r) || r.Null?
    ensures Merge(s, tr, Some(l), Some(r)).ok <==>
            Merge(s, tr, Some(l), None).ok && Merge(s, tr, None, Some(r)).ok &&
            (IsScalar(l) && !r.Null? ==> Valid(s, tr, l, true)) && (IsScalar(r) && !l.Null? ==> Valid(s, tr, r, true))
  {
    var a := Resolve(s, tr).value;
    if l.Null? {
      RightOk(s, a, l, r);
      NullOk(s, a, r);
    } else if r.Null? {
      LeftOk(s, a, l, r);
      NullOk(s, a, l);
    } else {
      LeftOk(s, a, l, r);
      RightOk(s, a, l, r);
    }
  }

  /** The walk by the left operand's kind. */
  lemma {:induction false} LeftOk(s: Schema, a: Atom, l: Value, r: Value)
    requires HasKind(a, l) && DeduceAtom(a, Some(l)) != DeduceAtom(a, Some(r))
    ensures var al := DeduceAtom(a, Some(l));
            MergeAtom(s, al, Some(l), Some(r)).ok <==>
            MergeAtom(s, al, Some(l), None).ok && (IsScalar(l) && !r.Null? ==> ValidAtom(s, al, l, true))
  {
    AloneOk(s, DeduceAtom(a, Some(l)), l, r);
  }

  lemma {:induction false} RightOk(s: Schema, a: Atom, l: Value, r: Value)
    requires HasKind(a, r) && DeduceAtom(a, Some(l)) != DeduceAtom(a, Some(r))
    ensures var ar := DeduceAtom(a, Some(r));
            MergeAtom(s, ar, Some(l), Some(r)).ok <==>
            MergeAtom(s, ar, None, Some(r)).ok && (IsScalar(r) && !l.Null? ==> ValidAtom(s, ar, r, true))
  {
    AloneOk(s, DeduceAtom(a, Some(r)), l, r);
  }

  /** Null goes with every kind of the type. */
  lemma {:induction false} NullOk(s: Schema, a: Atom, v: Value)
    requires HasKind(a, v) && DeduceAtom(a, Some(v)) != a
    ensures MergeAtom(s, a, Some(Null), None).ok && MergeAtom(s, a, None, Some(Null)).ok
    ensures MergeAtom(s, DeduceAtom(a, Some(v)), Some(v), Some(Null)).ok ==> MergeAtom(s, a, Some(v), Some(Null)).ok
    ensures MergeAtom(s, DeduceAtom(a, Some(v)), Some(Null), Some(v)).ok ==> MergeAtom(s, a, Some(Null), Some(v)).ok
  {
  }

  /** A container meets an operand that is none of its kind as it meets nothing. */
  lemma {:induction false} AloneOk(s: Schema, a: Atom, l: Value, r: Value)
    ensures a.mapping.Some? && !r.Map? ==> MergeAtom(s, a, Some(l), Some(r)).ok == MergeAtom(s, a, Some(l), None).ok
    ensures a.mapping.Some? && !l.Map? ==> MergeAtom(s, a, Some(l), Some(r)).ok == MergeAtom(s, a, None, Some(r)).ok
    ensures a.list.Some? && a.scalar.None? && a.mapping.None? && !r.List? ==>
              MergeAtom(s, a, Some(l), Some(r)).ok == MergeAtom(s, a, Some(l), None).ok
    ensures a.list.Some? && a.scalar.None? && a.mapping.None? && !l.List? ==>
              MergeAtom(s, a, Some(l), Some(r)).ok == MergeAtom(s, a, None, Some(r)).ok
  {
    if a.mapping.Some? && !a.mapping.value.relationship.Atomic? {
      if !r.Map? && FieldsOf(Some(l)) != map[] {
        MapMergeDepends(s, a, Some(l), Some(l), Some(r), None);
      }
      if !l.Map? && FieldsOf(Some(r)) != map[] {
        MapMergeDepends(s, a, Some(l), None, Some(r), Some(r));
      }
    } else if a.mapping.None? && a.scalar.None? && a.list.Some? && !a.list.value.relationship.Atomic? {
      if !r.List? && ItemsOf(Some(l)) != [] {
        ListMergeDepends(s, a, Some(l), Some(l), Some(r), None);
      }
      if !l.List? && ItemsOf(Some(r)) != [] {
        ListMergeDepends(s, a, Some(l), None, Some(r), Some(r));
      }
    }
  }

  /** A merge makes no empty container: one comes out only as the operand that is kept. */
  lemma {:induction false} EmptyOnlyGiven(s: Schema, tr: TypeRef, l: Option<Value>, r: Option<Value>)
    requires var out := Merge(s, tr, l, r).out; out == Some(Map(map[])) || out == Some(List([]))
    ensures Merge(s, tr, l, r).out == if r.Some? then r else l
  {
  }

  const DEDUCED_REF := TypeRef(Some(DEDUCED), NO_ATOM, None)

  /** The type of objects without a schema: untyped scalars, atomic lists and maps of the same type. */
  predicate HasDeduced(s: Schema, items: TypeRef) {
    Lookup(s.types, DEDUCED) ==
    Some(Atom(Some(Untyped), Some(ListType(items, Atomic, [])), Some(MapType(map[], DEDUCED_REF, Separable))))
  }

  /** Maps key by key, to any depth; null does not replace a map that has fields; otherwise the right value. */
  function Overlay(l: Value, r: Value): Value {
    if l.Map? && r.Map? then
      Map(map k | k in l.fields.Keys + r.fields.Keys ::
            if k !in r.fields then l.fields[k] else if k !in l.fields then r.fields[k] else Overlay(l.fields[k], r.fields[k]))
    else if l.Map? && l.fields != map[] && r.Null? then l
    else r
  }

  /** A map merge in which every field succeeds. */
  lemma {:induction false} FieldsMerged(s: Schema, a: Atom, l: Option<Value>, r: Option<Value>, fields: map<string, Value>)
    requires a.mapping.Some? && !a.mapping.value.relationship.Atomic?
    requires fields.Keys == FieldsOf(l).Keys + FieldsOf(r).Keys && fields != map[]
    requires forall k | k in fields :: MergeField(s, a.mapping.value, l, r, k) == Merged(Some(fields[k]), true)
    ensures MergeAtom(s, a, l, r) == Merged(Some(Map(fields)), true)
  {
    var t := a.mapping.value;
    var out := map k | k in FieldsOf(l).Keys + FieldsOf(r).Keys && MergeField(s, t, l, r, k).out.Some?
                 :: MergeField(s, t, l, r, k).out.value;
    assert out == fields;
    var k :| k in fields;
    assert k in FieldsOf(l) || k in FieldsOf(r);
  }

  /** Merging objects without a schema succeeds on all values and overlays the left one with the right one. */
  lemma {:induction false} DeducedMerge(s: Schema, items: TypeRef, l: Value, r: Value)
    requires HasDeduced(s, items)
    ensures Merge(s, DEDUCED_REF, Some(l), Some(r)) == Merged(Some(Overlay(l, r)), true)
    decreases l
  {
    var a := Resolve(s, DEDUCED_REF).value;
    if l.Map? && r.Map? {
      if Overlay(l, r).fields != map[] {
        DeducedFields(s, items, l, r);
      }
    } else if FieldsOf(Some(l)) != map[] {
      DeducedLeft(s, items, a, l, r);
      DeducedLeft(s, items, Atom(None, None, a.mapping), l, r);
    } else if FieldsOf(Some(r)) != map[] {
      DeducedRight(s, items, a, l, r);
      DeducedRight(s, items, Atom(None, None, a.mapping), l, r);
    }
  }

  lemma {:induction false} DeducedFields(s: Schema, items: TypeRef, l: Value, r: Value)
    requires HasDeduced(s, items) && l.Map? && r.Map? && Overlay(l, r).fields != map[]
    ensures Merge(s, DEDUCED_REF, Some(l), Some(r)) == Merged(Some(Overlay(l, r)), true)
    decreases l, 0
  {
    var a := Resolve(s, DEDUCED_REF).value;
    forall k | k in l.fields.Keys + r.fields.Keys
      ensures MergeField(s, a.mapping.value, Some(l), Some(r), k) == Merged(Some(Overlay(l, r).fields[k]), true)
    {
      if k !in r.fields {
        DeducedAlone(s, items, l.fields[k]);
      } else if k !in l.fields {
        DeducedAlone(s, items, r.fields[k]);
      } else {
        DeducedMerge(s, items, l.fields[k], r.fields[k]);
      }
    }
    FieldsMerged(s, Atom(None, None, a.mapping), Some(l), Some(r), Overlay(l, r).fields);
  }

  /** Only the left side is a map with fields: as a map it stays. */
  lemma {:induction false} DeducedLeft(s: Schema, items: TypeRef, a: Atom, l: Value, r: Value)
    requires HasDeduced(s, items) && a.mapping == Resolve(s, DEDUCED_REF).value.mapping
    requires l.Map? && l.fields != map[] && !r.Map?
    ensures MergeAtom(s, a, Some(l), Some(r)) == Merged(Some(l), true)
  {
    forall k | k in l.fields
      ensures MergeField(s, a.mapping.value, Some(l), Some(r), k) == Merged(Some(l.fields[k]), true)
    {
      DeducedAlone(s, items, l.fields[k]);
    }
    FieldsMerged(s, a, Some(l), Some(r), l.fields);
  }

  lemma {:induction false} DeducedRight(s: Schema, items: TypeRef, a: Atom, l: Value, r: Value)
    requires HasDeduced(s, items) && a.mapping == Resolve(s, DEDUCED_REF).value.mapping
    requires r.Map? && r.fields != map[] && !l.Map?
    ensures MergeAtom(s, a, Some(l), Some(r)) == Merged(Some(r), true)
  {
    forall k | k in r.fields
      ensures MergeField(s, a.mapping.value, Some(l), Some(r), k) == Merged(Some(r.fields[k]), true)
    {
      DeducedAlone(s, items, r.fields[k]);
    }
    FieldsMerged(s, a, Some(l), Some(r), r.fields);
  }

  lemma {:induction false} DeducedAlone(s: Schema, items: TypeRef, v: Value)
    requires HasDeduced(s, items)
    ensures Merge(s, DEDUCED_REF, Some(v), None) == Merged(Some(v), true)
    ensures Merge(s, DEDUCED_REF, None, Some(v)) == Merged(Some(v), true)
  {
    if FieldsOf(Some(v)) != map[] {
      var a := Atom(None, None, Resolve(s, DEDUCED_REF).value.mapping);
      forall k | k in v.fields
        ensures MergeField(s, a.mapping.value, Some(v), None, k) == Merged(Some(v.fields[k]), true)
        ensures MergeField(s, a.mapping.value, None, Some(v), k) == Merged(Some(v.fields[k]), true)
      {
        DeducedAlone(s, items, v.fields[k]);
      }
      FieldsMerged(s, a, Some(v), None, v.fields);
      FieldsMerged(s, a, None, Some(v), v.fields);
    }
  }

  /** Merging once more changes nothing. */
  lemma {:induction false} OverlayAbsorbs(l: Value, r: Value)
    ensures Overlay(r, r) == r && Overlay(Overlay(l, r), r) == Overlay(l, r)
    decreases r
  {
    if r.Map? {
      forall k | k in r.fields
        ensures Overlay(r.fields[k], r.fields[k]) == r.fields[k]
        ensures l.Map? && k in l.fields ==> Overlay(Overlay(l.fields[k], r.fields[k]), r.fields[k]) == Overlay(l.fields[k], r.fields[k])
      {
        OverlayAbsorbs(if l.Map? && k in l.fields then l.fields[k] else Null, r.fields[k]);
      }
      assert Overlay(r, r).fields == r.fields;
      if l.Map? {
        assert Overlay(Overlay(l, r), r).fields == Overlay(l, r).fields;
      }
    }
  }

  /** A string replaces a map with fields, and null does not. */
  lemma {:induction false} ReplacedOrKept(s: Schema, items: TypeRef, a: string, b: string, n: real, x: string)
    requires HasDeduced(s, items)
    ensures var l := Map(map[a := Map(map[b := Num(n)])]);
            Merge(s, DEDUCED_REF, Some(l), Some(Map(map[a := Str(x)]))).out == Some(Map(map[a := Str(x)])) &&
            Merge(s, DEDUCED_REF, Some(l), Some(Map(map[a := Null]))).out == Some(l)
  {
    var inner := Map(map[b := Num(n)]);
    var l := Map(map[a := inner]);
    DeducedMerge(s, items, l, Map(map[a := Str(x)]));
    DeducedMerge(s, items, l, Map(map[a := Null]));
    assert inner.fields != map[] by {
      assert b in inner.fields;
    }
    assert Overlay(l, Map(map[a := Str(x)])).fields == map[a := Str(x)];
    assert Overlay(l, Map(map[a := Null])).fields == map[a := inner];
  }
}
