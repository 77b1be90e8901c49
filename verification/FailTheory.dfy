/** When merging, comparing and listing the fields of arbitrary values report an error, node by node. */
module FailTheory {
  import opened Values
  import opened PathElements
  import opened Schemas
  import M = Merging
  import opened Comparing
  import opened PlainSetting
  import R = RepeatTheory
  import O = Owning
  import U = Updating
  import opened ValidTheory
  import opened CutTheory

  /** One of the operands is absent, null or a scalar that the type takes. */
  predicate ScalarFits(t: Scalar, l: Option<Value>, r: Option<Value>) {
    FitsScalar(t, l) || FitsScalar(t, r)
  }

  predicate FitsScalar(t: Scalar, o: Option<Value>) {
    o.None? || o.value.Null? || (o.value.Num? && (t.Numeric? || t.Untyped?)) ||
    (o.value.Str? && (t.StringScalar? || t.Untyped?)) || (o.value.Bool? && (t.Boolean? || t.Untyped?))
  }

  /** Items can be told apart: each has a path element, and on the right no two have the same. */
  predicate ItemsFit(s: Schema, t: ListType, l: Option<Value>, r: Option<Value>) {
    (forall x | x in ItemsOf(l) + ItemsOf(r) :: ItemElement(s, t, x).Some?) &&
    forall i, j | 0 <= i < j < |ItemsOf(r)| :: ItemElement(s, t, ItemsOf(r)[i]) != ItemElement(s, t, ItemsOf(r)[j])
  }

  /** The operands can be merged as an atom, as far as the node itself goes. */
  predicate AtomFits(s: Schema, a: Atom, l: Option<Value>, r: Option<Value>) {
    a.mapping.Some? ||
    if a.scalar.Some? then ScalarFits(a.scalar.value, l, r)
    else
      a.list.Some? &&
      (a.list.value.relationship.Atomic? || (ItemsOf(l) == [] && ItemsOf(r) == []) || ItemsFit(s, a.list.value, l, r))
  }

  /** ... by the kind of each operand that is there. */
  predicate MergeFits(s: Schema, tr: TypeRef, l: Option<Value>, r: Option<Value>) {
    var a := Resolve(s, tr);
    (l.Some? || r.Some?) && a.Some? &&
    (l.Some? ==> AtomFits(s, DeduceAtom(a.value, l), l, r)) && (r.Some? ==> AtomFits(s, DeduceAtom(a.value, r), l, r))
  }

  /** The fields that a merge goes into. */
  predicate HasField(s: Schema, tr: TypeRef, l: Option<Value>, r: Option<Value>, k: string) {
    var a := Resolve(s, tr);
    a.Some? && a.value.mapping.Some? && !a.value.mapping.value.relationship.Atomic? && (k in FieldsOf(l) || k in FieldsOf(r))
  }

  /** What is found along the names, if a merge goes there, can be merged. */
  predicate MergeFitsAt(s: Schema, tr: TypeRef, l: Option<Value>, r: Option<Value>, names: seq<string>)
    decreases |names|
  {
    if names == [] then MergeFits(s, tr, l, r)
    else
      HasField(s, tr, l, r, names[0]) ==>
        MergeFitsAt(s, FieldType(Resolve(s, tr).value.mapping.value, names[0]),
                    Lookup(FieldsOf(l), names[0]), Lookup(FieldsOf(r), names[0]), names[1..])
  }

  lemma {:induction false} ScalarFitsIff(t: Scalar, l: Option<Value>, r: Option<Value>)
    ensures ScalarFits(t, l, r) <==> ValidScalar(t, l) || ValidScalar(t, r)
  {
  }

  lemma {:induction false} ItemsFitIff(s: Schema, t: ListType, l: Option<Value>, r: Option<Value>)
    ensures ItemsFit(s, t, l, r) <==> M.Indexable(s, t, ItemsOf(l), true) && M.Indexable(s, t, ItemsOf(r), false)
  {
    var ri, ks := ItemsOf(r), Elements(s, t, ItemsOf(r));
    if forall x | x in ri :: ItemElement(s, t, x).Some? {
      assert forall i | 0 <= i < |ri| :: ItemElement(s, t, ri[i]) == Some(ks[i]);
    }
  }

  /** One atom: the node fits, and every field merges. */
  lemma {:induction false} AtomOk(s: Schema, a: Atom, l: Option<Value>, r: Option<Value>)
    ensures M.MergeAtom(s, a, l, r).ok <==>
            AtomFits(s, a, l, r) &&
            (a.mapping.Some? && !a.mapping.value.relationship.Atomic? ==>
               forall k | k in FieldsOf(l).Keys + FieldsOf(r).Keys :: M.MergeField(s, a.mapping.value, l, r, k).ok)
  {
    if a.mapping.None? {
      if a.scalar.Some? {
        ScalarFitsIff(a.scalar.value, l, r);
      } else if a.list.Some? {
        ItemsFitIff(s, a.list.value, l, r);
      }
    }
  }

  /** One node: it fits, and every field merges. */
  lemma {:induction false} NodeMerges(s: Schema, tr: TypeRef, l: Option<Value>, r: Option<Value>)
    ensures M.Merge(s, tr, l, r).ok <==>
            MergeFits(s, tr, l, r) &&
            forall k | HasField(s, tr, l, r, k) :: M.MergeField(s, Resolve(s, tr).value.mapping.value, l, r, k).ok
  {
    if Resolve(s, tr).Some? {
      var a := Resolve(s, tr).value;
      AtomOk(s, DeduceAtom(a, l), l, r);
      AtomOk(s, DeduceAtom(a, r), l, r);
    }
  }

  /** All that a merge reaches through fields can be merged. */
  ghost predicate AllFit(s: Schema, tr: TypeRef, l: Option<Value>, r: Option<Value>) {
    forall names :: MergeFitsAt(s, tr, l, r, names)
  }

  ghost predicate FieldFits(s: Schema, tr: TypeRef, l: Option<Value>, r: Option<Value>, k: string)
    requires HasField(s, tr, l, r, k)
  {
    AllFit(s, FieldType(Resolve(s, tr).value.mapping.value, k), Lookup(FieldsOf(l), k), Lookup(FieldsOf(r), k))
  }

  /**
   * On every schema and for all values, a merge fails exactly if some pair of nodes that it reaches through
   * fields alone cannot be merged. What goes wrong inside list items is not reported.
   */
  lemma {:induction false} MergeFailsIff(s: Schema, tr: TypeRef, l: Option<Value>, r: Option<Value>)
    ensures M.Merge(s, tr, l, r).ok <==> AllFit(s, tr, l, r)
    decreases OptHeight(l) + OptHeight(r)
  {
    NodeMerges(s, tr, l, r);
    forall k | HasField(s, tr, l, r, k)
      ensures M.MergeField(s, Resolve(s, tr).value.mapping.value, l, r, k).ok <==> FieldFits(s, tr, l, r, k)
    {
      LookupHeight(l, k);
      LookupHeight(r, k);
      MergeFailsIff(s, FieldType(Resolve(s, tr).value.mapping.value, k), Lookup(FieldsOf(l), k), Lookup(FieldsOf(r), k));
    }
    FitsByField(s, tr, l, r);
  }

  lemma {:induction false} FitsByField(s: Schema, tr: TypeRef, l: Option<Value>, r: Option<Value>)
    ensures AllFit(s, tr, l, r) <==> MergeFits(s, tr, l, r) && forall k | HasField(s, tr, l, r, k) :: FieldFits(s, tr, l, r, k)
  {
    if AllFit(s, tr, l, r) {
      assert MergeFitsAt(s, tr, l, r, []);
      forall k, names | HasField(s, tr, l, r, k)
        ensures MergeFitsAt(s, FieldType(Resolve(s, tr).value.mapping.value, k), Lookup(FieldsOf(l), k), Lookup(FieldsOf(r), k), names)
      {
        assert ([k] + names)[0] == k && ([k] + names)[1..] == names;
        assert MergeFitsAt(s, tr, l, r, [k] + names);
      }
    }
    if MergeFits(s, tr, l, r) && forall k | HasField(s, tr, l, r, k) :: FieldFits(s, tr, l, r, k) {
      forall names
        ensures MergeFitsAt(s, tr, l, r, names)
      {
        if names != [] && HasField(s, tr, l, r, names[0]) {
          assert FieldFits(s, tr, l, r, names[0]);
        }
      }
    }
  }

  /** A plain type, or no type at all, as undeclared fields have. */
  ghost predicate PlainOrNone(s: Schema, tr: TypeRef) {
    Plain(s, tr) || tr == NO_TYPE
  }

  /** The operands can be compared, as far as the node itself goes. */
  predicate CompareFits(s: Schema, tr: TypeRef, l: Option<Value>, r: Option<Value>) {
    var a := Resolve(s, tr);
    (l.Some? || r.Some?) && a.Some? &&
    (a.value.mapping.Some? ||
     if a.value.scalar.Some? then ScalarFits(a.value.scalar.value, l, r)
     else
       a.value.list.Some? &&
       (a.value.list.value.relationship.Atomic? ||
        forall x | x in ItemsOf(l) + ItemsOf(r) :: ItemElement(s, a.value.list.value, x).Some?))
  }

  /** The only node of a run. */
  function Only(run: seq<Value>): Option<Value> {
    if |run| == 1 then Some(run[0]) else None
  }

  /** What is found at the path, if a comparison goes there, can be compared; it does not go into runs. */
  predicate CompareFitsAt(s: Schema, tr: TypeRef, l: Option<Value>, r: Option<Value>, p: Path)
    decreases |p|
  {
    if p == [] then CompareFits(s, tr, l, r)
    else
      var lo, ro := Only(R.KidsOf(s, tr, l, p[0])), Only(R.KidsOf(s, tr, r, p[0]));
      lo.Some? || ro.Some? ==> CompareFitsAt(s, ChildType(s, tr, p[0]), lo, ro, p[1..])
  }

  ghost predicate AllComparable(s: Schema, tr: TypeRef, l: Option<Value>, r: Option<Value>) {
    forall p :: CompareFitsAt(s, tr, l, r, p)
  }

  ghost predicate KidComparable(s: Schema, tr: TypeRef, l: Option<Value>, r: Option<Value>, pe: PathElement) {
    var lo, ro := Only(R.KidsOf(s, tr, l, pe)), Only(R.KidsOf(s, tr, r, pe));
    lo.Some? || ro.Some? ==> AllComparable(s, ChildType(s, tr, pe), lo, ro)
  }

  /** A node: it fits, and the comparisons of all children report no error. */
  lemma {:induction false} NodeComparable(s: Schema, tr: TypeRef, l: Option<Value>, r: Option<Value>)
    requires PlainOrNone(s, tr)
    ensures Compare(s, tr, l, r).ok <==>
            CompareFits(s, tr, l, r) &&
            var kids := R.KidComparisons(s, tr, l, r);
            forall pe | pe in kids :: kids[pe].ok
  {
    if Plain(s, tr) && (l.Some? || r.Some?) {
      PlainNode(s, tr);
      var a := Resolve(s, tr).value;
      assert Compare(s, tr, l, r) == CompareAtom(s, a, l, r);
      var kids := R.KidComparisons(s, tr, l, r);
      match ShapeOf(s, tr)
      case LeafShape =>
        if a.scalar.Some? {
          ScalarFitsIff(a.scalar.value, l, r);
        }
      case MapShape(t) =>
        assert FieldsOf(l) == map[] && FieldsOf(r) == map[] ==> kids.Keys == {};
        assert CompareAtom(s, a, l, r).ok <==> forall pe | pe in kids :: kids[pe].ok;
      case ListShape(t) =>
        assert ItemsOf(l) == [] && ItemsOf(r) == [] ==> kids.Keys == {};
    }
  }

  lemma {:induction false} KidType(s: Schema, tr: TypeRef, pe: PathElement)
    requires PlainOrNone(s, tr)
    ensures PlainOrNone(s, ChildType(s, tr, pe))
  {
    if Plain(s, tr) {
      PlainNode(s, tr);
      if ShapeOf(s, tr).MapShape? && pe.FieldName? && (pe.name in ShapeOf(s, tr).mt.fields || ShapeOf(s, tr).mt.elementType != NO_TYPE) {
        PlainField(s, tr, pe.name);
      }
    }
  }

  /** On plain schemas and for all values, a comparison fails exactly if some pair of nodes that it reaches cannot be compared. */
  lemma {:induction false} CompareFailsIff(s: Schema, tr: TypeRef, l: Option<Value>, r: Option<Value>)
    requires PlainOrNone(s, tr)
    ensures Compare(s, tr, l, r).ok <==> AllComparable(s, tr, l, r)
    decreases OptHeight(l) + OptHeight(r), 1
  {
    NodeComparable(s, tr, l, r);
    var kids := R.KidComparisons(s, tr, l, r);
    forall pe
      ensures (pe in kids ==> kids[pe].ok) <==> KidComparable(s, tr, l, r, pe)
    {
      KidFails(s, tr, l, r, pe);
    }
    ComparableByKid(s, tr, l, r);
  }

  lemma {:induction false} KidFails(s: Schema, tr: TypeRef, l: Option<Value>, r: Option<Value>, pe: PathElement)
    requires PlainOrNone(s, tr)
    ensures var kids := R.KidComparisons(s, tr, l, r);
            (pe in kids ==> kids[pe].ok) <==> KidComparable(s, tr, l, r, pe)
    decreases OptHeight(l) + OptHeight(r), 0
  {
    var ct, lg, rg := ChildType(s, tr, pe), R.KidsOf(s, tr, l, pe), R.KidsOf(s, tr, r, pe);
    R.KidsCompared(s, tr, l, r, pe);
    R.KidsHeight(s, tr, l, pe);
    R.KidsHeight(s, tr, r, pe);
    KidType(s, tr, pe);
    if Only(lg).Some? || Only(rg).Some? {
      CompareFailsIff(s, ct, Only(lg), Only(rg));
    }
  }

  lemma {:induction false} ComparableByKid(s: Schema, tr: TypeRef, l: Option<Value>, r: Option<Value>)
    ensures AllComparable(s, tr, l, r) <==> CompareFits(s, tr, l, r) && forall pe :: KidComparable(s, tr, l, r, pe)
  {
    if AllComparable(s, tr, l, r) {
      assert CompareFitsAt(s, tr, l, r, []);
      forall pe, p | Only(R.KidsOf(s, tr, l, pe)).Some? || Only(R.KidsOf(s, tr, r, pe)).Some?
        ensures CompareFitsAt(s, ChildType(s, tr, pe), Only(R.KidsOf(s, tr, l, pe)), Only(R.KidsOf(s, tr, r, pe)), p)
      {
        assert ([pe] + p)[0] == pe && ([pe] + p)[1..] == p;
        assert CompareFitsAt(s, tr, l, r, [pe] + p);
      }
    }
    if CompareFits(s, tr, l, r) && forall pe :: KidComparable(s, tr, l, r, pe) {
      forall p
        ensures CompareFitsAt(s, tr, l, r, p)
      {
        if p != [] {
          assert KidComparable(s, tr, l, r, p[0]);
        }
      }
    }
  }

  /** The children that a field set is read from: those of granular maps and lists, without items that share their path element. */
  predicate Visited(s: Schema, tr: TypeRef, v: Value, at: Spot) {
    var a := Resolve(s, tr);
    a.Some? && Child(v, at).Some? &&
    match at
    case InField(_) => a.value.mapping.Some? && !a.value.mapping.value.relationship.Atomic?
    case InItem(i) =>
      a.value.list.Some? && !a.value.list.value.relationship.Atomic? &&
      forall j | 0 <= j < |v.items| && j != i :: ElementOf(s, a.value.list.value, v.items[j]) != ElementOf(s, a.value.list.value, v.items[i])
  }

  /** The node at the end of the steps, if the walk gets there, has a type with a kind. */
  predicate KnownAt(s: Schema, tr: TypeRef, v: Value, spots: seq<Spot>)
    decreases |spots|
  {
    if spots == [] then HasSomeKind(s, tr)
    else Visited(s, tr, v, spots[0]) ==> KnownAt(s, TypeOf(s, tr, spots[0]), Child(v, spots[0]).value, spots[1..])
  }

  ghost predicate AllKnown(s: Schema, tr: TypeRef, v: Value) {
    forall spots :: KnownAt(s, tr, v, spots)
  }

  /** One node: its type has a kind, and the children that are visited report no error. */
  lemma {:induction false} NodeListed(s: Schema, tr: TypeRef, v: Value)
    ensures O.MentionedOk(s, tr, v) <==>
            HasSomeKind(s, tr) && forall at | Visited(s, tr, v, at) :: O.MentionedOk(s, TypeOf(s, tr, at), Child(v, at).value)
  {
    if Resolve(s, tr).Some? {
      var a := Resolve(s, tr).value;
      if v.Map? && a.mapping.Some? && !a.mapping.value.relationship.Atomic? {
        assert forall k | k in v.fields :: Visited(s, tr, v, InField(k)) && Child(v, InField(k)).value == v.fields[k];
      } else if v.List? && a.list.Some? && !a.list.value.relationship.Atomic? {
        ItemsListed(s, tr, v);
      }
    }
  }

  lemma {:induction false} ItemsListed(s: Schema, tr: TypeRef, v: Value)
    requires v.List? && Resolve(s, tr).Some? && Resolve(s, tr).value.list.Some? && !Resolve(s, tr).value.list.value.relationship.Atomic?
    ensures O.MentionedOk(s, tr, v) <==> forall at | Visited(s, tr, v, at) :: O.MentionedOk(s, TypeOf(s, tr, at), Child(v, at).value)
  {
    var t := Resolve(s, tr).value.list.value;
    var ks := Elements(s, t, v.items);
    forall i: nat | i < |v.items|
      ensures Visited(s, tr, v, InItem(i)) <==> O.Single(ks, i)
    {
    }
    assert O.MentionedOk(s, tr, v) <==> O.MentionedOkAtom(s, Atom(None, Some(t), None), v);
    if O.MentionedOk(s, tr, v) {
      forall at | Visited(s, tr, v, at)
        ensures O.MentionedOk(s, TypeOf(s, tr, at), Child(v, at).value)
      {
        assert O.Single(ks, at.i);
      }
    }
    if forall at | Visited(s, tr, v, at) :: O.MentionedOk(s, TypeOf(s, tr, at), Child(v, at).value) {
      forall i | 0 <= i < |ks| && O.Single(ks, i)
        ensures O.MentionedOk(s, t.elementType, v.items[i])
      {
        assert Visited(s, tr, v, InItem(i));
      }
    }
  }

  /** On every schema and for all values, a field set cannot be read exactly if the walk gets to a node whose type has no kind. */
  lemma {:induction false} FieldSetFailsIff(s: Schema, tr: TypeRef, v: Value)
    ensures O.MentionedOk(s, tr, v) <==> AllKnown(s, tr, v)
    decreases v
  {
    NodeListed(s, tr, v);
    forall at | Visited(s, tr, v, at)
      ensures O.MentionedOk(s, TypeOf(s, tr, at), Child(v, at).value) <==> AllKnown(s, TypeOf(s, tr, at), Child(v, at).value)
    {
      FieldSetFailsIff(s, TypeOf(s, tr, at), Child(v, at).value);
    }
    KnownByChild(s, tr, v);
  }

  lemma {:induction false} KnownByChild(s: Schema, tr: TypeRef, v: Value)
    ensures AllKnown(s, tr, v) <==>
            HasSomeKind(s, tr) && forall at | Visited(s, tr, v, at) :: AllKnown(s, TypeOf(s, tr, at), Child(v, at).value)
  {
    if AllKnown(s, tr, v) {
      assert KnownAt(s, tr, v, []);
      forall at, spots | Visited(s, tr, v, at)
        ensures KnownAt(s, TypeOf(s, tr, at), Child(v, at).value, spots)
      {
        assert ([at] + spots)[0] == at && ([at] + spots)[1..] == spots;
        assert KnownAt(s, tr, v, [at] + spots);
      }
    }
    if HasSomeKind(s, tr) && forall at | Visited(s, tr, v, at) :: AllKnown(s, TypeOf(s, tr, at), Child(v, at).value) {
      forall spots
        ensures KnownAt(s, tr, v, spots)
      {
        if spots != [] && Visited(s, tr, v, spots[0]) {
          assert AllKnown(s, TypeOf(s, tr, spots[0]), Child(v, spots[0]).value);
        }
      }
    }
  }

  /** On every schema, pruning fails exactly if something was owned last time and the merged object, or what the first or second pass leaves of it, has such a node. */
  lemma {:induction false} PruneFailsIff(s: Schema, tr: TypeRef, merged: Value, managers: U.Managers, last: PathSet)
    ensures var first := U.PruneLast(s, tr, merged, last);
            U.Prune(s, tr, merged, managers, last).None? <==>
            last != {} &&
            !(AllKnown(s, tr, merged) && AllKnown(s, tr, first) &&
              AllKnown(s, tr, U.AddBackOwned(s, tr, merged, first, U.Managed(managers))))
  {
    var first := U.PruneLast(s, tr, merged, last);
    FieldSetFailsIff(s, tr, merged);
    FieldSetFailsIff(s, tr, first);
    FieldSetFailsIff(s, tr, U.AddBackOwned(s, tr, merged, first, U.Managed(managers)));
  }
}
