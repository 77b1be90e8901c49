/** Objects of plain schemas seen as trees: children by path element, nodes by path. */
module PlainSetting {
  import opened Values
  import opened PathElements
  import opened Schemas
  import opened Merging

  /** Exactly one kind is present. */
  predicate OneKind(a: Atom) {
    (a.scalar.Some? && a.list.None? && a.mapping.None?) ||
    (a.scalar.None? && a.list.Some? && a.mapping.None?) ||
    (a.scalar.None? && a.list.None? && a.mapping.Some?)
  }

  predicate ScalarType(s: Schema, tr: TypeRef) {
    var a := Resolve(s, tr);
    a.Some? && OneKind(a.value) && a.value.scalar.Some?
  }

  /** The items of a keyed list are maps, and the keys are scalars. */
  predicate KeyedByScalars(s: Schema, t: ListType) {
    var e := Resolve(s, t.elementType);
    e.Some? && e.value.mapping.Some? && forall k | k in t.keys :: ScalarType(s, FieldType(e.value.mapping.value, k))
  }

  /** Some key has no default, so that every item carries it itself. */
  predicate HasGivenKey(s: Schema, t: ListType) {
    exists k | k in t.keys :: KeyDefault(s, t, k).None?
  }

  /** Each atom has one kind, every list is atomic or associative, and all references stay in `types`. */
  ghost predicate PlainAtom(s: Schema, types: set<TypeRef>, a: Atom) {
    OneKind(a) &&
    (a.list.Some? ==>
       var t := a.list.value;
       !t.relationship.Separable? && t.elementType in types &&
       (t.relationship.Associative? && t.keys != [] ==> KeyedByScalars(s, t))) &&
    (a.mapping.Some? ==>
       var t := a.mapping.value;
       (t.elementType == NO_TYPE || t.elementType in types) &&
       forall k | k in t.fields :: t.fields[k].fieldType in types)
  }

  ghost predicate ClosedTypes(s: Schema, types: set<TypeRef>) {
    forall tr | tr in types :: Resolve(s, tr).Some? && PlainAtom(s, types, Resolve(s, tr).value)
  }

  /** Everything reachable from `tr` is plain; recursive types are allowed. */
  ghost predicate Plain(s: Schema, tr: TypeRef) {
    exists types: set<TypeRef> :: tr in types && ClosedTypes(s, types)
  }

  ghost predicate GivenKeys(s: Schema, types: set<TypeRef>) {
    forall tr | tr in types ::
      ShapeOf(s, tr).ListShape? && ShapeOf(s, tr).lt.keys != [] ==> HasGivenKey(s, ShapeOf(s, tr).lt)
  }

  /** Plain, and every list with keys has one without a default. */
  ghost predicate Anchored(s: Schema, tr: TypeRef) {
    Plain(s, tr) && exists types: set<TypeRef> :: tr in types && ClosedTypes(s, types) && GivenKeys(s, types)
  }

  /** Scalars and atomic containers are leaves; other maps and lists have children. */
  datatype Shape = LeafShape | MapShape(mt: MapType) | ListShape(lt: ListType)

  function ShapeOf(s: Schema, tr: TypeRef): Shape {
    var a := Resolve(s, tr);
    if a.None? then LeafShape
    else if a.value.mapping.Some? then
      if a.value.mapping.value.relationship.Atomic? then LeafShape else MapShape(a.value.mapping.value)
    else if a.value.scalar.None? && a.value.list.Some? && !a.value.list.value.relationship.Atomic? then
      ListShape(a.value.list.value)
    else LeafShape
  }

  function ChildType(s: Schema, tr: TypeRef, pe: PathElement): TypeRef {
    match ShapeOf(s, tr)
    case MapShape(t) => if pe.FieldName? then FieldType(t, pe.name) else NO_TYPE
    case ListShape(t) => t.elementType
    case LeafShape => NO_TYPE
  }

  /** The child that `pe` selects. */
  function Kid(s: Schema, tr: TypeRef, v: Value, pe: PathElement): Option<Value> {
    match ShapeOf(s, tr)
    case MapShape(t) => if v.Map? && pe.FieldName? then Lookup(v.fields, pe.name) else None
    case ListShape(t) =>
      if v.List? && pe in Elements(s, t, v.items)
      then Some(v.items[IndexOf(Elements(s, t, v.items), pe)]) else None
    case LeafShape => None
  }

  function KidOf(s: Schema, tr: TypeRef, o: Option<Value>, pe: PathElement): Option<Value> {
    if o.None? then None else Kid(s, tr, o.value, pe)
  }

  /** The node at a path. */
  function At(s: Schema, tr: TypeRef, o: Option<Value>, p: Path): Option<Value>
    decreases |p|
  {
    if p == [] then o else At(s, ChildType(s, tr, p[0]), KidOf(s, tr, o, p[0]), p[1..])
  }

  function TypeAt(s: Schema, tr: TypeRef, p: Path): TypeRef
    decreases |p|
  {
    if p == [] then tr else TypeAt(s, ChildType(s, tr, p[0]), p[1..])
  }

  /** Every path to a node, through containers that are not atomic; [] is the root. */
  function AllPaths(s: Schema, tr: TypeRef, v: Value): PathSet
    decreases v
  {
    {[]} +
    match ShapeOf(s, tr)
    case MapShape(t) =>
      if v.Map? then set k, p | k in v.fields && p in AllPaths(s, FieldType(t, k), v.fields[k]) :: [FieldName(k)] + p
      else {}
    case ListShape(t) =>
      if v.List? then
        var ks := Elements(s, t, v.items);
        set i, p | 0 <= i < |ks| && p in AllPaths(s, t.elementType, v.items[i]) :: [ks[i]] + p
      else {}
    case LeafShape => {}
  }

  ghost predicate ValidOpt(s: Schema, tr: TypeRef, o: Option<Value>) {
    o.Some? ==> Valid(s, tr, o.value, false)
  }

  /** What plainness gives about one node. */
  lemma {:induction false} PlainNode(s: Schema, tr: TypeRef)
    requires Plain(s, tr)
    ensures Resolve(s, tr).Some? && OneKind(Resolve(s, tr).value)
    ensures forall o :: DeduceAtom(Resolve(s, tr).value, o) == Resolve(s, tr).value
    ensures ShapeOf(s, tr).ListShape? ==>
              var t := ShapeOf(s, tr).lt;
              t.relationship.Associative? && Plain(s, t.elementType) && (t.keys != [] ==> KeyedByScalars(s, t))
  {
    var types: set<TypeRef> :| tr in types && ClosedTypes(s, types);
    assert PlainAtom(s, types, Resolve(s, tr).value);
  }

  lemma {:induction false} PlainField(s: Schema, tr: TypeRef, k: string)
    requires Plain(s, tr) && ShapeOf(s, tr).MapShape?
    requires k in ShapeOf(s, tr).mt.fields || ShapeOf(s, tr).mt.elementType != NO_TYPE
    ensures Plain(s, FieldType(ShapeOf(s, tr).mt, k))
  {
    var types: set<TypeRef> :| tr in types && ClosedTypes(s, types);
    assert PlainAtom(s, types, Resolve(s, tr).value);
  }

  lemma {:induction false} KidValid(s: Schema, tr: TypeRef, v: Value, pe: PathElement, dups: bool)
    requires Plain(s, tr) && Valid(s, tr, v, dups)
    requires Kid(s, tr, v, pe).Some?
    ensures Plain(s, ChildType(s, tr, pe))
    ensures Valid(s, ChildType(s, tr, pe), Kid(s, tr, v, pe).value, dups)
    ensures Kid(s, tr, v, pe).value < v
  {
    PlainNode(s, tr);
    assert ValidAtom(s, Resolve(s, tr).value, v, dups);
    if ShapeOf(s, tr).MapShape? {
      PlainField(s, tr, pe.name);
    }
  }

  lemma {:induction false} KidValidOpt(s: Schema, tr: TypeRef, o: Option<Value>, pe: PathElement)
    requires Plain(s, tr) && ValidOpt(s, tr, o)
    ensures ValidOpt(s, ChildType(s, tr, pe), KidOf(s, tr, o, pe))
    ensures KidOf(s, tr, o, pe).Some? ==> Plain(s, ChildType(s, tr, pe))
  {
    if KidOf(s, tr, o, pe).Some? {
      KidValid(s, tr, o.value, pe, false);
    }
  }

  lemma {:induction false} NodeValid(s: Schema, tr: TypeRef, v: Value, p: Path)
    requires Plain(s, tr) && Valid(s, tr, v, false) && At(s, tr, Some(v), p).Some?
    ensures Plain(s, TypeAt(s, tr, p)) && Valid(s, TypeAt(s, tr, p), At(s, tr, Some(v), p).value, false)
    decreases |p|
  {
    if p != [] {
      if Kid(s, tr, v, p[0]).None? {
        AtNone(s, ChildType(s, tr, p[0]), p[1..]);
      }
      KidValid(s, tr, v, p[0], false);
      NodeValid(s, ChildType(s, tr, p[0]), Kid(s, tr, v, p[0]).value, p[1..]);
    }
  }

  /** What anchoring gives about one node, and about its children. */
  lemma {:induction false} AnchoredNode(s: Schema, tr: TypeRef)
    requires Anchored(s, tr)
    ensures ShapeOf(s, tr).ListShape? ==>
              Anchored(s, ShapeOf(s, tr).lt.elementType) && (ShapeOf(s, tr).lt.keys != [] ==> HasGivenKey(s, ShapeOf(s, tr).lt))
  {
    PlainNode(s, tr);
    var types: set<TypeRef> :| tr in types && ClosedTypes(s, types) && GivenKeys(s, types);
    assert PlainAtom(s, types, Resolve(s, tr).value);
  }

  lemma {:induction false} AnchoredKid(s: Schema, tr: TypeRef, v: Value, pe: PathElement)
    requires Anchored(s, tr) && Valid(s, tr, v, false) && Kid(s, tr, v, pe).Some?
    ensures Anchored(s, ChildType(s, tr, pe))
  {
    PlainNode(s, tr);
    KidValid(s, tr, v, pe, false);
    assert ValidAtom(s, Resolve(s, tr).value, v, false);
    var types: set<TypeRef> :| tr in types && ClosedTypes(s, types) && GivenKeys(s, types);
    assert PlainAtom(s, types, Resolve(s, tr).value);
  }

  /** A distinct sequence has each element at one index. */
  lemma {:induction false} IndexOfDistinct<T>(xs: seq<T>, i: nat)
    requires Distinct(xs) && i < |xs|
    ensures IndexOf(xs, xs[i]) == i
  {
    var j := IndexOf(xs, xs[i]);
    assert xs[j] == xs[i];
  }

  lemma {:induction false} ListElements(s: Schema, tr: TypeRef, v: Value)
    requires Plain(s, tr) && Valid(s, tr, v, false) && ShapeOf(s, tr).ListShape? && v.List?
    ensures Distinct(Elements(s, ShapeOf(s, tr).lt, v.items))
    ensures forall x | x in v.items ::
              ItemElement(s, ShapeOf(s, tr).lt, x) == Some(ElementOf(s, ShapeOf(s, tr).lt, x))
  {
    PlainNode(s, tr);
    assert ValidAtom(s, Resolve(s, tr).value, v, false);
  }

  /** `AllPaths` is the set of paths at which there is a node. */
  lemma {:induction false} AllPathsIn(s: Schema, tr: TypeRef, v: Value, p: Path)
    requires Plain(s, tr) && Valid(s, tr, v, false)
    ensures p in AllPaths(s, tr, v) <==> At(s, tr, Some(v), p).Some?
    decreases |p|
  {
    if p != [] {
      var pe, rest := p[0], p[1..];
      assert p == [pe] + rest;
      if Kid(s, tr, v, pe).Some? {
        KidValid(s, tr, v, pe, false);
        AllPathsIn(s, ChildType(s, tr, pe), Kid(s, tr, v, pe).value, rest);
      } else {
        AtNone(s, ChildType(s, tr, pe), rest);
      }
      if ShapeOf(s, tr).ListShape? && v.List? {
        ListElements(s, tr, v);
        var ks := Elements(s, ShapeOf(s, tr).lt, v.items);
        forall i | 0 <= i < |ks| && ks[i] == pe
          ensures Kid(s, tr, v, pe) == Some(v.items[i])
        {
          IndexOfDistinct(ks, i);
        }
      }
    }
  }

  lemma {:induction false} AtNone(s: Schema, tr: TypeRef, p: Path)
    ensures At(s, tr, None, p).None?
    decreases |p|
  {
    if p != [] {
      AtNone(s, ChildType(s, tr, p[0]), p[1..]);
    }
  }
}
