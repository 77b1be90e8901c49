/** Exactly when a removal does what was asked, on every plain schema. */
module RemoveIff {
  import opened Values
  import opened PathElements
  import opened Schemas
  import opened Removing
  import opened RemoveFusion
  import opened PlainSetting
  import opened ListKeys
  import opened ItemTheory
  import opened RemoveTheory

  /** The list item at `p` keeps some field, and every key of it that is not at its default. */
  ghost predicate KeysUntouchedAt(s: Schema, tr: TypeRef, v: Value, paths: PathSet, p: Path) {
    !Emptied(s, tr, v, paths, p) && forall k | IsKeyOf(s, tr, p, k) :: p + [FieldName(k)] !in paths
  }

  /** So does every list item that is there and stays. */
  ghost predicate KeysUntouched(s: Schema, tr: TypeRef, v: Value, paths: PathSet) {
    forall p | p in AllPaths(s, tr, v) && !Covered(p, paths) :: KeysUntouchedAt(s, tr, v, paths, p)
  }

  /** The condition below a child. */
  lemma {:induction false} UntouchedBelow(s: Schema, tr: TypeRef, v: Value, paths: PathSet, pe: PathElement, p: Path)
    requires Kid(s, tr, v, pe).Some? && p != []
    ensures KeysUntouchedAt(s, tr, v, paths, [pe] + p) <==>
            KeysUntouchedAt(s, ChildType(s, tr, pe), Kid(s, tr, v, pe).value, Below(paths, pe), p)
  {
    var q, ct := [pe] + p, ChildType(s, tr, pe);
    assert q[0] == pe && q[1..] == p;
    forall k
      ensures IsKeyOf(s, tr, q, k) <==> IsKeyOf(s, ct, p, k)
      ensures q + [FieldName(k)] in paths <==> p + [FieldName(k)] in Below(paths, pe)
    {
      BelowIn(paths, pe, p + [FieldName(k)]);
      assert [pe] + (p + [FieldName(k)]) == q + [FieldName(k)];
    }
  }

  /** For a list item, it is that the item keeps its path element. */
  lemma {:induction false} UntouchedHere(s: Schema, tr: TypeRef, v: Value, paths: PathSet, pe: PathElement)
    requires Plain(s, tr) && Valid(s, tr, v, false) && Fitting(s, tr, paths)
    requires Kid(s, tr, v, pe).Some?
    ensures var x := Kid(s, tr, v, pe).value;
            KeysUntouchedAt(s, tr, v, paths, [pe]) <==>
            (ShapeOf(s, tr).ListShape? ==>
               ElementOf(s, ShapeOf(s, tr).lt, Trim(s, ShapeOf(s, tr).lt.elementType, x, Below(paths, pe))) == pe)
  {
    var x, sub := Kid(s, tr, v, pe).value, Below(paths, pe);
    forall k
      ensures [pe] + [FieldName(k)] in paths <==> [FieldName(k)] in sub
    {
      BelowIn(paths, pe, [FieldName(k)]);
    }
    if ShapeOf(s, tr).ListShape? {
      ListElements(s, tr, v);
      KidValid(s, tr, v, pe, false);
      FittingBelow(s, tr, paths, pe);
      ElementStaysIff(s, tr, x, sub);
    }
  }

  lemma {:induction false} UntouchedKid(s: Schema, tr: TypeRef, v: Value, paths: PathSet, pe: PathElement)
    requires Plain(s, tr) && Valid(s, tr, v, false) && Fitting(s, tr, paths) && KeysUntouched(s, tr, v, paths)
    requires Kid(s, tr, v, pe).Some? && [pe] !in paths
    ensures KeysUntouched(s, ChildType(s, tr, pe), Kid(s, tr, v, pe).value, Below(paths, pe))
    ensures ShapeOf(s, tr).ListShape? ==>
              ElementOf(s, ShapeOf(s, tr).lt,
                        Trim(s, ShapeOf(s, tr).lt.elementType, Kid(s, tr, v, pe).value, Below(paths, pe))) == pe
  {
    var ct, x, sub := ChildType(s, tr, pe), Kid(s, tr, v, pe).value, Below(paths, pe);
    KidValid(s, tr, v, pe, false);
    AllPathsIn(s, tr, v, [pe]);
    CoveredStep([pe], paths);
    UntouchedHere(s, tr, v, paths, pe);
    forall p | p in AllPaths(s, ct, x) && !Covered(p, sub)
      ensures KeysUntouchedAt(s, ct, x, sub, p)
    {
      if p != [] {
        var q := [pe] + p;
        assert q[0] == pe && q[1..] == p;
        AllPathsIn(s, ct, x, p);
        AllPathsIn(s, tr, v, q);
        CoveredStep(q, paths);
        UntouchedBelow(s, tr, v, paths, pe, p);
      }
    }
  }

  /** Then every kept item keeps its path element. */
  lemma {:induction false} UntouchedStay(s: Schema, tr: TypeRef, v: Value, paths: PathSet)
    requires Plain(s, tr) && Valid(s, tr, v, false) && Fitting(s, tr, paths) && KeysUntouched(s, tr, v, paths)
    ensures KeysStay(s, tr, v, paths)
    decreases v, 0
  {
    PlainNode(s, tr);
    assert ValidAtom(s, Resolve(s, tr).value, v, false);
    match ShapeOf(s, tr)
    case LeafShape =>
    case MapShape(t) =>
      if v.Map? {
        forall k | k in v.fields && [FieldName(k)] !in paths
          ensures KeysStay(s, FieldType(t, k), v.fields[k], Below(paths, FieldName(k)))
        {
          UntouchedStayKid(s, tr, v, paths, FieldName(k));
        }
      }
    case ListShape(t) =>
      if v.List? {
        ListElements(s, tr, v);
        forall i | 0 <= i < |v.items| && [ElementOf(s, t, v.items[i])] !in paths
          ensures var x := v.items[i];
                  var sub := Below(paths, ElementOf(s, t, x));
                  KeysStay(s, t.elementType, x, sub) &&
                  (sub != {} ==> ElementOf(s, t, Remove(s, t.elementType, x, sub)) == ElementOf(s, t, x))
        {
          var ks := Elements(s, t, v.items);
          IndexOfDistinct(ks, i);
          UntouchedStayKid(s, tr, v, paths, ks[i]);
          UntouchedKid(s, tr, v, paths, ks[i]);
        }
      }
  }

  lemma {:induction false} UntouchedStayKid(s: Schema, tr: TypeRef, v: Value, paths: PathSet, pe: PathElement)
    requires Plain(s, tr) && Valid(s, tr, v, false) && Fitting(s, tr, paths) && KeysUntouched(s, tr, v, paths)
    requires Kid(s, tr, v, pe).Some? && [pe] !in paths
    ensures KeysStay(s, ChildType(s, tr, pe), Kid(s, tr, v, pe).value, Below(paths, pe))
    decreases Kid(s, tr, v, pe).value, 1
  {
    KidValid(s, tr, v, pe, false);
    FittingBelow(s, tr, paths, pe);
    UntouchedKid(s, tr, v, paths, pe);
    UntouchedStay(s, ChildType(s, tr, pe), Kid(s, tr, v, pe).value, Below(paths, pe));
  }

  /** A path to a node starts with a child. */
  lemma {:induction false} KidOnPath(s: Schema, tr: TypeRef, v: Value, p: Path)
    requires At(s, tr, Some(v), p).Some? && p != []
    ensures Kid(s, tr, v, p[0]).Some? && At(s, ChildType(s, tr, p[0]), Kid(s, tr, v, p[0]), p[1..]).Some?
  {
    if Kid(s, tr, v, p[0]).None? {
      AtNone(s, ChildType(s, tr, p[0]), p[1..]);
    }
  }

  lemma {:induction false} KidInList(s: Schema, tr: TypeRef, w: Value, pe: PathElement)
    requires ShapeOf(s, tr).ListShape? && Kid(s, tr, w, pe).Some?
    ensures w.List? && Kid(s, tr, w, pe).value in w.items && ElementOf(s, ShapeOf(s, tr).lt, Kid(s, tr, w, pe).value) == pe
  {
  }

  lemma {:induction false} StayUntouchedHere(s: Schema, tr: TypeRef, v: Value, paths: PathSet, pe: PathElement)
    requires Plain(s, tr) && Valid(s, tr, v, false) && Fitting(s, tr, paths) && KeysStay(s, tr, v, paths)
    requires Kid(s, tr, v, pe).Some? && [pe] !in paths
    ensures KeysUntouchedAt(s, tr, v, paths, [pe])
  {
    StayNode(s, tr, v, paths);
    if ShapeOf(s, tr).ListShape? {
      KidInList(s, tr, v, pe);
    }
    UntouchedHere(s, tr, v, paths, pe);
  }

  /** And conversely, path by path. */
  lemma {:induction false} StayUntouched(s: Schema, tr: TypeRef, v: Value, paths: PathSet, p: Path)
    requires Plain(s, tr) && Valid(s, tr, v, false) && Fitting(s, tr, paths) && KeysStay(s, tr, v, paths)
    requires At(s, tr, Some(v), p).Some? && !Covered(p, paths)
    ensures KeysUntouchedAt(s, tr, v, paths, p)
    decreases |p|
  {
    if p != [] {
      var pe, rest := p[0], p[1..];
      KidOnPath(s, tr, v, p);
      CoveredStep(p, paths);
      assert p == [pe] + rest;
      if rest == [] {
        assert p == [pe];
        StayUntouchedHere(s, tr, v, paths, pe);
      } else {
        KidValid(s, tr, v, pe, false);
        StayKid(s, tr, v, paths, pe);
        FittingBelow(s, tr, paths, pe);
        StayUntouched(s, ChildType(s, tr, pe), Kid(s, tr, v, pe).value, Below(paths, pe), rest);
        UntouchedBelow(s, tr, v, paths, pe, rest);
      }
    }
  }

  /** Kept items keep their path elements exactly if their keys are untouched. */
  lemma {:induction false} KeysStayIff(s: Schema, tr: TypeRef, v: Value, paths: PathSet)
    requires Plain(s, tr) && Valid(s, tr, v, false) && Fitting(s, tr, paths)
    ensures KeysStay(s, tr, v, paths) <==> KeysUntouched(s, tr, v, paths)
  {
    if KeysUntouched(s, tr, v, paths) {
      UntouchedStay(s, tr, v, paths);
    }
    if KeysStay(s, tr, v, paths) {
      forall p | p in AllPaths(s, tr, v) && !Covered(p, paths)
        ensures KeysUntouchedAt(s, tr, v, paths, p)
      {
        AllPathsIn(s, tr, v, p);
        StayUntouched(s, tr, v, paths, p);
      }
    }
  }

  /** Every item of the result is what is left of a kept item. */
  lemma {:induction false} LeftOf(s: Schema, t: ListType, items: seq<Value>, paths: PathSet, y: Value) returns (x: Value)
    requires y in WalkItems(s, t, items, paths, false)
    ensures x in items && [ElementOf(s, t, x)] !in paths && y == Trim(s, t.elementType, x, Below(paths, ElementOf(s, t, x)))
    decreases |items|
  {
    var pe, rest := ElementOf(s, t, items[0]), WalkItems(s, t, items[1..], paths, false);
    var first := Trim(s, t.elementType, items[0], Below(paths, pe));
    assert WalkItems(s, t, items, paths, false) == (if [pe] in paths then [] else [first]) + rest;
    if [pe] !in paths && y == first {
      x := items[0];
    } else {
      assert y in rest;
      x := LeftOf(s, t, items[1..], paths, y);
    }
  }

  /** What is left of a kept item is an item of the result. */
  lemma {:induction false} LeftIn(s: Schema, t: ListType, items: seq<Value>, paths: PathSet, x: Value)
    requires x in items && [ElementOf(s, t, x)] !in paths
    ensures Trim(s, t.elementType, x, Below(paths, ElementOf(s, t, x))) in WalkItems(s, t, items, paths, false)
  {
    var pe, rest := ElementOf(s, t, items[0]), WalkItems(s, t, items[1..], paths, false);
    var first := Trim(s, t.elementType, items[0], Below(paths, pe));
    assert WalkItems(s, t, items, paths, false) == (if [pe] in paths then [] else [first]) + rest;
    if x != items[0] {
      LeftIn(s, t, items[1..], paths, x);
    }
  }

  /** A valid list, and what a removal leaves of its items: all with path elements, and the same ones. */
  ghost predicate SameElements(s: Schema, tr: TypeRef, v: Value, paths: PathSet) {
    Plain(s, tr) && Valid(s, tr, v, false) && Fitting(s, tr, paths) && ShapeOf(s, tr).ListShape? && v.List? &&
    var t := ShapeOf(s, tr).lt;
    var out := WalkItems(s, t, v.items, paths, false);
    (forall y | y in out :: ItemElement(s, t, y).Some?) &&
    forall x | x in v.items && [ElementOf(s, t, x)] !in paths :: exists y :: y in out && ElementOf(s, t, y) == ElementOf(s, t, x)
  }

  /**
   * An item whose path element changed leaves its old one to another changed item, which has fewer
   * keys at their defaults; so there is none.
   */
  lemma {:induction false} NoElementChanges(s: Schema, tr: TypeRef, v: Value, paths: PathSet, x: Value)
    requires SameElements(s, tr, v, paths) && x in v.items && [ElementOf(s, ShapeOf(s, tr).lt, x)] !in paths
    ensures var t := ShapeOf(s, tr).lt;
            ElementOf(s, t, Trim(s, t.elementType, x, Below(paths, ElementOf(s, t, x)))) == ElementOf(s, t, x)
    decreases DefaultedKeys(s, ShapeOf(s, tr).lt, ElementOf(s, ShapeOf(s, tr).lt, x))
  {
    var t := ShapeOf(s, tr).lt;
    var pe := ElementOf(s, t, x);
    if ElementOf(s, t, Trim(s, t.elementType, x, Below(paths, pe))) != pe {
      var y :| y in WalkItems(s, t, v.items, paths, false) && ElementOf(s, t, y) == pe;
      var z := LeftOf(s, t, v.items, paths, y);
      ItemChecked(s, tr, v, paths, z);
      DefaultsGrow(s, tr, z, Below(paths, ElementOf(s, t, z)));
      if ElementOf(s, t, z) == pe {
        SameItem(s, tr, v, z, pe);
        SameItem(s, tr, v, x, pe);
      } else {
        NoElementChanges(s, tr, v, paths, z);
      }
    }
  }

  lemma {:induction false} ItemChecked(s: Schema, tr: TypeRef, v: Value, paths: PathSet, x: Value)
    requires Plain(s, tr) && Valid(s, tr, v, false) && Fitting(s, tr, paths) && ShapeOf(s, tr).ListShape? && v.List?
    requires x in v.items
    ensures ItemInput(s, tr, x, Below(paths, ElementOf(s, ShapeOf(s, tr).lt, x)))
  {
    var t := ShapeOf(s, tr).lt;
    PlainNode(s, tr);
    ListElements(s, tr, v);
    assert ValidAtom(s, Resolve(s, tr).value, v, false);
    FittingBelow(s, tr, paths, ElementOf(s, t, x));
  }

  lemma {:induction false} SameItem(s: Schema, tr: TypeRef, v: Value, z: Value, pe: PathElement)
    requires Plain(s, tr) && Valid(s, tr, v, false) && ShapeOf(s, tr).ListShape? && v.List?
    requires z in v.items && ElementOf(s, ShapeOf(s, tr).lt, z) == pe
    ensures Kid(s, tr, v, pe) == Some(z)
  {
    ListElements(s, tr, v);
    var ks := Elements(s, ShapeOf(s, tr).lt, v.items);
    var i :| 0 <= i < |v.items| && v.items[i] == z;
    IndexOfDistinct(ks, i);
  }

  /** If the removal is exact, the result has an item for every element that was kept. */
  lemma {:induction false} ExactElements(s: Schema, tr: TypeRef, v: Value, paths: PathSet)
    requires Plain(s, tr) && Valid(s, tr, v, false) && Fitting(s, tr, paths) && ShapeOf(s, tr).ListShape? && v.List?
    requires Exact(s, tr, v, paths)
    ensures SameElements(s, tr, v, paths)
  {
    var t, out := ShapeOf(s, tr).lt, Remove(s, tr, v, paths);
    PlainNode(s, tr);
    RemoveIsAtom(s, tr, v, paths);
    if v.items != [] {
      var left := WalkItems(s, t, v.items, paths, false);
      assert out == if left == [] then Null else List(left);
      if out.List? {
        ListElements(s, tr, out);
      }
      forall x | x in v.items && [ElementOf(s, t, x)] !in paths
        ensures exists y :: y in left && ElementOf(s, t, y) == ElementOf(s, t, x)
      {
        var pe := ElementOf(s, t, x);
        SameItem(s, tr, v, x, pe);
        AllPathsIn(s, tr, v, [pe]);
        CoveredStep([pe], paths);
        AllPathsIn(s, tr, out, [pe]);
        KidInList(s, tr, out, pe);
      }
    }
  }

  lemma {:induction false} ExactNode(s: Schema, tr: TypeRef, v: Value, paths: PathSet)
    requires Plain(s, tr) && Valid(s, tr, v, false) && Fitting(s, tr, paths) && Exact(s, tr, v, paths)
    ensures ShapeOf(s, tr).ListShape? && v.List? ==> ItemsStay(s, ShapeOf(s, tr).lt, v.items, paths)
  {
    if ShapeOf(s, tr).ListShape? && v.List? {
      var t := ShapeOf(s, tr).lt;
      ExactElements(s, tr, v, paths);
      forall x | x in v.items && [ElementOf(s, t, x)] !in paths
        ensures ElementOf(s, t, Trim(s, t.elementType, x, Below(paths, ElementOf(s, t, x)))) == ElementOf(s, t, x)
      {
        NoElementChanges(s, tr, v, paths, x);
      }
    }
  }

  /** An exact removal is exact below every child that is kept and walked. */
  lemma {:induction false} ExactKid(s: Schema, tr: TypeRef, v: Value, paths: PathSet, pe: PathElement)
    requires Plain(s, tr) && Valid(s, tr, v, false) && Fitting(s, tr, paths) && Exact(s, tr, v, paths)
    requires Kid(s, tr, v, pe).Some? && [pe] !in paths && Below(paths, pe) != {}
    ensures Exact(s, ChildType(s, tr, pe), Kid(s, tr, v, pe).value, Below(paths, pe))
  {
    var ct, x, sub := ChildType(s, tr, pe), Kid(s, tr, v, pe).value, Below(paths, pe);
    var out, y := Remove(s, tr, v, paths), Remove(s, ct, x, sub);
    ExactNode(s, tr, v, paths);
    KeptKid(s, tr, v, paths, pe);
    KidValid(s, tr, v, pe, false);
    KidValid(s, tr, out, pe, false);
    forall p
      ensures p in AllPaths(s, ct, y) <==> p in AllPaths(s, ct, x) && !Covered(p, sub)
      ensures p in AllPaths(s, ct, y) && p != [] && ShapeOf(s, TypeAt(s, ct, p)).LeafShape? ==>
                At(s, ct, Some(y), p) == At(s, ct, Some(x), p)
    {
      KidPath(s, tr, v, pe, p);
      KidPath(s, tr, out, pe, p);
      CoveredStep([pe] + p, paths);
      assert ([pe] + p)[0] == pe && ([pe] + p)[1..] == p;
    }
  }

  /** A path below a child, seen from the child. */
  lemma {:induction false} KidPath(s: Schema, tr: TypeRef, v: Value, pe: PathElement, p: Path)
    requires Plain(s, tr) && Valid(s, tr, v, false) && Kid(s, tr, v, pe).Some?
    ensures var ct, x, q := ChildType(s, tr, pe), Kid(s, tr, v, pe).value, [pe] + p;
            (q in AllPaths(s, tr, v) <==> p in AllPaths(s, ct, x)) && TypeAt(s, tr, q) == TypeAt(s, ct, p) &&
            At(s, tr, Some(v), q) == At(s, ct, Some(x), p)
  {
    var q := [pe] + p;
    assert q[0] == pe && q[1..] == p;
    KidValid(s, tr, v, pe, false);
    AllPathsIn(s, ChildType(s, tr, pe), Kid(s, tr, v, pe).value, p);
    AllPathsIn(s, tr, v, q);
  }

  /** An exact removal leaves every kept item with its path element. */
  lemma {:induction false} ExactStays(s: Schema, tr: TypeRef, v: Value, paths: PathSet)
    requires Plain(s, tr) && Valid(s, tr, v, false) && Fitting(s, tr, paths) && Exact(s, tr, v, paths)
    ensures KeysStay(s, tr, v, paths)
    decreases v, 0
  {
    PlainNode(s, tr);
    assert ValidAtom(s, Resolve(s, tr).value, v, false);
    ExactNode(s, tr, v, paths);
    match ShapeOf(s, tr)
    case LeafShape =>
    case MapShape(t) =>
      if v.Map? {
        forall k | k in v.fields && [FieldName(k)] !in paths
          ensures KeysStay(s, FieldType(t, k), v.fields[k], Below(paths, FieldName(k)))
        {
          ExactStaysKid(s, tr, v, paths, FieldName(k));
        }
      }
    case ListShape(t) =>
      if v.List? {
        forall x | x in v.items && [ElementOf(s, t, x)] !in paths
          ensures KeysStay(s, t.elementType, x, Below(paths, ElementOf(s, t, x)))
        {
          SameItem(s, tr, v, x, ElementOf(s, t, x));
          ExactStaysKid(s, tr, v, paths, ElementOf(s, t, x));
        }
      }
  }

  lemma {:induction false} ExactStaysKid(s: Schema, tr: TypeRef, v: Value, paths: PathSet, pe: PathElement)
    requires Plain(s, tr) && Valid(s, tr, v, false) && Fitting(s, tr, paths) && Exact(s, tr, v, paths)
    requires Kid(s, tr, v, pe).Some? && [pe] !in paths
    ensures KeysStay(s, ChildType(s, tr, pe), Kid(s, tr, v, pe).value, Below(paths, pe))
    decreases Kid(s, tr, v, pe).value, 1
  {
    KidValid(s, tr, v, pe, false);
    FittingBelow(s, tr, paths, pe);
    if Below(paths, pe) == {} {
      NothingStays(s, ChildType(s, tr, pe), Kid(s, tr, v, pe).value);
    } else {
      ExactKid(s, tr, v, paths, pe);
      ExactStays(s, ChildType(s, tr, pe), Kid(s, tr, v, pe).value, Below(paths, pe));
    }
  }

  /**
   * A removal out of atomic containers is exact if and only if no item that is there and stays is
   * emptied or loses a key whose value is not its default.
   */
  lemma {:induction false} RemoveExactIff(s: Schema, tr: TypeRef, v: Value, paths: PathSet)
    requires Plain(s, tr) && Valid(s, tr, v, false) && Fitting(s, tr, paths)
    ensures Exact(s, tr, v, paths) <==> KeysUntouched(s, tr, v, paths)
  {
    KeysStayIff(s, tr, v, paths);
    if KeysUntouched(s, tr, v, paths) {
      KeptExact(s, tr, v, paths);
    }
    if Exact(s, tr, v, paths) {
      ExactStays(s, tr, v, paths);
    }
  }

  /** The child that such a removal leaves. */
  lemma {:induction false} RemoveKid(s: Schema, tr: TypeRef, v: Value, paths: PathSet, pe: PathElement)
    requires Plain(s, tr) && Valid(s, tr, v, false) && Fitting(s, tr, paths) && KeysUntouched(s, tr, v, paths)
    ensures Kid(s, tr, Remove(s, tr, v, paths), pe) ==
            if [pe] in paths || Kid(s, tr, v, pe).None? then None
            else Some(Trim(s, ChildType(s, tr, pe), Kid(s, tr, v, pe).value, Below(paths, pe)))
  {
    KeysStayIff(s, tr, v, paths);
    StayNode(s, tr, v, paths);
    KeptKid(s, tr, v, paths, pe);
  }

  /** The node that such a removal leaves at a path. */
  lemma {:induction false} RemoveAt(s: Schema, tr: TypeRef, v: Value, paths: PathSet, p: Path)
    requires Plain(s, tr) && Valid(s, tr, v, false) && Fitting(s, tr, paths) && KeysUntouched(s, tr, v, paths) && p != []
    ensures At(s, tr, Some(Remove(s, tr, v, paths)), p) ==
            if Covered(p, paths) || At(s, tr, Some(v), p).None? then None
            else Some(Trim(s, TypeAt(s, tr, p), At(s, tr, Some(v), p).value, BelowPath(paths, p)))
  {
    KeysStayIff(s, tr, v, paths);
    KeptAt(s, tr, v, paths, p);
  }

  /** Some list item that is there and stays is left without any field. */
  ghost predicate Empties(s: Schema, tr: TypeRef, v: Value, paths: PathSet) {
    exists p :: p in AllPaths(s, tr, v) && !Covered(p, paths) && Emptied(s, tr, v, paths, p)
  }

  /** A set that has the item wherever it has such a key of it leaves keys alone exactly if it empties no item. */
  lemma {:induction false} RemovableIff(s: Schema, tr: TypeRef, v: Value, paths: PathSet)
    requires Removable(s, tr, paths)
    ensures KeysUntouched(s, tr, v, paths) <==> !Empties(s, tr, v, paths)
  {
    forall p, k | IsKeyOf(s, tr, p, k) && p + [FieldName(k)] in paths
      ensures Covered(p, paths)
    {
      assert p[..|p|] == p;
    }
  }

  /** If every keyed list has a key without a default, no item is emptied. */
  lemma {:induction false} AnchoredKeeps(s: Schema, tr: TypeRef, v: Value, paths: PathSet, p: Path)
    requires Anchored(s, tr) && Valid(s, tr, v, false) && Removable(s, tr, paths)
    requires At(s, tr, Some(v), p).Some? && !Covered(p, paths)
    ensures !Emptied(s, tr, v, paths, p)
    decreases |p|
  {
    if p != [] {
      var pe, rest, ct := p[0], p[1..], ChildType(s, tr, p[0]);
      KidOnPath(s, tr, v, p);
      CoveredStep(p, paths);
      KidValid(s, tr, v, pe, false);
      AnchoredKid(s, tr, v, pe);
      RemovableBelow(s, tr, paths, pe);
      if rest != [] {
        AnchoredKeeps(s, ct, Kid(s, tr, v, pe).value, Below(paths, pe), rest);
      } else if EmptiedHere(s, tr, Kid(s, tr, v, pe).value, Below(paths, pe)) {
        GivenKeyStays(s, tr, v, paths, pe);
      }
    }
  }

  lemma {:induction false} GivenKeyStays(s: Schema, tr: TypeRef, v: Value, paths: PathSet, pe: PathElement)
    requires Anchored(s, tr) && Valid(s, tr, v, false) && Removable(s, tr, paths)
    requires ShapeOf(s, tr).ListShape? && Kid(s, tr, v, pe).Some? && [pe] !in paths && Below(paths, pe) != {}
    ensures !EmptiedHere(s, tr, Kid(s, tr, v, pe).value, Below(paths, pe))
  {
    var t, x := ShapeOf(s, tr).lt, Kid(s, tr, v, pe).value;
    KidInList(s, tr, v, pe);
    ItemChecked(s, tr, v, paths, x);
    KeyedItem(s, tr, x, Below(paths, pe));
    AnchoredNode(s, tr);
    var k :| k in t.keys && KeyDefault(s, t, k).None?;
    DefaultedIs(s, t, x, k);
    assert k in x.fields && IsKeyOf(s, tr, [pe], k);
    BelowIn(paths, pe, [FieldName(k)]);
  }

  /** So on anchored schemas a removal is exact for any set that has the item wherever it has such a key of it. */
  lemma {:induction false} RemoveExact(s: Schema, tr: TypeRef, v: Value, paths: PathSet)
    requires Anchored(s, tr) && Valid(s, tr, v, false) && Removable(s, tr, paths)
    ensures !Empties(s, tr, v, paths) && Exact(s, tr, v, paths)
  {
    forall p | p in AllPaths(s, tr, v) && !Covered(p, paths)
      ensures !Emptied(s, tr, v, paths, p)
    {
      AllPathsIn(s, tr, v, p);
      AnchoredKeeps(s, tr, v, paths, p);
    }
    RemovableIff(s, tr, v, paths);
    RemoveExactIff(s, tr, v, paths);
  }
}
