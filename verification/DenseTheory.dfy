/** Dense configurations: held by what they are merged into, and extracted from it again. */
module DenseTheory {
  import opened Values
  import opened PathElements
  import opened Schemas
  import opened Merging
  import opened ListMergeTheory
  import opened Removing
  import opened Owning
  import opened PlainSetting
  import opened ItemTheory
  import opened RemoveTheory
  import opened RemoveIff
  import opened OwningTheory
  import opened Absorption

  /** No container is empty, and none that may have children is null. */
  predicate Dense(s: Schema, tr: TypeRef, v: Value)
    decreases v
  {
    match ShapeOf(s, tr)
    case LeafShape => v != Map(map[]) && v != List([])
    case MapShape(t) =>
      v.Map? && v.fields != map[] && forall k | k in v.fields :: Dense(s, FieldType(t, k), v.fields[k])
    case ListShape(t) =>
      v.List? && v.items != [] && forall x | x in v.items :: Dense(s, t.elementType, x)
  }

  lemma {:induction false} DenseKid(s: Schema, tr: TypeRef, v: Value, pe: PathElement)
    requires Dense(s, tr, v) && Kid(s, tr, v, pe).Some?
    ensures Dense(s, ChildType(s, tr, pe), Kid(s, tr, v, pe).value)
  {
  }

  /** Below every node of a dense object that may have children there is a leaf. */
  lemma {:induction false} DenseLeaf(s: Schema, tr: TypeRef, v: Value) returns (q: Path)
    requires Plain(s, tr) && Valid(s, tr, v, false) && Dense(s, tr, v)
    ensures At(s, tr, Some(v), q).Some? && ShapeOf(s, TypeAt(s, tr, q)).LeafShape?
    ensures q == [] <==> ShapeOf(s, tr).LeafShape?
    decreases v
  {
    if ShapeOf(s, tr).LeafShape? {
      q := [];
    } else {
      var pe :| Kid(s, tr, v, pe).Some? by {
        if v.Map? {
          var k :| k in v.fields;
          assert Kid(s, tr, v, FieldName(k)).Some?;
        } else {
          var ks := Elements(s, ShapeOf(s, tr).lt, v.items);
          assert ks[0] in ks;
          assert Kid(s, tr, v, ks[0]).Some?;
        }
      }
      KidValid(s, tr, v, pe, false);
      DenseKid(s, tr, v, pe);
      var rest := DenseLeaf(s, ChildType(s, tr, pe), Kid(s, tr, v, pe).value);
      q := [pe] + rest;
      assert q[0] == pe && q[1..] == rest;
    }
  }

  /** Every path of a dense object leads on to a leaf. */
  lemma {:induction false} DensePath(s: Schema, tr: TypeRef, v: Value, p: Path) returns (q: Path)
    requires Plain(s, tr) && Valid(s, tr, v, false) && Dense(s, tr, v) && At(s, tr, Some(v), p).Some?
    ensures p <= q && At(s, tr, Some(v), q).Some? && ShapeOf(s, TypeAt(s, tr, q)).LeafShape?
    decreases |p|
  {
    if p == [] {
      q := DenseLeaf(s, tr, v);
    } else {
      var pe := p[0];
      if Kid(s, tr, v, pe).None? {
        AtNone(s, ChildType(s, tr, pe), p[1..]);
      }
      KidValid(s, tr, v, pe, false);
      DenseKid(s, tr, v, pe);
      var rest := DensePath(s, ChildType(s, tr, pe), Kid(s, tr, v, pe).value, p[1..]);
      q := [pe] + rest;
      assert q[0] == pe && q[1..] == rest && p == [pe] + p[1..];
    }
  }

  /** All paths of a dense object are in the closure of its field set. */
  lemma {:induction false} DenseClosed(s: Schema, tr: TypeRef, c: Value, p: Path)
    requires Plain(s, tr) && Valid(s, tr, c, false) && Dense(s, tr, c)
    requires p in AllPaths(s, tr, c) && p != []
    ensures p in EnsureNamed(s, tr, ToFieldSet(s, tr, c))
    ensures exists q :: q in ToFieldSet(s, tr, c) && p <= q && ShapeOf(s, TypeAt(s, tr, q)).LeafShape?
  {
    AllPathsIn(s, tr, c, p);
    var q := DensePath(s, tr, c, p);
    MarkedExists(s, tr, c, q);
    FieldSetIn(s, tr, c, q);
    FieldSetPrefix(s, tr, c, q, |p|);
    assert q[..|p|] == p;
  }

  /** The items of `v` that are kept, restricted to the configuration's keys. */
  lemma {:induction false} OnlyKept(s: Schema, t: ListType, items: seq<Value>, paths: PathSet, ck: Keys)
    requires ItemsStay(s, t, items, paths) && forall k | k in ck :: [k] !in paths
    ensures Only(Elements(s, t, WalkItems(s, t, items, paths, false)), ck) == Only(Elements(s, t, items), ck)
    decreases |items|
  {
    if items != [] {
      var x, ks, rest := items[0], Elements(s, t, items), WalkItems(s, t, items[1..], paths, false);
      OnlyKept(s, t, items[1..], paths, ck);
      assert ks[1..] == Elements(s, t, items[1..]);
      if [ks[0]] !in paths {
        var y := Trim(s, t.elementType, x, Below(paths, ks[0]));
        assert WalkItems(s, t, items, paths, false) == [y] + rest;
        ElementsCons(s, t, y, rest);
      } else {
        assert WalkItems(s, t, items, paths, false) == rest;
      }
    }
  }

  /** Removing paths that the configuration does not have leaves it held. */
  lemma {:induction false} HoldsTrimmed(s: Schema, tr: TypeRef, v: Value, c: Value, paths: PathSet)
    requires Plain(s, tr) && Valid(s, tr, v, false) && Valid(s, tr, c, false) && Dense(s, tr, c)
    requires Holds(s, tr, v, c) && (ShapeOf(s, tr).LeafShape? ==> paths == {})
    requires Fitting(s, tr, paths) && KeysUntouched(s, tr, v, paths)
    requires forall p | p in AllPaths(s, tr, c) && p != [] :: p !in paths
    ensures Holds(s, tr, Trim(s, tr, v, paths), c)
    decreases c, 1
  {
    if paths != {} {
      var out := Remove(s, tr, v, paths);
      forall pe | Kid(s, tr, c, pe).Some?
        ensures [pe] !in paths && Kid(s, tr, out, pe).Some?
        ensures Holds(s, ChildType(s, tr, pe), Kid(s, tr, out, pe).value, Kid(s, tr, c, pe).value)
      {
        HoldsTrimmedKid(s, tr, v, c, paths, pe);
      }
      match ShapeOf(s, tr)
      case LeafShape =>
      case MapShape(t) =>
        forall k | k in c.fields
          ensures out.Map? && k in out.fields && Holds(s, FieldType(t, k), out.fields[k], c.fields[k])
        {
          assert Kid(s, tr, c, FieldName(k)).Some?;
        }
      case ListShape(t) =>
        HoldsTrimmedList(s, tr, v, c, paths);
    }
  }

  lemma {:induction false} HoldsTrimmedKid(s: Schema, tr: TypeRef, v: Value, c: Value, paths: PathSet, pe: PathElement)
    requires Plain(s, tr) && Valid(s, tr, v, false) && Valid(s, tr, c, false) && Dense(s, tr, c)
    requires Holds(s, tr, v, c) && Fitting(s, tr, paths) && KeysUntouched(s, tr, v, paths) && Kid(s, tr, c, pe).Some?
    requires forall p | p in AllPaths(s, tr, c) && p != [] :: p !in paths
    ensures var out := Remove(s, tr, v, paths);
            [pe] !in paths && Kid(s, tr, out, pe).Some? &&
            Holds(s, ChildType(s, tr, pe), Kid(s, tr, out, pe).value, Kid(s, tr, c, pe).value)
    decreases c, 0
  {
    HeldKid(s, tr, v, c, pe);
    KidValid(s, tr, v, pe, false);
    KidValid(s, tr, c, pe, false);
    DenseKid(s, tr, c, pe);
    KidPaths(s, tr, c, paths, pe);
    FittingBelow(s, tr, paths, pe);
    UntouchedKid(s, tr, v, paths, pe);
    HoldsTrimmed(s, ChildType(s, tr, pe), Kid(s, tr, v, pe).value, Kid(s, tr, c, pe).value, Below(paths, pe));
    RemoveKid(s, tr, v, paths, pe);
  }

  lemma {:induction false} HeldKid(s: Schema, tr: TypeRef, v: Value, c: Value, pe: PathElement)
    requires Plain(s, tr) && Valid(s, tr, c, false) && Dense(s, tr, c) && Holds(s, tr, v, c) && Kid(s, tr, c, pe).Some?
    ensures Kid(s, tr, v, pe).Some? && Holds(s, ChildType(s, tr, pe), Kid(s, tr, v, pe).value, Kid(s, tr, c, pe).value)
  {
    if ShapeOf(s, tr).ListShape? {
      var ck := Elements(s, ShapeOf(s, tr).lt, c.items);
      assert ck[IndexOf(ck, pe)] == pe;
    }
  }

  lemma {:induction false} KidPaths(s: Schema, tr: TypeRef, c: Value, paths: PathSet, pe: PathElement)
    requires Plain(s, tr) && Valid(s, tr, c, false) && Kid(s, tr, c, pe).Some?
    requires forall p | p in AllPaths(s, tr, c) && p != [] :: p !in paths
    ensures [pe] !in paths
    ensures forall p | p in AllPaths(s, ChildType(s, tr, pe), Kid(s, tr, c, pe).value) && p != [] :: p !in Below(paths, pe)
  {
    var ct, k := ChildType(s, tr, pe), Kid(s, tr, c, pe).value;
    KidValid(s, tr, c, pe, false);
    AllPathsIn(s, tr, c, [pe]);
    assert At(s, tr, Some(c), [pe]) == At(s, ct, Some(k), []);
    forall p | p in AllPaths(s, ct, k) && p != []
      ensures p !in Below(paths, pe)
    {
      AllPathsIn(s, ct, k, p);
      AllPathsIn(s, tr, c, [pe] + p);
      assert ([pe] + p)[1..] == p;
      BelowIn(paths, pe, p);
    }
  }

  /** What holds of every child of a keyed list holds item by item. */
  lemma {:induction false} ItemByItem(s: Schema, tr: TypeRef, out: Value, c: Value, paths: PathSet)
    requires Plain(s, tr) && Valid(s, tr, c, false) && ShapeOf(s, tr).ListShape? && c.List?
    requires forall pe | Kid(s, tr, c, pe).Some? ::
               [pe] !in paths && Kid(s, tr, out, pe).Some? &&
               Holds(s, ChildType(s, tr, pe), Kid(s, tr, out, pe).value, Kid(s, tr, c, pe).value)
    ensures var t := ShapeOf(s, tr).lt;
            var ck := Elements(s, t, c.items);
            forall j | 0 <= j < |ck| ::
              [ck[j]] !in paths && Kid(s, tr, out, ck[j]).Some? &&
              Holds(s, t.elementType, Kid(s, tr, out, ck[j]).value, c.items[j])
  {
    var ck := Elements(s, ShapeOf(s, tr).lt, c.items);
    ListElements(s, tr, c);
    forall j | 0 <= j < |ck|
      ensures Kid(s, tr, c, ck[j]) == Some(c.items[j])
    {
      IndexOfDistinct(ck, j);
    }
  }

  lemma {:induction false} HoldsTrimmedList(s: Schema, tr: TypeRef, v: Value, c: Value, paths: PathSet)
    requires Plain(s, tr) && Valid(s, tr, v, false) && Valid(s, tr, c, false) && Dense(s, tr, c)
    requires ShapeOf(s, tr).ListShape? && Holds(s, tr, v, c) && Fitting(s, tr, paths) && KeysUntouched(s, tr, v, paths)
    requires forall pe | Kid(s, tr, c, pe).Some? ::
               var out := Remove(s, tr, v, paths);
               [pe] !in paths && Kid(s, tr, out, pe).Some? &&
               Holds(s, ChildType(s, tr, pe), Kid(s, tr, out, pe).value, Kid(s, tr, c, pe).value)
    ensures Holds(s, tr, Remove(s, tr, v, paths), c)
  {
    var out := Remove(s, tr, v, paths);
    var ck := Elements(s, ShapeOf(s, tr).lt, c.items);
    ItemByItem(s, tr, out, c, paths);
    assert Kid(s, tr, out, ck[0]).Some?;
    KeptKeys(s, tr, v, paths, ck);
    HoldsItems(s, tr, out, c);
  }

  lemma {:induction false} KeptKeys(s: Schema, tr: TypeRef, v: Value, paths: PathSet, ck: Keys)
    requires Plain(s, tr) && Valid(s, tr, v, false) && ShapeOf(s, tr).ListShape? && Fitting(s, tr, paths) && KeysUntouched(s, tr, v, paths)
    requires Remove(s, tr, v, paths).List? && v.List? && forall k | k in ck :: [k] !in paths
    ensures var t := ShapeOf(s, tr).lt;
            Only(Elements(s, t, Remove(s, tr, v, paths).items), ck) == Only(Elements(s, t, v.items), ck)
  {
    RemoveIsAtom(s, tr, v, paths);
    PlainNode(s, tr);
    KeysStayIff(s, tr, v, paths);
    StayNode(s, tr, v, paths);
    OnlyKept(s, ShapeOf(s, tr).lt, v.items, paths, ck);
  }

  lemma {:induction false} HoldsItems(s: Schema, tr: TypeRef, v: Value, c: Value)
    requires ShapeOf(s, tr).ListShape? && v.List? && c.List? && c.items != []
    requires var t := ShapeOf(s, tr).lt;
             var ck := Elements(s, t, c.items);
             Only(Elements(s, t, v.items), ck) == ck &&
             forall j | 0 <= j < |ck| ::
               Kid(s, tr, v, ck[j]).Some? && Holds(s, t.elementType, Kid(s, tr, v, ck[j]).value, c.items[j])
    ensures Holds(s, tr, v, c)
  {
  }
}
