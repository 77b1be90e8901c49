/** Extracting what a configuration mentions gives the configuration back. */
module ExtractTheory {
  import opened Values
  import opened PathElements
  import opened Schemas
  import opened Merging
  import opened ListMergeTheory
  import opened Removing
  import opened Owning
  import opened PlainSetting
  import opened MergeTheory
  import opened OwningTheory
  import opened Absorption
  import opened DenseTheory

  /** The set has exactly the non-empty paths to the leaves of `c`. */
  ghost predicate LeafSet(s: Schema, tr: TypeRef, c: Value, paths: PathSet) {
    forall p :: p in paths <==> p != [] && At(s, tr, Some(c), p).Some? && ShapeOf(s, TypeAt(s, tr, p)).LeafShape?
  }

  /** The leaves of the field set of a dense object are its leaves. */
  lemma {:induction false} DenseLeaves(s: Schema, tr: TypeRef, c: Value)
    requires Plain(s, tr) && Valid(s, tr, c, false) && Dense(s, tr, c)
    ensures LeafSet(s, tr, c, MaximalPaths(ToFieldSet(s, tr, c)))
  {
    var fs := ToFieldSet(s, tr, c);
    FieldSetPaths(s, tr, c);
    forall p
      ensures p in MaximalPaths(fs) <==> p != [] && At(s, tr, Some(c), p).Some? && ShapeOf(s, TypeAt(s, tr, p)).LeafShape?
    {
      AllPathsIn(s, tr, c, p);
      FieldSetIn(s, tr, c, p);
      MarkedExists(s, tr, c, p);
      if p in fs {
        var q := DensePath(s, tr, c, p);
        MarkedExists(s, tr, c, q);
        FieldSetIn(s, tr, c, q);
        if ShapeOf(s, TypeAt(s, tr, p)).LeafShape? {
          forall q | q in fs
            ensures !(p < q)
          {
            if p < q {
              PathOf(s, tr, c, q);
              assert q[..|p|] == p;
              FitsPrefix(s, tr, q, |p|);
            }
          }
        } else {
          assert |p| == |q| ==> p == q;
          assert p < q;
        }
      }
    }
  }

  /** The leaf set seen from a child; elements without a child have no paths. */
  lemma {:induction false} LeafSetKid(s: Schema, tr: TypeRef, c: Value, paths: PathSet, pe: PathElement)
    requires Plain(s, tr) && Valid(s, tr, c, false) && Dense(s, tr, c) && LeafSet(s, tr, c, paths)
    ensures var ct, k := ChildType(s, tr, pe), Kid(s, tr, c, pe);
            if k.None? then [pe] !in paths && Below(paths, pe) == {}
            else
              ([pe] in paths <==> ShapeOf(s, ct).LeafShape?) &&
              (Below(paths, pe) == {} <==> ShapeOf(s, ct).LeafShape?) &&
              LeafSet(s, ct, k.value, Below(paths, pe))
  {
    var ct, k := ChildType(s, tr, pe), Kid(s, tr, c, pe);
    assert [pe][0] == pe && [pe][1..] == [];
    assert At(s, tr, Some(c), [pe]) == At(s, ct, k, []) == k;
    assert TypeAt(s, tr, [pe]) == TypeAt(s, ct, []) == ct;
    forall p
      ensures p in Below(paths, pe) <==> p != [] && At(s, ct, k, p).Some? && ShapeOf(s, TypeAt(s, ct, p)).LeafShape?
    {
      BelowIn(paths, pe, p);
      assert ([pe] + p)[0] == pe && ([pe] + p)[1..] == p;
    }
    if k.None? {
      forall p
        ensures p !in Below(paths, pe)
      {
        AtNone(s, ct, p);
      }
    } else {
      KidValid(s, tr, c, pe, false);
      DenseKid(s, tr, c, pe);
      var q := DenseLeaf(s, ct, k.value);
      if !ShapeOf(s, ct).LeafShape? {
        assert q in Below(paths, pe);
      } else {
        forall p
          ensures p !in Below(paths, pe)
        {
          if p != [] {
            assert Kid(s, ct, k.value, p[0]).None?;
            AtNone(s, ChildType(s, ct, p[0]), p[1..]);
          }
        }
      }
    }
  }

  /** At a leaf, extraction returns the value, unless it is an empty container. */
  lemma {:induction false} ExtractLeaf(s: Schema, tr: TypeRef, v: Value, paths: PathSet)
    requires Plain(s, tr) && Valid(s, tr, v, false) && ShapeOf(s, tr).LeafShape? && Dense(s, tr, v)
    ensures Extract(s, tr, v, paths) == v
  {
    PlainNode(s, tr);
    var a := Resolve(s, tr).value;
    assert ValidAtom(s, a, v, false);
    assert Extract(s, tr, v, paths) == WalkAtom(s, a, v, paths, true);
    assert v.Map? ==> v == Map(v.fields);
    assert v.List? ==> v == List(v.items);
  }

  /** From an object that holds a dense configuration, its leaf paths extract the configuration. */
  lemma {:induction false} ExtractHeld(s: Schema, tr: TypeRef, v: Value, c: Value, paths: PathSet)
    requires Plain(s, tr) && Valid(s, tr, v, false) && Valid(s, tr, c, false) && Dense(s, tr, c)
    requires Holds(s, tr, v, c) && LeafSet(s, tr, c, paths) && !ShapeOf(s, tr).LeafShape?
    ensures Extract(s, tr, v, paths) == c
    decreases c, 1
  {
    PlainNode(s, tr);
    var a := Resolve(s, tr).value;
    assert Extract(s, tr, v, paths) == WalkAtom(s, a, v, paths, true);
    assert ValidAtom(s, a, v, false);
    match ShapeOf(s, tr)
    case MapShape(t) =>
      ExtractFields(s, tr, v, c, paths);
    case ListShape(t) =>
      forall i | 0 <= i < |v.items|
        ensures Yields(s, t, v.items[i], c.items, paths)
      {
        ExtractItem(s, tr, v, c, paths, i);
      }
      SelectItems(s, t, v.items, c.items, paths);
  }

  lemma {:induction false} ExtractFields(s: Schema, tr: TypeRef, v: Value, c: Value, paths: PathSet)
    requires Plain(s, tr) && Valid(s, tr, v, false) && Valid(s, tr, c, false) && Dense(s, tr, c)
    requires Holds(s, tr, v, c) && LeafSet(s, tr, c, paths) && ShapeOf(s, tr).MapShape?
    ensures v.Map? && WalkAtom(s, Resolve(s, tr).value, v, paths, true) == c
    decreases c, 1, 0
  {
    var t := ShapeOf(s, tr).mt;
    forall k | k in v.fields
      ensures WalkField(s, t, k, v.fields[k], paths, true) == Lookup(c.fields, k)
    {
      ExtractKid(s, tr, v, c, paths, FieldName(k));
    }
    PlainNode(s, tr);
    assert c.fields.Keys <= v.fields.Keys;
    FieldsWalked(s, Resolve(s, tr).value, t, v, c.fields, paths);
  }

  /** If the walk of each field gives the field of another map, the walk gives that map. */
  lemma {:induction false} FieldsWalked(s: Schema, a: Atom, t: MapType, v: Value, fields: map<string, Value>, paths: PathSet)
    requires a.mapping == Some(t) && !t.relationship.Atomic? && v.Map? && fields != map[] && fields.Keys <= v.fields.Keys
    requires forall k | k in v.fields :: WalkField(s, t, k, v.fields[k], paths, true) == Lookup(fields, k)
    ensures WalkAtom(s, a, v, paths, true) == Map(fields)
  {
    var out := map k | k in v.fields && WalkField(s, t, k, v.fields[k], paths, true).Some?
                 :: WalkField(s, t, k, v.fields[k], paths, true).value;
    assert out == fields;
  }

  /** What is extracted below a child: the configuration's child, if it has one. */
  lemma {:induction false} ExtractKid(s: Schema, tr: TypeRef, v: Value, c: Value, paths: PathSet, pe: PathElement)
    requires Plain(s, tr) && Valid(s, tr, v, false) && Valid(s, tr, c, false) && Dense(s, tr, c)
    requires Holds(s, tr, v, c) && LeafSet(s, tr, c, paths) && Kid(s, tr, v, pe).Some?
    ensures var ct, x, y := ChildType(s, tr, pe), Kid(s, tr, v, pe).value, Kid(s, tr, c, pe);
            if y.None? then [pe] !in paths && Below(paths, pe) == {}
            else if ShapeOf(s, ct).LeafShape? then
              [pe] in paths && Below(paths, pe) == {} && Extract(s, ct, x, paths) == y.value
            else [pe] !in paths && Below(paths, pe) != {} && Extract(s, ct, x, Below(paths, pe)) == y.value
    decreases c, 0
  {
    LeafSetKid(s, tr, c, paths, pe);
    var ct, x, y := ChildType(s, tr, pe), Kid(s, tr, v, pe).value, Kid(s, tr, c, pe);
    if y.Some? {
      HeldKid(s, tr, v, c, pe);
      KidValid(s, tr, v, pe, false);
      KidValid(s, tr, c, pe, false);
      DenseKid(s, tr, c, pe);
      if ShapeOf(s, ct).LeafShape? {
        ExtractLeaf(s, ct, x, paths);
      } else {
        ExtractHeld(s, ct, x, y.value, Below(paths, pe));
      }
    }
  }

  /** Extracting from an item yields the match of its key, or nothing if there is none. */
  ghost predicate Yields(s: Schema, t: ListType, x: Value, matches: seq<Value>, paths: PathSet) {
    var pe, ck := ElementOf(s, t, x), Elements(s, t, matches);
    (pe !in ck ==> WalkItem(s, t, x, paths, true) == []) &&
    forall y | 0 <= y < |ck| && ck[y] == pe :: WalkItem(s, t, x, paths, true) == [matches[y]]
  }

  /** If each item yields its match, the walk yields the matches in order. */
  lemma {:induction false} SelectItems(s: Schema, t: ListType, items: seq<Value>, matches: seq<Value>, paths: PathSet)
    requires Only(Elements(s, t, items), Elements(s, t, matches)) == Elements(s, t, matches)
    requires forall x | x in items :: Yields(s, t, x, matches, paths)
    ensures WalkItems(s, t, items, paths, true) == matches
  {
    assert Elements(s, t, matches)[0..] == Elements(s, t, matches) && matches[0..] == matches;
    SelectFrom(s, t, items, matches, paths, 0);
  }

  lemma {:induction false} SelectFrom(s: Schema, t: ListType, items: seq<Value>, matches: seq<Value>, paths: PathSet, j: nat)
    requires j <= |matches| && Only(Elements(s, t, items), Elements(s, t, matches)) == Elements(s, t, matches)[j..]
    requires forall x | x in items :: Yields(s, t, x, matches, paths)
    ensures WalkItems(s, t, items, paths, true) == matches[j..]
    decreases |items|
  {
    if items != [] {
      var vk, ck := Elements(s, t, items), Elements(s, t, matches);
      assert vk[0..] == vk && vk[1..] == Elements(s, t, items[1..]);
      IdentityRound(vk, ck, 0, j);
      var next := if vk[0] in ck then j + 1 else j;
      SelectFrom(s, t, items[1..], matches, paths, next);
      assert WalkItem(s, t, items[0], paths, true) == matches[j..next] by {
        assert Yields(s, t, items[0], matches, paths);
        assert vk[0] in ck ==> matches[j..next] == [matches[j]];
      }
      assert matches[j..] == matches[j..next] + matches[next..];
    }
  }

  lemma {:induction false} ExtractItem(s: Schema, tr: TypeRef, v: Value, c: Value, paths: PathSet, i: nat)
    requires Plain(s, tr) && Valid(s, tr, v, false) && Valid(s, tr, c, false) && Dense(s, tr, c)
    requires Holds(s, tr, v, c) && LeafSet(s, tr, c, paths) && ShapeOf(s, tr).ListShape? && i < |v.items|
    ensures var t := ShapeOf(s, tr).lt;
            Yields(s, t, v.items[i], c.items, paths)
    decreases c, 1, 0
  {
    var t := ShapeOf(s, tr).lt;
    var vk, ck := Elements(s, t, v.items), Elements(s, t, c.items);
    ListElements(s, tr, c);
    forall j | 0 <= j < |ck| && ck[j] == vk[i]
      ensures Kid(s, tr, c, vk[i]) == Some(c.items[j])
    {
      IndexOfDistinct(ck, j);
    }
    ListElements(s, tr, v);
    IndexOfDistinct(vk, i);
    ExtractKid(s, tr, v, c, paths, vk[i]);
  }

  /** Extracting the leaves that a dense configuration mentions undoes merging it, list order included. */
  lemma {:induction false} ExtractUndoesMerge(s: Schema, tr: TypeRef, v: Value, c: Value)
    requires Plain(s, tr) && !ShapeOf(s, tr).LeafShape? && Valid(s, tr, v, false) && Valid(s, tr, c, false) && Dense(s, tr, c)
    ensures var m := Merge(s, tr, Some(v), Some(c));
            m.ok && m.out.Some? && Extract(s, tr, m.out.value, MaximalPaths(ToFieldSet(s, tr, c))) == c
  {
    MergePaths(s, tr, v, c);
    AllowDuplicates(s, tr, v);
    MergeHolds(s, tr, Some(v), c);
    DenseLeaves(s, tr, c);
    ExtractHeld(s, tr, Merge(s, tr, Some(v), Some(c)).out.value, c, MaximalPaths(ToFieldSet(s, tr, c)));
  }
}
