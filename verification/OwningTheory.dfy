/** Field sets of objects of plain types, and their closure under named fields. */
module OwningTheory {
  import opened Values
  import opened PathElements
  import opened Schemas
  import opened Merging
  import opened Owning
  import opened PlainSetting
  import opened ListKeys
  import opened ItemTheory

  /** A child is mentioned itself if it is a leaf, a list item, or marked by its map. */
  predicate MarkedHere(s: Schema, tr: TypeRef, pe: PathElement, c: Value) {
    ShapeOf(s, ChildType(s, tr, pe)).LeafShape? ||
    match ShapeOf(s, tr)
    case MapShape(t) => pe.FieldName? && (c.Null? || c == Map(map[]) || pe.name !in t.fields)
    case ListShape(_) => true
    case LeafShape => false
  }

  /** The node at `p` exists and is mentioned itself. */
  predicate Marked(s: Schema, tr: TypeRef, v: Value, p: Path)
    decreases |p|
  {
    p != [] &&
    var c := Kid(s, tr, v, p[0]);
    c.Some? &&
    if |p| == 1 then MarkedHere(s, tr, p[0], c.value) else Marked(s, ChildType(s, tr, p[0]), c.value, p[1..])
  }

  /** The last element of `p` is a declared field, by the types along `p`. */
  predicate NamedAt(s: Schema, tr: TypeRef, p: Path)
    decreases |p|
  {
    p != [] &&
    if |p| > 1 then NamedAt(s, ChildType(s, tr, p[0]), p[1..])
    else
      var sh := ShapeOf(s, tr);
      sh.MapShape? && p[0].FieldName? && p[0].name in sh.mt.fields
  }

  predicate Once(ks: seq<PathElement>, pe: PathElement) {
    forall i, j | 0 <= i < j < |ks| :: ks[i] != pe || ks[j] != pe
  }

  /** Good enough to read the field set below `pe`: a known field, or an element that is not repeated. */
  ghost predicate Readable(s: Schema, tr: TypeRef, v: Value, pe: PathElement) {
    match ShapeOf(s, tr)
    case LeafShape => true
    case MapShape(t) =>
      v.Map? && pe.FieldName? && pe.name in v.fields ==> pe.name in t.fields || t.elementType != NO_TYPE
    case ListShape(t) => v.List? ==> Once(Elements(s, t, v.items), pe)
  }

  lemma {:induction false} ValidReadable(s: Schema, tr: TypeRef, v: Value, pe: PathElement)
    requires Plain(s, tr) && Valid(s, tr, v, false)
    ensures Readable(s, tr, v, pe)
  {
    PlainNode(s, tr);
    assert ValidAtom(s, Resolve(s, tr).value, v, false);
    if ShapeOf(s, tr).ListShape? && v.List? {
      ListElements(s, tr, v);
    }
  }

  /** One level of the field set of an object of a plain type. */
  lemma {:induction false} MentionedStep(s: Schema, tr: TypeRef, v: Value, pe: PathElement, q: Path)
    requires Plain(s, tr) && Readable(s, tr, v, pe)
    ensures [] in Mentioned(s, tr, v) <==> ShapeOf(s, tr).LeafShape?
    ensures var c := Kid(s, tr, v, pe);
            [pe] + q in Mentioned(s, tr, v) <==>
            c.Some? && (q in Mentioned(s, ChildType(s, tr, pe), c.value) || (q == [] && MarkedHere(s, tr, pe, c.value)))
  {
    PlainNode(s, tr);
    var a := Resolve(s, tr).value;
    assert Mentioned(s, tr, v) == MentionedAtom(s, a, v);
    assert ([pe] + q)[0] == pe && ([pe] + q)[1..] == q;
    match ShapeOf(s, tr)
    case LeafShape =>
    case MapShape(t) =>
      if Kid(s, tr, v, pe).Some? {
        PlainField(s, tr, pe.name);
        MentionedLeaf(s, ChildType(s, tr, pe), Kid(s, tr, v, pe).value);
        assert pe == FieldName(pe.name) && [pe] + [] == [pe];
      }
    case ListShape(t) =>
      if v.List? {
        MentionedItems(s, tr, v, pe, q);
      }
  }

  lemma {:induction false} MentionedLeaf(s: Schema, tr: TypeRef, v: Value)
    requires Plain(s, tr)
    ensures ShapeOf(s, tr).LeafShape? ==> Mentioned(s, tr, v) == {[]}
  {
    PlainNode(s, tr);
    var a := Resolve(s, tr).value;
    assert Mentioned(s, tr, v) == MentionedAtom(s, a, v);
  }

  lemma {:induction false} MentionedItems(s: Schema, tr: TypeRef, v: Value, pe: PathElement, q: Path)
    requires Plain(s, tr) && ShapeOf(s, tr).ListShape? && v.List? && Once(Elements(s, ShapeOf(s, tr).lt, v.items), pe)
    ensures var c := Kid(s, tr, v, pe);
            [pe] + q in MentionedAtom(s, Resolve(s, tr).value, v) <==>
            c.Some? && (q in Mentioned(s, ShapeOf(s, tr).lt.elementType, c.value) || q == [])
  {
    PlainNode(s, tr);
    var t := ShapeOf(s, tr).lt;
    var ks := Elements(s, t, v.items);
    assert ([pe] + q)[0] == pe && ([pe] + q)[1..] == q;
    forall i | 0 <= i < |ks| && ks[i] == pe
      ensures Single(ks, i) && IndexOf(ks, pe) == i
    {
      var j := IndexOf(ks, pe);
      assert ks[j] == pe;
    }
    if pe in ks {
      var i := IndexOf(ks, pe);
      assert [pe] + q == [ks[i]] + q && [pe] + [] == [pe];
    }
  }

  /** The field set, path by path: the nodes that are mentioned themselves. */
  lemma {:induction false} FieldSetIn(s: Schema, tr: TypeRef, v: Value, p: Path)
    requires Plain(s, tr) && Valid(s, tr, v, false)
    ensures p in ToFieldSet(s, tr, v) <==> Marked(s, tr, v, p)
    decreases |p|
  {
    if p != [] {
      var pe, rest := p[0], p[1..];
      assert p == [pe] + rest;
      ValidReadable(s, tr, v, pe);
      MentionedStep(s, tr, v, pe, rest);
      if Kid(s, tr, v, pe).Some? {
        KidValid(s, tr, v, pe, false);
        var c := Kid(s, tr, v, pe).value;
        if rest == [] {
          ValidReadable(s, ChildType(s, tr, pe), c, pe);
          MentionedStep(s, ChildType(s, tr, pe), c, pe, []);
        } else {
          FieldSetIn(s, ChildType(s, tr, pe), c, rest);
        }
      }
    }
  }

  lemma {:induction false} MarkedExists(s: Schema, tr: TypeRef, v: Value, p: Path)
    requires Plain(s, tr) && Valid(s, tr, v, false)
    ensures Marked(s, tr, v, p) ==> At(s, tr, Some(v), p).Some?
    ensures At(s, tr, Some(v), p).Some? && p != [] ==> Marked(s, tr, v, p) || NamedAt(s, tr, p)
    ensures At(s, tr, Some(v), p).Some? && p != [] && ShapeOf(s, TypeAt(s, tr, p)).LeafShape? ==> Marked(s, tr, v, p)
    decreases |p|
  {
    if p != [] {
      var c := Kid(s, tr, v, p[0]);
      if c.Some? {
        KidValid(s, tr, v, p[0], false);
        assert |p| == 1 ==> TypeAt(s, tr, p) == ChildType(s, tr, p[0]);
        MarkedExists(s, ChildType(s, tr, p[0]), c.value, p[1..]);
      } else {
        AtNone(s, ChildType(s, tr, p[0]), p[1..]);
      }
    }
  }

  /** A prefix of a path to a node leads to a node. */
  lemma {:induction false} PrefixExists(s: Schema, tr: TypeRef, o: Option<Value>, p: Path, i: nat)
    requires i <= |p| && At(s, tr, o, p).Some?
    ensures At(s, tr, o, p[..i]).Some?
    decreases |p|
  {
    if i == 0 {
      if p != [] && o.None? {
        AtNone(s, tr, p);
      }
    } else {
      PrefixExists(s, ChildType(s, tr, p[0]), KidOf(s, tr, o, p[0]), p[1..], i - 1);
      assert p[..i][0] == p[0] && p[..i][1..] == p[1..][..i - 1];
    }
  }

  lemma {:induction false} ExistsFits(s: Schema, tr: TypeRef, o: Option<Value>, p: Path)
    requires At(s, tr, o, p).Some?
    ensures Fits(s, tr, p)
    decreases |p|
  {
    if p != [] {
      if KidOf(s, tr, o, p[0]).None? {
        AtNone(s, ChildType(s, tr, p[0]), p[1..]);
      }
      ExistsFits(s, ChildType(s, tr, p[0]), KidOf(s, tr, o, p[0]), p[1..]);
    }
  }

  /** On paths of an object, the closure's notion of a declared field is the one by types. */
  lemma {:induction false} DeclaredIs(s: Schema, tr: TypeRef, v: Value, p: Path)
    requires Plain(s, tr) && Valid(s, tr, v, false) && At(s, tr, Some(v), p).Some?
    ensures Declared(s, tr, p) <==> NamedAt(s, tr, p)
    decreases |p|
  {
    if p != [] {
      var pe, rest, ct := p[0], p[1..], ChildType(s, tr, p[0]);
      var c := Kid(s, tr, v, pe);
      if c.None? {
        AtNone(s, ct, rest);
      }
      PlainNode(s, tr);
      KidValid(s, tr, v, pe, false);
      DeclaredIs(s, ct, c.value, rest);
      if rest != [] {
        if Kid(s, ct, c.value, rest[0]).None? {
          AtNone(s, ChildType(s, ct, rest[0]), rest[1..]);
        }
        if ShapeOf(s, tr).ListShape? {
          assert ValidAtom(s, Resolve(s, tr).value, v, false);
          assert pe.Key?;
        }
      }
    }
  }

  /** The set has non-empty paths of the object only, and list items exactly with their keys that are not at defaults. */
  ghost predicate OwnedIn(s: Schema, tr: TypeRef, v: Value, paths: PathSet) {
    paths <= AllPaths(s, tr, v) && [] !in paths && KeyClosed(s, tr, paths)
  }

  /** A path to a node of the object, with the node. */
  lemma {:induction false} PathOf(s: Schema, tr: TypeRef, v: Value, p: Path)
    requires Plain(s, tr) && Valid(s, tr, v, false) && p in AllPaths(s, tr, v)
    ensures At(s, tr, Some(v), p).Some? && Fits(s, tr, p)
    ensures forall i | 0 <= i <= |p| :: p[..i] in AllPaths(s, tr, v)
  {
    AllPathsIn(s, tr, v, p);
    ExistsFits(s, tr, Some(v), p);
    forall i | 0 <= i <= |p|
      ensures p[..i] in AllPaths(s, tr, v)
    {
      PrefixExists(s, tr, Some(v), p, i);
      AllPathsIn(s, tr, v, p[..i]);
    }
  }

  /** Some valid object has a node at the path. */
  ghost predicate Possible(s: Schema, tr: TypeRef, p: Path) {
    exists v :: Valid(s, tr, v, false) && At(s, tr, Some(v), p).Some?
  }

  /** Non-empty paths of some objects, not all need be in one, and list items exactly with such keys. */
  ghost predicate Plausible(s: Schema, tr: TypeRef, paths: PathSet) {
    [] !in paths && KeyClosed(s, tr, paths) && forall p | p in paths :: Possible(s, tr, p)
  }

  lemma {:induction false} OwnedPlausible(s: Schema, tr: TypeRef, v: Value, paths: PathSet)
    requires Plain(s, tr) && Valid(s, tr, v, false) && OwnedIn(s, tr, v, paths)
    ensures Plausible(s, tr, paths)
  {
    forall p | p in paths
      ensures Possible(s, tr, p)
    {
      AllPathsIn(s, tr, v, p);
    }
  }

  /** What can be removed without splitting items from their keys. */
  lemma {:induction false} PlausibleRemovable(s: Schema, tr: TypeRef, paths: PathSet)
    requires Plain(s, tr) && Plausible(s, tr, paths)
    ensures Removable(s, tr, paths)
  {
    forall p | p in paths
      ensures Fits(s, tr, p)
    {
      assert Possible(s, tr, p);
      var v :| Valid(s, tr, v, false) && At(s, tr, Some(v), p).Some?;
      ExistsFits(s, tr, Some(v), p);
    }
  }

  /** An item of a keyed list, at its path, is a map that has every key that is not at its default. */
  lemma {:induction false} KeyPresent(s: Schema, tr: TypeRef, o: Option<Value>, p: Path, k: string)
    requires Plain(s, tr) && ValidOpt(s, tr, o) && IsKeyOf(s, tr, p, k)
    ensures var x := At(s, tr, o, p);
            At(s, tr, o, p + [FieldName(k)]) == if x.None? then None else Lookup(FieldsOf(x), k)
    ensures At(s, tr, o, p).Some? ==> k in FieldsOf(At(s, tr, o, p))
    ensures ShapeOf(s, TypeAt(s, tr, p)).MapShape?
    ensures At(s, tr, o, p).Some? ==> ShapeOf(s, TypeAt(s, tr, p + [FieldName(k)])).LeafShape?
    decreases |p|
  {
    var pe, rest, ct := p[0], p[1..], ChildType(s, tr, p[0]);
    var c := KidOf(s, tr, o, pe);
    assert (p + [FieldName(k)])[0] == pe && (p + [FieldName(k)])[1..] == rest + [FieldName(k)];
    if c.None? {
      AtNone(s, ct, rest);
      AtNone(s, ct, rest + [FieldName(k)]);
      KeyShape(s, tr, p, k);
    } else {
      KidValidOpt(s, tr, o, pe);
      if rest != [] {
        KeyPresent(s, ct, c, rest, k);
      } else {
        assert rest + [FieldName(k)] == [FieldName(k)];
        KeyHere(s, tr, o.value, pe, k);
      }
    }
  }

  lemma {:induction false} KeyShape(s: Schema, tr: TypeRef, p: Path, k: string)
    requires IsKeyOf(s, tr, p, k)
    ensures ShapeOf(s, TypeAt(s, tr, p)).MapShape?
    decreases |p|
  {
    if |p| > 1 {
      KeyShape(s, ChildType(s, tr, p[0]), p[1..], k);
    } else {
      assert TypeAt(s, tr, p) == ChildType(s, tr, p[0]);
    }
  }

  lemma {:induction false} KeyHere(s: Schema, tr: TypeRef, v: Value, pe: PathElement, k: string)
    requires Plain(s, tr) && Valid(s, tr, v, false) && IsKeyOf(s, tr, [pe], k) && Kid(s, tr, v, pe).Some?
    ensures var x, ct := Kid(s, tr, v, pe), ChildType(s, tr, pe);
            k in FieldsOf(x) && At(s, ct, x, [FieldName(k)]) == Some(FieldsOf(x)[k]) &&
            ShapeOf(s, ct).MapShape? && ShapeOf(s, TypeAt(s, tr, [pe] + [FieldName(k)])).LeafShape?
    ensures ItemElement(s, ShapeOf(s, tr).lt, Kid(s, tr, v, pe).value) == Some(pe)
  {
    PlainNode(s, tr);
    ListElements(s, tr, v);
    var t := ShapeOf(s, tr).lt;
    var x := Kid(s, tr, v, pe).value;
    assert ItemElement(s, t, x).Some?;
    DefaultedIs(s, t, x, k);
    assert ([pe] + [FieldName(k)])[1..] == [FieldName(k)];
    assert TypeAt(s, tr, [pe] + [FieldName(k)]) == TypeAt(s, t.elementType, [FieldName(k)]);
    assert TypeAt(s, t.elementType, [FieldName(k)]) == ChildType(s, t.elementType, FieldName(k));
  }

  lemma {:induction false} AllPathsKeyClosed(s: Schema, tr: TypeRef, v: Value)
    requires Plain(s, tr) && Valid(s, tr, v, false)
    ensures KeyClosed(s, tr, AllPaths(s, tr, v))
  {
    forall p, k | IsKeyOf(s, tr, p, k)
      ensures p in AllPaths(s, tr, v) <==> p + [FieldName(k)] in AllPaths(s, tr, v)
    {
      KeyPresent(s, tr, Some(v), p, k);
      AllPathsIn(s, tr, v, p);
      AllPathsIn(s, tr, v, p + [FieldName(k)]);
    }
  }

  lemma {:induction false} ItemNotNamed(s: Schema, tr: TypeRef, p: Path, k: string)
    requires IsKeyOf(s, tr, p, k)
    ensures !NamedAt(s, tr, p)
    decreases |p|
  {
    if |p| > 1 {
      ItemNotNamed(s, ChildType(s, tr, p[0]), p[1..], k);
    }
  }

  /** The field set of an object has non-empty paths of the object only. */
  lemma {:induction false} FieldSetPaths(s: Schema, tr: TypeRef, v: Value)
    requires Plain(s, tr) && Valid(s, tr, v, false)
    ensures ToFieldSet(s, tr, v) <= AllPaths(s, tr, v) && [] !in ToFieldSet(s, tr, v)
  {
    forall p | p in ToFieldSet(s, tr, v)
      ensures p in AllPaths(s, tr, v)
    {
      FieldSetIn(s, tr, v, p);
      MarkedExists(s, tr, v, p);
      AllPathsIn(s, tr, v, p);
    }
  }

  /** ... and list items exactly with their keys that are not at defaults. */
  lemma {:induction false} FieldSetOwned(s: Schema, tr: TypeRef, v: Value)
    requires Plain(s, tr) && Valid(s, tr, v, false)
    ensures OwnedIn(s, tr, v, ToFieldSet(s, tr, v))
  {
    var fs := ToFieldSet(s, tr, v);
    FieldSetPaths(s, tr, v);
    forall p, k | IsKeyOf(s, tr, p, k)
      ensures p in fs <==> p + [FieldName(k)] in fs
    {
      var q := p + [FieldName(k)];
      KeyPresent(s, tr, Some(v), p, k);
      ItemNotNamed(s, tr, p, k);
      FieldSetIn(s, tr, v, p);
      FieldSetIn(s, tr, v, q);
      MarkedExists(s, tr, v, p);
      MarkedExists(s, tr, v, q);
    }
  }

  /** Every prefix of a mentioned path is in the closure of the field set. */
  lemma {:induction false} FieldSetPrefix(s: Schema, tr: TypeRef, v: Value, p: Path, i: nat)
    requires Plain(s, tr) && Valid(s, tr, v, false)
    requires p in ToFieldSet(s, tr, v) && 0 < i <= |p|
    ensures p[..i] in EnsureNamed(s, tr, ToFieldSet(s, tr, v))
  {
    FieldSetPaths(s, tr, v);
    var q := p[..i];
    if i == |p| {
      assert q == p;
    } else {
      PathOf(s, tr, v, p);
      AllPathsIn(s, tr, v, q);
      FieldSetIn(s, tr, v, q);
      MarkedExists(s, tr, v, q);
      if !Marked(s, tr, v, q) {
        DeclaredIs(s, tr, v, q);
      }
    }
  }

  /** A declared field that leads to a possible path is possible, and no leaf. */
  lemma {:induction false} LeadingField(s: Schema, tr: TypeRef, q: Path, i: nat)
    requires Plain(s, tr) && Possible(s, tr, q) && 0 < i < |q| && Declared(s, tr, q[..i])
    ensures Possible(s, tr, q[..i]) && NamedAt(s, tr, q[..i]) && !ShapeOf(s, TypeAt(s, tr, q[..i])).LeafShape?
  {
    var v :| Valid(s, tr, v, false) && At(s, tr, Some(v), q).Some?;
    PrefixExists(s, tr, Some(v), q, i);
    DeclaredIs(s, tr, v, q[..i]);
    ExistsFits(s, tr, Some(v), q);
    FitsPrefix(s, tr, q, i);
  }

  /** A key is a leaf, wherever its item is possible. */
  lemma {:induction false} KeyIsLeaf(s: Schema, tr: TypeRef, p: Path, k: string)
    requires Plain(s, tr) && IsKeyOf(s, tr, p, k) && Possible(s, tr, p + [FieldName(k)])
    ensures ShapeOf(s, TypeAt(s, tr, p + [FieldName(k)])).LeafShape?
  {
    var q := p + [FieldName(k)];
    var v :| Valid(s, tr, v, false) && At(s, tr, Some(v), q).Some?;
    PrefixExists(s, tr, Some(v), q, |p|);
    assert q[..|p|] == p;
    KeyPresent(s, tr, Some(v), p, k);
  }

  /** The closure of a plausible set is plausible, and it adds no leaf and no list item. */
  lemma {:induction false} EnsurePlausible(s: Schema, tr: TypeRef, paths: PathSet)
    requires Plain(s, tr) && Plausible(s, tr, paths)
    ensures Plausible(s, tr, EnsureNamed(s, tr, paths))
    ensures forall p | p in EnsureNamed(s, tr, paths) && ShapeOf(s, TypeAt(s, tr, p)).LeafShape? :: p in paths
  {
    var es := EnsureNamed(s, tr, paths);
    forall p | p in es
      ensures p != [] && Possible(s, tr, p)
      ensures p in paths || (NamedAt(s, tr, p) && !ShapeOf(s, TypeAt(s, tr, p)).LeafShape?)
    {
      if p !in paths {
        var q, i :| q in paths && 0 < i < |q| && Declared(s, tr, q[..i]) && p == q[..i];
        LeadingField(s, tr, q, i);
      }
    }
    forall p, k | IsKeyOf(s, tr, p, k)
      ensures p in es <==> p + [FieldName(k)] in es
    {
      var q := p + [FieldName(k)];
      ItemNotNamed(s, tr, p, k);
      assert p in es <==> p in paths;
      if q in es && q !in paths {
        KeyIsLeaf(s, tr, p, k);
      }
    }
  }

  /** Of paths of one object it adds paths of that object. */
  lemma {:induction false} EnsureOwned(s: Schema, tr: TypeRef, v: Value, paths: PathSet)
    requires Plain(s, tr) && Valid(s, tr, v, false) && OwnedIn(s, tr, v, paths)
    ensures OwnedIn(s, tr, v, EnsureNamed(s, tr, paths))
    ensures forall p | p in EnsureNamed(s, tr, paths) && ShapeOf(s, TypeAt(s, tr, p)).LeafShape? :: p in paths
  {
    OwnedPlausible(s, tr, v, paths);
    EnsurePlausible(s, tr, paths);
    forall p | p in EnsureNamed(s, tr, paths) && p !in paths
      ensures p in AllPaths(s, tr, v)
    {
      var q, i :| q in paths && 0 < i < |q| && Declared(s, tr, q[..i]) && p == q[..i];
      PathOf(s, tr, v, q);
    }
  }

  lemma {:induction false} FitsPrefix(s: Schema, tr: TypeRef, q: Path, i: nat)
    requires Fits(s, tr, q) && i < |q|
    ensures !ShapeOf(s, TypeAt(s, tr, q[..i])).LeafShape?
    decreases |q|
  {
    if i > 0 {
      FitsPrefix(s, ChildType(s, tr, q[0]), q[1..], i - 1);
      assert q[..i][0] == q[0] && q[..i][1..] == q[1..][..i - 1];
    }
  }
}
