/** What an object still mentions after a removal, in terms of the object and of the removed set. */
module LeftoverTheory {
  import opened Values
  import opened PathElements
  import opened Schemas
  import opened Removing
  import opened Owning
  import opened PlainSetting
  import opened ItemTheory
  import opened RemoveTheory
  import opened RemoveIff
  import opened OwningTheory

  /** What is left is nothing but declared fields down to empty lists: no field set mentions any of it. */
  predicate Barren(s: Schema, tr: TypeRef, v: Value, gone: PathSet)
    decreases v
  {
    match ShapeOf(s, tr)
    case LeafShape => false
    case MapShape(t) =>
      v.Map? && (exists k | k in v.fields :: [FieldName(k)] !in gone) &&
      forall k | k in v.fields && [FieldName(k)] !in gone ::
        k in t.fields && Barren(s, FieldType(t, k), v.fields[k], Below(gone, FieldName(k)))
    case ListShape(_) => v == List([]) && gone == {}
  }

  /** Only a barren declared field is not mentioned, neither itself nor by anything below it. */
  predicate BarrenHere(s: Schema, tr: TypeRef, pe: PathElement, x: Value, sub: PathSet) {
    NamedAt(s, tr, [pe]) && Barren(s, ChildType(s, tr, pe), x, sub)
  }

  /**
   * After removing `gone`, something at or below `u` is mentioned: no step of `u` is removed or leads
   * to an emptied item, and the node is not a declared field with only barren fields left.
   */
  predicate Still(s: Schema, tr: TypeRef, v: Value, gone: PathSet, u: Path)
    decreases |u|
  {
    u != [] &&
    var x, sub := Kid(s, tr, v, u[0]), Below(gone, u[0]);
    x.Some? && [u[0]] !in gone && !EmptiedHere(s, tr, x.value, sub) &&
    if |u| == 1 then !BarrenHere(s, tr, u[0], x.value, sub)
    else Still(s, ChildType(s, tr, u[0]), x.value, sub, u[1..])
  }

  /** What the removal leaves; a value below which nothing is removed is not walked. */
  predicate IsLeft(s: Schema, tr: TypeRef, v: Value, gone: PathSet, w: Value) {
    w == Remove(s, tr, v, gone) || (gone == {} && w == v)
  }

  /** Something at or below `u` is mentioned. */
  ghost predicate Touches(s: Schema, tr: TypeRef, w: Value, u: Path) {
    exists r :: r in Mentioned(s, tr, w) && u <= r
  }

  /** Every kept item keeps its path element or has none left. */
  predicate ItemsLoose(s: Schema, t: ListType, items: seq<Value>, paths: PathSet) {
    forall x | x in items && [ElementOf(s, t, x)] !in paths ::
      ElementOf(s, t, Trim(s, t.elementType, x, Below(paths, ElementOf(s, t, x)))) in {ElementOf(s, t, x), NoElement}
  }

  /** Then each path element selects what is left of the item it selected, if that still has the element. */
  lemma {:induction false} LooseFind(s: Schema, t: ListType, items: seq<Value>, paths: PathSet, pe: PathElement)
    requires ItemsLoose(s, t, items, paths) && pe != NoElement && Distinct(Elements(s, t, items))
    ensures var out, x := WalkItems(s, t, items, paths, false), Find(s, t, items, pe);
            Once(Elements(s, t, out), pe) &&
            Find(s, t, out, pe) ==
            if [pe] in paths || x.None? then None
            else
              var y := Trim(s, t.elementType, x.value, Below(paths, pe));
              if ElementOf(s, t, y) == pe then Some(y) else None
  {
    if items != [] {
      var x, ks, rest := items[0], Elements(s, t, items), WalkItems(s, t, items[1..], paths, false);
      assert ks[1..] == Elements(s, t, items[1..]);
      LooseFind(s, t, items[1..], paths, pe);
      if [ks[0]] in paths {
        assert WalkItems(s, t, items, paths, false) == rest;
      } else {
        var y := Trim(s, t.elementType, x, Below(paths, ks[0]));
        assert WalkItems(s, t, items, paths, false) == [y] + rest;
        assert ([y] + rest)[1..] == rest;
        ElementsCons(s, t, y, rest);
        FindIs(s, t, rest, pe);
        FindIs(s, t, items[1..], pe);
        assert ks[0] == pe ==> pe !in ks[1..];
      }
    }
  }

  /** An item that keeps its keys keeps its path element, unless it is emptied. */
  lemma {:induction false} LeftElement(s: Schema, tr: TypeRef, v: Value, gone: PathSet, x: Value)
    requires Plain(s, tr) && Valid(s, tr, v, false) && Removable(s, tr, gone) && ShapeOf(s, tr).ListShape? && v.List?
    requires x in v.items && [ElementOf(s, ShapeOf(s, tr).lt, x)] !in gone
    ensures var t := ShapeOf(s, tr).lt;
            var sub := Below(gone, ElementOf(s, t, x));
            ElementOf(s, t, Trim(s, t.elementType, x, sub)) ==
            if EmptiedHere(s, tr, x, sub) then NoElement else ElementOf(s, t, x)
  {
    var t := ShapeOf(s, tr).lt;
    var pe := ElementOf(s, t, x);
    var sub := Below(gone, pe);
    ItemChecked(s, tr, v, gone, x);
    if EmptiedHere(s, tr, x, sub) {
      ItemLeft(s, tr, x, sub);
      KeyedItem(s, tr, x, sub);
    } else {
      forall k | IsKeyOf(s, tr, [pe], k)
        ensures [FieldName(k)] !in sub
      {
        BelowIn(gone, pe, [FieldName(k)]);
      }
      ElementStaysIff(s, tr, x, sub);
    }
  }

  /** A child of what is left. */
  lemma {:induction false} LeftKid(s: Schema, tr: TypeRef, v: Value, gone: PathSet, w: Value, pe: PathElement)
    requires Plain(s, tr) && Valid(s, tr, v, false) && Removable(s, tr, gone) && IsLeft(s, tr, v, gone, w) && pe != NoElement
    ensures Readable(s, tr, w, pe)
    ensures var x, sub := Kid(s, tr, v, pe), Below(gone, pe);
            Kid(s, tr, w, pe) ==
            if x.None? || [pe] in gone || EmptiedHere(s, tr, x.value, sub) then None
            else Some(Trim(s, ChildType(s, tr, pe), x.value, sub))
  {
    ValidReadable(s, tr, v, pe);
    if w == v && gone == {} {
      assert Below({}, pe) == {};
    } else {
      PlainNode(s, tr);
      RemoveIsAtom(s, tr, v, gone);
      match ShapeOf(s, tr)
      case LeafShape =>
      case MapShape(t) =>
        if v.Map? {
          MapLeft(s, Resolve(s, tr).value, t, v, gone);
        }
      case ListShape(t) =>
        if v.List? && v.items != [] {
          LeftItem(s, tr, v, gone, pe);
        }
    }
  }

  lemma {:induction false} LeftItem(s: Schema, tr: TypeRef, v: Value, gone: PathSet, pe: PathElement)
    requires Plain(s, tr) && Valid(s, tr, v, false) && Removable(s, tr, gone) && pe != NoElement
    requires ShapeOf(s, tr).ListShape? && v.List?
    ensures var t := ShapeOf(s, tr).lt;
            var x, out := Kid(s, tr, v, pe), List(WalkItems(s, t, v.items, gone, false));
            Readable(s, tr, out, pe) &&
            Kid(s, tr, out, pe) ==
            if x.None? || [pe] in gone || EmptiedHere(s, tr, x.value, Below(gone, pe)) then None
            else Some(Trim(s, t.elementType, x.value, Below(gone, pe)))
  {
    var t := ShapeOf(s, tr).lt;
    ListElements(s, tr, v);
    forall x | x in v.items && [ElementOf(s, t, x)] !in gone
      ensures ElementOf(s, t, Trim(s, t.elementType, x, Below(gone, ElementOf(s, t, x)))) in {ElementOf(s, t, x), NoElement}
    {
      LeftElement(s, tr, v, gone, x);
    }
    LooseFind(s, t, v.items, gone, pe);
    FindIs(s, t, v.items, pe);
    FindIs(s, t, WalkItems(s, t, v.items, gone, false), pe);
    if Kid(s, tr, v, pe).Some? && [pe] !in gone {
      KidInList(s, tr, v, pe);
      LeftElement(s, tr, v, gone, Kid(s, tr, v, pe).value);
    }
  }

  /** One step down. */
  lemma {:induction false} TouchesStep(s: Schema, tr: TypeRef, w: Value, pe: PathElement, u: Path)
    requires Plain(s, tr) && Readable(s, tr, w, pe)
    ensures var c := Kid(s, tr, w, pe);
            Touches(s, tr, w, [pe] + u) <==>
            c.Some? && (Touches(s, ChildType(s, tr, pe), c.value, u) || (u == [] && MarkedHere(s, tr, pe, c.value)))
  {
    var c, ct := Kid(s, tr, w, pe), ChildType(s, tr, pe);
    if r :| r in Mentioned(s, tr, w) && [pe] + u <= r {
      assert r == [pe] + r[1..] && u <= r[1..];
      MentionedStep(s, tr, w, pe, r[1..]);
      if r[1..] in Mentioned(s, ct, c.value) {
        assert Touches(s, ct, c.value, u);
      }
    }
    if c.Some? && Touches(s, ct, c.value, u) {
      var q :| q in Mentioned(s, ct, c.value) && u <= q;
      MentionedStep(s, tr, w, pe, q);
      assert [pe] + u <= [pe] + q;
    }
    if c.Some? && u == [] && MarkedHere(s, tr, pe, c.value) {
      MentionedStep(s, tr, w, pe, []);
      assert [pe] + u <= [pe] + [];
    }
  }

  /** Nothing is mentioned, itself or below. */
  predicate Silent(s: Schema, tr: TypeRef, w: Value) {
    Mentioned(s, tr, w) == {} && !w.Null? && w != Map(map[])
  }

  /** What is left of a node that is no leaf is silent exactly if it is barren. */
  lemma {:induction false} SilentIff(s: Schema, tr: TypeRef, v: Value, gone: PathSet)
    requires Plain(s, tr) && Valid(s, tr, v, false) && Removable(s, tr, gone)
    ensures Silent(s, tr, Trim(s, tr, v, gone)) <==> Barren(s, tr, v, gone)
    decreases v, 1
  {
    PlainNode(s, tr);
    var a, w := Resolve(s, tr).value, Trim(s, tr, v, gone);
    assert ValidAtom(s, a, v, false);
    RemoveIsAtom(s, tr, v, gone);
    MentionedLeaf(s, tr, w);
    match ShapeOf(s, tr)
    case LeafShape =>
    case MapShape(t) =>
      if v.Map? {
        SilentMap(s, tr, v, gone);
      }
    case ListShape(t) =>
      if w.List? && w.items != [] {
        var ks := Elements(s, t, w.items);
        assert ks[0] in ks && [ks[0]] in Mentioned(s, tr, w);
      }
  }

  lemma {:induction false} SilentMap(s: Schema, tr: TypeRef, v: Value, gone: PathSet)
    requires Plain(s, tr) && Valid(s, tr, v, false) && Removable(s, tr, gone) && ShapeOf(s, tr).MapShape? && v.Map?
    ensures Silent(s, tr, Trim(s, tr, v, gone)) <==> Barren(s, tr, v, gone)
    decreases v, 0
  {
    var t, w := ShapeOf(s, tr).mt, Trim(s, tr, v, gone);
    TrimmedMap(s, tr, v, gone);
    if w.Map? && w != Map(map[]) {
      forall k | k in w.fields
        ensures FieldSilent(s, t, k, w.fields[k]) <==>
                k in t.fields && Barren(s, FieldType(t, k), v.fields[k], Below(gone, FieldName(k)))
      {
        SilentField(s, tr, v, gone, k);
      }
      FieldsSilent(s, tr, w);
    }
  }

  /** What is left of a map, field by field; null or empty if no field is. */
  lemma {:induction false} TrimmedMap(s: Schema, tr: TypeRef, v: Value, gone: PathSet)
    requires Plain(s, tr) && ShapeOf(s, tr).MapShape? && v.Map?
    ensures var t, w := ShapeOf(s, tr).mt, Trim(s, tr, v, gone);
            if forall k | k in v.fields :: [FieldName(k)] in gone then w == Null || w == Map(map[])
            else
              w.Map? && w != Map(map[]) &&
              (forall k :: k in w.fields <==> k in v.fields && [FieldName(k)] !in gone) &&
              (forall k | k in w.fields :: w.fields[k] == Trim(s, FieldType(t, k), v.fields[k], Below(gone, FieldName(k))))
  {
    PlainNode(s, tr);
    RemoveIsAtom(s, tr, v, gone);
    MapLeft(s, Resolve(s, tr).value, ShapeOf(s, tr).mt, v, gone);
    if gone == {} {
      assert forall pe :: Below({}, pe) == {};
    }
  }

  predicate FieldSilent(s: Schema, t: MapType, k: string, x: Value) {
    Mentioned(s, FieldType(t, k), x) == {} && !MarksField(t, k, x)
  }

  /** A map is silent if its fields are. */
  lemma {:induction false} FieldsSilent(s: Schema, tr: TypeRef, w: Value)
    requires Plain(s, tr) && ShapeOf(s, tr).MapShape? && w.Map? && w != Map(map[])
    ensures Silent(s, tr, w) <==> forall k | k in w.fields :: FieldSilent(s, ShapeOf(s, tr).mt, k, w.fields[k])
  {
    PlainNode(s, tr);
    var t, ms := ShapeOf(s, tr).mt, Mentioned(s, tr, w);
    assert ms == MentionedAtom(s, Resolve(s, tr).value, w);
    forall k | k in w.fields && !FieldSilent(s, t, k, w.fields[k])
      ensures ms != {}
    {
      if MarksField(t, k, w.fields[k]) {
        assert [FieldName(k)] in ms;
      } else {
        var p :| p in Mentioned(s, FieldType(t, k), w.fields[k]);
        assert [FieldName(k)] + p in ms;
      }
    }
  }

  lemma {:induction false} SilentField(s: Schema, tr: TypeRef, v: Value, gone: PathSet, k: string)
    requires Plain(s, tr) && Valid(s, tr, v, false) && Removable(s, tr, gone) && ShapeOf(s, tr).MapShape?
    requires v.Map? && k in v.fields
    ensures var t := ShapeOf(s, tr).mt;
            FieldSilent(s, t, k, Trim(s, FieldType(t, k), v.fields[k], Below(gone, FieldName(k)))) <==>
            k in t.fields && Barren(s, FieldType(t, k), v.fields[k], Below(gone, FieldName(k)))
    decreases v.fields[k], 2
  {
    KidValid(s, tr, v, FieldName(k), false);
    RemovableBelow(s, tr, gone, FieldName(k));
    SilentIff(s, FieldType(ShapeOf(s, tr).mt, k), v.fields[k], Below(gone, FieldName(k)));
  }

  /** The step before the last: the node is mentioned, or something below it is. */
  lemma {:induction false} MentionedHere(s: Schema, tr: TypeRef, v: Value, gone: PathSet, pe: PathElement)
    requires Plain(s, tr) && Valid(s, tr, v, false) && Removable(s, tr, gone) && Kid(s, tr, v, pe).Some?
    ensures var ct, x, sub := ChildType(s, tr, pe), Kid(s, tr, v, pe).value, Below(gone, pe);
            var c := Trim(s, ct, x, sub);
            Touches(s, ct, c, []) || MarkedHere(s, tr, pe, c) <==> !BarrenHere(s, tr, pe, x, sub)
  {
    var ct, x, sub := ChildType(s, tr, pe), Kid(s, tr, v, pe).value, Below(gone, pe);
    var c := Trim(s, ct, x, sub);
    KidValid(s, tr, v, pe, false);
    RemovableBelow(s, tr, gone, pe);
    SilentIff(s, ct, x, sub);
    if Mentioned(s, ct, c) != {} {
      var r :| r in Mentioned(s, ct, c);
      assert [] <= r;
    }
    MentionedLeaf(s, ct, c);
  }

  /** After a removal, something is mentioned at or below a path exactly if the object and the set say so. */
  lemma {:induction false} TouchesIff(s: Schema, tr: TypeRef, v: Value, gone: PathSet, w: Value, u: Path)
    requires Plain(s, tr) && Valid(s, tr, v, false) && Removable(s, tr, gone) && IsLeft(s, tr, v, gone, w)
    requires u != [] && NoElement !in u
    ensures Touches(s, tr, w, u) <==> Still(s, tr, v, gone, u)
    decreases |u|
  {
    var pe, rest, ct, sub := u[0], u[1..], ChildType(s, tr, u[0]), Below(gone, u[0]);
    LeftKid(s, tr, v, gone, w, pe);
    TouchesStep(s, tr, w, pe, rest);
    assert u == [pe] + rest;
    if Kid(s, tr, w, pe).Some? {
      var x := Kid(s, tr, v, pe).value;
      if rest == [] {
        MentionedHere(s, tr, v, gone, pe);
      } else {
        KidValid(s, tr, v, pe, false);
        RemovableBelow(s, tr, gone, pe);
        TouchesIff(s, ct, x, sub, Trim(s, ct, x, sub), rest);
      }
    }
  }

  /** On any value, a prefix of a mentioned path is mentioned or a declared field, if no step lacks an element. */
  lemma {:induction false} PrefixDeclared(s: Schema, tr: TypeRef, w: Value, r: Path, u: Path)
    requires Plain(s, tr) && r in Mentioned(s, tr, w) && u < r && u != [] && NoElement !in u
    ensures u in Mentioned(s, tr, w) || Declared(s, tr, u)
    decreases |u|
  {
    PlainNode(s, tr);
    assert Mentioned(s, tr, w) == MentionedAtom(s, Resolve(s, tr).value, w);
    assert r[0] == u[0] && u == [u[0]] + u[1..] && r == [u[0]] + r[1..];
    match ShapeOf(s, tr)
    case LeafShape =>
    case MapShape(t) =>
      PrefixInMap(s, tr, w, r, u);
    case ListShape(t) =>
      PrefixInList(s, tr, w, r, u);
  }

  lemma {:induction false} PrefixInMap(s: Schema, tr: TypeRef, w: Value, r: Path, u: Path)
    requires Plain(s, tr) && r in Mentioned(s, tr, w) && u < r && u != [] && NoElement !in u && ShapeOf(s, tr).MapShape?
    ensures u in Mentioned(s, tr, w) || Declared(s, tr, u)
    decreases |u|, 0
  {
    var t := ShapeOf(s, tr).mt;
    PlainNode(s, tr);
    assert Mentioned(s, tr, w) == MentionedAtom(s, Resolve(s, tr).value, w);
    var k, r' :| k in w.fields && r' in Mentioned(s, FieldType(t, k), w.fields[k]) && r == [FieldName(k)] + r';
    assert u[0] == FieldName(k) && u == [FieldName(k)] + u[1..] && r' == r[1..];
    if |u| == 1 {
      assert u == [FieldName(k)];
    } else {
      assert Mentioned(s, NO_TYPE, w.fields[k]) == {};
      PlainField(s, tr, k);
      assert u[1..] < r';
      PrefixDeclared(s, FieldType(t, k), w.fields[k], r', u[1..]);
    }
  }

  lemma {:induction false} PrefixInList(s: Schema, tr: TypeRef, w: Value, r: Path, u: Path)
    requires Plain(s, tr) && r in Mentioned(s, tr, w) && u < r && u != [] && NoElement !in u && ShapeOf(s, tr).ListShape?
    ensures u in Mentioned(s, tr, w) || Declared(s, tr, u)
    decreases |u|, 0
  {
    var t := ShapeOf(s, tr).lt;
    PlainNode(s, tr);
    assert Mentioned(s, tr, w) == MentionedAtom(s, Resolve(s, tr).value, w);
    var ks := Elements(s, t, w.items);
    var i, r' :| 0 <= i < |ks| && Single(ks, i) && r' in Mentioned(s, t.elementType, w.items[i]) && r == [ks[i]] + r';
    assert u[0] == ks[i] && u == [ks[i]] + u[1..] && r' == r[1..];
    if |u| == 1 {
      assert u == [ks[i]];
    } else {
      assert u[1..] < r';
      assert NoElement !in u[1..];
      PrefixDeclared(s, t.elementType, w.items[i], r', u[1..]);
      PlainNode(s, t.elementType);
      assert ks[i] != NoElement && ks[i].Key?;
    }
  }

  /** In the closure of a field set is exactly what leads to something mentioned. */
  lemma {:induction false} ClosedIff(s: Schema, tr: TypeRef, w: Value, u: Path)
    requires Plain(s, tr) && u != [] && NoElement !in u
    ensures u in EnsureNamed(s, tr, ToFieldSet(s, tr, w)) <==> Touches(s, tr, w, u)
  {
    var fs := ToFieldSet(s, tr, w);
    if u in EnsureNamed(s, tr, fs) {
      if u in fs {
        assert u <= u;
      } else {
        var p, i :| p in fs && 0 < i < |p| && Declared(s, tr, p[..i]) && p[..i] == u;
        assert u <= p;
      }
    }
    if Touches(s, tr, w, u) {
      var r :| r in Mentioned(s, tr, w) && u <= r;
      if u != r {
        PrefixDeclared(s, tr, w, r, u);
        assert r in fs && r[..|u|] == u;
      }
    }
  }

  /** The closed field set of what a removal leaves, path by path. */
  lemma {:induction false} LeftMentions(s: Schema, tr: TypeRef, v: Value, gone: PathSet, u: Path)
    requires Plain(s, tr) && Valid(s, tr, v, false) && Removable(s, tr, gone) && u != [] && NoElement !in u
    ensures u in EnsureNamed(s, tr, ToFieldSet(s, tr, Remove(s, tr, v, gone))) <==> Still(s, tr, v, gone, u)
  {
    TouchesIff(s, tr, v, gone, Remove(s, tr, v, gone), u);
    ClosedIff(s, tr, Remove(s, tr, v, gone), u);
  }

  /** No step of `u` is removed or leads to an emptied item. */
  ghost predicate Intact(s: Schema, tr: TypeRef, v: Value, gone: PathSet, u: Path) {
    forall i | 0 < i <= |u| :: u[..i] !in gone && !Emptied(s, tr, v, gone, u[..i])
  }

  lemma {:induction false} IntactStep(s: Schema, tr: TypeRef, v: Value, gone: PathSet, u: Path)
    requires u != [] && Kid(s, tr, v, u[0]).Some?
    ensures var x, sub := Kid(s, tr, v, u[0]).value, Below(gone, u[0]);
            Intact(s, tr, v, gone, u) <==>
            [u[0]] !in gone && !EmptiedHere(s, tr, x, sub) && Intact(s, ChildType(s, tr, u[0]), x, sub, u[1..])
  {
    var pe, rest, ct := u[0], u[1..], ChildType(s, tr, u[0]);
    var x, sub := Kid(s, tr, v, pe).value, Below(gone, pe);
    assert u[..1] == [pe];
    forall i | 0 < i <= |rest|
      ensures u[..i + 1] in gone <==> rest[..i] in sub
      ensures Emptied(s, tr, v, gone, u[..i + 1]) <==> Emptied(s, ct, x, sub, rest[..i])
    {
      assert u[..i + 1] == [pe] + rest[..i];
      BelowIn(gone, pe, rest[..i]);
      assert u[..i + 1][0] == pe && u[..i + 1][1..] == rest[..i];
    }
    if Intact(s, tr, v, gone, u) {
      assert u[..1] !in gone && !Emptied(s, tr, v, gone, u[..1]);
      forall i | 0 < i <= |rest|
        ensures rest[..i] !in sub && !Emptied(s, ct, x, sub, rest[..i])
      {
        assert u[..i + 1] !in gone;
      }
    }
    if [pe] !in gone && !EmptiedHere(s, tr, x, sub) && Intact(s, ct, x, sub, rest) {
      forall i | 0 < i <= |u|
        ensures u[..i] !in gone && !Emptied(s, tr, v, gone, u[..i])
      {
        if i > 1 {
          assert rest[..i - 1] !in sub;
        }
      }
    }
  }

  /** The same in one condition on all steps of the path and one on its node. */
  lemma {:induction false} StillIff(s: Schema, tr: TypeRef, v: Value, gone: PathSet, u: Path)
    requires u != []
    ensures Still(s, tr, v, gone, u) <==>
            At(s, tr, Some(v), u).Some? && Intact(s, tr, v, gone, u) &&
            !(NamedAt(s, tr, u) && Barren(s, TypeAt(s, tr, u), At(s, tr, Some(v), u).value, BelowPath(gone, u)))
    decreases |u|
  {
    var pe, rest, ct := u[0], u[1..], ChildType(s, tr, u[0]);
    if Kid(s, tr, v, pe).None? {
      AtNone(s, ct, rest);
    } else {
      IntactStep(s, tr, v, gone, u);
      if rest != [] {
        StillIff(s, ct, Kid(s, tr, v, pe).value, Below(gone, pe), rest);
      } else {
        assert u == [pe];
      }
    }
  }

  /** Paths of a valid object have no step without an element. */
  lemma {:induction false} RealPath(s: Schema, tr: TypeRef, v: Value, p: Path)
    requires Plain(s, tr) && Valid(s, tr, v, false) && At(s, tr, Some(v), p).Some?
    ensures NoElement !in p
    decreases |p|
  {
    if p != [] {
      var pe := p[0];
      KidOnPath(s, tr, v, p);
      KidValid(s, tr, v, pe, false);
      if ShapeOf(s, tr).ListShape? {
        ListElements(s, tr, v);
      }
      RealPath(s, ChildType(s, tr, pe), Kid(s, tr, v, pe).value, p[1..]);
      assert p == [pe] + p[1..];
    }
  }

  lemma {:induction false} NothingGone(s: Schema, tr: TypeRef, v: Value, u: Path)
    ensures Intact(s, tr, v, {}, u) && BelowPath({}, u) == {}
  {
    NothingBelow(u);
    forall i | 0 < i <= |u|
      ensures !Emptied(s, tr, v, {}, u[..i])
    {
      NeverEmptied(s, tr, v, u[..i]);
    }
  }

  lemma {:induction false} NeverEmptied(s: Schema, tr: TypeRef, v: Value, p: Path)
    ensures !Emptied(s, tr, v, {}, p)
    decreases |p|
  {
    if p != [] && Kid(s, tr, v, p[0]).Some? {
      assert Below({}, p[0]) == {};
      if |p| > 1 {
        NeverEmptied(s, ChildType(s, tr, p[0]), Kid(s, tr, v, p[0]).value, p[1..]);
      }
    }
  }

  /** A node is silent, itself and below, exactly if it is a barren declared field. */
  lemma {:induction false} SilentAt(s: Schema, tr: TypeRef, v: Value, u: Path)
    requires Plain(s, tr) && Valid(s, tr, v, false) && u != [] && At(s, tr, Some(v), u).Some?
    ensures u !in EnsureNamed(s, tr, ToFieldSet(s, tr, v)) <==>
            NamedAt(s, tr, u) && Barren(s, TypeAt(s, tr, u), At(s, tr, Some(v), u).value, {})
  {
    RealPath(s, tr, v, u);
    TouchesIff(s, tr, v, {}, v, u);
    ClosedIff(s, tr, v, u);
    StillIff(s, tr, v, {}, u);
    NothingGone(s, tr, v, u);
  }

  /** An item of a keyed list is still mentioned exactly with its keys that are not at their defaults. */
  lemma {:induction false} StillKey(s: Schema, tr: TypeRef, v: Value, gone: PathSet, p: Path, k: string)
    requires Plain(s, tr) && Valid(s, tr, v, false) && Removable(s, tr, gone)
    requires IsKeyOf(s, tr, p, k) && At(s, tr, Some(v), p).Some?
    ensures Still(s, tr, v, gone, p) <==> Still(s, tr, v, gone, p + [FieldName(k)])
    decreases |p|
  {
    var pe, rest, q := p[0], p[1..], p + [FieldName(k)];
    assert q[0] == pe && q[1..] == rest + [FieldName(k)];
    KidOnPath(s, tr, v, p);
    KidValid(s, tr, v, pe, false);
    RemovableBelow(s, tr, gone, pe);
    if rest != [] {
      StillKey(s, ChildType(s, tr, pe), Kid(s, tr, v, pe).value, Below(gone, pe), rest, k);
    } else {
      assert p == [pe] && q[1..] == [FieldName(k)] && [pe] + [FieldName(k)] == q;
      BelowIn(gone, pe, [FieldName(k)]);
      KeyStays(s, tr, v, pe, k, Below(gone, pe));
    }
  }

  lemma {:induction false} KeyStays(s: Schema, tr: TypeRef, v: Value, pe: PathElement, k: string, sub: PathSet)
    requires Plain(s, tr) && Valid(s, tr, v, false) && IsKeyOf(s, tr, [pe], k) && Kid(s, tr, v, pe).Some?
    ensures Still(s, ChildType(s, tr, pe), Kid(s, tr, v, pe).value, sub, [FieldName(k)]) <==> [FieldName(k)] !in sub
  {
    var ct := ChildType(s, tr, pe);
    KeyHere(s, tr, v, pe, k);
    assert ([pe] + [FieldName(k)])[1..] == [FieldName(k)] && [FieldName(k)][1..] == [];
    assert TypeAt(s, tr, [pe] + [FieldName(k)]) == TypeAt(s, ct, [FieldName(k)]) == ChildType(s, ct, FieldName(k));
  }

  /** The field set of what a removal leaves is computed without error. */
  lemma {:induction false} LeftOk(s: Schema, tr: TypeRef, v: Value, gone: PathSet)
    requires Plain(s, tr) && Valid(s, tr, v, false)
    ensures MentionedOk(s, tr, v) && MentionedOk(s, tr, Remove(s, tr, v, gone))
    decreases v
  {
    PlainNode(s, tr);
    assert ValidAtom(s, Resolve(s, tr).value, v, false);
    RemoveIsAtom(s, tr, v, gone);
    var w := Remove(s, tr, v, gone);
    match ShapeOf(s, tr)
    case LeafShape =>
    case MapShape(t) =>
      if v.Map? {
        MapLeft(s, Resolve(s, tr).value, t, v, gone);
        forall k | k in v.fields
          ensures MentionedOk(s, FieldType(t, k), v.fields[k])
          ensures MentionedOk(s, FieldType(t, k), Trim(s, FieldType(t, k), v.fields[k], Below(gone, FieldName(k))))
        {
          KidValid(s, tr, v, FieldName(k), false);
          LeftOk(s, FieldType(t, k), v.fields[k], Below(gone, FieldName(k)));
        }
      }
    case ListShape(t) =>
      if v.List? {
        forall x | x in v.items
          ensures MentionedOk(s, t.elementType, x)
          ensures MentionedOk(s, t.elementType, Trim(s, t.elementType, x, Below(gone, ElementOf(s, t, x))))
        {
          LeftOk(s, t.elementType, x, Below(gone, ElementOf(s, t, x)));
        }
        forall y | y in WalkItems(s, t, v.items, gone, false)
          ensures MentionedOk(s, t.elementType, y)
        {
          var x := LeftOf(s, t, v.items, gone, y);
        }
      }
  }
}
