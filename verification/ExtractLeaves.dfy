/** What extraction keeps, for any set of paths: which leaves, which fields and items, and in which order. */
module ExtractLeaves {
  import opened Values
  import opened PathElements
  import opened Schemas
  import opened Merging
  import opened Removing
  import opened PlainSetting

  /** The set has the element itself, or a path that starts with it. */
  predicate Starts(paths: PathSet, pe: PathElement) {
    [pe] in paths || Below(paths, pe) != {}
  }

  /**
   * A path can be followed in a set: a step that is a member goes on with the same set, and a step that
   * leads to a path goes on with what lies below. A list item can do either, a field is a member first.
   */
  predicate Followed(s: Schema, tr: TypeRef, paths: PathSet, p: Path)
    decreases |p|
  {
    p == [] ||
    var ct := ChildType(s, tr, p[0]);
    ([p[0]] in paths && Followed(s, ct, paths, p[1..])) ||
    (Below(paths, p[0]) != {} && ([p[0]] !in paths || ShapeOf(s, tr).ListShape?) && Followed(s, ct, Below(paths, p[0]), p[1..]))
  }

  /** A step by field name, or to some item of a list: extracted items need not keep their keys. */
  datatype Turn = Named(name: string) | Item

  function TurnOf(pe: PathElement): Turn {
    if pe.FieldName? then Named(pe.name) else Item
  }

  function Trail(p: Path): (turns: seq<Turn>)
    ensures |turns| == |p|
  {
    if p == [] then [] else [TurnOf(p[0])] + Trail(p[1..])
  }

  /** The value has the leaf `x` at the end of the trail. */
  predicate Shows(s: Schema, tr: TypeRef, w: Value, turns: seq<Turn>, x: Value)
    decreases |turns|
  {
    if turns == [] then ShapeOf(s, tr).LeafShape? && w == x
    else
      match ShapeOf(s, tr)
      case LeafShape => false
      case MapShape(t) =>
        turns[0].Named? && w.Map? && turns[0].name in w.fields &&
        Shows(s, FieldType(t, turns[0].name), w.fields[turns[0].name], turns[1..], x)
      case ListShape(t) =>
        turns[0].Item? && w.List? && exists y | y in w.items :: Shows(s, t.elementType, y, turns[1..], x)
  }

  /** A leaf comes out as it is, except that an empty atomic container comes out as null. */
  function LeafOut(v: Value): Value {
    if v == Map(map[]) || v == List([]) then Null else v
  }

  /** The object has such a leaf at a path that can be followed. */
  ghost predicate Sourced(s: Schema, tr: TypeRef, v: Value, paths: PathSet, turns: seq<Turn>, x: Value, p: Path) {
    Trail(p) == turns && Followed(s, tr, paths, p) && ShapeOf(s, TypeAt(s, tr, p)).LeafShape? &&
    At(s, tr, Some(v), p).Some? && LeafOut(At(s, tr, Some(v), p).value) == x
  }

  ghost predicate HasSource(s: Schema, tr: TypeRef, v: Value, paths: PathSet, turns: seq<Turn>, x: Value) {
    exists p :: Sourced(s, tr, v, paths, turns, x, p)
  }

  /** Extraction of a field: by the member rule first, otherwise by what lies below. */
  function FieldPaths(paths: PathSet, pe: PathElement): PathSet {
    if [pe] in paths then paths else Below(paths, pe)
  }

  /** The fields of an extracted map: those that start a path, each extracted; null if there is none. */
  lemma {:induction false} ExtractedFields(s: Schema, tr: TypeRef, v: Value, paths: PathSet, k: string)
    requires Plain(s, tr) && ShapeOf(s, tr).MapShape?
    ensures var w, pe := Extract(s, tr, v, paths), FieldName(k);
            (w.Map? || w.Null?) &&
            (k in FieldsOf(Some(w)) <==> k in FieldsOf(Some(v)) && Starts(paths, pe)) &&
            (k in FieldsOf(Some(w)) ==>
               w.fields[k] == Extract(s, FieldType(ShapeOf(s, tr).mt, k), v.fields[k], FieldPaths(paths, pe)))
  {
    PlainNode(s, tr);
    var a := Resolve(s, tr).value;
    assert Extract(s, tr, v, paths) == WalkAtom(s, a, v, paths, true);
    if v.Map? && v.fields != map[] {
      var out := map k | k in v.fields && WalkField(s, a.mapping.value, k, v.fields[k], paths, true).Some?
                   :: WalkField(s, a.mapping.value, k, v.fields[k], paths, true).value;
      assert WalkAtom(s, a, v, paths, true) == if out == map[] then Null else Map(out);
    }
  }

  /** An item that comes out, and the item it comes from. */
  ghost predicate ItemFrom(s: Schema, t: ListType, x: Value, paths: PathSet, y: Value) {
    var pe := ElementOf(s, t, x);
    ([pe] in paths && y == Extract(s, t.elementType, x, paths)) ||
    (Below(paths, pe) != {} && y == Extract(s, t.elementType, x, Below(paths, pe)))
  }

  lemma {:induction false} ItemsFrom(s: Schema, t: ListType, items: seq<Value>, paths: PathSet, y: Value)
    ensures y in WalkItems(s, t, items, paths, true) <==> exists x | x in items :: ItemFrom(s, t, x, paths, y)
    decreases |items|
  {
    if items != [] {
      ItemsFrom(s, t, items[1..], paths, y);
      assert y in WalkItem(s, t, items[0], paths, true) <==> ItemFrom(s, t, items[0], paths, y);
      assert items == [items[0]] + items[1..];
    }
  }

  lemma {:induction false} ExtractedList(s: Schema, tr: TypeRef, v: Value, paths: PathSet)
    requires Plain(s, tr) && ShapeOf(s, tr).ListShape?
    ensures var w := Extract(s, tr, v, paths);
            (w.Null? || (w.List? && w.items != [])) &&
            ItemsOf(Some(w)) == WalkItems(s, ShapeOf(s, tr).lt, ItemsOf(Some(v)), paths, true)
  {
    PlainNode(s, tr);
    assert Extract(s, tr, v, paths) == WalkAtom(s, Resolve(s, tr).value, v, paths, true);
  }

  /** Extraction shows exactly the leaves whose paths can be followed. */
  lemma {:induction false} ExtractShows(s: Schema, tr: TypeRef, v: Value, paths: PathSet, turns: seq<Turn>, x: Value)
    requires Plain(s, tr) && Valid(s, tr, v, false)
    ensures Shows(s, tr, Extract(s, tr, v, paths), turns, x) <==> HasSource(s, tr, v, paths, turns, x)
    decreases |turns|, 1
  {
    if turns == [] {
      ShowsHere(s, tr, v, paths, x);
    } else {
      match ShapeOf(s, tr)
      case LeafShape => NoneBelowLeaf(s, tr, v, paths, turns, x);
      case MapShape(_) => ShowsField(s, tr, v, paths, turns, x);
      case ListShape(_) => ShowsItem(s, tr, v, paths, turns, x);
    }
  }

  lemma {:induction false} ShowsHere(s: Schema, tr: TypeRef, v: Value, paths: PathSet, x: Value)
    requires Plain(s, tr) && Valid(s, tr, v, false)
    ensures Shows(s, tr, Extract(s, tr, v, paths), [], x) <==> HasSource(s, tr, v, paths, [], x)
  {
    PlainNode(s, tr);
    var a := Resolve(s, tr).value;
    assert ValidAtom(s, a, v, false);
    if ShapeOf(s, tr).LeafShape? {
      assert Extract(s, tr, v, paths) == WalkAtom(s, a, v, paths, true);
      assert WalkAtom(s, a, v, paths, true) == LeafOut(v);
    }
    if HasSource(s, tr, v, paths, [], x) {
      var p :| Sourced(s, tr, v, paths, [], x, p);
      assert p == [];
    } else {
      assert !Sourced(s, tr, v, paths, [], x, []);
    }
  }

  lemma {:induction false} NoneBelowLeaf(s: Schema, tr: TypeRef, v: Value, paths: PathSet, turns: seq<Turn>, x: Value)
    requires ShapeOf(s, tr).LeafShape? && turns != []
    ensures !HasSource(s, tr, v, paths, turns, x)
  {
    forall p
      ensures !Sourced(s, tr, v, paths, turns, x, p)
    {
      if Trail(p) == turns {
        AtNone(s, ChildType(s, tr, p[0]), p[1..]);
      }
    }
  }

  /** A source through one child. */
  lemma {:induction false} SourceThrough(s: Schema, tr: TypeRef, v: Value, paths: PathSet, turns: seq<Turn>, x: Value, pe: PathElement, rest: Path)
    requires turns != [] && Kid(s, tr, v, pe).Some?
    ensures Sourced(s, tr, v, paths, turns, x, [pe] + rest) <==>
            TurnOf(pe) == turns[0] &&
            var ct, c := ChildType(s, tr, pe), Kid(s, tr, v, pe).value;
            (([pe] in paths && Sourced(s, ct, c, paths, turns[1..], x, rest)) ||
             (Below(paths, pe) != {} && ([pe] !in paths || ShapeOf(s, tr).ListShape?) &&
              Sourced(s, ct, c, Below(paths, pe), turns[1..], x, rest)))
  {
    var p := [pe] + rest;
    assert p[0] == pe && p[1..] == rest;
    assert turns == [turns[0]] + turns[1..];
    assert Trail(p) == [TurnOf(pe)] + Trail(rest);
    assert Trail(p) == turns <==> TurnOf(pe) == turns[0] && Trail(rest) == turns[1..] by {
      assert Trail(p)[1..] == Trail(rest);
    }
  }

  /** ... and every source goes through a child. */
  lemma {:induction false} SourceKid(s: Schema, tr: TypeRef, v: Value, paths: PathSet, turns: seq<Turn>, x: Value, p: Path)
    requires Sourced(s, tr, v, paths, turns, x, p) && turns != []
    ensures p != [] && p == [p[0]] + p[1..] && Kid(s, tr, v, p[0]).Some?
  {
    if Kid(s, tr, v, p[0]).None? {
      AtNone(s, ChildType(s, tr, p[0]), p[1..]);
    }
  }

  lemma {:induction false} ShowsField(s: Schema, tr: TypeRef, v: Value, paths: PathSet, turns: seq<Turn>, x: Value)
    requires Plain(s, tr) && Valid(s, tr, v, false) && ShapeOf(s, tr).MapShape? && turns != []
    ensures Shows(s, tr, Extract(s, tr, v, paths), turns, x) <==> HasSource(s, tr, v, paths, turns, x)
    decreases |turns|, 0
  {
    var t, rest := ShapeOf(s, tr).mt, turns[1..];
    if turns[0].Named? {
      var k := turns[0].name;
      var pe := FieldName(k);
      ExtractedFields(s, tr, v, paths, k);
      if Kid(s, tr, v, pe).Some? {
        KidValid(s, tr, v, pe, false);
        ExtractShows(s, FieldType(t, k), v.fields[k], FieldPaths(paths, pe), rest, x);
      }
    }
    if Shows(s, tr, Extract(s, tr, v, paths), turns, x) {
      var pe := FieldName(turns[0].name);
      var q :| Sourced(s, ChildType(s, tr, pe), v.fields[pe.name], FieldPaths(paths, pe), rest, x, q);
      SourceThrough(s, tr, v, paths, turns, x, pe, q);
    }
    if p :| Sourced(s, tr, v, paths, turns, x, p) {
      FieldOfSource(s, tr, v, paths, turns, x, p);
    }
  }

  lemma {:induction false} FieldOfSource(s: Schema, tr: TypeRef, v: Value, paths: PathSet, turns: seq<Turn>, x: Value, p: Path)
    requires ShapeOf(s, tr).MapShape? && turns != [] && Sourced(s, tr, v, paths, turns, x, p)
    ensures turns[0].Named? && v.Map? && turns[0].name in v.fields && Starts(paths, FieldName(turns[0].name))
    ensures var pe := FieldName(turns[0].name);
            HasSource(s, ChildType(s, tr, pe), v.fields[pe.name], FieldPaths(paths, pe), turns[1..], x)
  {
    SourceKid(s, tr, v, paths, turns, x, p);
    SourceThrough(s, tr, v, paths, turns, x, p[0], p[1..]);
    assert Sourced(s, ChildType(s, tr, p[0]), Kid(s, tr, v, p[0]).value, FieldPaths(paths, p[0]), turns[1..], x, p[1..]);
  }

  lemma {:induction false} ShowsItem(s: Schema, tr: TypeRef, v: Value, paths: PathSet, turns: seq<Turn>, x: Value)
    requires Plain(s, tr) && Valid(s, tr, v, false) && ShapeOf(s, tr).ListShape? && turns != []
    ensures Shows(s, tr, Extract(s, tr, v, paths), turns, x) <==> HasSource(s, tr, v, paths, turns, x)
    decreases |turns|, 0
  {
    var t, rest, w := ShapeOf(s, tr).lt, turns[1..], Extract(s, tr, v, paths);
    ExtractedList(s, tr, v, paths);
    if Shows(s, tr, w, turns, x) {
      var y :| y in w.items && Shows(s, t.elementType, y, rest, x);
      ItemsFrom(s, t, ItemsOf(Some(v)), paths, y);
      var z :| z in v.items && ItemFrom(s, t, z, paths, y);
      ItemKid(s, tr, v, z);
      var pe := ElementOf(s, t, z);
      var q := SourceOfItem(s, tr, v, paths, z, y, rest, x);
      SourceThrough(s, tr, v, paths, turns, x, pe, q);
    }
    if p :| Sourced(s, tr, v, paths, turns, x, p) {
      SourceKid(s, tr, v, paths, turns, x, p);
      SourceThrough(s, tr, v, paths, turns, x, p[0], p[1..]);
      ItemOfSource(s, tr, v, paths, turns, x, p);
    }
  }

  /** The child of an item's own element is the item. */
  lemma {:induction false} ItemKid(s: Schema, tr: TypeRef, v: Value, z: Value)
    requires Plain(s, tr) && Valid(s, tr, v, false) && ShapeOf(s, tr).ListShape? && v.List? && z in v.items
    ensures var pe := ElementOf(s, ShapeOf(s, tr).lt, z);
            Kid(s, tr, v, pe) == Some(z) && TurnOf(pe) == Item
  {
    PlainNode(s, tr);
    ListElements(s, tr, v);
    var ks := Elements(s, ShapeOf(s, tr).lt, v.items);
    var i :| 0 <= i < |v.items| && v.items[i] == z;
    IndexOfDistinct(ks, i);
    assert ItemElement(s, ShapeOf(s, tr).lt, z).Some?;
  }

  lemma {:induction false} SourceOfItem(s: Schema, tr: TypeRef, v: Value, paths: PathSet, z: Value, y: Value, rest: seq<Turn>, x: Value) returns (q: Path)
    requires Plain(s, tr) && Valid(s, tr, v, false) && ShapeOf(s, tr).ListShape? && v.List? && z in v.items
    requires ItemFrom(s, ShapeOf(s, tr).lt, z, paths, y) && Shows(s, ShapeOf(s, tr).lt.elementType, y, rest, x)
    ensures var et, pe := ShapeOf(s, tr).lt.elementType, ElementOf(s, ShapeOf(s, tr).lt, z);
            ([pe] in paths && Sourced(s, et, z, paths, rest, x, q)) ||
            (Below(paths, pe) != {} && Sourced(s, et, z, Below(paths, pe), rest, x, q))
    decreases |rest|, 2
  {
    var et, pe := ShapeOf(s, tr).lt.elementType, ElementOf(s, ShapeOf(s, tr).lt, z);
    ItemKid(s, tr, v, z);
    KidValid(s, tr, v, pe, false);
    if [pe] in paths && y == Extract(s, et, z, paths) {
      ExtractShows(s, et, z, paths, rest, x);
      q :| Sourced(s, et, z, paths, rest, x, q);
    } else {
      ExtractShows(s, et, z, Below(paths, pe), rest, x);
      q :| Sourced(s, et, z, Below(paths, pe), rest, x, q);
    }
  }

  lemma {:induction false} ItemOfSource(s: Schema, tr: TypeRef, v: Value, paths: PathSet, turns: seq<Turn>, x: Value, p: Path)
    requires Plain(s, tr) && Valid(s, tr, v, false) && ShapeOf(s, tr).ListShape? && turns != []
    requires Sourced(s, tr, v, paths, turns, x, p) && p != [] && Kid(s, tr, v, p[0]).Some?
    ensures Shows(s, tr, Extract(s, tr, v, paths), turns, x)
    decreases |turns|, 0, 0
  {
    var t, pe, q, rest := ShapeOf(s, tr).lt, p[0], p[1..], turns[1..];
    assert p == [pe] + q;
    SourceThrough(s, tr, v, paths, turns, x, pe, q);
    var z := Kid(s, tr, v, pe).value;
    KidValid(s, tr, v, pe, false);
    ItemKid(s, tr, v, z);
    var under := if [pe] in paths && Sourced(s, t.elementType, z, paths, rest, x, q) then paths else Below(paths, pe);
    assert Sourced(s, t.elementType, z, under, rest, x, q);
    ExtractShows(s, t.elementType, z, under, rest, x);
    var y := Extract(s, t.elementType, z, under);
    assert ItemFrom(s, t, z, paths, y);
    ItemsFrom(s, t, v.items, paths, y);
    ExtractedList(s, tr, v, paths);
  }

  /** A granular container comes out as null exactly if none of its own elements starts a path of the set. */
  lemma {:induction false} ExtractNullIff(s: Schema, tr: TypeRef, v: Value, paths: PathSet)
    requires Plain(s, tr) && Valid(s, tr, v, false) && !ShapeOf(s, tr).LeafShape?
    ensures Extract(s, tr, v, paths).Null? <==> forall pe | Kid(s, tr, v, pe).Some? :: !Starts(paths, pe)
  {
    if ShapeOf(s, tr).MapShape? {
      NoFields(s, tr, v, paths);
    } else {
      NoItems(s, tr, v, paths);
    }
  }

  lemma {:induction false} NoFields(s: Schema, tr: TypeRef, v: Value, paths: PathSet)
    requires Plain(s, tr) && ShapeOf(s, tr).MapShape?
    ensures Extract(s, tr, v, paths).Null? <==> forall pe | Kid(s, tr, v, pe).Some? :: !Starts(paths, pe)
  {
    var w := Extract(s, tr, v, paths);
    if !w.Null? {
      var k := ExtractedField(s, tr, v, paths);
      assert Kid(s, tr, v, FieldName(k)).Some? && Starts(paths, FieldName(k));
    }
    if pe :| Kid(s, tr, v, pe).Some? && Starts(paths, pe) {
      ExtractedFields(s, tr, v, paths, pe.name);
    }
  }

  /** An extracted map that is not null has a field. */
  lemma {:induction false} ExtractedField(s: Schema, tr: TypeRef, v: Value, paths: PathSet) returns (k: string)
    requires Plain(s, tr) && ShapeOf(s, tr).MapShape? && !Extract(s, tr, v, paths).Null?
    ensures k in FieldsOf(Some(v)) && Starts(paths, FieldName(k))
  {
    PlainNode(s, tr);
    var w := Extract(s, tr, v, paths);
    assert w == WalkAtom(s, Resolve(s, tr).value, v, paths, true);
    assert w.Map? && w.fields != map[];
    k :| k in w.fields;
    ExtractedFields(s, tr, v, paths, k);
  }

  lemma {:induction false} NoItems(s: Schema, tr: TypeRef, v: Value, paths: PathSet)
    requires Plain(s, tr) && Valid(s, tr, v, false) && ShapeOf(s, tr).ListShape?
    ensures Extract(s, tr, v, paths).Null? <==> forall pe | Kid(s, tr, v, pe).Some? :: !Starts(paths, pe)
  {
    var t, w, items := ShapeOf(s, tr).lt, Extract(s, tr, v, paths), ItemsOf(Some(v));
    ExtractedList(s, tr, v, paths);
    if !w.Null? {
      var y := w.items[0];
      ItemsFrom(s, t, items, paths, y);
      var z :| z in items && ItemFrom(s, t, z, paths, y);
      ItemKid(s, tr, v, z);
    }
    forall pe | Kid(s, tr, v, pe).Some? && Starts(paths, pe)
      ensures !w.Null?
    {
      ItemComesOut(s, tr, v, paths, pe);
    }
  }

  lemma {:induction false} ItemComesOut(s: Schema, tr: TypeRef, v: Value, paths: PathSet, pe: PathElement)
    requires Plain(s, tr) && ShapeOf(s, tr).ListShape? && Kid(s, tr, v, pe).Some? && Starts(paths, pe)
    ensures var w := Extract(s, tr, v, paths);
            w.List? && Extract(s, ChildType(s, tr, pe), Kid(s, tr, v, pe).value, FieldPaths(paths, pe)) in w.items
  {
    var t, z := ShapeOf(s, tr).lt, Kid(s, tr, v, pe).value;
    var y := Extract(s, t.elementType, z, FieldPaths(paths, pe));
    ExtractedList(s, tr, v, paths);
    assert ItemFrom(s, t, z, paths, y);
    ItemsFrom(s, t, v.items, paths, y);
  }

  /** A field that is a member comes out with what the same set extracts from it: null for a container without such elements. */
  lemma {:induction false} MemberField(s: Schema, tr: TypeRef, v: Value, paths: PathSet, k: string)
    requires Plain(s, tr) && Valid(s, tr, v, false) && ShapeOf(s, tr).MapShape? && k in FieldsOf(Some(v))
    requires [FieldName(k)] in paths && !ShapeOf(s, ChildType(s, tr, FieldName(k))).LeafShape?
    ensures var w := Extract(s, tr, v, paths);
            w.Map? && k in w.fields &&
            (w.fields[k].Null? <==>
             forall pe | Kid(s, ChildType(s, tr, FieldName(k)), v.fields[k], pe).Some? :: !Starts(paths, pe))
  {
    ExtractedFields(s, tr, v, paths, k);
    KidValid(s, tr, v, FieldName(k), false);
    ExtractNullIff(s, ChildType(s, tr, FieldName(k)), v.fields[k], paths);
  }

  /** The same for the items of a list. */
  lemma {:induction false} MemberItem(s: Schema, tr: TypeRef, v: Value, paths: PathSet, pe: PathElement)
    requires Plain(s, tr) && Valid(s, tr, v, false) && ShapeOf(s, tr).ListShape? && Kid(s, tr, v, pe).Some?
    requires [pe] in paths && !ShapeOf(s, ChildType(s, tr, pe)).LeafShape?
    ensures var w, et, z := Extract(s, tr, v, paths), ChildType(s, tr, pe), Kid(s, tr, v, pe).value;
            w.List? && Extract(s, et, z, paths) in w.items &&
            (Extract(s, et, z, paths).Null? <==> forall e | Kid(s, et, z, e).Some? :: !Starts(paths, e))
  {
    KidValid(s, tr, v, pe, false);
    ItemComesOut(s, tr, v, paths, pe);
    ExtractNullIff(s, ChildType(s, tr, pe), Kid(s, tr, v, pe).value, paths);
  }

  /** Where an extracted item comes from: an item of the list, as a member or by what lies below it. */
  datatype Source = Source(i: nat, member: bool)

  predicate Before(a: Source, b: Source) {
    a.i < b.i || (a.i == b.i && a.member && !b.member)
  }

  predicate InOrder(origins: seq<Source>) {
    forall j, k | 0 <= j < k < |origins| :: Before(origins[j], origins[k])
  }

  /** Each output item is what its source gives: extracted by the same set as a member, or by what lies below. */
  ghost predicate ComesFrom(s: Schema, t: ListType, items: seq<Value>, paths: PathSet, n: nat, o: Source, y: Value) {
    n <= o.i < |items| &&
    y == Extract(s, t.elementType, items[o.i], if o.member then paths else Below(paths, ElementOf(s, t, items[o.i])))
  }

  /** The sources are exactly the members, and the items with paths below them. */
  ghost predicate Complete(s: Schema, t: ListType, items: seq<Value>, paths: PathSet, n: nat, origins: seq<Source>) {
    forall i: nat | n <= i < |items| ::
      (Source(i, true) in origins <==> [ElementOf(s, t, items[i])] in paths) &&
      (Source(i, false) in origins <==> Below(paths, ElementOf(s, t, items[i])) != {})
  }

  /** Items from position `n` on come out, in order, once as members and once for what lies below them. */
  ghost predicate Sources(s: Schema, t: ListType, items: seq<Value>, paths: PathSet, n: nat, origins: seq<Source>, out: seq<Value>) {
    |origins| == |out| && InOrder(origins) && Complete(s, t, items, paths, n, origins) &&
    forall j | 0 <= j < |out| :: ComesFrom(s, t, items, paths, n, origins[j], out[j])
  }

  /** An extracted list: which items come out, in which order, and as what. */
  lemma {:induction false} ExtractedItems(s: Schema, tr: TypeRef, v: Value, paths: PathSet) returns (origins: seq<Source>)
    requires Plain(s, tr) && ShapeOf(s, tr).ListShape?
    ensures Sources(s, ShapeOf(s, tr).lt, ItemsOf(Some(v)), paths, 0, origins, ItemsOf(Some(Extract(s, tr, v, paths))))
  {
    ExtractedList(s, tr, v, paths);
    origins := ItemsExtracted(s, ShapeOf(s, tr).lt, ItemsOf(Some(v)), paths, 0);
    assert ItemsOf(Some(v))[0..] == ItemsOf(Some(v));
  }

  /** The sources of one item. */
  function SourcesOf(s: Schema, t: ListType, x: Value, paths: PathSet, n: nat): seq<Source> {
    var pe := ElementOf(s, t, x);
    (if [pe] in paths then [Source(n, true)] else []) + (if Below(paths, pe) != {} then [Source(n, false)] else [])
  }

  lemma {:induction false} ItemsExtracted(s: Schema, t: ListType, items: seq<Value>, paths: PathSet, n: nat) returns (origins: seq<Source>)
    requires n <= |items|
    ensures Sources(s, t, items, paths, n, origins, WalkItems(s, t, items[n..], paths, true))
    decreases |items| - n
  {
    if n == |items| {
      origins := [];
    } else {
      var rest := ItemsExtracted(s, t, items, paths, n + 1);
      var later := WalkItems(s, t, items[n + 1..], paths, true);
      WalkItemsNext(s, t, items, paths, n);
      SourcesHere(s, t, items, paths, n);
      SourcesJoined(s, t, items, paths, n, SourcesOf(s, t, items[n], paths, n), WalkItem(s, t, items[n], paths, true), rest, later);
      CompleteNext(s, t, items, paths, n, rest, later);
      origins := SourcesOf(s, t, items[n], paths, n) + rest;
    }
  }

  lemma {:induction false} WalkItemsNext(s: Schema, t: ListType, items: seq<Value>, paths: PathSet, n: nat)
    requires n < |items|
    ensures WalkItems(s, t, items[n..], paths, true) == WalkItem(s, t, items[n], paths, true) + WalkItems(s, t, items[n + 1..], paths, true)
  {
    assert items[n..][0] == items[n] && items[n..][1..] == items[n + 1..];
  }

  lemma {:induction false} SourcesJoined(s: Schema, t: ListType, items: seq<Value>, paths: PathSet, n: nat,
                                         here: seq<Source>, out: seq<Value>, rest: seq<Source>, later: seq<Value>)
    requires |here| == |out| && |rest| == |later|
    requires forall j | 0 <= j < |out| :: ComesFrom(s, t, items, paths, n, here[j], out[j])
    requires forall j | 0 <= j < |later| :: ComesFrom(s, t, items, paths, n + 1, rest[j], later[j])
    ensures forall j | 0 <= j < |out + later| :: ComesFrom(s, t, items, paths, n, (here + rest)[j], (out + later)[j])
  {
    forall j | 0 <= j < |out + later|
      ensures ComesFrom(s, t, items, paths, n, (here + rest)[j], (out + later)[j])
    {
      if j >= |out| {
        assert ComesFrom(s, t, items, paths, n + 1, rest[j - |out|], later[j - |out|]);
      }
    }
  }

  lemma {:induction false} SourcesHere(s: Schema, t: ListType, items: seq<Value>, paths: PathSet, n: nat)
    requires n < |items|
    ensures var here, out := SourcesOf(s, t, items[n], paths, n), WalkItem(s, t, items[n], paths, true);
            |here| == |out| && InOrder(here) && forall j | 0 <= j < |out| :: ComesFrom(s, t, items, paths, n, here[j], out[j])
  {
  }

  lemma {:induction false} CompleteNext(s: Schema, t: ListType, items: seq<Value>, paths: PathSet, n: nat, rest: seq<Source>, later: seq<Value>)
    requires n < |items| && Sources(s, t, items, paths, n + 1, rest, later)
    ensures var origins := SourcesOf(s, t, items[n], paths, n) + rest;
            InOrder(origins) && Complete(s, t, items, paths, n, origins)
  {
    var here := SourcesOf(s, t, items[n], paths, n);
    forall o | o in rest
      ensures o.i > n
    {
      var j :| 0 <= j < |rest| && rest[j] == o;
      assert ComesFrom(s, t, items, paths, n + 1, rest[j], later[j]);
    }
    forall i: nat | n <= i < |items|
      ensures Source(i, true) in here + rest <==> [ElementOf(s, t, items[i])] in paths
      ensures Source(i, false) in here + rest <==> Below(paths, ElementOf(s, t, items[i])) != {}
    {
      assert i == n || (Source(i, true) !in here && Source(i, false) !in here);
    }
  }
}
