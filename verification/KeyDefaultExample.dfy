/** List items whose keys are all left to defaults: an Apply that loses such an item, and one that fails. */
module KeyDefaultExample {
  import opened Values
  import opened PathElements
  import opened Schemas
  import opened Merging
  import opened Comparing
  import opened Owning
  import opened Updating
  import opened PlainSetting
  import opened ListKeys
  import opened MergeTheory
  import opened Absorption
  import opened CompareTheory
  import opened ItemTheory
  import opened RemoveTheory
  import opened RemoveIff
  import opened OwningTheory
  import opened LeftoverTheory
  import opened PruneTheory
  import opened RunTheory

  /**
   * A declared list field `l` whose items are maps with one key `k`, which has the default `d`, and a
   * declared leaf `f` of value `a`; `f` may be the key itself, with its default value.
   */
  datatype Case = Case(s: Schema, root: TypeRef, l: string, k: string, d: Value, f: string, a: Value)

  function TypeL(e: Case): TypeRef { ChildType(e.s, e.root, FieldName(e.l)) }

  function ListL(e: Case): Shape { ShapeOf(e.s, TypeL(e)) }

  ghost predicate IsCase(e: Case) {
    var root := ShapeOf(e.s, e.root);
    Plain(e.s, e.root) && root.MapShape? && e.l in root.mt.fields &&
    ListL(e).ListShape? && ListL(e).lt.keys == [e.k] &&
    var item := ShapeOf(e.s, ListL(e).lt.elementType);
    item.MapShape? && e.k in item.mt.fields && item.mt.fields[e.k].default == Some(e.d) &&
    e.f in item.mt.fields && ShapeOf(e.s, item.mt.fields[e.f].fieldType).LeafShape? &&
    Valid(e.s, item.mt.fields[e.f].fieldType, e.a, false) && (e.f == e.k ==> e.a == e.d)
  }

  function Item(e: Case): Value { Map(map[e.f := e.a]) }

  function With(e: Case, x: Value): Value { Map(map[e.l := List([x])]) }

  function Live(e: Case): Value { With(e, Item(e)) }

  function Bare(e: Case): Value { With(e, Map(map[])) }

  function Selector(e: Case): PathElement { Key([Field(e.k, e.d)]) }

  function PathL(e: Case): Path { [FieldName(e.l)] }

  function PathItem(e: Case): Path { [FieldName(e.l), Selector(e)] }

  function PathF(e: Case): Path { [FieldName(e.l), Selector(e), FieldName(e.f)] }

  lemma {:induction false} Types(e: Case)
    requires IsCase(e)
    ensures Plain(e.s, TypeL(e)) && Plain(e.s, ListL(e).lt.elementType) && ListL(e).lt.relationship.Associative?
    ensures ItemElement(e.s, ListL(e).lt, Item(e)) == Some(Selector(e)) && ItemElement(e.s, ListL(e).lt, Map(map[])) == Some(Selector(e))
    ensures Defaulted(e.s, ListL(e).lt, Selector(e), e.k)
  {
    PlainField(e.s, e.root, e.l);
    PlainNode(e.s, TypeL(e));
    PlainNode(e.s, ListL(e).lt.elementType);
    var t, f := ListL(e).lt, Field(e.k, e.d);
    assert KeyDefault(e.s, t, e.k) == Some(e.d);
    OneKey(e.s, t, Item(e).fields, f);
    OneKey(e.s, t, map[], f);
    assert SortFields([f]) == [f] by {
      assert [f][..0] == [] && SortFields([]) == [];
    }
  }

  lemma {:induction false} OneKey(s: Schema, t: ListType, item: map<string, Value>, f: Field)
    requires t.keys == [f.name] && KeyValue(s, t, item, f.name) == Some(f.value)
    ensures KeyFields(s, t, t.keys, item) == Some([f])
  {
    assert t.keys[0] == f.name && t.keys[1..] == [] && KeyFields(s, t, [], item) == Some([]);
    assert [Field(f.name, f.value)] + [] == [f];
  }

  lemma {:induction false} ValidItem(e: Case, x: Value)
    requires IsCase(e) && x in {Item(e), Map(map[])}
    ensures Valid(e.s, TypeL(e), List([x]), false) && Valid(e.s, e.root, With(e, x), false)
  {
    Types(e);
    PlainNode(e.s, e.root);
    PlainNode(e.s, TypeL(e));
    var et := ListL(e).lt.elementType;
    PlainNode(e.s, et);
    assert ValidAtom(e.s, Resolve(e.s, et).value, x, false);
    assert forall y | y in [x] :: Valid(e.s, et, y, false) && ItemElement(e.s, ListL(e).lt, y).Some?;
    assert Distinct(Elements(e.s, ListL(e).lt, [x]));
    assert ValidAtom(e.s, Resolve(e.s, TypeL(e)).value, List([x]), false);
    assert ValidAtom(e.s, Resolve(e.s, e.root).value, With(e, x), false);
  }

  lemma {:induction false} Kids(e: Case, x: Value)
    requires IsCase(e) && x in {Item(e), Map(map[])}
    ensures Kid(e.s, e.root, With(e, x), FieldName(e.l)) == Some(List([x]))
    ensures forall pe | pe != FieldName(e.l) :: Kid(e.s, e.root, With(e, x), pe) == None
    ensures Kid(e.s, TypeL(e), List([x]), Selector(e)) == Some(x)
    ensures forall pe | pe != Selector(e) :: Kid(e.s, TypeL(e), List([x]), pe) == None
  {
    Types(e);
    var ks := Elements(e.s, ListL(e).lt, [x]);
    assert ks == [Selector(e)];
    assert ks[0] == Selector(e);
  }

  lemma {:induction false} Steps(e: Case)
    ensures PathItem(e)[0] == PathF(e)[0] == FieldName(e.l) && PathItem(e)[1..] == [Selector(e)]
    ensures PathF(e)[1..] == [Selector(e), FieldName(e.f)] && PathF(e)[1..][1..] == [FieldName(e.f)]
    ensures PathItem(e)[..1] == PathL(e) == PathF(e)[..1] && PathF(e)[..2] == PathItem(e) == PathItem(e)[..2]
    ensures |PathL(e)| == 1 && |PathItem(e)| == 2 && |PathF(e)| == 3
  {
  }

  /** What the two objects mention: the item, and the leaf if it is there. */
  lemma {:induction false} Mentions(e: Case, x: Value, p: Path)
    requires IsCase(e) && x in {Item(e), Map(map[])}
    ensures p in ToFieldSet(e.s, e.root, With(e, x)) <==> p == PathItem(e) || (p == PathF(e) && x == Item(e))
  {
    Types(e);
    ValidItem(e, x);
    Kids(e, x);
    FieldSetIn(e.s, e.root, With(e, x), p);
    Steps(e);
    if |p| > 1 && p[0] == FieldName(e.l) {
      assert p == [p[0]] + p[1..];
      ItemMarks(e, x, p[1..]);
    }
  }

  lemma {:induction false} ItemMarks(e: Case, x: Value, p: Path)
    requires IsCase(e) && x in {Item(e), Map(map[])} && p != []
    ensures Marked(e.s, TypeL(e), List([x]), p) <==>
            p == [Selector(e)] || (p == [Selector(e), FieldName(e.f)] && x == Item(e))
  {
    Types(e);
    Kids(e, x);
    var et := ListL(e).lt.elementType;
    if |p| > 1 && p[0] == Selector(e) {
      assert p == [p[0]] + p[1..];
      assert Marked(e.s, TypeL(e), List([x]), p) <==> Marked(e.s, et, x, p[1..]);
      if |p| > 2 {
        assert forall pe :: Kid(e.s, FieldType(ShapeOf(e.s, et).mt, e.f), e.a, pe) == None;
      }
      assert Marked(e.s, et, x, p[1..]) <==> p[1..] == [FieldName(e.f)] && x == Item(e);
    } else if |p| == 1 {
      assert p == [p[0]];
    }
  }

  lemma {:induction false} FieldSets(e: Case)
    requires IsCase(e)
    ensures ToFieldSet(e.s, e.root, Live(e)) == {PathItem(e), PathF(e)} && ToFieldSet(e.s, e.root, Bare(e)) == {PathItem(e)}
  {
    assert Item(e) != Map(map[]) by { assert e.f in Item(e).fields; }
    forall p
      ensures p in ToFieldSet(e.s, e.root, Live(e)) <==> p in {PathItem(e), PathF(e)}
      ensures p in ToFieldSet(e.s, e.root, Bare(e)) <==> p == PathItem(e)
    {
      Mentions(e, Item(e), p);
      Mentions(e, Map(map[]), p);
    }
  }

  /** The closure adds the list field itself. */
  lemma {:induction false} Closes(e: Case)
    requires IsCase(e)
    ensures EnsureNamed(e.s, e.root, {PathItem(e), PathF(e)}) == {PathL(e), PathItem(e), PathF(e)}
    ensures EnsureNamed(e.s, e.root, {PathItem(e)}) == {PathL(e), PathItem(e)}
    ensures EnsureNamed(e.s, e.root, {PathF(e)}) == {PathL(e), PathF(e)}
  {
    PlainNode(e.s, e.root);
    Steps(e);
    assert Declared(e.s, e.root, PathL(e)) && !Declared(e.s, e.root, PathItem(e));
  }

  /** Removing the leaf alone empties the item; no other node is an item. */
  lemma {:induction false} LeafEmpties(e: Case, gone: PathSet, p: Path)
    requires IsCase(e) && PathF(e) in gone
    ensures Emptied(e.s, e.root, Live(e), gone, p) ==> p == PathItem(e)
    ensures Emptied(e.s, e.root, Live(e), gone, PathItem(e))
  {
    Types(e);
    Kids(e, Item(e));
    Steps(e);
    var l, sub := FieldName(e.l), Below(gone, FieldName(e.l));
    BelowIn(gone, l, [Selector(e), FieldName(e.f)]);
    assert [l] + [Selector(e), FieldName(e.f)] == PathF(e);
    BelowIn(sub, Selector(e), [FieldName(e.f)]);
    assert [Selector(e)] + [FieldName(e.f)] == [Selector(e), FieldName(e.f)];
    assert Emptied(e.s, TypeL(e), List([Item(e)]), sub, [Selector(e)]);
    if Emptied(e.s, e.root, Live(e), gone, p) {
      assert |p| > 1 && p[0] == l;
      InnerItems(e, sub, p[1..]);
      assert p == [l] + p[1..];
    }
  }

  lemma {:induction false} InsideItem(e: Case, sub: PathSet, p: Path)
    requires IsCase(e)
    ensures !Emptied(e.s, ListL(e).lt.elementType, Item(e), sub, p)
  {
    var et := ListL(e).lt.elementType;
    if |p| > 1 && p[0] == FieldName(e.f) {
      var ft := ChildType(e.s, et, FieldName(e.f));
      assert Kid(e.s, et, Item(e), p[0]) == Some(e.a) && Kid(e.s, ft, e.a, p[1..][0]) == None;
      assert !Emptied(e.s, ft, e.a, Below(sub, p[0]), p[1..]);
    }
  }

  lemma {:induction false} InnerItems(e: Case, sub: PathSet, p: Path)
    requires IsCase(e) && Emptied(e.s, TypeL(e), List([Item(e)]), sub, p)
    ensures p == [Selector(e)]
  {
    Kids(e, Item(e));
    if |p| > 1 {
      InsideItem(e, Below(sub, p[0]), p[1..]);
    } else {
      assert p == [p[0]];
    }
  }

  /** Merging the item without its leaf, or nothing at all, changes nothing. */
  lemma {:induction false} Merges(e: Case)
    requires IsCase(e)
    ensures Merge(e.s, e.root, Some(Live(e)), Some(Bare(e))) == Merged(Some(Live(e)), true)
    ensures Merge(e.s, e.root, Some(Live(e)), Some(Map(map[]))) == Merged(Some(Live(e)), true)
  {
    Types(e);
    ValidItem(e, Item(e));
    ValidItem(e, Map(map[]));
    AllowDuplicates(e.s, e.root, Live(e));
    EmptyValid(e.s, e.root);
    HoldsBare(e);
    MergeHeld(e.s, e.root, Live(e), Bare(e));
    assert e.l in Live(e).fields;
    MergeHeld(e.s, e.root, Live(e), Map(map[]));
  }

  lemma {:induction false} HoldsBare(e: Case)
    requires IsCase(e)
    ensures Holds(e.s, e.root, Live(e), Bare(e))
  {
    Types(e);
    var t := ListL(e).lt;
    var vk, ck := Elements(e.s, t, [Item(e)]), Elements(e.s, t, [Map(map[])]);
    assert vk == ck == [Selector(e)];
    OnlyAll(vk, ck);
    assert IndexOf(vk, ck[0]) == 0;
    assert Holds(e.s, t.elementType, Item(e), Map(map[])) by { assert e.f in Item(e).fields; }
    assert Holds(e.s, TypeL(e), List([Item(e)]), List([Map(map[])]));
  }

  function Start(e: Case): State { State(Live(e), map["m" := Entry({PathItem(e), PathF(e)}, true)]) }

  lemma {:induction false} OneManager(paths: PathSet)
    ensures Managed(map["m" := Entry(paths, true)]) == paths
  {
    var managers: Managers := map["m" := Entry(paths, true)];
    assert managers.Keys == {"m"} && managers["m"].paths == paths;
  }

  /** Without the leaf, which nobody owns any more, the item is emptied. */
  lemma {:induction false} LosesItem(e: Case)
    requires IsCase(e)
    ensures LosesAt(e.s, e.root, Live(e), {PathItem(e)}, {PathItem(e), PathF(e)}, PathItem(e))
    ensures Loses(e.s, e.root, Live(e), {PathItem(e)}, {PathItem(e), PathF(e)}, PathItem(e))
  {
    FieldSets(e);
    Closes(e);
    Steps(e);
    var gone := Unmanaged(e.s, e.root, Live(e), {PathItem(e)});
    assert PathF(e) in gone;
    LeafEmpties(e, gone, PathItem(e));
  }

  /** Both are paths of the object, and the key is at its default, so either may be owned alone. */
  lemma {:induction false} Owns(e: Case, paths: PathSet)
    requires IsCase(e) && paths <= {PathItem(e), PathF(e)}
    ensures Valid(e.s, e.root, Live(e), false) && OwnedIn(e.s, e.root, Live(e), paths)
  {
    ValidItem(e, Item(e));
    FieldSets(e);
    FieldSetPaths(e.s, e.root, Live(e));
    Steps(e);
    forall p, k | IsKeyOf(e.s, e.root, p, k)
      ensures p !in paths && p + [FieldName(k)] !in paths
    {
      NotKey(e, k);
      assert (p + [FieldName(k)])[|p|] == FieldName(k) && (p + [FieldName(k)])[..|p|] == p;
    }
  }

  lemma {:induction false} MayOwn(e: Case, paths: PathSet)
    requires IsCase(e) && paths <= {PathItem(e), PathF(e)}
    ensures Valid(e.s, e.root, Live(e), false) && Plausible(e.s, e.root, paths) && paths <= AllPaths(e.s, e.root, Live(e))
  {
    Owns(e, paths);
    OwnedPlausible(e.s, e.root, Live(e), paths);
  }

  lemma {:induction false} NotKey(e: Case, k: string)
    requires IsCase(e)
    ensures !IsKeyOf(e.s, e.root, PathItem(e), k) && !IsKeyOf(e.s, e.root, PathF(e), k)
  {
    Types(e);
    Steps(e);
    assert !IsKeyOf(e.s, TypeL(e), [Selector(e)], k);
    assert !IsKeyOf(e.s, ListL(e).lt.elementType, [FieldName(e.f)], k);
    assert !IsKeyOf(e.s, TypeL(e), [Selector(e), FieldName(e.f)], k);
  }

  /** Removing the leaf alone takes the item with it. */
  lemma {:induction false} RemovalNotExact(e: Case)
    requires IsCase(e)
    ensures Valid(e.s, e.root, Live(e), false) && Fitting(e.s, e.root, {PathF(e)}) && !Exact(e.s, e.root, Live(e), {PathF(e)})
  {
    Owns(e, {PathF(e)});
    Owns(e, {PathItem(e)});
    OwnedPlausible(e.s, e.root, Live(e), {PathF(e)});
    PlausibleRemovable(e.s, e.root, {PathF(e)});
    LeafEmpties(e, {PathF(e)}, PathItem(e));
    Steps(e);
    assert !Covered(PathItem(e), {PathF(e)});
    assert !KeysUntouchedAt(e.s, e.root, Live(e), {PathF(e)}, PathItem(e));
    RemoveExactIff(e.s, e.root, Live(e), {PathF(e)});
  }

  lemma {:induction false} NotBroken(e: Case)
    requires IsCase(e)
    ensures !Empties(e.s, e.root, Live(e), Dropped(e.s, e.root, Live(e), {PathItem(e)}, {PathItem(e), PathF(e)}))
  {
    var dropped := Dropped(e.s, e.root, Live(e), {PathItem(e)}, {PathItem(e), PathF(e)});
    ItemDropped(e);
    OrphanedLeaf(e, {PathItem(e)}, {PathItem(e), PathF(e)});
    Steps(e);
    forall p | Emptied(e.s, e.root, Live(e), dropped, p)
      ensures Covered(p, dropped)
    {
      LeafEmpties(e, dropped, p);
    }
  }

  lemma {:induction false} ItemDropped(e: Case)
    requires IsCase(e)
    ensures PathItem(e) in Dropped(e.s, e.root, Live(e), {PathItem(e)}, {PathItem(e), PathF(e)})
  {
    var managed, last := {PathItem(e)}, {PathItem(e), PathF(e)};
    MayOwn(e, managed);
    MayOwn(e, last);
    FieldSets(e);
    Steps(e);
    ValidItem(e, Map(map[]));
    ConfigLed(e.s, e.root, Live(e), Bare(e), managed, PathItem(e));
    LosesItem(e);
    DroppedIff(e.s, e.root, Live(e), managed, last, PathItem(e), 2);
  }

  lemma {:induction false} LeafType(e: Case)
    requires IsCase(e)
    ensures ShapeOf(e.s, TypeAt(e.s, e.root, PathF(e))).LeafShape? && ShapeOf(e.s, TypeAt(e.s, e.root, PathItem(e))).MapShape?
  {
    Steps(e);
    var et := ListL(e).lt.elementType;
    assert [FieldName(e.f)][1..] == [] && [Selector(e)][1..] == [];
    assert TypeAt(e.s, et, [FieldName(e.f)]) == ChildType(e.s, et, FieldName(e.f));
    assert TypeAt(e.s, TypeL(e), PathF(e)[1..]) == TypeAt(e.s, et, [FieldName(e.f)]);
    assert TypeAt(e.s, TypeL(e), [Selector(e)]) == et;
  }

  /** The leaf goes, if it was owned last time and nobody owns it now. */
  lemma {:induction false} OrphanedLeaf(e: Case, managed: PathSet, last: PathSet)
    requires IsCase(e) && managed <= {PathItem(e)} && PathF(e) in last && last <= {PathItem(e), PathF(e)}
    ensures PathF(e) in Dropped(e.s, e.root, Live(e), managed, last)
  {
    MayOwn(e, managed);
    MayOwn(e, last);
    LeafType(e);
    Steps(e);
    OrphanDropped(e.s, e.root, Live(e), managed, last, PathF(e));
  }

  /** The second Apply, in terms of what it merges and prunes. */
  lemma {:induction false} SecondApply(e: Case)
    requires IsCase(e)
    ensures !Breaks(e.s, e.root, Start(e), Bare(e), "m")
    ensures LosesFor(e.s, e.root, Start(e), Bare(e), "m", PathItem(e))
  {
    Merges(e);
    StartManaged(e);
    LosesItem(e);
    NotBroken(e);
  }

  lemma {:induction false} StartManaged(e: Case)
    requires IsCase(e)
    ensures Managed(ManagersFor(e.s, e.root, Start(e), Bare(e), "m")) == {PathItem(e)}
    ensures OwnedBy(Start(e).managers, "m") == {PathItem(e), PathF(e)}
  {
    FieldSets(e);
    OneManager({PathItem(e)});
    assert ManagersFor(e.s, e.root, Start(e), Bare(e), "m") == map["m" := Entry({PathItem(e)}, true)];
  }

  lemma {:induction false} StartReached(e: Case)
    requires IsCase(e)
    ensures Apply(e.s, e.root, EMPTY_STATE, Live(e), "m", false) == Done(Start(e))
    ensures Safe(e.s, e.root, Start(e), map["m" := Live(e)])
  {
    ValidItem(e, Item(e));
    FieldSets(e);
    FirstApply(e.s, e.root, Live(e), "m", false);
  }

  lemma {:induction false} BareSolid(e: Case)
    requires IsCase(e)
    ensures Solid(e.s, e.root, Bare(e))
  {
    assert Solid(e.s, ListL(e).lt.elementType, Map(map[]));
    assert Solid(e.s, TypeL(e), List([Map(map[])]));
  }

  /**
   * The manager that applied an item, leaving its key to the default or writing the default out,
   * applies the item bare. The item is then in its set and was in the merged object, and is pruned all
   * the same.
   */
  lemma {:induction false} DefaultedItemLost(e: Case)
    requires IsCase(e)
    ensures Apply(e.s, e.root, EMPTY_STATE, Live(e), "m", false) == Done(Start(e))
    ensures Safe(e.s, e.root, Start(e), map["m" := Live(e)]) && Valid(e.s, e.root, Bare(e), false) && Solid(e.s, e.root, Bare(e))
    ensures var after := Apply(e.s, e.root, Start(e), Bare(e), "m", true);
            after.Done? && PathItem(e) in OwnedBy(after.value.managers, "m") && PathItem(e) !in AllPaths(e.s, e.root, after.value.live) &&
            !Safe(e.s, e.root, after.value, map["m" := Live(e)]["m" := Bare(e)])
  {
    ValidItem(e, Map(map[]));
    FieldSets(e);
    StartReached(e);
    BareSolid(e);
    SecondApply(e);
    LostPath(e.s, e.root, Start(e), Bare(e), "m", map["m" := Live(e)], PathItem(e));
  }

  function Shared(e: Case): State {
    State(Live(e), map["n" := Entry({PathItem(e)}, true), "m" := Entry({PathF(e)}, false)])
  }

  function Writes(e: Case): map<string, Value> { map["n" := Bare(e)]["m" := Live(e)] }

  /**
   * One manager applied the item bare and another wrote the leaf into it. When the second applies an
   * empty object, pruning the leaf empties the item, and the Apply fails, forced or not.
   */
  lemma {:induction false} EmptiedItemFails(e: Case, force: bool)
    requires IsCase(e)
    ensures Run(e.s, e.root, EMPTY_STATE, [ApplyOf("n", Bare(e), false), UpdateTo("m", Live(e))]) == Shared(e)
    ensures Safe(e.s, e.root, Shared(e), Writes(e)) && Valid(e.s, e.root, Map(map[]), false)
    ensures Apply(e.s, e.root, Shared(e), Map(map[]), "m", force) == SchemaError
  {
    SharedReached(e);
    SharedSafe(e);
    EmptyValid(e.s, e.root);
    Merges(e);
    OtherManager(e);
    LeafDropped(e);
    ApplyFailsIff(e.s, e.root, Shared(e), Map(map[]), "m", force, Writes(e));
  }

  /** The paths of the two objects. */
  lemma {:induction false} PathsAre(e: Case, x: Value, p: Path)
    requires IsCase(e) && x in {Item(e), Map(map[])}
    ensures At(e.s, e.root, Some(With(e, x)), p).Some? <==>
            p in {[], PathL(e), PathItem(e)} || (p == PathF(e) && x == Item(e))
    ensures p == PathItem(e) ==> At(e.s, e.root, Some(With(e, x)), p) == Some(x)
  {
    Kids(e, x);
    Steps(e);
    if p != [] && p[0] == FieldName(e.l) {
      assert p == [p[0]] + p[1..] && PathL(e)[1..] == [];
      assert p[1..] == [] ==> p == PathL(e);
      assert p[1..] == [Selector(e)] ==> p == PathItem(e);
      assert p[1..] == [Selector(e), FieldName(e.f)] ==> p == PathF(e);
      ItemPaths(e, x, p[1..]);
    } else if p != [] {
      AtNone(e.s, ChildType(e.s, e.root, p[0]), p[1..]);
    }
  }

  lemma {:induction false} ItemPaths(e: Case, x: Value, p: Path)
    requires IsCase(e) && x in {Item(e), Map(map[])}
    ensures At(e.s, TypeL(e), Some(List([x])), p).Some? <==>
            p in {[], [Selector(e)]} || (p == [Selector(e), FieldName(e.f)] && x == Item(e))
    ensures p == [Selector(e)] ==> At(e.s, TypeL(e), Some(List([x])), p) == Some(x)
  {
    Kids(e, x);
    if p != [] && p[0] == Selector(e) {
      assert p == [p[0]] + p[1..] && [Selector(e), FieldName(e.f)][1..] == [FieldName(e.f)];
      assert p[1..] == [] ==> p == [Selector(e)];
      assert p[1..] == [FieldName(e.f)] ==> p == [Selector(e), FieldName(e.f)];
      LeafPaths(e, x, p[1..]);
    } else if p != [] {
      AtNone(e.s, ChildType(e.s, TypeL(e), p[0]), p[1..]);
    }
  }

  lemma {:induction false} LeafPaths(e: Case, x: Value, p: Path)
    requires IsCase(e) && x in {Item(e), Map(map[])}
    ensures At(e.s, ListL(e).lt.elementType, Some(x), p).Some? <==> p == [] || (p == [FieldName(e.f)] && x == Item(e))
  {
    var et := ListL(e).lt.elementType;
    if p != [] {
      var c := Kid(e.s, et, x, p[0]);
      assert p == [p[0]] + p[1..];
      if c.None? {
        AtNone(e.s, ChildType(e.s, et, p[0]), p[1..]);
      } else if |p| > 1 {
        AtNone(e.s, ChildType(e.s, ChildType(e.s, et, p[0]), p[1]), p[1..][1..]);
      }
    }
  }

  /** Writing the leaf into the bare item adds it, and changes nothing else. */
  lemma {:induction false} LeafAdded(e: Case)
    requires IsCase(e)
    ensures CompareObjects(e.s, e.root, Bare(e), Live(e)) == Comparison({}, {}, {PathF(e)}, true)
  {
    ValidItem(e, Item(e));
    ValidItem(e, Map(map[]));
    var c := Compare(e.s, e.root, Some(Bare(e)), Some(Live(e)));
    CompareOk(e.s, e.root, Some(Bare(e)), Some(Live(e)));
    forall p
      ensures p !in c.removed && (p in c.added <==> p == PathF(e)) && p !in c.modified
    {
      LeafAddedAt(e, p);
    }
    assert c.added == {PathF(e)} && c.removed == {} && c.modified == {};
    Steps(e);
  }

  lemma {:induction false} LeafAddedAt(e: Case, p: Path)
    requires IsCase(e)
    ensures var c := Compare(e.s, e.root, Some(Bare(e)), Some(Live(e)));
            p !in c.removed && (p in c.added <==> p == PathF(e)) && p !in c.modified
  {
    ValidItem(e, Item(e));
    ValidItem(e, Map(map[]));
    Steps(e);
    assert Item(e) != Map(map[]) by { assert e.f in Item(e).fields; }
    CompareAt(e.s, e.root, Some(Bare(e)), Some(Live(e)), p);
    PathsAre(e, Map(map[]), p);
    PathsAre(e, Item(e), p);
    if p in {[], PathL(e), PathItem(e)} {
      Undiffering(e, p);
    }
  }

  lemma {:induction false} Undiffering(e: Case, p: Path)
    requires IsCase(e) && p in {[], PathL(e), PathItem(e)}
    ensures !Differs(e.s, TypeAt(e.s, e.root, p), At(e.s, e.root, Some(Bare(e)), p), At(e.s, e.root, Some(Live(e)), p))
  {
    Steps(e);
    LeafType(e);
    Kids(e, Item(e));
    Kids(e, Map(map[]));
    PathsAre(e, Item(e), p);
    assert e.l in Live(e).fields && e.f in Item(e).fields;
    if p == PathL(e) {
      assert PathL(e)[1..] == [];
      assert TypeAt(e.s, e.root, PathL(e)) == TypeL(e);
    }
  }

  /** The state is reached by an Apply and an Update from the empty object. */
  lemma {:induction false} SharedReached(e: Case)
    requires IsCase(e)
    ensures Run(e.s, e.root, EMPTY_STATE, [ApplyOf("n", Bare(e), false), UpdateTo("m", Live(e))]) == Shared(e)
  {
    BareReached(e);
    var first := State(Bare(e), map["n" := Entry({PathItem(e)}, true)]);
    LeafWritten(e);
    TwoSteps(e.s, e.root, EMPTY_STATE, ApplyOf("n", Bare(e), false), first, UpdateTo("m", Live(e)), Shared(e));
  }

  lemma {:induction false} LeafWritten(e: Case)
    requires IsCase(e)
    ensures Update(e.s, e.root, State(Bare(e), map["n" := Entry({PathItem(e)}, true)]), Live(e), "m") == Done(Shared(e))
  {
    BareReached(e);
    var entry := Entry({PathItem(e)}, true);
    ReconcileAllSame(e.s, e.root, State(Bare(e), map["n" := entry]), map["n" := Bare(e)]);
    LeafAdded(e);
    Steps(e);
    PureAddition(e.s, e.root, Bare(e), Live(e), entry, {PathF(e)});
  }

  /** A write that only adds paths: the writer owns them, the other manager keeps what it has. */
  lemma {:induction false} PureAddition(s: Schema, tr: TypeRef, live: Value, next: Value, entry: Entry, added: PathSet)
    requires var managers: Managers := map["n" := entry]; ReconcileAll(s, tr, managers) == Done(managers)
    requires CompareObjects(s, tr, live, next) == Comparison({}, {}, added, true)
    requires entry.paths != {} && added != {} && entry.paths * added == {}
    ensures Update(s, tr, State(live, map["n" := entry]), next, "m") ==
            Done(State(next, map["n" := entry, "m" := Entry(added, false)]))
  {
    var managers: Managers, c := map["n" := entry], CompareObjects(s, tr, live, next);
    assert Remaining(managers, c, "m", "n") == entry.paths;
    assert (map o | o in managers && Remaining(managers, c, "m", o) != {}
              :: managers[o].(paths := Remaining(managers, c, "m", o))) == managers;
    assert OwnedBy(managers, "m") - c.removed + c.modified + c.added == added;
  }

  lemma {:induction false} BareReached(e: Case)
    requires IsCase(e)
    ensures var first := State(Bare(e), map["n" := Entry({PathItem(e)}, true)]);
            Apply(e.s, e.root, EMPTY_STATE, Bare(e), "n", false) == Done(first) && Safe(e.s, e.root, first, map["n" := Bare(e)])
  {
    ValidItem(e, Map(map[]));
    FieldSets(e);
    FirstApply(e.s, e.root, Bare(e), "n", false);
  }

  lemma {:induction false} SharedSafe(e: Case)
    requires IsCase(e)
    ensures Safe(e.s, e.root, Shared(e), Writes(e))
  {
    BareReached(e);
    ValidItem(e, Item(e));
    LeafWritten(e);
    UpdateSafe(e.s, e.root, State(Bare(e), map["n" := Entry({PathItem(e)}, true)]), Live(e), "m", map["n" := Bare(e)]);
  }

  lemma {:induction false} OtherManager(e: Case)
    requires IsCase(e)
    ensures Managed(ManagersFor(e.s, e.root, Shared(e), Map(map[]), "m")) == {PathItem(e)}
    ensures OwnedBy(Shared(e).managers, "m") == {PathF(e)}
  {
    var managers := ManagersFor(e.s, e.root, Shared(e), Map(map[]), "m");
    assert ToFieldSet(e.s, e.root, Map(map[])) == {} by {
      PlainNode(e.s, e.root);
    }
    assert managers.Keys == {"n", "m"} && managers["n"].paths == {PathItem(e)} && managers["m"].paths == {};
  }

  /** The leaf is dropped, and neither the item nor the list is. */
  lemma {:induction false} LeafDropped(e: Case)
    requires IsCase(e)
    ensures Empties(e.s, e.root, Live(e), Dropped(e.s, e.root, Live(e), {PathItem(e)}, {PathF(e)}))
  {
    var managed, last := {PathItem(e)}, {PathF(e)};
    var dropped := Dropped(e.s, e.root, Live(e), managed, last);
    OrphanedLeaf(e, managed, last);
    LeafEmpties(e, dropped, PathItem(e));
    Owns(e, managed);
    FieldSets(e);
    Closes(e);
    Steps(e);
    Kids(e, Item(e));
    assert PathL(e) !in Orphaned(e.s, e.root, Live(e), managed, last);
    assert Still(e.s, e.root, Live(e), Orphaned(e.s, e.root, Live(e), managed, last), PathL(e));
    assert PathL(e) !in dropped && PathItem(e) !in dropped;
    assert !Covered(PathItem(e), dropped);
  }

  /** Such schemas exist, with the key as the leaf ... */
  lemma {:induction false} KeyAsLeaf() returns (e: Case)
    ensures IsCase(e) && e.f == e.k
  {
    var root, item := SomeSchema();
    e := Case(Schema(map[]), root, "l", "k", Str("a"), "k", Str("a"));
  }

  /** ... and with another leaf. */
  lemma {:induction false} OtherLeaf() returns (e: Case)
    ensures IsCase(e) && e.f != e.k
  {
    var root, item := SomeSchema();
    e := Case(Schema(map[]), root, "l", "k", Str("a"), "f", Str("b"));
  }

  lemma {:induction false} SomeSchema() returns (root: TypeRef, item: MapType)
    ensures Plain(Schema(map[]), root)
    ensures var str := TypeRef(None, Atom(Some(StringScalar), None, None), None);
            item == MapType(map["k" := StructField(str, Some(Str("a"))), "f" := StructField(str, None)], NO_TYPE, Separable)
    ensures var items := TypeRef(None, Atom(None, None, Some(item)), None);
            var list := TypeRef(None, Atom(None, Some(ListType(items, Associative, ["k"])), None), None);
            root == TypeRef(None, Atom(None, None, Some(MapType(map["l" := StructField(list, None)], NO_TYPE, Separable))), None)
  {
    var s := Schema(map[]);
    var str := TypeRef(None, Atom(Some(StringScalar), None, None), None);
    item := MapType(map["k" := StructField(str, Some(Str("a"))), "f" := StructField(str, None)], NO_TYPE, Separable);
    var items := TypeRef(None, Atom(None, None, Some(item)), None);
    var list := TypeRef(None, Atom(None, Some(ListType(items, Associative, ["k"])), None), None);
    root := TypeRef(None, Atom(None, None, Some(MapType(map["l" := StructField(list, None)], NO_TYPE, Separable))), None);
    var types := {root, list, items, str};
    assert ClosedTypes(s, types);
  }
}
