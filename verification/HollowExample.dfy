/** Declared fields with nothing but empty lists: an Apply that loses its own path, and one that loses another's. */
module HollowExample {
  import opened Values
  import opened PathElements
  import opened Schemas
  import opened Merging
  import opened Comparing
  import opened Owning
  import opened Updating
  import opened PlainSetting
  import opened MergeTheory
  import opened Absorption
  import opened ItemTheory
  import opened RemoveTheory
  import opened OwningTheory
  import opened LeftoverTheory
  import opened PruneTheory
  import opened CompareTheory
  import opened RunTheory
  import opened ConflictTheory

  /** A declared map field `x` with two declared fields of its own: a list `y`, and a leaf `z` of value `a`. */
  datatype Case = Case(s: Schema, root: TypeRef, x: string, y: string, z: string, a: Value)

  function Outer(e: Case): Shape { ShapeOf(e.s, e.root) }

  function TypeX(e: Case): TypeRef { ChildType(e.s, e.root, FieldName(e.x)) }

  function TypeY(e: Case): TypeRef { ChildType(e.s, TypeX(e), FieldName(e.y)) }

  function TypeZ(e: Case): TypeRef { ChildType(e.s, TypeX(e), FieldName(e.z)) }

  ghost predicate IsCase(e: Case) {
    var inner := ShapeOf(e.s, TypeX(e));
    Plain(e.s, e.root) && Outer(e).MapShape? && e.x in Outer(e).mt.fields &&
    inner.MapShape? && e.y in inner.mt.fields && e.z in inner.mt.fields &&
    ShapeOf(e.s, TypeY(e)).ListShape? && ShapeOf(e.s, TypeZ(e)).LeafShape? && Valid(e.s, TypeZ(e), e.a, false)
  }

  function Before(e: Case): Value { Map(map[e.y := List([]), e.z := e.a]) }

  function Live(e: Case): Value { Map(map[e.x := Before(e)]) }

  function Config(e: Case): Value { Map(map[e.x := Map(map[])]) }

  function PathX(e: Case): Path { [FieldName(e.x)] }

  function PathZ(e: Case): Path { [FieldName(e.x), FieldName(e.z)] }

  function PathY(e: Case): Path { [FieldName(e.x), FieldName(e.y)] }

  function Start(e: Case): State { State(Live(e), map["m" := Entry(ToFieldSet(e.s, e.root, Live(e)), true)]) }

  lemma {:induction false} Types(e: Case)
    requires IsCase(e)
    ensures e.y != e.z && Plain(e.s, TypeX(e)) && Plain(e.s, TypeY(e)) && Plain(e.s, TypeZ(e))
  {
    PlainField(e.s, e.root, e.x);
    PlainField(e.s, TypeX(e), e.y);
    PlainField(e.s, TypeX(e), e.z);
  }

  /** A map is valid if its fields are declared and valid. */
  lemma {:induction false} ValidMap(s: Schema, tr: TypeRef, fields: map<string, Value>)
    requires Plain(s, tr) && ShapeOf(s, tr).MapShape?
    requires forall k | k in fields :: k in ShapeOf(s, tr).mt.fields && Valid(s, FieldType(ShapeOf(s, tr).mt, k), fields[k], false)
    ensures Valid(s, tr, Map(fields), false)
  {
    PlainNode(s, tr);
    assert ValidAtom(s, Resolve(s, tr).value, Map(fields), false);
  }

  lemma {:induction false} AreValid(e: Case)
    requires IsCase(e)
    ensures Valid(e.s, TypeX(e), Before(e), false) && Valid(e.s, e.root, Live(e), false) && Valid(e.s, e.root, Config(e), false)
  {
    Types(e);
    assert Valid(e.s, TypeY(e), List([]), false) by {
      PlainNode(e.s, TypeY(e));
      assert ValidAtom(e.s, Resolve(e.s, TypeY(e)).value, List([]), false);
    }
    ValidMap(e.s, TypeX(e), Before(e).fields);
    ValidMap(e.s, TypeX(e), map[]);
    ValidMap(e.s, e.root, Live(e).fields);
    ValidMap(e.s, e.root, Config(e).fields);
  }

  lemma {:induction false} Kids(e: Case)
    requires IsCase(e)
    ensures Kid(e.s, e.root, Live(e), FieldName(e.x)) == Some(Before(e))
    ensures Kid(e.s, e.root, Config(e), FieldName(e.x)) == Some(Map(map[]))
    ensures Kid(e.s, TypeX(e), Before(e), FieldName(e.z)) == Some(e.a)
    ensures Kid(e.s, TypeX(e), Before(e), FieldName(e.y)) == Some(List([]))
    ensures forall pe :: Kid(e.s, TypeX(e), Map(map[]), pe).None? && Kid(e.s, TypeY(e), List([]), pe).None?
    ensures At(e.s, e.root, Some(Live(e)), PathZ(e)) == Some(e.a) && At(e.s, e.root, Some(Live(e)), PathX(e)) == Some(Before(e))
  {
    Types(e);
    assert PathZ(e)[1..] == [FieldName(e.z)] && PathX(e)[1..] == [] && [FieldName(e.z)][1..] == [];
    assert At(e.s, TypeX(e), Some(Before(e)), [FieldName(e.z)]) == Some(e.a);
  }

  lemma {:induction false} Merges(e: Case)
    requires IsCase(e)
    ensures MergedFor(e.s, e.root, Start(e), Config(e)) == Live(e)
  {
    AreValid(e);
    AllowDuplicates(e.s, e.root, Live(e));
    assert Holds(e.s, TypeX(e), Before(e), Map(map[])) by {
      assert e.y in Before(e).fields;
    }
    assert Holds(e.s, e.root, Live(e), Config(e));
    MergeHeld(e.s, e.root, Live(e), Config(e));
  }

  /** What the live object and the configuration mention. */
  lemma {:induction false} Mentions(e: Case)
    requires IsCase(e)
    ensures PathZ(e) in ToFieldSet(e.s, e.root, Live(e)) && PathX(e) in ToFieldSet(e.s, e.root, Config(e))
    ensures forall q | |q| > 1 :: q !in ToFieldSet(e.s, e.root, Config(e))
    ensures forall q | PathY(e) <= q :: q !in ToFieldSet(e.s, e.root, Live(e))
  {
    AreValid(e);
    Kids(e);
    assert PathZ(e)[1..] == [FieldName(e.z)];
    FieldSetIn(e.s, e.root, Live(e), PathZ(e));
    FieldSetIn(e.s, e.root, Config(e), PathX(e));
    forall q | |q| > 1
      ensures q !in ToFieldSet(e.s, e.root, Config(e))
    {
      FieldSetIn(e.s, e.root, Config(e), q);
    }
    forall q | PathY(e) <= q
      ensures q !in ToFieldSet(e.s, e.root, Live(e))
    {
      FieldSetIn(e.s, e.root, Live(e), q);
      assert q[0] == FieldName(e.x) && q[1..][0] == FieldName(e.y);
      assert !Marked(e.s, TypeX(e), Before(e), q[1..]);
    }
  }

  /** No list of the object has items. */
  lemma {:induction false} NoItems(e: Case, gone: PathSet, p: Path)
    requires IsCase(e)
    ensures !Emptied(e.s, e.root, Live(e), gone, p)
  {
    Kids(e);
    if |p| > 1 && p[0] == FieldName(e.x) && |p| > 2 {
      var rest, sub := p[1..], Below(gone, FieldName(e.x));
      assert rest[1..] == p[2..];
      assert !Emptied(e.s, TypeX(e), Before(e), sub, rest);
    }
  }

  lemma {:induction false} OneManager(e: Case)
    ensures Managed(ManagersFor(e.s, e.root, Start(e), Config(e), "m")) == ToFieldSet(e.s, e.root, Config(e))
  {
    var fs := ToFieldSet(e.s, e.root, Config(e));
    var managers := ManagersFor(e.s, e.root, Start(e), Config(e), "m");
    assert managers.Keys == {"m"} && managers["m"].paths == fs;
  }

  /** What nobody owns ... */
  function Gone(e: Case, managed: PathSet): PathSet { Unmanaged(e.s, e.root, Live(e), managed) }

  /** ... has nothing at or below the list, which mentions nothing. */
  lemma {:induction false} ListSilent(e: Case, managed: PathSet, q: Path)
    requires IsCase(e) && PathY(e) <= q
    ensures q !in Gone(e, managed)
  {
    Mentions(e);
  }

  /** If it has the leaf, only the empty list is left of the map. */
  lemma {:induction false} OnlyListLeft(e: Case, managed: PathSet)
    requires IsCase(e) && PathZ(e) in Gone(e, managed)
    ensures Barren(e.s, TypeX(e), Before(e), BelowPath(Gone(e, managed), PathX(e)))
  {
    var sub := BelowPath(Gone(e, managed), PathX(e));
    BelowPathIn(Gone(e, managed), PathX(e), [FieldName(e.z)]);
    assert PathX(e) + [FieldName(e.z)] == PathZ(e);
    forall q | Starts(q, FieldName(e.y))
      ensures q !in sub
    {
      BelowPathIn(Gone(e, managed), PathX(e), q);
      assert PathX(e) + q == PathY(e) + q[1..];
      ListSilent(e, managed, PathX(e) + q);
    }
    BarrenMap(e, sub);
  }

  lemma {:induction false} BarrenMap(e: Case, sub: PathSet)
    requires IsCase(e) && [FieldName(e.z)] in sub && forall q | Starts(q, FieldName(e.y)) :: q !in sub
    ensures Barren(e.s, TypeX(e), Before(e), sub)
  {
    Types(e);
    assert Starts([FieldName(e.y)], FieldName(e.y)) && e.y in Before(e).fields;
    assert Below(sub, FieldName(e.y)) == {} by {
      assert forall q | q in sub :: !Starts(q, FieldName(e.y));
    }
  }

  /** So the map is lost, if the leaf was owned last time. */
  lemma {:induction false} LosesMap(e: Case, managed: PathSet, last: PathSet)
    requires IsCase(e) && PathZ(e) in last && PathZ(e) !in EnsureNamed(e.s, e.root, managed)
    ensures LosesAt(e.s, e.root, Live(e), managed, last, PathX(e))
  {
    Kids(e);
    Mentions(e);
    OnlyListLeft(e, managed);
    PlainNode(e.s, e.root);
    assert PathZ(e)[..1] == PathX(e) && Declared(e.s, e.root, PathX(e));
    assert PathX(e) in EnsureNamed(e.s, e.root, last);
    assert TypeAt(e.s, e.root, PathX(e)) == TypeX(e) by { assert PathX(e)[1..] == []; }
  }

  /** The second Apply, in terms of what it merges and prunes. */
  lemma {:induction false} SecondApply(e: Case)
    requires IsCase(e)
    ensures !Breaks(e.s, e.root, Start(e), Config(e), "m")
    ensures LosesFor(e.s, e.root, Start(e), Config(e), "m", PathX(e))
  {
    Merges(e);
    OneManager(e);
    Mentions(e);
    assert |PathZ(e)| == 2 && PathX(e)[..1] == PathX(e);
    LosesMap(e, ToFieldSet(e.s, e.root, Config(e)), ToFieldSet(e.s, e.root, Live(e)));
    assert OwnedBy(Start(e).managers, "m") == ToFieldSet(e.s, e.root, Live(e));
    var dropped := DroppedFor(e.s, e.root, Start(e), Config(e), "m");
    forall p
      ensures !Emptied(e.s, e.root, Live(e), dropped, p)
    {
      NoItems(e, dropped, p);
    }
  }

  /**
   * The manager that applied the map with a leaf applies the map empty. The map is then in its set,
   * but it is pruned from the object, because the list left in it mentions nothing.
   */
  lemma {:induction false} HollowConfigLost(e: Case)
    requires IsCase(e)
    ensures Apply(e.s, e.root, EMPTY_STATE, Live(e), "m", false) == Done(Start(e))
    ensures Safe(e.s, e.root, Start(e), map["m" := Live(e)]) && Valid(e.s, e.root, Config(e), false)
    ensures var after := Apply(e.s, e.root, Start(e), Config(e), "m", true);
            after.Done? && PathX(e) in OwnedBy(after.value.managers, "m") && PathX(e) !in AllPaths(e.s, e.root, after.value.live) &&
            !Safe(e.s, e.root, after.value, map["m" := Live(e)]["m" := Config(e)])
  {
    AreValid(e);
    Mentions(e);
    FirstApply(e.s, e.root, Live(e), "m", false);
    SecondApply(e);
    LostPath(e.s, e.root, Start(e), Config(e), "m", map["m" := Live(e)], PathX(e));
  }

  function Nulled(e: Case): Value { Map(map[e.y := Null, e.z := e.a]) }

  function Shared(e: Case): State {
    State(Map(map[e.x := Nulled(e)]), map["n" := Entry({PathY(e)}, true), "m" := Entry({PathZ(e)}, true)])
  }

  function EmptyList(e: Case): Value { Map(map[e.x := Map(map[e.y := List([])])]) }

  /** What the two managers applied. */
  function NullList(e: Case): Value { Map(map[e.x := Map(map[e.y := Null])]) }

  function OnlyLeaf(e: Case): Value { Map(map[e.x := Map(map[e.z := e.a])]) }

  function Writes(e: Case): map<string, Value> { map["n" := NullList(e)]["m" := OnlyLeaf(e)] }

  lemma {:induction false} SharedValid(e: Case)
    requires IsCase(e)
    ensures Valid(e.s, TypeX(e), Nulled(e), false) && Valid(e.s, e.root, Shared(e).live, false)
    ensures Valid(e.s, TypeX(e), Map(map[e.y := List([])]), false) && Valid(e.s, e.root, EmptyList(e), false)
    ensures Valid(e.s, TypeY(e), Null, false) && Valid(e.s, TypeY(e), List([]), false)
  {
    Types(e);
    PlainNode(e.s, TypeY(e));
    assert ValidAtom(e.s, Resolve(e.s, TypeY(e)).value, List([]), false);
    assert ValidAtom(e.s, Resolve(e.s, TypeY(e)).value, Null, false);
    ValidMap(e.s, TypeX(e), Nulled(e).fields);
    ValidMap(e.s, TypeX(e), map[e.y := List([])]);
    ValidMap(e.s, e.root, Shared(e).live.fields);
    ValidMap(e.s, e.root, EmptyList(e).fields);
  }

  lemma {:induction false} AppliedValid(e: Case)
    requires IsCase(e)
    ensures Valid(e.s, TypeX(e), Map(map[e.y := Null]), false) && Valid(e.s, e.root, NullList(e), false)
    ensures Valid(e.s, TypeX(e), Map(map[e.z := e.a]), false) && Valid(e.s, e.root, OnlyLeaf(e), false)
  {
    Types(e);
    PlainNode(e.s, TypeY(e));
    assert ValidAtom(e.s, Resolve(e.s, TypeY(e)).value, Null, false);
    ValidMap(e.s, TypeX(e), map[e.y := Null]);
    ValidMap(e.s, e.root, NullList(e).fields);
    ValidMap(e.s, TypeX(e), map[e.z := e.a]);
    ValidMap(e.s, e.root, OnlyLeaf(e).fields);
  }

  /** Merging the empty list over null. */
  lemma {:induction false} MergesInner(e: Case)
    requires IsCase(e)
    ensures Merge(e.s, TypeX(e), Some(Nulled(e)), Some(Map(map[e.y := List([])]))).out == Some(Before(e))
  {
    Types(e);
    SharedValid(e);
    var l, r := Some(Nulled(e)), Some(Map(map[e.y := List([])]));
    var out := Merge(e.s, TypeX(e), l, r).out;
    MergeValid(e.s, TypeX(e), l, r);
    forall k
      ensures KidOf(e.s, TypeX(e), out, FieldName(k)) == Lookup(Before(e).fields, k)
    {
      MergeKid(e.s, TypeX(e), l, r, FieldName(k));
      if k == e.y {
        MergesList(e);
      } else if k == e.z {
        MergeLeftAlone(e.s, TypeZ(e), e.a);
      }
    }
    assert KidOf(e.s, TypeX(e), out, FieldName(e.y)).Some?;
    SameLookups(out.value.fields, Before(e).fields);
  }

  lemma {:induction false} MergesList(e: Case)
    requires IsCase(e)
    ensures Merge(e.s, TypeY(e), Some(Null), Some(List([]))).out == Some(List([]))
  {
    Types(e);
    PlainNode(e.s, TypeY(e));
    MergeIsAtom(e.s, TypeY(e), Some(Null), Some(List([])));
  }

  lemma {:induction false} MergesShared(e: Case)
    requires IsCase(e)
    ensures MergedFor(e.s, e.root, Shared(e), EmptyList(e)) == Live(e)
  {
    SharedValid(e);
    MergesInner(e);
    var l, r := Some(Shared(e).live), Some(EmptyList(e));
    var out := Merge(e.s, e.root, l, r).out;
    MergeValid(e.s, e.root, l, r);
    forall k
      ensures KidOf(e.s, e.root, out, FieldName(k)) == Lookup(Live(e).fields, k)
    {
      MergeKid(e.s, e.root, l, r, FieldName(k));
    }
    assert KidOf(e.s, e.root, out, FieldName(e.x)).Some?;
    SameLookups(out.value.fields, Live(e).fields);
  }

  lemma {:induction false} SharedAt(e: Case)
    requires IsCase(e)
    ensures At(e.s, e.root, Some(Shared(e).live), PathY(e)) == Some(Null) && TypeAt(e.s, e.root, PathY(e)) == TypeY(e)
    ensures At(e.s, e.root, Some(Shared(e).live), PathZ(e)) == Some(e.a)
    ensures At(e.s, e.root, Some(EmptyList(e)), PathY(e)) == Some(List([]))
  {
    Types(e);
    assert PathY(e)[1..] == [FieldName(e.y)] && PathZ(e)[1..] == [FieldName(e.z)];
    assert [FieldName(e.y)][1..] == [] && [FieldName(e.z)][1..] == [];
    assert TypeAt(e.s, TypeX(e), [FieldName(e.y)]) == TypeY(e);
    assert At(e.s, TypeX(e), Some(Nulled(e)), [FieldName(e.y)]) == Some(Null);
    assert At(e.s, TypeX(e), Some(Nulled(e)), [FieldName(e.z)]) == Some(e.a);
    assert At(e.s, TypeX(e), Some(Map(map[e.y := List([])])), [FieldName(e.y)]) == Some(List([]));
  }

  /** The second manager's configuration, merged into what the first applied. */
  lemma {:induction false} MergesLeafInner(e: Case)
    requires IsCase(e)
    ensures Merge(e.s, TypeX(e), Some(Map(map[e.y := Null])), Some(Map(map[e.z := e.a]))).out == Some(Nulled(e))
  {
    Types(e);
    AppliedValid(e);
    SharedValid(e);
    var l, r := Some(Map(map[e.y := Null])), Some(Map(map[e.z := e.a]));
    var out := Merge(e.s, TypeX(e), l, r).out;
    MergeValid(e.s, TypeX(e), l, r);
    forall k
      ensures KidOf(e.s, TypeX(e), out, FieldName(k)) == Lookup(Nulled(e).fields, k)
    {
      MergeKid(e.s, TypeX(e), l, r, FieldName(k));
      if k == e.y {
        MergeLeftAlone(e.s, TypeY(e), Null);
      } else if k == e.z {
        MergeAlone(e.s, TypeZ(e), e.a, false);
      }
    }
    assert KidOf(e.s, TypeX(e), out, FieldName(e.y)).Some?;
    SameLookups(out.value.fields, Nulled(e).fields);
  }

  function First(e: Case): State { State(NullList(e), map["n" := Entry({PathY(e)}, true)]) }

  lemma {:induction false} MergesLeaf(e: Case)
    requires IsCase(e)
    ensures MergedFor(e.s, e.root, First(e), OnlyLeaf(e)) == Shared(e).live
  {
    AppliedValid(e);
    MergesLeafInner(e);
    var l, r := Some(NullList(e)), Some(OnlyLeaf(e));
    var out := Merge(e.s, e.root, l, r).out;
    MergeValid(e.s, e.root, l, r);
    forall k
      ensures KidOf(e.s, e.root, out, FieldName(k)) == Lookup(Shared(e).live.fields, k)
    {
      MergeKid(e.s, e.root, l, r, FieldName(k));
    }
    assert KidOf(e.s, e.root, out, FieldName(e.x)).Some?;
    SameLookups(out.value.fields, Shared(e).live.fields);
  }

  /** The outer map mentions what its field does. */
  lemma {:induction false} OuterMark(e: Case, inner: Value, p: Path)
    requires IsCase(e) && inner.Map? && inner != Map(map[]) && Valid(e.s, e.root, Map(map[e.x := inner]), false)
    ensures p in ToFieldSet(e.s, e.root, Map(map[e.x := inner])) <==>
            |p| > 1 && p[0] == FieldName(e.x) && Marked(e.s, TypeX(e), inner, p[1..])
  {
    FieldSetIn(e.s, e.root, Map(map[e.x := inner]), p);
  }

  /** A map with one declared field, null or a leaf, mentions that field. */
  lemma {:induction false} OneMark(e: Case, k: string, x: Value, p: Path)
    requires IsCase(e) && ((k == e.y && x == Null) || (k == e.z && x == e.a))
    ensures p in ToFieldSet(e.s, e.root, Map(map[e.x := Map(map[k := x])])) <==> p == [FieldName(e.x), FieldName(k)]
  {
    AppliedValid(e);
    assert k in map[k := x];
    OuterMark(e, Map(map[k := x]), p);
    assert [FieldName(e.x), FieldName(k)][1..] == [FieldName(k)];
    if |p| > 1 {
      InnerMark(e, k, x, p[1..]);
      assert p == [p[0]] + p[1..];
    }
  }

  lemma {:induction false} InnerMark(e: Case, k: string, x: Value, p: Path)
    requires IsCase(e) && ((k == e.y && x == Null) || (k == e.z && x == e.a)) && p != []
    ensures Marked(e.s, TypeX(e), Map(map[k := x]), p) <==> p == [FieldName(k)]
  {
    Types(e);
    if |p| > 1 && p[0] == FieldName(k) {
      assert Kid(e.s, ChildType(e.s, TypeX(e), FieldName(k)), x, p[1..][0]).None?;
    } else if |p| == 1 {
      assert p == [p[0]];
    }
  }

  lemma {:induction false} AppliedSets(e: Case)
    requires IsCase(e)
    ensures ToFieldSet(e.s, e.root, NullList(e)) == {PathY(e)} && ToFieldSet(e.s, e.root, OnlyLeaf(e)) == {PathZ(e)}
  {
    forall p
      ensures p in ToFieldSet(e.s, e.root, NullList(e)) <==> p == PathY(e)
      ensures p in ToFieldSet(e.s, e.root, OnlyLeaf(e)) <==> p == PathZ(e)
    {
      OneMark(e, e.y, Null, p);
      OneMark(e, e.z, e.a, p);
    }
  }

  /** The paths are in both objects, with the same nodes. */
  ghost predicate SamePaths(s: Schema, tr: TypeRef, before: Value, next: Value, paths: PathSet) {
    forall p | p in paths :: At(s, tr, Some(before), p).Some? && At(s, tr, Some(next), p) == At(s, tr, Some(before), p)
  }

  /** A first Apply that touches nothing of the other manager's adds an entry. */
  lemma {:induction false} JoinsIn(s: Schema, tr: TypeRef, st: State, written: map<string, Value>, config: Value, m: string)
    requires LeafSafe(s, tr, st, written) && Valid(s, tr, config, false) && m !in st.managers && ToFieldSet(s, tr, config) != {}
    requires var next := MergedFor(s, tr, st, config);
             Valid(s, tr, next, false) &&
             forall o | o in st.managers :: SamePaths(s, tr, st.live, next, st.managers[o].paths)
    ensures Apply(s, tr, st, config, m, false) ==
            Done(State(MergedFor(s, tr, st, config), st.managers[m := Entry(ToFieldSet(s, tr, config), true)]))
  {
    var next, taken := ApplyRest(s, tr, st, config, m, false, written);
    var managers, c := ManagersFor(s, tr, st, config, m), CompareObjects(s, tr, st.live, next);
    CompareOk(s, tr, Some(st.live), Some(next));
    forall o | o in managers && o != m
      ensures managers[o].paths * (c.modified + c.added) == {} && Remaining(managers, c, m, o) == managers[o].paths
    {
      UnchangedPaths(s, tr, st.live, next, managers[o].paths);
    }
    AllKept(s, tr, managers, c, m);
  }

  lemma {:induction false} UnchangedPaths(s: Schema, tr: TypeRef, before: Value, next: Value, paths: PathSet)
    requires Plain(s, tr) && Valid(s, tr, before, false) && Valid(s, tr, next, false)
    requires Plausible(s, tr, paths) && SamePaths(s, tr, before, next, paths)
    ensures var c := CompareObjects(s, tr, before, next);
            paths * (c.modified + c.added) == {} && paths - (c.modified + c.added) - c.removed == paths
  {
    forall p | p in paths
      ensures var c := CompareObjects(s, tr, before, next); p !in c.modified && p !in c.added && p !in c.removed
    {
      PlausibleCompared(s, tr, before, next, p);
    }
  }

  lemma {:induction false} AllKept(s: Schema, tr: TypeRef, managers: Managers, c: Comparison, m: string)
    requires forall o | o in managers && o != m ::
               managers[o].paths * (c.modified + c.added) == {} && Remaining(managers, c, m, o) == managers[o].paths
    requires forall o | o in managers :: managers[o].paths != {}
    ensures ConflictsWith(managers, c, m) == map[]
    ensures (map o | o in managers && Remaining(managers, c, m, o) != {}
               :: managers[o].(paths := Remaining(managers, c, m, o))) == managers
  {
  }

  /** The state is reached by two Applies from the empty object. */
  lemma {:induction false} FirstReached(e: Case)
    requires IsCase(e)
    ensures Apply(e.s, e.root, EMPTY_STATE, NullList(e), "n", false) == Done(First(e))
    ensures LeafSafe(e.s, e.root, First(e), map["n" := NullList(e)])
  {
    AppliedValid(e);
    AppliedSets(e);
    FirstApply(e.s, e.root, NullList(e), "n", false);
  }

  lemma {:induction false} SecondReached(e: Case)
    requires IsCase(e)
    ensures Apply(e.s, e.root, First(e), OnlyLeaf(e), "m", false) == Done(Shared(e))
  {
    AppliedValid(e);
    SharedValid(e);
    AppliedSets(e);
    FirstReached(e);
    MergesLeaf(e);
    SharedAt(e);
    FirstAt(e);
    JoinsIn(e.s, e.root, First(e), map["n" := NullList(e)], OnlyLeaf(e), "m");
    assert First(e).managers["m" := Entry({PathZ(e)}, true)] == Shared(e).managers;
  }

  lemma {:induction false} SharedReached(e: Case)
    requires IsCase(e)
    ensures Run(e.s, e.root, EMPTY_STATE, [ApplyOf("n", NullList(e), false), ApplyOf("m", OnlyLeaf(e), false)]) == Shared(e)
    ensures LeafSafe(e.s, e.root, Shared(e), Writes(e))
  {
    AppliedValid(e);
    FirstReached(e);
    SecondReached(e);
    TwoSteps(e.s, e.root, EMPTY_STATE, ApplyOf("n", NullList(e), false), First(e), ApplyOf("m", OnlyLeaf(e), false), Shared(e));
    ApplyLeafSafe(e.s, e.root, First(e), OnlyLeaf(e), "m", false, map["n" := NullList(e)]);
  }

  lemma {:induction false} FirstAt(e: Case)
    requires IsCase(e)
    ensures At(e.s, e.root, Some(NullList(e)), PathY(e)) == Some(Null)
  {
    assert PathY(e)[1..] == [FieldName(e.y)] && [FieldName(e.y)][1..] == [];
    assert At(e.s, TypeX(e), Some(Map(map[e.y := Null])), [FieldName(e.y)]) == Some(Null);
  }

  /** Both paths are there. */
  lemma {:induction false} SharedSafe(e: Case)
    requires IsCase(e)
    ensures Safe(e.s, e.root, Shared(e), Writes(e))
  {
    SharedReached(e);
    SharedValid(e);
    SharedAt(e);
    AllPathsIn(e.s, e.root, Shared(e).live, PathY(e));
    AllPathsIn(e.s, e.root, Shared(e).live, PathZ(e));
  }

  /** The empty list mentions nothing ... */
  lemma {:induction false} EmptySilent(e: Case, p: Path)
    requires IsCase(e)
    ensures p !in ToFieldSet(e.s, e.root, EmptyList(e))
  {
    SharedValid(e);
    FieldSetIn(e.s, e.root, EmptyList(e), p);
    if |p| > 1 {
      InnerSilent(e, p[1..]);
    }
  }

  lemma {:induction false} InnerSilent(e: Case, p: Path)
    requires IsCase(e)
    ensures !Marked(e.s, TypeX(e), Map(map[e.y := List([])]), p)
  {
    Types(e);
    if |p| > 1 && p[0] == FieldName(e.y) {
      assert Kid(e.s, TypeY(e), List([]), p[1..][0]).None?;
    }
  }

  /** ... so only the other manager's path is managed. */
  lemma {:induction false} SharedManaged(e: Case)
    requires IsCase(e)
    ensures Managed(ManagersFor(e.s, e.root, Shared(e), EmptyList(e), "m")) == {PathY(e)}
  {
    forall p
      ensures p !in ToFieldSet(e.s, e.root, EmptyList(e))
    {
      EmptySilent(e, p);
    }
    var managers := ManagersFor(e.s, e.root, Shared(e), EmptyList(e), "m");
    assert managers.Keys == {"n", "m"} && managers["n"].paths == {PathY(e)} && managers["m"].paths == {};
  }

  lemma {:induction false} LeafUnmanaged(e: Case)
    requires IsCase(e)
    ensures PathZ(e) !in EnsureNamed(e.s, e.root, {PathY(e)})
  {
    Types(e);
    assert |PathZ(e)| == 2 == |PathY(e)| && PathZ(e)[1] != PathY(e)[1];
  }

  /** The other manager's path is lost with the map, and no item is emptied. */
  lemma {:induction false} SharedLost(e: Case)
    requires IsCase(e)
    ensures LosesFor(e.s, e.root, Shared(e), EmptyList(e), "m", PathY(e)) && !Breaks(e.s, e.root, Shared(e), EmptyList(e), "m")
  {
    MergesShared(e);
    SharedManaged(e);
    LeafUnmanaged(e);
    assert OwnedBy(Shared(e).managers, "m") == {PathZ(e)} && PathY(e)[..1] == PathX(e);
    LosesMap(e, {PathY(e)}, {PathZ(e)});
    var dropped := DroppedFor(e.s, e.root, Shared(e), EmptyList(e), "m");
    forall p
      ensures !Emptied(e.s, e.root, Live(e), dropped, p)
    {
      NoItems(e, dropped, p);
    }
  }

  /** The other manager owns one path, and the configuration differs there. */
  lemma {:induction false} SharedDiffers(e: Case)
    requires IsCase(e)
    ensures OwnedByOther(Shared(e), "m", "n", PathY(e)) && At(e.s, e.root, Some(EmptyList(e)), PathY(e)).Some?
    ensures forall o, q | OwnedByOther(Shared(e), "m", o, q) :: q == PathY(e)
    ensures Differs(e.s, TypeAt(e.s, e.root, PathY(e)), At(e.s, e.root, Some(Shared(e).live), PathY(e)),
                    At(e.s, e.root, Some(EmptyList(e)), PathY(e)))
  {
    SharedAt(e);
  }

  /**
   * One manager applies null for the list and another the leaf. When the second applies an empty list
   * instead, what the first owns differs from what is applied, and goes without a conflict.
   */
  lemma {:induction false} LostWithoutConflict(e: Case)
    requires IsCase(e)
    ensures Run(e.s, e.root, EMPTY_STATE, [ApplyOf("n", NullList(e), false), ApplyOf("m", OnlyLeaf(e), false)]) == Shared(e)
    ensures Safe(e.s, e.root, Shared(e), Writes(e)) && Valid(e.s, e.root, EmptyList(e), false)
    ensures OwnedByOther(Shared(e), "m", "n", PathY(e)) &&
            Differs(e.s, TypeAt(e.s, e.root, PathY(e)), At(e.s, e.root, Some(Shared(e).live), PathY(e)),
                    At(e.s, e.root, Some(EmptyList(e)), PathY(e)))
    ensures var after := Apply(e.s, e.root, Shared(e), EmptyList(e), "m", false);
            after.Done? && PathY(e) !in AllPaths(e.s, e.root, after.value.live) && PathY(e) !in OwnedBy(after.value.managers, "n")
  {
    SharedReached(e);
    SharedSafe(e);
    SharedValid(e);
    SharedDiffers(e);
    SharedLost(e);
    LostQuietly(e.s, e.root, Shared(e), EmptyList(e), "m", Writes(e), "n", PathY(e));
  }

  /** If all that others own is lost, an unforced Apply takes it away without a conflict. */
  lemma {:induction false} LostQuietly(s: Schema, tr: TypeRef, st: State, config: Value, m: string, written: map<string, Value>, other: string, p: Path)
    requires LeafSafe(s, tr, st, written) && Valid(s, tr, config, false) && !Breaks(s, tr, st, config, m)
    requires OwnedByOther(st, m, other, p) && At(s, tr, Some(config), p).Some? && p in AllPaths(s, tr, st.live)
    requires forall o, q | OwnedByOther(st, m, o, q) :: LosesFor(s, tr, st, config, m, q)
    ensures var after := Apply(s, tr, st, config, m, false);
            after.Done? && p !in AllPaths(s, tr, after.value.live) && p !in OwnedBy(after.value.managers, other)
  {
    ConflictsExact(s, tr, st, config, m, written);
    assert LosesFor(s, tr, st, config, m, p);
    GoneFor(s, tr, st, config, m, written, other, p);
  }

  lemma {:induction false} GoneFor(s: Schema, tr: TypeRef, st: State, config: Value, m: string, written: map<string, Value>, other: string, p: Path)
    requires LeafSafe(s, tr, st, written) && Valid(s, tr, config, false) && !Breaks(s, tr, st, config, m)
    requires OwnedByOther(st, m, other, p) && At(s, tr, Some(config), p).Some? && p in AllPaths(s, tr, st.live)
    requires LosesFor(s, tr, st, config, m, p) && !Apply(s, tr, st, config, m, false).Conflicts?
    ensures var after := Apply(s, tr, st, config, m, false);
            after.Done? && p !in AllPaths(s, tr, after.value.live) && p !in OwnedBy(after.value.managers, other)
  {
    var next, taken := ApplyParts(s, tr, st, config, m, false, written);
    SharedKeepsIff(s, tr, st, config, m, written, next, other, p);
    ChangedIff(s, tr, st, config, m, written, next, other, p);
    KeptByOthers(s, tr, st, config, m, false, next, other, p);
  }

  /** Such schemas exist. */
  lemma {:induction false} SomeCase() returns (e: Case)
    ensures IsCase(e)
  {
    var str := TypeRef(None, Atom(Some(StringScalar), None, None), None);
    var names := TypeRef(None, Atom(None, Some(ListType(str, Associative, [])), None), None);
    var inner := MapType(map["y" := StructField(names, None), "z" := StructField(str, None)], NO_TYPE, Separable);
    var outer := MapType(map["x" := StructField(TypeRef(None, Atom(None, None, Some(inner)), None), None)], NO_TYPE, Separable);
    var root := TypeRef(None, Atom(None, None, Some(outer)), None);
    e := Case(Schema(map[]), root, "x", "y", "z", Str("a"));
    var types := {root, TypeX(e), names, str};
    assert ClosedTypes(e.s, types);
  }
}
