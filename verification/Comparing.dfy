/** Comparing two objects: what the compare walker collects, as paths relative to the node. */
module Comparing {
  import opened Values
  import opened PathElements
  import opened Schemas

  datatype Comparison = Comparison(removed: PathSet, modified: PathSet, added: PathSet, ok: bool)

  const SAME := Comparison({}, {}, {}, true)
  const FAILED := Comparison({}, {}, {}, false)

  function Join(a: Comparison, b: Comparison): Comparison {
    Comparison(a.removed + b.removed, a.modified + b.modified, a.added + b.added, a.ok && b.ok)
  }

  /** The children's comparisons, each put below its path element. */
  function Gather(kids: map<PathElement, Comparison>): Comparison {
    Comparison(
      set k, p | k in kids && p in kids[k].removed :: [k] + p,
      set k, p | k in kids && p in kids[k].modified :: [k] + p,
      set k, p | k in kids && p in kids[k].added :: [k] + p,
      forall k | k in kids :: kids[k].ok)
  }

  /** The node itself is added or removed when only one side has it. */
  function OneSided(l: Option<Value>, r: Option<Value>): Comparison {
    if l.None? then SAME.(added := {[]})
    else if r.None? then SAME.(removed := {[]})
    else SAME
  }

  function CompareLeaf(l: Option<Value>, r: Option<Value>): Comparison {
    if l.Some? && r.Some? && l != r then SAME.(modified := {[]}) else OneSided(l, r)
  }

  function Compare(s: Schema, tr: TypeRef, l: Option<Value>, r: Option<Value>): Comparison
    decreases OptHeight(l) + OptHeight(r), 3
  {
    if l.None? && r.None? then FAILED
    else
      var a := Resolve(s, tr);
      if a.None? then FAILED
      else
        var al, ar := DeduceAtom(a.value, l), DeduceAtom(a.value, r);
        if r.None? then CompareAtom(s, al, l, r)
        else if l.None? || al == ar then CompareAtom(s, ar, l, r)
        else Join(CompareAtom(s, al, l, r), CompareAtom(s, ar, l, r))
  }

  function CompareAtom(s: Schema, a: Atom, l: Option<Value>, r: Option<Value>): Comparison
    decreases OptHeight(l) + OptHeight(r), 2
  {
    if a.mapping.Some? then
      var t, lf, rf := a.mapping.value, FieldsOf(l), FieldsOf(r);
      if t.relationship.Atomic? || (lf == map[] && rf == map[]) then CompareLeaf(l, r)
      else
        Join(OneSided(l, r), Gather(CompareFields(s, t, l, r)))
    else if a.scalar.Some? then
      if ValidScalar(a.scalar.value, l) || ValidScalar(a.scalar.value, r) then CompareLeaf(l, r) else FAILED
    else if a.list.Some? then
      var t, li, ri := a.list.value, ItemsOf(l), ItemsOf(r);
      if t.relationship.Atomic? || (li == [] && ri == []) then CompareLeaf(l, r)
      else
        var c := Join(OneSided(l, r), Gather(CompareItems(s, t, l, r)));
        c.(ok := c.ok && forall x | x in li + ri :: ItemElement(s, t, x).Some?)
    else FAILED
  }

  function CompareFields(s: Schema, t: MapType, l: Option<Value>, r: Option<Value>): map<PathElement, Comparison>
    decreases OptHeight(l) + OptHeight(r), 1
  {
    map k | k in FieldsOf(l).Keys + FieldsOf(r).Keys :: FieldName(k) := CompareField(s, t, l, r, k)
  }

  function CompareItems(s: Schema, t: ListType, l: Option<Value>, r: Option<Value>): map<PathElement, Comparison>
    decreases OptHeight(l) + OptHeight(r), 1
  {
    map k | k in ElementSet(s, t, ItemsOf(l)) + ElementSet(s, t, ItemsOf(r)) :: CompareGroup(s, t, l, r, k)
  }

  function CompareField(s: Schema, t: MapType, l: Option<Value>, r: Option<Value>, k: string): Comparison
    requires k in FieldsOf(l).Keys + FieldsOf(r).Keys
    decreases OptHeight(l) + OptHeight(r), 0
  {
    LookupHeight(l, k);
    LookupHeight(r, k);
    Compare(s, FieldType(t, k), Lookup(FieldsOf(l), k), Lookup(FieldsOf(r), k))
  }

  /** The path elements of the items that have one. */
  function ElementSet(s: Schema, t: ListType, items: seq<Value>): set<PathElement> {
    set x | x in items && ItemElement(s, t, x).Some? :: ItemElement(s, t, x).value
  }

  /** The items that `pe` selects; more than one means duplicates. */
  function Group(s: Schema, t: ListType, items: seq<Value>, pe: PathElement): (g: seq<Value>)
    ensures forall x | x in g :: x in items && ItemElement(s, t, x) == Some(pe)
  {
    if items == [] then []
    else (if ItemElement(s, t, items[0]) == Some(pe) then [items[0]] else []) + Group(s, t, items[1..], pe)
  }

  function First(xs: seq<Value>): Option<Value> {
    if xs == [] then None else Some(xs[0])
  }

  /** Items one to one; duplicates on both sides as one atomic run; otherwise gone and replaced. */
  function CompareGroup(s: Schema, t: ListType, l: Option<Value>, r: Option<Value>, pe: PathElement): Comparison
    requires pe in ElementSet(s, t, ItemsOf(l)) + ElementSet(s, t, ItemsOf(r))
    decreases OptHeight(l) + OptHeight(r), 0
  {
    var lg, rg := Group(s, t, ItemsOf(l), pe), Group(s, t, ItemsOf(r), pe);
    GroupHeight(s, t, l, pe);
    GroupHeight(s, t, r, pe);
    if |lg| <= 1 && |rg| <= 1 then Compare(s, t.elementType, First(lg), First(rg))
    else if |lg| >= 2 && |rg| >= 2 then
      if lg == rg then SAME else SAME.(modified := {[]})
    else if |lg| >= 2 then
      Join(SAME.(removed := {[]}), if rg == [] then SAME else Compare(s, t.elementType, None, First(rg)))
    else
      Join(SAME.(added := {[]}), if lg == [] then SAME else Compare(s, t.elementType, First(lg), None))
  }

  lemma {:induction false} GroupHeight(s: Schema, t: ListType, o: Option<Value>, pe: PathElement)
    ensures OptHeight(First(Group(s, t, ItemsOf(o), pe))) <= OptHeight(o)
    ensures pe in ElementSet(s, t, ItemsOf(o)) ==> OptHeight(First(Group(s, t, ItemsOf(o), pe))) < OptHeight(o)
    ensures pe in ElementSet(s, t, ItemsOf(o)) <==> Group(s, t, ItemsOf(o), pe) != []
  {
    var g := Group(s, t, ItemsOf(o), pe);
    if g != [] {
      ItemsHeight(o, g[0]);
    }
    if pe in ElementSet(s, t, ItemsOf(o)) {
      var x :| x in ItemsOf(o) && ItemElement(s, t, x) == Some(pe);
      GroupHas(s, t, ItemsOf(o), x);
    }
  }

  lemma {:induction false} GroupHas(s: Schema, t: ListType, items: seq<Value>, x: Value)
    requires x in items && ItemElement(s, t, x).Some?
    ensures x in Group(s, t, items, ItemElement(s, t, x).value)
  {
    if x != items[0] {
      GroupHas(s, t, items[1..], x);
    }
  }
}
