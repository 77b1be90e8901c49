/** Compare is symmetric on every schema, and an exact diff on plain ones. */
module CompareTheory {
  import opened Values
  import opened PathElements
  import opened Schemas
  import opened Comparing
  import opened PlainSetting
  import opened Merging

  function Swap(c: Comparison): Comparison {
    Comparison(c.added, c.modified, c.removed, c.ok)
  }

  /** Swapping the operands swaps added with removed, also with duplicates and multi-kind atoms. */
  lemma {:induction false} CompareSymmetric(s: Schema, tr: TypeRef, l: Option<Value>, r: Option<Value>)
    ensures Compare(s, tr, r, l) == Swap(Compare(s, tr, l, r))
    decreases OptHeight(l) + OptHeight(r), 3
  {
    if Resolve(s, tr).Some? && (l.Some? || r.Some?) {
      var a := Resolve(s, tr).value;
      AtomSymmetric(s, DeduceAtom(a, l), l, r);
      AtomSymmetric(s, DeduceAtom(a, r), l, r);
    }
  }

  lemma {:induction false} AtomSymmetric(s: Schema, a: Atom, l: Option<Value>, r: Option<Value>)
    requires l.Some? || r.Some?
    ensures CompareAtom(s, a, r, l) == Swap(CompareAtom(s, a, l, r))
    decreases OptHeight(l) + OptHeight(r), 2
  {
    if a.mapping.Some? {
      var t := a.mapping.value;
      forall k | k in FieldsOf(l).Keys + FieldsOf(r).Keys
        ensures CompareField(s, t, r, l, k) == Swap(CompareField(s, t, l, r, k))
      {
        LookupHeight(l, k);
        LookupHeight(r, k);
        CompareSymmetric(s, FieldType(t, k), Lookup(FieldsOf(l), k), Lookup(FieldsOf(r), k));
      }
      GatherSwap(CompareFields(s, t, l, r), CompareFields(s, t, r, l));
    } else if a.scalar.None? && a.list.Some? {
      var t := a.list.value;
      forall k | k in ElementSet(s, t, ItemsOf(l)) + ElementSet(s, t, ItemsOf(r))
        ensures CompareGroup(s, t, r, l, k) == Swap(CompareGroup(s, t, l, r, k))
      {
        GroupSymmetric(s, t, l, r, k);
      }
      GatherSwap(CompareItems(s, t, l, r), CompareItems(s, t, r, l));
    }
  }

  lemma {:induction false} GatherSwap(kids: map<PathElement, Comparison>, kids': map<PathElement, Comparison>)
    requires kids.Keys == kids'.Keys
    requires forall k | k in kids :: kids'[k] == Swap(kids[k])
    ensures Gather(kids') == Swap(Gather(kids))
  {
  }

  /** Membership below a child, and only there. */
  lemma {:induction false} GatherIn(kids: map<PathElement, Comparison>, k: PathElement, q: Path)
    ensures var c := Gather(kids);
            ([k] + q in c.added <==> k in kids && q in kids[k].added) &&
            ([k] + q in c.removed <==> k in kids && q in kids[k].removed) &&
            ([k] + q in c.modified <==> k in kids && q in kids[k].modified)
  {
    assert ([k] + q)[0] == k && ([k] + q)[1..] == q;
  }

  lemma {:induction false} GroupSymmetric(s: Schema, t: ListType, l: Option<Value>, r: Option<Value>, k: PathElement)
    requires k in ElementSet(s, t, ItemsOf(l)) + ElementSet(s, t, ItemsOf(r))
    ensures CompareGroup(s, t, r, l, k) == Swap(CompareGroup(s, t, l, r, k))
    decreases OptHeight(l) + OptHeight(r), 0
  {
    var lg, rg := First(Group(s, t, ItemsOf(l), k)), First(Group(s, t, ItemsOf(r), k));
    GroupHeight(s, t, l, k);
    GroupHeight(s, t, r, k);
    CompareSymmetric(s, t.elementType, lg, rg);
    if rg.Some? {
      CompareSymmetric(s, t.elementType, None, rg);
    }
    if lg.Some? {
      CompareSymmetric(s, t.elementType, lg, None);
    }
  }

  /** In a list without duplicates, the items an element selects are its child. */
  lemma {:induction false} GroupIsKid(s: Schema, tr: TypeRef, o: Option<Value>, pe: PathElement)
    requires Plain(s, tr) && ValidOpt(s, tr, o) && ShapeOf(s, tr).ListShape?
    ensures var t := ShapeOf(s, tr).lt;
            var g := Group(s, t, ItemsOf(o), pe);
            |g| <= 1 && First(g) == KidOf(s, tr, o, pe) &&
            (pe in ElementSet(s, t, ItemsOf(o)) <==> KidOf(s, tr, o, pe).Some?)
  {
    if ItemsOf(o) != [] {
      ListElements(s, tr, o.value);
      GroupSelects(s, ShapeOf(s, tr).lt, ItemsOf(o), pe);
    }
  }

  /** Without duplicates, the group of an element is the item at its index, if there is one. */
  lemma {:induction false} GroupSelects(s: Schema, t: ListType, items: seq<Value>, pe: PathElement)
    requires Distinct(Elements(s, t, items)) && forall x | x in items :: ItemElement(s, t, x) == Some(ElementOf(s, t, x))
    ensures var ks := Elements(s, t, items);
            Group(s, t, items, pe) == (if pe in ks then [items[IndexOf(ks, pe)]] else []) &&
            (pe in ElementSet(s, t, items) <==> pe in ks)
  {
    GroupIs(s, t, items, pe);
    var ks := Elements(s, t, items);
    if pe in ks {
      assert items[IndexOf(ks, pe)] in items;
    }
    if pe in ElementSet(s, t, items) {
      var x :| x in items && ItemElement(s, t, x) == Some(pe);
      var i :| 0 <= i < |items| && items[i] == x;
      assert ks[i] == pe;
    }
  }

  lemma {:induction false} GroupIs(s: Schema, t: ListType, items: seq<Value>, pe: PathElement)
    requires Distinct(Elements(s, t, items)) && forall x | x in items :: ItemElement(s, t, x) == Some(ElementOf(s, t, x))
    ensures var ks := Elements(s, t, items);
            Group(s, t, items, pe) == if pe in ks then [items[IndexOf(ks, pe)]] else []
  {
    if items != [] {
      var ks, rest := Elements(s, t, items), Elements(s, t, items[1..]);
      assert ks == [ks[0]] + rest && ks[1..] == rest;
      GroupIs(s, t, items[1..], pe);
      if ks[0] == pe {
        assert forall i | 0 <= i < |rest| :: rest[i] == ks[i + 1];
        assert pe !in rest;
      }
    }
  }

  /** Both operands are present, and differ at a node that is compared as a whole. */
  predicate Differs(s: Schema, tr: TypeRef, l: Option<Value>, r: Option<Value>) {
    l.Some? && r.Some? && l != r &&
    match ShapeOf(s, tr)
    case LeafShape => true
    case MapShape(_) => FieldsOf(l) == map[] && FieldsOf(r) == map[]
    case ListShape(_) => ItemsOf(l) == [] && ItemsOf(r) == []
  }

  /** One level of Compare on plain types: the node itself, then child by child. */
  lemma {:induction false} CompareNode(s: Schema, tr: TypeRef, l: Option<Value>, r: Option<Value>)
    requires Plain(s, tr) && ValidOpt(s, tr, l) && ValidOpt(s, tr, r) && (l.Some? || r.Some?)
    ensures var c := Compare(s, tr, l, r);
            ([] in c.added <==> l.None?) && ([] in c.removed <==> r.None?) && ([] in c.modified <==> Differs(s, tr, l, r))
  {
    PlainNode(s, tr);
    var a := Resolve(s, tr).value;
    assert Compare(s, tr, l, r) == CompareAtom(s, a, l, r);
    assert l.Some? ==> ValidAtom(s, a, l.value, false);
    assert r.Some? ==> ValidAtom(s, a, r.value, false);
  }

  lemma {:induction false} CompareChild(s: Schema, tr: TypeRef, l: Option<Value>, r: Option<Value>, pe: PathElement, q: Path)
    requires Plain(s, tr) && ValidOpt(s, tr, l) && ValidOpt(s, tr, r) && (l.Some? || r.Some?)
    ensures var c := Compare(s, tr, l, r);
            var lk, rk := KidOf(s, tr, l, pe), KidOf(s, tr, r, pe);
            if lk.None? && rk.None?
            then [pe] + q !in c.added && [pe] + q !in c.removed && [pe] + q !in c.modified
            else
              var d := Compare(s, ChildType(s, tr, pe), lk, rk);
              ([pe] + q in c.added <==> q in d.added) &&
              ([pe] + q in c.removed <==> q in d.removed) &&
              ([pe] + q in c.modified <==> q in d.modified)
  {
    PlainNode(s, tr);
    assert Compare(s, tr, l, r) == CompareAtom(s, Resolve(s, tr).value, l, r);
    match ShapeOf(s, tr)
    case LeafShape =>
    case MapShape(t) =>
      GatherIn(CompareFields(s, t, l, r), pe, q);
      KidCompared(s, tr, l, r, pe);
    case ListShape(t) =>
      GatherIn(CompareItems(s, t, l, r), pe, q);
      KidCompared(s, tr, l, r, pe);
  }

  /** The children are compared under their path elements. */
  lemma {:induction false} KidCompared(s: Schema, tr: TypeRef, l: Option<Value>, r: Option<Value>, pe: PathElement)
    requires Plain(s, tr) && ValidOpt(s, tr, l) && ValidOpt(s, tr, r) && !ShapeOf(s, tr).LeafShape?
    ensures var kids := if ShapeOf(s, tr).MapShape? then CompareFields(s, ShapeOf(s, tr).mt, l, r)
                        else CompareItems(s, ShapeOf(s, tr).lt, l, r);
            var lk, rk := KidOf(s, tr, l, pe), KidOf(s, tr, r, pe);
            (pe in kids <==> lk.Some? || rk.Some?) &&
            (pe in kids ==> kids[pe] == Compare(s, ChildType(s, tr, pe), lk, rk))
  {
    PlainNode(s, tr);
    if ShapeOf(s, tr).ListShape? {
      GroupIsKid(s, tr, l, pe);
      GroupIsKid(s, tr, r, pe);
    } else {
      var a := Resolve(s, tr).value;
      assert l.Some? ==> ValidAtom(s, a, l.value, false);
      assert r.Some? ==> ValidAtom(s, a, r.value, false);
      if pe.FieldName? && pe.name in FieldsOf(l).Keys + FieldsOf(r).Keys {
        assert CompareFields(s, ShapeOf(s, tr).mt, l, r)[pe] == CompareField(s, ShapeOf(s, tr).mt, l, r, pe.name);
      }
    }
  }

  /** Compare is an exact diff, path by path. */
  lemma {:induction false} CompareAt(s: Schema, tr: TypeRef, l: Option<Value>, r: Option<Value>, p: Path)
    requires Plain(s, tr) && ValidOpt(s, tr, l) && ValidOpt(s, tr, r) && (l.Some? || r.Some?)
    ensures var c := Compare(s, tr, l, r);
            var lv, rv := At(s, tr, l, p), At(s, tr, r, p);
            (p in c.added <==> lv.None? && rv.Some?) &&
            (p in c.removed <==> lv.Some? && rv.None?) &&
            (p in c.modified <==> Differs(s, TypeAt(s, tr, p), lv, rv))
    decreases |p|
  {
    if p == [] {
      CompareNode(s, tr, l, r);
    } else {
      var pe, rest := p[0], p[1..];
      assert p == [pe] + rest;
      CompareChild(s, tr, l, r, pe, rest);
      var lk, rk, ct := KidOf(s, tr, l, pe), KidOf(s, tr, r, pe), ChildType(s, tr, pe);
      if lk.None? && rk.None? {
        AtNone(s, ct, rest);
      } else {
        KidValidOpt(s, tr, l, pe);
        KidValidOpt(s, tr, r, pe);
        CompareAt(s, ct, lk, rk, rest);
      }
    }
  }

  /** No error is reported on valid operands. */
  lemma {:induction false} CompareOk(s: Schema, tr: TypeRef, l: Option<Value>, r: Option<Value>)
    requires Plain(s, tr) && ValidOpt(s, tr, l) && ValidOpt(s, tr, r) && (l.Some? || r.Some?)
    ensures Compare(s, tr, l, r).ok
    decreases OptHeight(l) + OptHeight(r), 1
  {
    PlainNode(s, tr);
    var a := Resolve(s, tr).value;
    assert Compare(s, tr, l, r) == CompareAtom(s, a, l, r);
    assert l.Some? ==> ValidAtom(s, a, l.value, false);
    assert r.Some? ==> ValidAtom(s, a, r.value, false);
    match ShapeOf(s, tr)
    case LeafShape =>
    case MapShape(t) =>
      forall k | k in FieldsOf(l).Keys + FieldsOf(r).Keys
        ensures CompareField(s, t, l, r, k).ok
      {
        FieldOk(s, tr, l, r, k);
      }
    case ListShape(t) =>
      forall k | k in ElementSet(s, t, ItemsOf(l)) + ElementSet(s, t, ItemsOf(r))
        ensures CompareGroup(s, t, l, r, k).ok
      {
        GroupOk(s, tr, l, r, k);
      }
  }

  lemma {:induction false} FieldOk(s: Schema, tr: TypeRef, l: Option<Value>, r: Option<Value>, k: string)
    requires Plain(s, tr) && ValidOpt(s, tr, l) && ValidOpt(s, tr, r) && ShapeOf(s, tr).MapShape?
    requires k in FieldsOf(l).Keys + FieldsOf(r).Keys
    ensures CompareField(s, ShapeOf(s, tr).mt, l, r, k).ok
    decreases OptHeight(l) + OptHeight(r), 0
  {
    LookupHeight(l, k);
    LookupHeight(r, k);
    KidValidOpt(s, tr, l, FieldName(k));
    KidValidOpt(s, tr, r, FieldName(k));
    CompareOk(s, FieldType(ShapeOf(s, tr).mt, k), Lookup(FieldsOf(l), k), Lookup(FieldsOf(r), k));
  }

  lemma {:induction false} GroupOk(s: Schema, tr: TypeRef, l: Option<Value>, r: Option<Value>, k: PathElement)
    requires Plain(s, tr) && ValidOpt(s, tr, l) && ValidOpt(s, tr, r) && ShapeOf(s, tr).ListShape?
    requires k in ElementSet(s, ShapeOf(s, tr).lt, ItemsOf(l)) + ElementSet(s, ShapeOf(s, tr).lt, ItemsOf(r))
    ensures CompareGroup(s, ShapeOf(s, tr).lt, l, r, k).ok
    decreases OptHeight(l) + OptHeight(r), 0
  {
    var t := ShapeOf(s, tr).lt;
    GroupHeight(s, t, l, k);
    GroupHeight(s, t, r, k);
    GroupIsKid(s, tr, l, k);
    GroupIsKid(s, tr, r, k);
    KidValidOpt(s, tr, l, k);
    KidValidOpt(s, tr, r, k);
    CompareOk(s, t.elementType, KidOf(s, tr, l, k), KidOf(s, tr, r, k));
  }

  /** Added and Removed are the set differences of the paths; Modified lies in both and in neither of these. */
  lemma {:induction false} CompareExact(s: Schema, tr: TypeRef, l: Value, r: Value)
    requires Plain(s, tr) && Valid(s, tr, l, false) && Valid(s, tr, r, false)
    ensures var c := Compare(s, tr, Some(l), Some(r));
            c.ok &&
            c.added == AllPaths(s, tr, r) - AllPaths(s, tr, l) &&
            c.removed == AllPaths(s, tr, l) - AllPaths(s, tr, r) &&
            c.modified <= AllPaths(s, tr, l) * AllPaths(s, tr, r)
  {
    CompareOk(s, tr, Some(l), Some(r));
    forall p
      ensures var c := Compare(s, tr, Some(l), Some(r));
              (p in c.added <==> p in AllPaths(s, tr, r) - AllPaths(s, tr, l)) &&
              (p in c.removed <==> p in AllPaths(s, tr, l) - AllPaths(s, tr, r)) &&
              (p in c.modified ==> p in AllPaths(s, tr, l) * AllPaths(s, tr, r))
    {
      CompareAt(s, tr, Some(l), Some(r), p);
      AllPathsIn(s, tr, l, p);
      AllPathsIn(s, tr, r, p);
    }
  }
}
