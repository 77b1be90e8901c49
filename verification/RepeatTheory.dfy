/** Comparing objects in which list keys may repeat: items one to one, repeated ones as one run. */
module RepeatTheory {
  import opened Values
  import opened PathElements
  import opened Schemas
  import opened Comparing
  import opened PlainSetting
  import opened CompareTheory
  import opened Merging

  /** The children that `pe` selects, in order: the items of a list that share it, or the one field. */
  function Kids(s: Schema, tr: TypeRef, v: Value, pe: PathElement): (g: seq<Value>)
    ensures forall x | x in g :: x < v
  {
    match ShapeOf(s, tr)
    case MapShape(t) => if v.Map? && pe.FieldName? && pe.name in v.fields then [v.fields[pe.name]] else []
    case ListShape(t) => if v.List? then Group(s, t, v.items, pe) else []
    case LeafShape => []
  }

  function KidsOf(s: Schema, tr: TypeRef, o: Option<Value>, pe: PathElement): seq<Value> {
    if o.None? then [] else Kids(s, tr, o.value, pe)
  }

  /** The run of nodes at a path; below a repeated element there are none. */
  function RunAt(s: Schema, tr: TypeRef, run: seq<Value>, p: Path): seq<Value>
    decreases |p|
  {
    if p == [] then run
    else if |run| != 1 then []
    else RunAt(s, ChildType(s, tr, p[0]), Kids(s, tr, run[0], p[0]), p[1..])
  }

  /** Valid, with duplicates allowed, if there. */
  ghost predicate Loose(s: Schema, tr: TypeRef, o: Option<Value>) {
    o.Some? ==> Valid(s, tr, o.value, true)
  }

  ghost predicate AllLoose(s: Schema, tr: TypeRef, run: seq<Value>) {
    forall x | x in run :: Valid(s, tr, x, true)
  }

  lemma {:induction false} KidsLoose(s: Schema, tr: TypeRef, o: Option<Value>, pe: PathElement)
    requires Plain(s, tr) && Loose(s, tr, o)
    ensures AllLoose(s, ChildType(s, tr, pe), KidsOf(s, tr, o, pe))
    ensures KidsOf(s, tr, o, pe) != [] ==> Plain(s, ChildType(s, tr, pe))
  {
    PlainNode(s, tr);
    if KidsOf(s, tr, o, pe) != [] {
      assert ValidAtom(s, Resolve(s, tr).value, o.value, true);
      if ShapeOf(s, tr).MapShape? {
        PlainField(s, tr, pe.name);
      }
    }
  }

  /** A node alone: added, removed, or different as a whole. */
  lemma {:induction false} NodeCompared(s: Schema, tr: TypeRef, l: Option<Value>, r: Option<Value>)
    requires Plain(s, tr) && Loose(s, tr, l) && Loose(s, tr, r) && (l.Some? || r.Some?)
    ensures var c := Compare(s, tr, l, r);
            ([] in c.added <==> l.None?) && ([] in c.removed <==> r.None?) && ([] in c.modified <==> Differs(s, tr, l, r))
  {
    PlainNode(s, tr);
    var a := Resolve(s, tr).value;
    assert Compare(s, tr, l, r) == CompareAtom(s, a, l, r);
    assert l.Some? ==> ValidAtom(s, a, l.value, true);
    assert r.Some? ==> ValidAtom(s, a, r.value, true);
  }

  /** What a comparison finds at one path, given the runs there: one side has none, one has a run, or they differ. */
  predicate Found(s: Schema, tr: TypeRef, c: Comparison, p: Path, lg: seq<Value>, rg: seq<Value>) {
    (p in c.removed <==> |lg| >= 1 && (|rg| == 0 || (|lg| >= 2) != (|rg| >= 2))) &&
    (p in c.added <==> |rg| >= 1 && (|lg| == 0 || (|lg| >= 2) != (|rg| >= 2))) &&
    (p in c.modified <==>
       (|lg| >= 2 && |rg| >= 2 && lg != rg) || (|lg| == 1 && |rg| == 1 && Differs(s, tr, Some(lg[0]), Some(rg[0]))))
  }

  /** Runs of at most one node each. */
  function Single(o: Option<Value>): seq<Value> {
    if o.None? then [] else [o.value]
  }

  /** The comparisons of the children. */
  ghost function KidComparisons(s: Schema, tr: TypeRef, l: Option<Value>, r: Option<Value>): map<PathElement, Comparison> {
    match ShapeOf(s, tr)
    case MapShape(t) => CompareFields(s, t, l, r)
    case ListShape(t) => CompareItems(s, t, l, r)
    case LeafShape => map[]
  }

  /** Below the node there is what its children's comparisons hold. */
  lemma {:induction false} BelowNode(s: Schema, tr: TypeRef, l: Option<Value>, r: Option<Value>, pe: PathElement, q: Path)
    requires Plain(s, tr) && Loose(s, tr, l) && Loose(s, tr, r) && (l.Some? || r.Some?)
    ensures var c, kids := Compare(s, tr, l, r), KidComparisons(s, tr, l, r);
            ([pe] + q in c.added <==> pe in kids && q in kids[pe].added) &&
            ([pe] + q in c.removed <==> pe in kids && q in kids[pe].removed) &&
            ([pe] + q in c.modified <==> pe in kids && q in kids[pe].modified)
  {
    PlainNode(s, tr);
    assert Compare(s, tr, l, r) == CompareAtom(s, Resolve(s, tr).value, l, r);
    GatherIn(KidComparisons(s, tr, l, r), pe, q);
  }

  /** The comparison of two runs. */
  ghost function RunComparison(s: Schema, tr: TypeRef, lg: seq<Value>, rg: seq<Value>): Comparison {
    if |lg| <= 1 && |rg| <= 1 then Compare(s, tr, First(lg), First(rg))
    else if |lg| >= 2 && |rg| >= 2 then if lg == rg then SAME else SAME.(modified := {[]})
    else if |lg| >= 2 then Join(SAME.(removed := {[]}), if rg == [] then SAME else Compare(s, tr, None, First(rg)))
    else Join(SAME.(added := {[]}), if lg == [] then SAME else Compare(s, tr, First(lg), None))
  }

  /** Every child that either side has is compared, by its runs. */
  lemma {:induction false} KidsCompared(s: Schema, tr: TypeRef, l: Option<Value>, r: Option<Value>, pe: PathElement)
    ensures var kids, ct := KidComparisons(s, tr, l, r), ChildType(s, tr, pe);
            var lg, rg := KidsOf(s, tr, l, pe), KidsOf(s, tr, r, pe);
            (pe in kids <==> lg != [] || rg != []) && (pe in kids ==> kids[pe] == RunComparison(s, ct, lg, rg))
  {
    if ShapeOf(s, tr).ListShape? {
      ItemsCompared(s, tr, l, r, pe);
    } else if ShapeOf(s, tr).MapShape? {
      if pe.FieldName? && pe.name in FieldsOf(l).Keys + FieldsOf(r).Keys {
        assert CompareFields(s, ShapeOf(s, tr).mt, l, r)[pe] == CompareField(s, ShapeOf(s, tr).mt, l, r, pe.name);
      }
    }
  }

  lemma {:induction false} ItemsCompared(s: Schema, tr: TypeRef, l: Option<Value>, r: Option<Value>, pe: PathElement)
    requires ShapeOf(s, tr).ListShape?
    ensures var t := ShapeOf(s, tr).lt;
            var lg, rg := KidsOf(s, tr, l, pe), KidsOf(s, tr, r, pe);
            (pe in ElementSet(s, t, ItemsOf(l)) + ElementSet(s, t, ItemsOf(r)) <==> lg != [] || rg != []) &&
            (lg != [] || rg != [] ==> CompareGroup(s, t, l, r, pe) == RunComparison(s, t.elementType, lg, rg))
  {
    var t := ShapeOf(s, tr).lt;
    GroupHeight(s, t, l, pe);
    GroupHeight(s, t, r, pe);
    assert KidsOf(s, tr, l, pe) == Group(s, t, ItemsOf(l), pe);
    assert KidsOf(s, tr, r, pe) == Group(s, t, ItemsOf(r), pe);
  }

  lemma {:induction false} RunAtMany(s: Schema, tr: TypeRef, run: seq<Value>, p: Path)
    requires |run| != 1
    ensures RunAt(s, tr, run, p) == if p == [] then run else []
  {
  }

  /** Compare finds exactly the differences of the runs, path by path and to any depth. */
  lemma {:induction false} CompareRuns(s: Schema, tr: TypeRef, l: Option<Value>, r: Option<Value>, p: Path)
    requires Plain(s, tr) && Loose(s, tr, l) && Loose(s, tr, r) && (l.Some? || r.Some?)
    ensures Found(s, TypeAt(s, tr, p), Compare(s, tr, l, r), p, RunAt(s, tr, Single(l), p), RunAt(s, tr, Single(r), p))
    decreases |p|, 0
  {
    if p == [] {
      NodeCompared(s, tr, l, r);
    } else {
      var pe, q := p[0], p[1..];
      assert p == [pe] + q;
      var ct, lg, rg := ChildType(s, tr, pe), KidsOf(s, tr, l, pe), KidsOf(s, tr, r, pe);
      BelowNode(s, tr, l, r, pe, q);
      KidsCompared(s, tr, l, r, pe);
      if lg == [] && rg == [] {
        RunAtMany(s, ct, [], q);
      } else {
        KidsLoose(s, tr, l, pe);
        KidsLoose(s, tr, r, pe);
        RunsFound(s, ct, lg, rg, q);
      }
    }
  }

  lemma {:induction false} RunsFound(s: Schema, tr: TypeRef, lg: seq<Value>, rg: seq<Value>, q: Path)
    requires Plain(s, tr) && AllLoose(s, tr, lg) && AllLoose(s, tr, rg) && (lg != [] || rg != [])
    ensures Found(s, TypeAt(s, tr, q), RunComparison(s, tr, lg, rg), q, RunAt(s, tr, lg, q), RunAt(s, tr, rg, q))
    decreases |q|, 2
  {
    if |lg| <= 1 && |rg| <= 1 {
      assert lg == Single(First(lg)) && rg == Single(First(rg));
      CompareRuns(s, tr, First(lg), First(rg), q);
    } else if |lg| >= 2 && |rg| >= 2 {
      RunAtMany(s, tr, lg, q);
      RunAtMany(s, tr, rg, q);
    } else if |lg| >= 2 {
      RunAtMany(s, tr, lg, q);
      OneRun(s, tr, rg, q, false);
    } else {
      RunAtMany(s, tr, rg, q);
      OneRun(s, tr, lg, q, true);
    }
  }

  /** The side that has no run, against nothing. */
  lemma {:induction false} OneRun(s: Schema, tr: TypeRef, g: seq<Value>, q: Path, left: bool)
    requires Plain(s, tr) && AllLoose(s, tr, g) && |g| <= 1
    ensures var c := if g == [] then SAME else if left then Compare(s, tr, First(g), None) else Compare(s, tr, None, First(g));
            var run := RunAt(s, tr, g, q);
            (q in c.removed <==> left && run != []) && (q in c.added <==> !left && run != []) && q !in c.modified &&
            (q == [] ==> run == g)
    decreases |q|, 1
  {
    RunAtMany(s, tr, [], q);
    if g != [] {
      assert g == Single(First(g));
      if left {
        CompareRuns(s, tr, First(g), None, q);
      } else {
        CompareRuns(s, tr, None, First(g), q);
      }
    }
  }

  /** Equal except for the order of associative lists; items that share a key are equal as runs. */
  predicate SameUpToOrder(s: Schema, tr: TypeRef, l: Value, r: Value)
    decreases l
  {
    match ShapeOf(s, tr)
    case LeafShape => l == r
    case MapShape(t) =>
      if l.Map? && r.Map? then
        l.fields.Keys == r.fields.Keys &&
        forall k | k in l.fields :: SameUpToOrder(s, FieldType(t, k), l.fields[k], r.fields[k])
      else l == r
    case ListShape(t) =>
      if l.List? && r.List? then
        forall pe | pe in Elements(s, t, l.items) + Elements(s, t, r.items) ::
          var lg, rg := Group(s, t, l.items, pe), Group(s, t, r.items, pe);
          if |lg| >= 2 || |rg| >= 2 then lg == rg
          else lg != [] && rg != [] && (assert lg[0] in lg; SameUpToOrder(s, t.elementType, lg[0], rg[0]))
      else l == r
  }

  /** The same for the children under one path element. */
  predicate SameKids(s: Schema, tr: TypeRef, l: Value, r: Value, pe: PathElement) {
    var lg, rg := Kids(s, tr, l, pe), Kids(s, tr, r, pe);
    if |lg| >= 2 || |rg| >= 2 then lg == rg
    else lg != [] && rg != [] && SameUpToOrder(s, ChildType(s, tr, pe), lg[0], rg[0])
  }

  predicate HasKid(s: Schema, tr: TypeRef, v: Value, pe: PathElement) {
    Kids(s, tr, v, pe) != []
  }

  predicate NoDifference(c: Comparison) {
    c.added == {} && c.removed == {} && c.modified == {}
  }

  lemma {:induction false} GatherNothing(kids: map<PathElement, Comparison>)
    ensures NoDifference(Gather(kids)) <==> forall k | k in kids :: NoDifference(kids[k])
  {
    var c := Gather(kids);
    if k :| k in kids && !NoDifference(kids[k]) {
      var q :| q in kids[k].added + kids[k].removed + kids[k].modified;
      GatherIn(kids, k, q);
    }
  }

  /** Containers are the same up to order if their children are, one path element at a time. */
  lemma {:induction false} SameIff(s: Schema, tr: TypeRef, l: Value, r: Value)
    requires Plain(s, tr) && Valid(s, tr, l, true) && Valid(s, tr, r, true)
    requires (ShapeOf(s, tr).MapShape? && l.Map? && r.Map?) || (ShapeOf(s, tr).ListShape? && l.List? && r.List?)
    ensures SameUpToOrder(s, tr, l, r) <==>
            forall pe | HasKid(s, tr, l, pe) || HasKid(s, tr, r, pe) :: SameKids(s, tr, l, r, pe)
  {
    if ShapeOf(s, tr).MapShape? {
      SameFields(s, tr, l, r);
    } else {
      var t := ShapeOf(s, tr).lt;
      forall pe
        ensures pe in Elements(s, t, l.items) + Elements(s, t, r.items) <==> HasKid(s, tr, l, pe) || HasKid(s, tr, r, pe)
      {
        ElementsSelect(s, tr, l, pe);
        ElementsSelect(s, tr, r, pe);
      }
    }
  }

  lemma {:induction false} SameFields(s: Schema, tr: TypeRef, l: Value, r: Value)
    requires ShapeOf(s, tr).MapShape? && l.Map? && r.Map?
    ensures SameUpToOrder(s, tr, l, r) <==>
            forall pe | HasKid(s, tr, l, pe) || HasKid(s, tr, r, pe) :: SameKids(s, tr, l, r, pe)
  {
    var t := ShapeOf(s, tr).mt;
    forall k | k in l.fields.Keys + r.fields.Keys
      ensures HasKid(s, tr, l, FieldName(k)) || HasKid(s, tr, r, FieldName(k))
      ensures SameKids(s, tr, l, r, FieldName(k)) <==>
              k in l.fields && k in r.fields && SameUpToOrder(s, FieldType(t, k), l.fields[k], r.fields[k])
    {
    }
    if forall pe | HasKid(s, tr, l, pe) || HasKid(s, tr, r, pe) :: SameKids(s, tr, l, r, pe) {
      assert forall k | k in l.fields.Keys + r.fields.Keys :: SameKids(s, tr, l, r, FieldName(k));
      assert l.fields.Keys == r.fields.Keys;
    }
  }

  lemma {:induction false} ElementsSelect(s: Schema, tr: TypeRef, v: Value, pe: PathElement)
    requires Plain(s, tr) && Valid(s, tr, v, true) && ShapeOf(s, tr).ListShape? && v.List?
    ensures pe in Elements(s, ShapeOf(s, tr).lt, v.items) <==> HasKid(s, tr, v, pe)
  {
    PlainNode(s, tr);
    var t := ShapeOf(s, tr).lt;
    assert ValidAtom(s, Resolve(s, tr).value, v, true);
    var ks := Elements(s, t, v.items);
    if pe in ks {
      var i :| 0 <= i < |ks| && ks[i] == pe;
      GroupHas(s, t, v.items, v.items[i]);
    }
    if HasKid(s, tr, v, pe) {
      var x := Kids(s, tr, v, pe)[0];
      assert x in Kids(s, tr, v, pe) && x in v.items;
      var i :| 0 <= i < |v.items| && v.items[i] == x;
      assert ks[i] == pe;
    }
  }

  /** Nothing is found exactly if the objects are equal up to the order of lists, repeated items being equal as runs. */
  lemma {:induction false} NoDifferenceIff(s: Schema, tr: TypeRef, l: Value, r: Value)
    requires Plain(s, tr) && Valid(s, tr, l, true) && Valid(s, tr, r, true)
    ensures NoDifference(Compare(s, tr, Some(l), Some(r))) <==> SameUpToOrder(s, tr, l, r)
    decreases l, 1
  {
    PlainNode(s, tr);
    var a := Resolve(s, tr).value;
    var c := CompareAtom(s, a, Some(l), Some(r));
    assert Compare(s, tr, Some(l), Some(r)) == c;
    assert ValidAtom(s, a, l, true) && ValidAtom(s, a, r, true);
    if ShapeOf(s, tr).LeafShape? || (Childless(l) && Childless(r)) {
      assert c == CompareLeaf(Some(l), Some(r));
      ChildlessSame(s, tr, l, r);
    } else {
      var kids := KidComparisons(s, tr, Some(l), Some(r));
      SameGathered(s, tr, l, r);
      forall pe
        ensures pe in kids <==> HasKid(s, tr, l, pe) || HasKid(s, tr, r, pe)
        ensures pe in kids ==> (NoDifference(kids[pe]) <==> SameKids(s, tr, l, r, pe))
      {
        KidDifference(s, tr, l, r, pe);
      }
      if (l.Map? && r.Map?) || (l.List? && r.List?) {
        SameIff(s, tr, l, r);
      } else {
        var pe := SomeKid(s, tr, if Childless(l) then r else l);
        assert pe in kids && !SameKids(s, tr, l, r, pe);
        assert !SameUpToOrder(s, tr, l, r);
      }
    }
  }

  predicate Childless(v: Value) {
    FieldsOf(Some(v)) == map[] && ItemsOf(Some(v)) == []
  }

  lemma {:induction false} ChildlessSame(s: Schema, tr: TypeRef, l: Value, r: Value)
    requires ShapeOf(s, tr).LeafShape? || (Childless(l) && Childless(r))
    ensures SameUpToOrder(s, tr, l, r) <==> l == r
  {
    if !ShapeOf(s, tr).LeafShape? && l.Map? && r.Map? {
      assert l.fields == map[] && r.fields == map[];
    }
  }

  lemma {:induction false} SameGathered(s: Schema, tr: TypeRef, l: Value, r: Value)
    requires Plain(s, tr) && Valid(s, tr, l, true) && Valid(s, tr, r, true)
    requires !ShapeOf(s, tr).LeafShape? && !(Childless(l) && Childless(r))
    ensures var kids := KidComparisons(s, tr, Some(l), Some(r));
            NoDifference(Compare(s, tr, Some(l), Some(r))) <==> forall pe | pe in kids :: NoDifference(kids[pe])
  {
    PlainNode(s, tr);
    var a := Resolve(s, tr).value;
    assert Compare(s, tr, Some(l), Some(r)) == CompareAtom(s, a, Some(l), Some(r));
    assert ValidAtom(s, a, l, true) && ValidAtom(s, a, r, true);
    var kids := KidComparisons(s, tr, Some(l), Some(r));
    GatherNothing(kids);
  }

  lemma {:induction false} SomeKid(s: Schema, tr: TypeRef, v: Value) returns (pe: PathElement)
    requires Plain(s, tr) && Valid(s, tr, v, true) && !ShapeOf(s, tr).LeafShape? && !Childless(v)
    ensures HasKid(s, tr, v, pe)
  {
    PlainNode(s, tr);
    assert ValidAtom(s, Resolve(s, tr).value, v, true);
    if v.Map? {
      var k :| k in v.fields;
      pe := FieldName(k);
    } else {
      pe := Elements(s, ShapeOf(s, tr).lt, v.items)[0];
      ElementsSelect(s, tr, v, pe);
    }
  }

  /** One path element: nothing is found exactly if both have the same there. */
  lemma {:induction false} KidDifference(s: Schema, tr: TypeRef, l: Value, r: Value, pe: PathElement)
    requires Plain(s, tr) && Valid(s, tr, l, true) && Valid(s, tr, r, true)
    ensures var kids := KidComparisons(s, tr, Some(l), Some(r));
            (pe in kids <==> HasKid(s, tr, l, pe) || HasKid(s, tr, r, pe)) &&
            (pe in kids ==> (NoDifference(kids[pe]) <==> SameKids(s, tr, l, r, pe)))
    decreases l, 0
  {
    var ct, lg, rg := ChildType(s, tr, pe), Kids(s, tr, l, pe), Kids(s, tr, r, pe);
    KidsCompared(s, tr, Some(l), Some(r), pe);
    if lg != [] || rg != [] {
      KidsLoose(s, tr, Some(l), pe);
      KidsLoose(s, tr, Some(r), pe);
      RunsFound(s, ct, lg, rg, []);
      if |lg| == 1 && |rg| == 1 {
        assert lg[0] in lg;
        NoDifferenceIff(s, ct, lg[0], rg[0]);
      }
    }
  }

  /** The positions are those of all items from `from` on that have the element, and `g` has the items there, in order. */
  ghost predicate Selects(s: Schema, t: ListType, items: seq<Value>, pe: PathElement, from: nat, at: seq<nat>, g: seq<Value>) {
    |at| == |g| && (forall j, k | 0 <= j < k < |at| :: at[j] < at[k]) &&
    (forall j | 0 <= j < |at| :: from <= at[j] < |items| && g[j] == items[at[j]]) &&
    forall i | from <= i < |items| :: i in at <==> ItemElement(s, t, items[i]) == Some(pe)
  }

  /** The items an element selects are all that have it, in the order of the list. */
  lemma {:induction false} GroupExact(s: Schema, t: ListType, items: seq<Value>, pe: PathElement, from: nat) returns (at: seq<nat>)
    requires from <= |items|
    ensures Selects(s, t, items, pe, from, at, Group(s, t, items[from..], pe))
    decreases |items| - from
  {
    if from == |items| {
      at := [];
    } else {
      var rest := GroupExact(s, t, items, pe, from + 1);
      GroupNext(s, t, items, pe, from);
      SelectsNext(s, t, items, pe, from, rest, Group(s, t, items[from + 1..], pe));
      at := if ItemElement(s, t, items[from]) == Some(pe) then [from] + rest else rest;
    }
  }

  lemma {:induction false} GroupNext(s: Schema, t: ListType, items: seq<Value>, pe: PathElement, from: nat)
    requires from < |items|
    ensures var g := Group(s, t, items[from + 1..], pe);
            Group(s, t, items[from..], pe) == if ItemElement(s, t, items[from]) == Some(pe) then [items[from]] + g else g
  {
    assert items[from..][0] == items[from] && items[from..][1..] == items[from + 1..];
  }

  lemma {:induction false} SelectsNext(s: Schema, t: ListType, items: seq<Value>, pe: PathElement, from: nat, rest: seq<nat>, g: seq<Value>)
    requires from < |items| && Selects(s, t, items, pe, from + 1, rest, g)
    ensures if ItemElement(s, t, items[from]) == Some(pe)
            then Selects(s, t, items, pe, from, [from] + rest, [items[from]] + g)
            else Selects(s, t, items, pe, from, rest, g)
  {
  }

  /** No error is reported on valid operands. */
  lemma {:induction false} RunsOk(s: Schema, tr: TypeRef, l: Option<Value>, r: Option<Value>)
    requires Plain(s, tr) && Loose(s, tr, l) && Loose(s, tr, r) && (l.Some? || r.Some?)
    ensures Compare(s, tr, l, r).ok
    decreases OptHeight(l) + OptHeight(r)
  {
    PlainNode(s, tr);
    var a := Resolve(s, tr).value;
    assert Compare(s, tr, l, r) == CompareAtom(s, a, l, r);
    assert l.Some? ==> ValidAtom(s, a, l.value, true);
    assert r.Some? ==> ValidAtom(s, a, r.value, true);
    var kids := KidComparisons(s, tr, l, r);
    forall pe | pe in kids
      ensures kids[pe].ok
    {
      KidsCompared(s, tr, l, r, pe);
      KidsLoose(s, tr, l, pe);
      KidsLoose(s, tr, r, pe);
      RunOk(s, tr, l, r, pe);
    }
  }

  lemma {:induction false} RunOk(s: Schema, tr: TypeRef, l: Option<Value>, r: Option<Value>, pe: PathElement)
    requires Plain(s, tr) && Loose(s, tr, l) && Loose(s, tr, r) && (KidsOf(s, tr, l, pe) != [] || KidsOf(s, tr, r, pe) != [])
    ensures RunComparison(s, ChildType(s, tr, pe), KidsOf(s, tr, l, pe), KidsOf(s, tr, r, pe)).ok
    decreases OptHeight(l) + OptHeight(r), 0
  {
    var ct, lg, rg := ChildType(s, tr, pe), KidsOf(s, tr, l, pe), KidsOf(s, tr, r, pe);
    KidsLoose(s, tr, l, pe);
    KidsLoose(s, tr, r, pe);
    KidsHeight(s, tr, l, pe);
    KidsHeight(s, tr, r, pe);
    if |lg| <= 1 && |rg| <= 1 {
      RunsOk(s, ct, First(lg), First(rg));
    } else if |lg| >= 2 && |rg| == 1 {
      RunsOk(s, ct, None, First(rg));
    } else if |rg| >= 2 && |lg| == 1 {
      RunsOk(s, ct, First(lg), None);
    }
  }

  lemma {:induction false} KidsHeight(s: Schema, tr: TypeRef, o: Option<Value>, pe: PathElement)
    ensures var g := KidsOf(s, tr, o, pe);
            OptHeight(First(g)) <= OptHeight(o) && (g != [] ==> OptHeight(First(g)) < OptHeight(o))
  {
    if ShapeOf(s, tr).ListShape? && o.Some? && o.value.List? {
      GroupHeight(s, ShapeOf(s, tr).lt, o, pe);
    } else if pe.FieldName? {
      LookupHeight(o, pe.name);
    }
  }
}
