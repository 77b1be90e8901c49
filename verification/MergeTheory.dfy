/** Merging on plain schemas: type-preserving, right-biased, and child by child. */
module MergeTheory {
  import opened Values
  import opened PathElements
  import opened Schemas
  import opened Merging
  import opened ListMergeTheory
  import opened PlainSetting
  import opened ListKeys

  /** On a plain type the operands are merged by its one kind. */
  lemma {:induction false} MergeIsAtom(s: Schema, tr: TypeRef, l: Option<Value>, r: Option<Value>)
    requires Plain(s, tr) && (l.Some? || r.Some?)
    ensures Merge(s, tr, l, r) == MergeAtom(s, Resolve(s, tr).value, l, r)
  {
    PlainNode(s, tr);
  }

  /** The steps of one side alone take its items one after the other. */
  lemma {:induction false} OneSidedPlan(lk: seq<PathElement>, rk: seq<PathElement>, i: nat)
    requires (rk == [] && i <= |lk|) || (lk == [] && i <= |rk|)
    ensures rk == [] ==> Plan(lk, rk, i, 0) == seq(|lk| - i, x requires 0 <= x < |lk| - i => FromLeft(i + x))
    ensures lk == [] ==> Plan(lk, rk, 0, i) == seq(|rk| - i, x requires 0 <= x < |rk| - i => FromRight(i + x))
    decreases |lk| + |rk| - i
  {
    if i < |lk| + |rk| {
      OneSidedPlan(lk, rk, i + 1);
    }
  }

  /** If every step emits a value, the output has these values in order. */
  lemma {:induction false} MergeStepsAre(s: Schema, t: ListType, l: Option<Value>, r: Option<Value>, steps: seq<Step>)
    requires forall step | step in steps :: StepOk(l, r, step) && MergeStep(s, t, l, r, step).out.Some?
    ensures |MergeSteps(s, t, l, r, steps)| == |steps|
    ensures forall x | 0 <= x < |steps| ::
              MergeSteps(s, t, l, r, steps)[x] == MergeStep(s, t, l, r, steps[x]).out.value
  {
    if steps != [] {
      MergeStepsAre(s, t, l, r, steps[1..]);
    }
  }

  /** Merging with nothing gives the operand back, duplicates on the left included. */
  lemma {:induction false} MergeAlone(s: Schema, tr: TypeRef, v: Value, left: bool)
    requires Plain(s, tr) && Valid(s, tr, v, left)
    ensures left ==> Merge(s, tr, Some(v), None) == Merged(Some(v), true)
    ensures !left ==> Merge(s, tr, None, Some(v)) == Merged(Some(v), true)
    decreases v, 2
  {
    PlainNode(s, tr);
    var a := Resolve(s, tr).value;
    var l, r := if left then Some(v) else None, if left then None else Some(v);
    MergeIsAtom(s, tr, l, r);
    assert ValidAtom(s, a, v, left);
    match ShapeOf(s, tr)
    case LeafShape =>
    case MapShape(t) =>
      forall k | k in FieldsOf(Some(v))
        ensures MergeField(s, t, l, r, k) == Merged(Some(v.fields[k]), true)
      {
        KidValid(s, tr, v, FieldName(k), left);
        MergeAlone(s, FieldType(t, k), v.fields[k], left);
      }
      if FieldsOf(Some(v)) != map[] {
        var out := map k | k in FieldsOf(l).Keys + FieldsOf(r).Keys && MergeField(s, t, l, r, k).out.Some?
                     :: MergeField(s, t, l, r, k).out.value;
        assert out == v.fields;
      }
    case ListShape(t) =>
      if ItemsOf(Some(v)) != [] {
        MergeItemsAlone(s, tr, v, left);
      }
  }

  lemma {:induction false} MergeItemsAlone(s: Schema, tr: TypeRef, v: Value, left: bool)
    requires Plain(s, tr) && Valid(s, tr, v, left) && ShapeOf(s, tr).ListShape? && ItemsOf(Some(v)) != []
    ensures left ==> MergeAtom(s, Resolve(s, tr).value, Some(v), None) == Merged(Some(v), true)
    ensures !left ==> MergeAtom(s, Resolve(s, tr).value, None, Some(v)) == Merged(Some(v), true)
    decreases v, 1
  {
    PlainNode(s, tr);
    var t := ShapeOf(s, tr).lt;
    var l, r := if left then Some(v) else None, if left then None else Some(v);
    assert ValidAtom(s, Resolve(s, tr).value, v, left);
    var steps := Plan(Elements(s, t, ItemsOf(l)), Elements(s, t, ItemsOf(r)), 0, 0);
    StepsAlone(s, tr, v, left);
    assert MergeSteps(s, t, l, r, steps) == v.items;
  }

  /** The steps of one side alone emit its items. */
  lemma {:induction false} StepsAlone(s: Schema, tr: TypeRef, v: Value, left: bool)
    requires Plain(s, tr) && Valid(s, tr, v, left) && ShapeOf(s, tr).ListShape? && ItemsOf(Some(v)) != []
    ensures var t := ShapeOf(s, tr).lt;
            var l, r := if left then Some(v) else None, if left then None else Some(v);
            var steps := Plan(Elements(s, t, ItemsOf(l)), Elements(s, t, ItemsOf(r)), 0, 0);
            (forall step | step in steps :: StepOk(l, r, step)) && MergeSteps(s, t, l, r, steps) == v.items
    decreases v, 0
  {
    PlainNode(s, tr);
    var t := ShapeOf(s, tr).lt;
    var l, r := if left then Some(v) else None, if left then None else Some(v);
    var lk, rk := Elements(s, t, ItemsOf(l)), Elements(s, t, ItemsOf(r));
    var steps := Plan(lk, rk, 0, 0);
    OneSidedPlan(lk, rk, 0);
    assert ValidAtom(s, Resolve(s, tr).value, v, left);
    forall step | step in steps
      ensures StepOk(l, r, step)
      ensures MergeStep(s, t, l, r, step).out == Some(v.items[if left then step.i else step.j])
    {
      MergeAlone(s, t.elementType, v.items[if left then step.i else step.j], left);
    }
    MergeStepsAre(s, t, l, r, steps);
  }

  /** What the right item is merged with in a list: nothing, null for duplicates, or an item of the same key. */
  predicate Partner(s: Schema, t: ListType, x: Option<Value>, y: Value) {
    x.None? || x.value.Null? ||
    (Valid(s, t.elementType, x.value, true) && ItemElement(s, t, x.value) == ItemElement(s, t, y))
  }

  /** A merged list item keeps the path element of the right item. */
  lemma {:induction false} MergedElement(s: Schema, tr: TypeRef, x: Option<Value>, y: Value)
    requires Plain(s, tr) && ShapeOf(s, tr).ListShape?
    requires var t := ShapeOf(s, tr).lt;
             Valid(s, t.elementType, y, false) && ItemElement(s, t, y).Some? && Partner(s, t, x, y)
    ensures var t := ShapeOf(s, tr).lt;
            var m := Merge(s, t.elementType, x, Some(y)).out;
            m.Some? ==> ItemElement(s, t, m.value) == ItemElement(s, t, y)
  {
    PlainNode(s, tr);
    var t := ShapeOf(s, tr).lt;
    var m := Merge(s, t.elementType, x, Some(y)).out;
    PlainNode(s, t.elementType);
    var e := Resolve(s, t.elementType).value;
    MergeIsAtom(s, t.elementType, x, Some(y));
    assert ValidAtom(s, e, y, false);
    if m.Some? && t.keys != [] && ShapeOf(s, t.elementType).MapShape? && (FieldsOf(x) != map[] || y.fields != map[]) {
      forall k | k in t.keys
        ensures KeyValue(s, t, m.value.fields, k) == KeyValue(s, t, y.fields, k)
      {
        MergedKey(s, tr, x, y, k);
      }
      KeyFieldsDepend(s, t, t.keys, m.value.fields, y.fields);
    }
  }

  lemma {:induction false} MergedKey(s: Schema, tr: TypeRef, x: Option<Value>, y: Value, k: string)
    requires Plain(s, tr) && ShapeOf(s, tr).ListShape?
    requires var t := ShapeOf(s, tr).lt;
             k in t.keys && ShapeOf(s, t.elementType).MapShape? && y.Map? && (FieldsOf(x) != map[] || y.fields != map[]) &&
             Valid(s, t.elementType, y, false) && ItemElement(s, t, y).Some? && Partner(s, t, x, y) &&
             Merge(s, t.elementType, x, Some(y)).out.Some?
    ensures var t := ShapeOf(s, tr).lt;
            var m := Merge(s, t.elementType, x, Some(y)).out.value;
            m.Map? && KeyValue(s, t, m.fields, k) == KeyValue(s, t, y.fields, k)
  {
    PlainNode(s, tr);
    var t, et := ShapeOf(s, tr).lt, ShapeOf(s, tr).lt.elementType;
    PlainNode(s, et);
    MergeIsAtom(s, et, x, Some(y));
    var mt, r := ShapeOf(s, et).mt, Some(y);
    if k in y.fields {
      KidValid(s, et, y, FieldName(k), false);
      MergeScalar(s, FieldType(mt, k), Lookup(FieldsOf(x), k), y.fields[k]);
      assert MergeField(s, mt, x, r, k).out == Some(y.fields[k]);
    } else if k in FieldsOf(x) {
      KidValid(s, et, x.value, FieldName(k), true);
      SameKeys(s, t, x.value, y, k);
      MergeAlone(s, FieldType(mt, k), x.value.fields[k], true);
      assert MergeField(s, mt, x, r, k).out == Some(x.value.fields[k]);
    }
  }

  /** At a scalar the right value wins. */
  lemma {:induction false} MergeScalar(s: Schema, tr: TypeRef, x: Option<Value>, y: Value)
    requires ScalarType(s, tr) && Valid(s, tr, y, false)
    ensures Merge(s, tr, x, Some(y)).out == Some(y)
  {
    var a := Resolve(s, tr).value;
    assert DeduceAtom(a, Some(y)) == a && DeduceAtom(a, x) == a;
  }

  /** Without duplicates, the left index holds the left item. */
  lemma {:induction false} ObservedKid(s: Schema, tr: TypeRef, l: Option<Value>, pe: PathElement)
    requires Plain(s, tr) && ValidOpt(s, tr, l) && ShapeOf(s, tr).ListShape?
    ensures var t := ShapeOf(s, tr).lt;
            Observed(Elements(s, t, ItemsOf(l)), ItemsOf(l), pe) == KidOf(s, tr, l, pe)
  {
    if ItemsOf(l) != [] {
      ListElements(s, tr, l.value);
    }
  }

  /** What a step merges, in terms of children. */
  lemma {:induction false} StepKids(s: Schema, tr: TypeRef, l: Option<Value>, r: Option<Value>, step: Step)
    requires Plain(s, tr) && ValidOpt(s, tr, l) && ValidOpt(s, tr, r) && ShapeOf(s, tr).ListShape?
    requires StepOk(l, r, step)
    requires var t := ShapeOf(s, tr).lt;
             step.FromLeft? ==> Elements(s, t, ItemsOf(l))[step.i] !in Elements(s, t, ItemsOf(r))
    ensures var t := ShapeOf(s, tr).lt;
            var pe := KeyOf(Elements(s, t, ItemsOf(l)), Elements(s, t, ItemsOf(r)), step);
            var lk, rk := KidOf(s, tr, l, pe), KidOf(s, tr, r, pe);
            (lk.Some? || rk.Some?) &&
            MergeStep(s, t, l, r, step) == Merge(s, t.elementType, lk, rk) &&
            OptHeight(lk) + OptHeight(rk) < OptHeight(l) + OptHeight(r)
  {
    var t := ShapeOf(s, tr).lt;
    var li, ri := ItemsOf(l), ItemsOf(r);
    var lks, rks := Elements(s, t, li), Elements(s, t, ri);
    var pe := KeyOf(lks, rks, step);
    ObservedKid(s, tr, l, pe);
    ObservedHeight(s, t, l, pe);
    match step
    case FromLeft(i) =>
      ListElements(s, tr, l.value);
      IndexOfDistinct(lks, i);
      ItemsHeight(l, li[i]);
    case FromRight(j) =>
      ListElements(s, tr, r.value);
      IndexOfDistinct(rks, j);
      ItemsHeight(r, ri[j]);
  }

  /** Merging valid objects reports no error and gives a valid object. */
  lemma {:induction false} MergeValid(s: Schema, tr: TypeRef, l: Option<Value>, r: Option<Value>)
    requires Plain(s, tr) && ValidOpt(s, tr, l) && ValidOpt(s, tr, r) && (l.Some? || r.Some?)
    ensures var m := Merge(s, tr, l, r);
            m.ok && m.out.Some? && Valid(s, tr, m.out.value, false)
    decreases OptHeight(l) + OptHeight(r), 1
  {
    PlainNode(s, tr);
    var a := Resolve(s, tr).value;
    MergeIsAtom(s, tr, l, r);
    assert l.Some? ==> ValidAtom(s, a, l.value, false);
    assert r.Some? ==> ValidAtom(s, a, r.value, false);
    match ShapeOf(s, tr)
    case LeafShape =>
    case MapShape(t) => 
      if FieldsOf(l) != map[] || FieldsOf(r) != map[] {
        MergeValidMap(s, tr, l, r);
      }
    case ListShape(t) =>
      if ItemsOf(l) != [] || ItemsOf(r) != [] {
        MergeValidList(s, tr, l, r);
      }
  }

  lemma {:induction false} MergeValidMap(s: Schema, tr: TypeRef, l: Option<Value>, r: Option<Value>)
    requires Plain(s, tr) && ValidOpt(s, tr, l) && ValidOpt(s, tr, r) && ShapeOf(s, tr).MapShape?
    requires FieldsOf(l) != map[] || FieldsOf(r) != map[]
    ensures var m := MergeAtom(s, Resolve(s, tr).value, l, r);
            m.ok && m.out.Some? && m.out.value.Map? && Valid(s, tr, m.out.value, false)
    ensures var out := MergeAtom(s, Resolve(s, tr).value, l, r).out.value.fields;
            out.Keys == FieldsOf(l).Keys + FieldsOf(r).Keys &&
            forall k | k in out :: Some(out[k]) == MergeField(s, ShapeOf(s, tr).mt, l, r, k).out
    decreases OptHeight(l) + OptHeight(r), 0
  {
    PlainNode(s, tr);
    var a, t := Resolve(s, tr).value, ShapeOf(s, tr).mt;
    assert l.Some? ==> ValidAtom(s, a, l.value, false);
    assert r.Some? ==> ValidAtom(s, a, r.value, false);
    var ks := FieldsOf(l).Keys + FieldsOf(r).Keys;
    forall k | k in ks
      ensures MergeField(s, t, l, r, k).ok && MergeField(s, t, l, r, k).out.Some?
      ensures Valid(s, FieldType(t, k), MergeField(s, t, l, r, k).out.value, false)
    {
      LookupHeight(l, k);
      LookupHeight(r, k);
      KidValidOpt(s, tr, l, FieldName(k));
      KidValidOpt(s, tr, r, FieldName(k));
      MergeValid(s, FieldType(t, k), Lookup(FieldsOf(l), k), Lookup(FieldsOf(r), k));
    }
    var out := map k | k in ks && MergeField(s, t, l, r, k).out.Some? :: MergeField(s, t, l, r, k).out.value;
    assert out.Keys == ks;
    assert out != map[];
    assert MergeAtom(s, a, l, r) == Merged(Some(Map(out)), true);
    assert ValidAtom(s, a, Map(out), false);
  }

  lemma {:induction false} MergeValidList(s: Schema, tr: TypeRef, l: Option<Value>, r: Option<Value>)
    requires Plain(s, tr) && ValidOpt(s, tr, l) && ValidOpt(s, tr, r) && ShapeOf(s, tr).ListShape?
    requires ItemsOf(l) != [] || ItemsOf(r) != []
    ensures var m := MergeAtom(s, Resolve(s, tr).value, l, r);
            m.ok && m.out.Some? && m.out.value.List? && Valid(s, tr, m.out.value, false)
    ensures var t := ShapeOf(s, tr).lt;
            var lk, rk := Elements(s, t, ItemsOf(l)), Elements(s, t, ItemsOf(r));
            var out := MergeAtom(s, Resolve(s, tr).value, l, r).out.value.items;
            var steps := Plan(lk, rk, 0, 0);
            Elements(s, t, out) == PlanKeys(lk, rk, 0, 0) && |out| == |steps| &&
            forall x | 0 <= x < |out| :: StepOk(l, r, steps[x]) && Some(out[x]) == MergeStep(s, t, l, r, steps[x]).out
    decreases OptHeight(l) + OptHeight(r), 0, 2
  {
    PlainNode(s, tr);
    var a, t := Resolve(s, tr).value, ShapeOf(s, tr).lt;
    var lk, rk := Elements(s, t, ItemsOf(l)), Elements(s, t, ItemsOf(r));
    var steps := Plan(lk, rk, 0, 0);
    var out := StepOutputs(s, tr, l, r);
    assert MergeAtom(s, a, l, r) == Merged(Some(List(out)), true) by {
      assert l.Some? ==> ValidAtom(s, a, l.value, false);
      assert r.Some? ==> ValidAtom(s, a, r.value, false);
    }
    PlanSources(lk, rk, 0, 0);
    if ItemsOf(l) != [] {
      ListElements(s, tr, l.value);
    }
    if ItemsOf(r) != [] {
      ListElements(s, tr, r.value);
    }
    assert ValidAtom(s, a, List(out), false);
  }

  /** The items a list merge of valid operands emits. */
  lemma {:induction false} StepOutputs(s: Schema, tr: TypeRef, l: Option<Value>, r: Option<Value>) returns (out: seq<Value>)
    requires Plain(s, tr) && ValidOpt(s, tr, l) && ValidOpt(s, tr, r) && ShapeOf(s, tr).ListShape?
    requires ItemsOf(l) != [] || ItemsOf(r) != []
    ensures var t := ShapeOf(s, tr).lt;
            var lk, rk := Elements(s, t, ItemsOf(l)), Elements(s, t, ItemsOf(r));
            var steps := Plan(lk, rk, 0, 0);
            (forall step | step in steps :: StepOk(l, r, step)) &&
            out == MergeSteps(s, t, l, r, steps) && out != [] &&
            Elements(s, t, out) == PlanKeys(lk, rk, 0, 0) && |out| == |steps| &&
            (forall x | 0 <= x < |out| :: Some(out[x]) == MergeStep(s, t, l, r, steps[x]).out) &&
            (forall x | x in out :: Valid(s, t.elementType, x, false) && ItemElement(s, t, x).Some?)
    decreases OptHeight(l) + OptHeight(r), 0, 1
  {
    var t := ShapeOf(s, tr).lt;
    var lk, rk := Elements(s, t, ItemsOf(l)), Elements(s, t, ItemsOf(r));
    var steps := Plan(lk, rk, 0, 0);
    PlanSources(lk, rk, 0, 0);
    forall step | step in steps
      ensures StepOk(l, r, step) && MergeStep(s, t, l, r, step).out.Some?
      ensures Valid(s, t.elementType, MergeStep(s, t, l, r, step).out.value, false)
      ensures ItemElement(s, t, MergeStep(s, t, l, r, step).out.value) == Some(KeyOf(lk, rk, step))
    {
      assert InRange(lk, rk, step);
      MergedStepValid(s, tr, l, r, step);
    }
    out := MergeSteps(s, t, l, r, steps);
    Outputs(s, t, l, r, steps);
    PlanKeysAre(lk, rk, 0, 0);
    assert Elements(s, t, out) == PlanKeys(lk, rk, 0, 0);
    SomeStep(lk, rk);
  }

  /** The outputs of steps that all emit valid items. */
  lemma {:induction false} Outputs(s: Schema, t: ListType, l: Option<Value>, r: Option<Value>, steps: seq<Step>)
    requires forall step | step in steps ::
               StepOk(l, r, step) && MergeStep(s, t, l, r, step).out.Some? &&
               Valid(s, t.elementType, MergeStep(s, t, l, r, step).out.value, false) &&
               ItemElement(s, t, MergeStep(s, t, l, r, step).out.value).Some?
    ensures var out := MergeSteps(s, t, l, r, steps);
            |out| == |steps| &&
            (forall x | 0 <= x < |out| :: Some(out[x]) == MergeStep(s, t, l, r, steps[x]).out) &&
            (forall x | x in out :: Valid(s, t.elementType, x, false) && ItemElement(s, t, x).Some?)
  {
    MergeStepsAre(s, t, l, r, steps);
    var out := MergeSteps(s, t, l, r, steps);
    forall x | x in out
      ensures Valid(s, t.elementType, x, false) && ItemElement(s, t, x).Some?
    {
      var i :| 0 <= i < |out| && out[i] == x;
      assert steps[i] in steps;
    }
  }

  lemma {:induction false} SomeStep(lk: Keys, rk: Keys)
    requires lk != [] || rk != []
    ensures Plan(lk, rk, 0, 0) != []
  {
    PlanCovers(lk, rk);
    if rk != [] {
      assert FromRight(0) in Plan(lk, rk, 0, 0);
    } else {
      assert FromLeft(0) in Plan(lk, rk, 0, 0);
    }
  }

  lemma {:induction false} MergedStepValid(s: Schema, tr: TypeRef, l: Option<Value>, r: Option<Value>, step: Step)
    requires Plain(s, tr) && ValidOpt(s, tr, l) && ValidOpt(s, tr, r) && ShapeOf(s, tr).ListShape?
    requires StepOk(l, r, step)
    requires var t := ShapeOf(s, tr).lt;
             step.FromLeft? ==> Elements(s, t, ItemsOf(l))[step.i] !in Elements(s, t, ItemsOf(r))
    ensures var t := ShapeOf(s, tr).lt;
            var m := MergeStep(s, t, l, r, step).out;
            m.Some? && Valid(s, t.elementType, m.value, false) &&
            ItemElement(s, t, m.value) == Some(KeyOf(Elements(s, t, ItemsOf(l)), Elements(s, t, ItemsOf(r)), step))
    decreases OptHeight(l) + OptHeight(r), 0, 0
  {
    PlainNode(s, tr);
    var t := ShapeOf(s, tr).lt;
    var lk, rk := Elements(s, t, ItemsOf(l)), Elements(s, t, ItemsOf(r));
    var pe := KeyOf(lk, rk, step);
    StepKids(s, tr, l, r, step);
    KidValidOpt(s, tr, l, pe);
    KidValidOpt(s, tr, r, pe);
    MergeValid(s, t.elementType, KidOf(s, tr, l, pe), KidOf(s, tr, r, pe));
    match step
    case FromLeft(i) =>
      ListElements(s, tr, l.value);
      KidValid(s, tr, l.value, pe, false);
      MergeLeftAlone(s, t.elementType, KidOf(s, tr, l, pe).value);
    case FromRight(j) =>
      ListElements(s, tr, r.value);
      KidPartner(s, tr, l, ItemsOf(r)[j]);
      MergedElement(s, tr, KidOf(s, tr, l, pe), ItemsOf(r)[j]);
  }

  /** The left child of the right item's element is a partner. */
  lemma {:induction false} KidPartner(s: Schema, tr: TypeRef, l: Option<Value>, y: Value)
    requires Plain(s, tr) && ValidOpt(s, tr, l) && ShapeOf(s, tr).ListShape? && ItemElement(s, ShapeOf(s, tr).lt, y).Some?
    ensures Partner(s, ShapeOf(s, tr).lt, KidOf(s, tr, l, ElementOf(s, ShapeOf(s, tr).lt, y)), y)
  {
    var pe := ElementOf(s, ShapeOf(s, tr).lt, y);
    if KidOf(s, tr, l, pe).Some? {
      ListElements(s, tr, l.value);
      KidValid(s, tr, l.value, pe, false);
      AllowDuplicates(s, ChildType(s, tr, pe), Kid(s, tr, l.value, pe).value);
    }
  }

  lemma {:induction false} MergeLeftAlone(s: Schema, tr: TypeRef, v: Value)
    requires Plain(s, tr) && Valid(s, tr, v, false)
    ensures Merge(s, tr, Some(v), None) == Merged(Some(v), true)
  {
    AllowDuplicates(s, tr, v);
    MergeAlone(s, tr, v, true);
  }

  lemma {:induction false} AllowDuplicates(s: Schema, tr: TypeRef, v: Value)
    requires Valid(s, tr, v, false)
    ensures Valid(s, tr, v, true)
    decreases v
  {
    var a := DeduceAtom(Resolve(s, tr).value, Some(v));
    assert ValidAtom(s, a, v, false);
    if a.mapping.Some? && v.Map? {
      forall k | k in v.fields
        ensures Valid(s, FieldType(a.mapping.value, k), v.fields[k], true)
      {
        AllowDuplicates(s, FieldType(a.mapping.value, k), v.fields[k]);
      }
    } else if a.mapping.None? && a.scalar.None? && v.List? {
      forall x | x in v.items
        ensures Valid(s, a.list.value.elementType, x, true)
      {
        AllowDuplicates(s, a.list.value.elementType, x);
      }
    }
    assert ValidAtom(s, a, v, true);
  }

  /** What merging leaves where either operand, or none, may be absent. */
  function MergeOpt(s: Schema, tr: TypeRef, l: Option<Value>, r: Option<Value>): Option<Value> {
    if l.None? && r.None? then None else Merge(s, tr, l, r).out
  }

  /** A child of the merged object is the merge of the children. */
  lemma {:induction false} MergeKid(s: Schema, tr: TypeRef, l: Option<Value>, r: Option<Value>, pe: PathElement)
    requires Plain(s, tr) && ValidOpt(s, tr, l) && ValidOpt(s, tr, r) && (l.Some? || r.Some?)
    ensures KidOf(s, tr, Merge(s, tr, l, r).out, pe) ==
            MergeOpt(s, ChildType(s, tr, pe), KidOf(s, tr, l, pe), KidOf(s, tr, r, pe))
  {
    PlainNode(s, tr);
    MergeIsAtom(s, tr, l, r);
    match ShapeOf(s, tr)
    case LeafShape =>
    case MapShape(t) =>
      if FieldsOf(l) != map[] || FieldsOf(r) != map[] {
        MergeValidMap(s, tr, l, r);
      }
    case ListShape(t) =>
      if ItemsOf(l) != [] || ItemsOf(r) != [] {
        MergeItem(s, tr, l, r, pe);
      }
  }

  lemma {:induction false} MergeItem(s: Schema, tr: TypeRef, l: Option<Value>, r: Option<Value>, pe: PathElement)
    requires Plain(s, tr) && ValidOpt(s, tr, l) && ValidOpt(s, tr, r) && ShapeOf(s, tr).ListShape?
    requires ItemsOf(l) != [] || ItemsOf(r) != []
    ensures KidOf(s, tr, MergeAtom(s, Resolve(s, tr).value, l, r).out, pe) ==
            MergeOpt(s, ShapeOf(s, tr).lt.elementType, KidOf(s, tr, l, pe), KidOf(s, tr, r, pe))
  {
    var t := ShapeOf(s, tr).lt;
    var lk, rk := Elements(s, t, ItemsOf(l)), Elements(s, t, ItemsOf(r));
    var steps := Plan(lk, rk, 0, 0);
    MergeValidList(s, tr, l, r);
    var out := MergeAtom(s, Resolve(s, tr).value, l, r).out.value;
    ListElements(s, tr, out);
    PlanSources(lk, rk, 0, 0);
    PlanKeysAre(lk, rk, 0, 0);
    PlanCovers(lk, rk);
    if pe in rk || pe in lk {
      var step := if pe in rk then FromRight(IndexOf(rk, pe)) else FromLeft(IndexOf(lk, pe));
      assert step in steps;
      var x :| 0 <= x < |steps| && steps[x] == step;
      assert Elements(s, t, out.items)[x] == pe;
      IndexOfDistinct(Elements(s, t, out.items), x);
      StepKids(s, tr, l, r, step);
    }
  }

  /** The node of the merged object at any path is the merge of the nodes. */
  lemma {:induction false} MergeAt(s: Schema, tr: TypeRef, l: Option<Value>, r: Option<Value>, p: Path)
    requires Plain(s, tr) && ValidOpt(s, tr, l) && ValidOpt(s, tr, r) && (l.Some? || r.Some?)
    ensures At(s, tr, Merge(s, tr, l, r).out, p) ==
            MergeOpt(s, TypeAt(s, tr, p), At(s, tr, l, p), At(s, tr, r, p))
    ensures At(s, tr, l, p).Some? || At(s, tr, r, p).Some? ==> Plain(s, TypeAt(s, tr, p))
    ensures ValidOpt(s, TypeAt(s, tr, p), At(s, tr, l, p)) && ValidOpt(s, TypeAt(s, tr, p), At(s, tr, r, p))
    decreases |p|
  {
    if p != [] {
      var pe, rest, ct := p[0], p[1..], ChildType(s, tr, p[0]);
      var lk, rk := KidOf(s, tr, l, pe), KidOf(s, tr, r, pe);
      MergeKid(s, tr, l, r, pe);
      if lk.None? && rk.None? {
        AtNone(s, ct, rest);
      } else {
        KidValidOpt(s, tr, l, pe);
        KidValidOpt(s, tr, r, pe);
        MergeAt(s, ct, lk, rk, rest);
      }
    }
  }

  /** No path is lost, none but the operands' appears, and at leaves the right value wins. */
  lemma {:induction false} MergePaths(s: Schema, tr: TypeRef, l: Value, r: Value)
    requires Plain(s, tr) && Valid(s, tr, l, false) && Valid(s, tr, r, false)
    ensures var m := Merge(s, tr, Some(l), Some(r));
            m.ok && m.out.Some? && Valid(s, tr, m.out.value, false) &&
            AllPaths(s, tr, m.out.value) == AllPaths(s, tr, l) + AllPaths(s, tr, r)
  {
    MergeValid(s, tr, Some(l), Some(r));
    var m := Merge(s, tr, Some(l), Some(r)).out.value;
    forall p
      ensures p in AllPaths(s, tr, m) <==> p in AllPaths(s, tr, l) + AllPaths(s, tr, r)
    {
      AllPathsIn(s, tr, l, p);
      AllPathsIn(s, tr, r, p);
      AllPathsIn(s, tr, m, p);
      MergeAt(s, tr, Some(l), Some(r), p);
      var lv, rv := At(s, tr, Some(l), p), At(s, tr, Some(r), p);
      if lv.Some? || rv.Some? {
        MergeValid(s, TypeAt(s, tr, p), lv, rv);
      }
    }
  }

  /** A path that only the left has keeps its node; at a leaf the right value wins. */
  lemma {:induction false} MergeBias(s: Schema, tr: TypeRef, l: Value, r: Value, p: Path)
    requires Plain(s, tr) && Valid(s, tr, l, false) && Valid(s, tr, r, false)
    ensures var m := At(s, tr, Merge(s, tr, Some(l), Some(r)).out, p);
            var lv, rv := At(s, tr, Some(l), p), At(s, tr, Some(r), p);
            (rv.None? ==> m == lv) && (lv.None? ==> m == rv) &&
            (rv.Some? && ShapeOf(s, TypeAt(s, tr, p)).LeafShape? ==> m == rv)
  {
    MergeAt(s, tr, Some(l), Some(r), p);
    var lv, rv, pt := At(s, tr, Some(l), p), At(s, tr, Some(r), p), TypeAt(s, tr, p);
    if lv.Some? && rv.None? {
      MergeLeftAlone(s, pt, lv.value);
    } else if lv.None? && rv.Some? {
      MergeAlone(s, pt, rv.value, false);
    } else if rv.Some? {
      PlainNode(s, pt);
      MergeIsAtom(s, pt, lv, rv);
      assert ValidAtom(s, Resolve(s, pt).value, rv.value, false);
    }
  }
}
