/** When an object already holds a configuration: merging it again changes nothing. */
module Absorption {
  import opened Values
  import opened PathElements
  import opened Schemas
  import opened Merging
  import opened ListMergeTheory
  import opened PlainSetting
  import opened MergeTheory

  /** Every leaf of `c` is in `v`, and the keyed items of `c` are in `v` in the same order. */
  predicate Holds(s: Schema, tr: TypeRef, v: Value, c: Value)
    decreases c
  {
    match ShapeOf(s, tr)
    case LeafShape => v == c
    case MapShape(t) =>
      if FieldsOf(Some(c)) == map[] then v == c || FieldsOf(Some(v)) != map[]
      else v.Map? && forall k | k in c.fields :: k in v.fields && Holds(s, FieldType(t, k), v.fields[k], c.fields[k])
    case ListShape(t) =>
      if ItemsOf(Some(c)) == [] then v == c || ItemsOf(Some(v)) != []
      else
        v.List? &&
        var vk, ck := Elements(s, t, v.items), Elements(s, t, c.items);
        Only(vk, ck) == ck &&
        forall j | 0 <= j < |ck| ::
          ck[j] in vk && Holds(s, t.elementType, v.items[IndexOf(vk, ck[j])], c.items[j])
  }

  lemma {:induction false} OnlyOnce(xs: Keys, ks: Keys, a: nat, b: nat)
    requires Distinct(Only(xs, ks)) && a < b < |xs| && xs[a] in ks
    ensures xs[a] != xs[b]
  {
    if a == 0 {
      OnlyIn(xs[1..], ks, xs[0]);
      var rest := Only(xs[1..], ks);
      assert Only(xs, ks) == [xs[0]] + rest;
      assert xs[b] == xs[1..][b - 1];
      forall i | 0 <= i < |rest|
        ensures rest[i] != xs[0]
      {
        assert Only(xs, ks)[0] == xs[0] && Only(xs, ks)[i + 1] == rest[i];
      }
    } else {
      var o := Only(xs[1..], ks);
      assert Only(xs, ks) == (if xs[0] in ks then [xs[0]] else []) + o;
      assert Distinct(o) by {
        forall i, j | 0 <= i < j < |o|
          ensures o[i] != o[j]
        {
          var d := if xs[0] in ks then 1 else 0;
          assert Only(xs, ks)[i + d] == o[i] && Only(xs, ks)[j + d] == o[j];
        }
      }
      OnlyOnce(xs[1..], ks, a - 1, b - 1);
    }
  }

  /** A key of the right occurs once on the left, so the left index holds its item. */
  lemma {:induction false} ObservedOnce(vk: Keys, items: seq<Value>, ck: Keys, i: nat)
    requires |vk| == |items| && Only(vk, ck) == ck && Distinct(ck) && i < |vk| && vk[i] in ck
    ensures Observed(vk, items, vk[i]) == Some(items[i]) && IndexOf(vk, vk[i]) == i
  {
    forall x | 0 <= x < |vk| && x != i
      ensures vk[x] != vk[i]
    {
      if vk[x] in ck {
        OnlyOnce(vk, ck, if x < i then x else i, if x < i then i else x);
      }
    }
    var j := IndexOf(vk, vk[i]);
    assert vk[j] == vk[i];
  }

  /** Merging what is already held changes nothing. */
  lemma {:induction false} MergeHeld(s: Schema, tr: TypeRef, v: Value, c: Value)
    requires Plain(s, tr) && Valid(s, tr, v, true) && Valid(s, tr, c, false) && Holds(s, tr, v, c)
    ensures Merge(s, tr, Some(v), Some(c)) == Merged(Some(v), true)
    decreases v, 1
  {
    PlainNode(s, tr);
    var a := Resolve(s, tr).value;
    var l, r := Some(v), Some(c);
    MergeIsAtom(s, tr, l, r);
    assert ValidAtom(s, a, v, true) && ValidAtom(s, a, c, false);
    match ShapeOf(s, tr)
    case LeafShape =>
    case MapShape(t) =>
      if FieldsOf(l) != map[] {
        forall k | k in v.fields
          ensures MergeField(s, t, l, r, k) == Merged(Some(v.fields[k]), true)
        {
          KidValid(s, tr, v, FieldName(k), true);
          if k in FieldsOf(r) {
            KidValid(s, tr, c, FieldName(k), false);
            MergeHeld(s, FieldType(t, k), v.fields[k], c.fields[k]);
          } else {
            MergeAlone(s, FieldType(t, k), v.fields[k], true);
          }
        }
        assert FieldsOf(l).Keys + FieldsOf(r).Keys == v.fields.Keys;
        var out := map k | k in FieldsOf(l).Keys + FieldsOf(r).Keys && MergeField(s, t, l, r, k).out.Some?
                     :: MergeField(s, t, l, r, k).out.value;
        assert out == v.fields;
      }
    case ListShape(t) =>
      if ItemsOf(l) != [] {
        var vk, ck := Elements(s, t, v.items), Elements(s, t, ItemsOf(r));
        assert Only(vk, ck) == ck by {
          if ck == [] {
            OnlyNothing(vk);
          }
        }
        MergeHeldItems(s, tr, v, c);
      }
  }

  lemma {:induction false} OnlyNothing(xs: Keys)
    ensures Only(xs, []) == []
  {
    if xs != [] {
      OnlyNothing(xs[1..]);
    }
  }

  /** If the right is the left's shared part in the same order, step `x` emits the left's item `i + x`. */
  lemma {:induction false} IdentitySteps(lk: Keys, rk: Keys, i: nat, j: nat)
    requires i <= |lk| && j <= |rk| && Only(lk[i..], rk) == rk[j..]
    ensures var steps := Plan(lk, rk, i, j);
            |steps| == |lk| - i &&
            forall x | 0 <= x < |steps| ::
              steps[x] == FromLeft(i + x) || (steps[x].FromRight? && steps[x].j < |rk| && rk[steps[x].j] == lk[i + x])
    decreases |lk| - i
  {
    if i < |lk| {
      IdentityRound(lk, rk, i, j);
      IdentitySteps(lk, rk, i + 1, if lk[i] in rk then j + 1 else j);
    }
  }

  lemma {:induction false} MergeHeldItems(s: Schema, tr: TypeRef, v: Value, c: Value)
    requires Plain(s, tr) && Valid(s, tr, v, true) && Valid(s, tr, c, false) && Holds(s, tr, v, c)
    requires ShapeOf(s, tr).ListShape? && ItemsOf(Some(v)) != []
    requires var t := ShapeOf(s, tr).lt;
             var vk, ck := Elements(s, t, v.items), Elements(s, t, ItemsOf(Some(c)));
             Only(vk, ck) == ck
    ensures var t := ShapeOf(s, tr).lt;
            var steps := Plan(Elements(s, t, v.items), Elements(s, t, ItemsOf(Some(c))), 0, 0);
            (forall step | step in steps :: StepOk(Some(v), Some(c), step)) &&
            MergeSteps(s, t, Some(v), Some(c), steps) == v.items
    decreases v, 0, 1
  {
    var t := ShapeOf(s, tr).lt;
    var vk, ck := Elements(s, t, v.items), Elements(s, t, ItemsOf(Some(c)));
    var steps := Plan(vk, ck, 0, 0);
    assert vk[0..] == vk && ck[0..] == ck;
    IdentitySteps(vk, ck, 0, 0);
    forall x | 0 <= x < |steps|
      ensures Emits(s, t, Some(v), Some(c), steps[x], v.items[x])
    {
      HeldEmits(s, tr, v, c, x, steps[x]);
    }
    EmitsAll(s, t, Some(v), Some(c), steps, v.items);
  }

  lemma {:induction false} HeldEmits(s: Schema, tr: TypeRef, v: Value, c: Value, x: nat, step: Step)
    requires Plain(s, tr) && Valid(s, tr, v, true) && Valid(s, tr, c, false) && Holds(s, tr, v, c)
    requires ShapeOf(s, tr).ListShape? && x < |ItemsOf(Some(v))|
    requires var t := ShapeOf(s, tr).lt;
             var vk, ck := Elements(s, t, v.items), Elements(s, t, ItemsOf(Some(c)));
             Only(vk, ck) == ck && (step == FromLeft(x) || (step.FromRight? && step.j < |ck| && ck[step.j] == vk[x]))
    ensures Emits(s, ShapeOf(s, tr).lt, Some(v), Some(c), step, v.items[x])
    decreases v, 0, 0, 1
  {
    MergeHeldItem(s, tr, v, c, x, step);
  }

  predicate Emits(s: Schema, t: ListType, l: Option<Value>, r: Option<Value>, step: Step, x: Value) {
    StepOk(l, r, step) && MergeStep(s, t, l, r, step).out == Some(x)
  }

  lemma {:induction false} EmitsAll(s: Schema, t: ListType, l: Option<Value>, r: Option<Value>, steps: seq<Step>, items: seq<Value>)
    requires |steps| == |items| && forall x | 0 <= x < |steps| :: Emits(s, t, l, r, steps[x], items[x])
    ensures (forall step | step in steps :: StepOk(l, r, step)) && MergeSteps(s, t, l, r, steps) == items
  {
    forall step | step in steps
      ensures StepOk(l, r, step) && MergeStep(s, t, l, r, step).out.Some?
    {
      var x :| 0 <= x < |steps| && steps[x] == step;
      assert Emits(s, t, l, r, steps[x], items[x]);
    }
    MergeStepsAre(s, t, l, r, steps);
    forall x | 0 <= x < |steps|
      ensures MergeSteps(s, t, l, r, steps)[x] == items[x]
    {
      assert Emits(s, t, l, r, steps[x], items[x]);
    }
  }

  lemma {:induction false} MergeHeldItem(s: Schema, tr: TypeRef, v: Value, c: Value, i: nat, step: Step)
    requires Plain(s, tr) && Valid(s, tr, v, true) && Valid(s, tr, c, false) && Holds(s, tr, v, c)
    requires ShapeOf(s, tr).ListShape? && i < |ItemsOf(Some(v))| && StepOk(Some(v), Some(c), step)
    requires var t := ShapeOf(s, tr).lt;
             var vk, ck := Elements(s, t, v.items), Elements(s, t, ItemsOf(Some(c)));
             Only(vk, ck) == ck && (step == FromLeft(i) || (step.FromRight? && ck[step.j] == vk[i]))
    ensures MergeStep(s, ShapeOf(s, tr).lt, Some(v), Some(c), step).out == Some(v.items[i])
    decreases v, 0, 0, 0
  {
    PlainNode(s, tr);
    var t := ShapeOf(s, tr).lt;
    assert ValidAtom(s, Resolve(s, tr).value, v, true) && ValidAtom(s, Resolve(s, tr).value, c, false);
    if step.FromRight? {
      var vk, ck := Elements(s, t, v.items), Elements(s, t, ItemsOf(Some(c)));
      ObservedOnce(vk, v.items, ck, i);
      assert Holds(s, t.elementType, v.items[i], c.items[step.j]);
      MergeHeld(s, t.elementType, v.items[i], c.items[step.j]);
    } else {
      MergeAlone(s, t.elementType, v.items[i], true);
    }
  }

  /** A valid object holds itself. */
  lemma {:induction false} HoldsItself(s: Schema, tr: TypeRef, v: Value)
    requires Plain(s, tr) && Valid(s, tr, v, false)
    ensures Holds(s, tr, v, v)
    decreases v, 1
  {
    match ShapeOf(s, tr)
    case LeafShape =>
    case MapShape(t) =>
      forall k | k in FieldsOf(Some(v))
        ensures Holds(s, FieldType(t, k), v.fields[k], v.fields[k])
      {
        KidValid(s, tr, v, FieldName(k), false);
        HoldsItself(s, FieldType(t, k), v.fields[k]);
      }
    case ListShape(t) =>
      if ItemsOf(Some(v)) != [] {
        var vk := Elements(s, t, v.items);
        OnlyAll(vk, vk);
        forall j | 0 <= j < |vk|
          ensures vk[j] in vk && Holds(s, t.elementType, v.items[IndexOf(vk, vk[j])], v.items[j])
        {
          ItemHoldsItself(s, tr, v, j);
        }
      }
  }

  lemma {:induction false} ItemHoldsItself(s: Schema, tr: TypeRef, v: Value, j: nat)
    requires Plain(s, tr) && Valid(s, tr, v, false) && ShapeOf(s, tr).ListShape? && v.List? && j < |v.items|
    ensures var vk := Elements(s, ShapeOf(s, tr).lt, v.items);
            IndexOf(vk, vk[j]) == j && Holds(s, ShapeOf(s, tr).lt.elementType, v.items[j], v.items[j])
    decreases v, 0
  {
    var vk := Elements(s, ShapeOf(s, tr).lt, v.items);
    ListElements(s, tr, v);
    IndexOfDistinct(vk, j);
    KidValid(s, tr, v, vk[j], false);
    HoldsItself(s, ShapeOf(s, tr).lt.elementType, v.items[j]);
  }

  lemma {:induction false} OnlyAll(xs: Keys, ks: Keys)
    requires forall x | x in xs :: x in ks
    ensures Only(xs, ks) == xs
  {
    if xs != [] {
      assert xs[0] in xs;
      OnlyAll(xs[1..], ks);
    }
  }

  /** The merged object holds the right operand; the left one may be absent or have duplicates. */
  lemma {:induction false} MergeHolds(s: Schema, tr: TypeRef, l: Option<Value>, c: Value)
    requires Plain(s, tr) && (l.Some? ==> Valid(s, tr, l.value, true)) && Valid(s, tr, c, false)
    ensures var m := Merge(s, tr, l, Some(c));
            m.ok && m.out.Some? && Valid(s, tr, m.out.value, true) && Holds(s, tr, m.out.value, c)
    decreases OptHeight(l) + OptHeight(Some(c)), 1
  {
    PlainNode(s, tr);
    var a := Resolve(s, tr).value;
    MergeIsAtom(s, tr, l, Some(c));
    assert l.Some? ==> ValidAtom(s, a, l.value, true);
    assert ValidAtom(s, a, c, false);
    AllowDuplicates(s, tr, c);
    match ShapeOf(s, tr)
    case LeafShape =>
    case MapShape(t) =>
      if FieldsOf(l) != map[] || FieldsOf(Some(c)) != map[] {
        MapHolds(s, tr, l, c);
      }
    case ListShape(t) =>
      if ItemsOf(l) != [] || ItemsOf(Some(c)) != [] {
        ListHolds(s, tr, l, c);
      }
  }

  lemma {:induction false} MapHolds(s: Schema, tr: TypeRef, l: Option<Value>, c: Value)
    requires Plain(s, tr) && (l.Some? ==> Valid(s, tr, l.value, true)) && Valid(s, tr, c, false)
    requires ShapeOf(s, tr).MapShape? && (FieldsOf(l) != map[] || FieldsOf(Some(c)) != map[])
    ensures var m := MergeAtom(s, Resolve(s, tr).value, l, Some(c));
            m.ok && m.out.Some? && Valid(s, tr, m.out.value, true) && Holds(s, tr, m.out.value, c)
    decreases OptHeight(l) + OptHeight(Some(c)), 0
  {
    PlainNode(s, tr);
    var a, t, r := Resolve(s, tr).value, ShapeOf(s, tr).mt, Some(c);
    assert l.Some? ==> ValidAtom(s, a, l.value, true);
    assert ValidAtom(s, a, c, false);
    var ks := FieldsOf(l).Keys + FieldsOf(r).Keys;
    forall k | k in ks
      ensures MergeField(s, t, l, r, k).ok && MergeField(s, t, l, r, k).out.Some?
      ensures Valid(s, FieldType(t, k), MergeField(s, t, l, r, k).out.value, true)
      ensures k in FieldsOf(r) ==> Holds(s, FieldType(t, k), MergeField(s, t, l, r, k).out.value, c.fields[k])
    {
      LookupHeight(l, k);
      LookupHeight(r, k);
      if k in FieldsOf(l) {
        KidValid(s, tr, l.value, FieldName(k), true);
      }
      if k in FieldsOf(r) {
        KidValid(s, tr, c, FieldName(k), false);
        MergeHolds(s, FieldType(t, k), Lookup(FieldsOf(l), k), c.fields[k]);
      } else {
        MergeAlone(s, FieldType(t, k), FieldsOf(l)[k], true);
      }
    }
    var out := map k | k in ks && MergeField(s, t, l, r, k).out.Some? :: MergeField(s, t, l, r, k).out.value;
    assert out.Keys == ks;
    assert out != map[];
    assert MergeAtom(s, a, l, r) == Merged(Some(Map(out)), true);
    assert ValidAtom(s, a, Map(out), true);
  }

  lemma {:induction false} ListHolds(s: Schema, tr: TypeRef, l: Option<Value>, c: Value)
    requires Plain(s, tr) && (l.Some? ==> Valid(s, tr, l.value, true)) && Valid(s, tr, c, false)
    requires ShapeOf(s, tr).ListShape? && (ItemsOf(l) != [] || ItemsOf(Some(c)) != [])
    ensures var m := MergeAtom(s, Resolve(s, tr).value, l, Some(c));
            m.ok && m.out.Some? && Valid(s, tr, m.out.value, true) && Holds(s, tr, m.out.value, c)
    decreases OptHeight(l) + OptHeight(Some(c)), 0, 2
  {
    PlainNode(s, tr);
    var a, t, r := Resolve(s, tr).value, ShapeOf(s, tr).lt, Some(c);
    var lk, ck := Elements(s, t, ItemsOf(l)), Elements(s, t, ItemsOf(r));
    var steps := Plan(lk, ck, 0, 0);
    assert MergeAtom(s, a, l, r).ok && ValidAtom(s, a, c, false) by {
      assert l.Some? ==> ValidAtom(s, a, l.value, true);
      assert ValidAtom(s, a, c, false);
    }
    var out := HeldOutputs(s, tr, l, c);
    assert MergeAtom(s, a, l, r) == Merged(Some(List(out)), true);
    assert ValidAtom(s, a, List(out), true);
    if ck != [] {
      var ok := Elements(s, t, out);
      PlanRestricted(lk, ck, 0, 0);
      forall j | 0 <= j < |ck|
        ensures ck[j] in ok && Holds(s, t.elementType, out[IndexOf(ok, ck[j])], c.items[j])
      {
        EmittedOnce(lk, ck, j);
      }
    }
  }

  /** A key of the right is emitted by the step that takes it from the right. */
  lemma {:induction false} EmittedOnce(lk: Keys, ck: Keys, j: nat)
    requires j < |ck| && Distinct(ck)
    ensures var ks, steps := PlanKeys(lk, ck, 0, 0), Plan(lk, ck, 0, 0);
            ck[j] in ks && |ks| == |steps| && steps[IndexOf(ks, ck[j])] == FromRight(j)
  {
    var ks, steps := PlanKeys(lk, ck, 0, 0), Plan(lk, ck, 0, 0);
    PlanKeysAre(lk, ck, 0, 0);
    PlanSources(lk, ck, 0, 0);
    PlanCovers(lk, ck);
    assert FromRight(j) in steps;
    var x :| 0 <= x < |steps| && steps[x] == FromRight(j);
    assert ks[x] == ck[j];
    var y := IndexOf(ks, ck[j]);
    assert KeyOf(lk, ck, steps[y]) == ck[j] && steps[y] in steps;
  }

  lemma {:induction false} HeldOutputs(s: Schema, tr: TypeRef, l: Option<Value>, c: Value) returns (out: seq<Value>)
    requires Plain(s, tr) && (l.Some? ==> Valid(s, tr, l.value, true)) && Valid(s, tr, c, false)
    requires ShapeOf(s, tr).ListShape? && (ItemsOf(l) != [] || ItemsOf(Some(c)) != [])
    ensures var t := ShapeOf(s, tr).lt;
            var lk, ck := Elements(s, t, ItemsOf(l)), Elements(s, t, ItemsOf(Some(c)));
            var steps := Plan(lk, ck, 0, 0);
            (forall step | step in steps :: StepOk(l, Some(c), step)) &&
            out == MergeSteps(s, t, l, Some(c), steps) && out != [] &&
            Elements(s, t, out) == PlanKeys(lk, ck, 0, 0) && |out| == |steps| &&
            (forall x | 0 <= x < |out| && steps[x].FromRight? ::
               steps[x].j < |ItemsOf(Some(c))| && Holds(s, t.elementType, out[x], ItemsOf(Some(c))[steps[x].j])) &&
            (forall x | x in out :: Valid(s, t.elementType, x, true) && ItemElement(s, t, x).Some?)
    decreases OptHeight(l) + OptHeight(Some(c)), 0, 1
  {
    var t, r := ShapeOf(s, tr).lt, Some(c);
    var lk, ck := Elements(s, t, ItemsOf(l)), Elements(s, t, ItemsOf(r));
    var steps := Plan(lk, ck, 0, 0);
    forall step | step in steps
      ensures StepOk(l, r, step) && MergeStep(s, t, l, r, step).out.Some?
      ensures Valid(s, t.elementType, MergeStep(s, t, l, r, step).out.value, true)
      ensures ItemElement(s, t, MergeStep(s, t, l, r, step).out.value) == Some(KeyOf(lk, ck, step))
      ensures step.FromRight? ==> Holds(s, t.elementType, MergeStep(s, t, l, r, step).out.value, c.items[step.j])
    {
      assert InRange(lk, ck, step);
      HeldStep(s, tr, l, c, step);
    }
    MergeStepsAre(s, t, l, r, steps);
    out := MergeSteps(s, t, l, r, steps);
    PlanKeysAre(lk, ck, 0, 0);
    assert Elements(s, t, out) == PlanKeys(lk, ck, 0, 0);
    SomeStep(lk, ck);
  }

  lemma {:induction false} HeldStep(s: Schema, tr: TypeRef, l: Option<Value>, c: Value, step: Step)
    requires Plain(s, tr) && (l.Some? ==> Valid(s, tr, l.value, true)) && Valid(s, tr, c, false)
    requires ShapeOf(s, tr).ListShape? && StepOk(l, Some(c), step)
    ensures var t := ShapeOf(s, tr).lt;
            var m := MergeStep(s, t, l, Some(c), step).out;
            m.Some? && Valid(s, t.elementType, m.value, true) &&
            ItemElement(s, t, m.value) == Some(KeyOf(Elements(s, t, ItemsOf(l)), Elements(s, t, ItemsOf(Some(c))), step)) &&
            (step.FromRight? ==> Holds(s, t.elementType, m.value, c.items[step.j]))
    decreases OptHeight(l) + OptHeight(Some(c)), 0, 0
  {
    PlainNode(s, tr);
    var a, t, r := Resolve(s, tr).value, ShapeOf(s, tr).lt, Some(c);
    assert l.Some? ==> ValidAtom(s, a, l.value, true);
    assert ValidAtom(s, a, c, false);
    match step
    case FromLeft(i) =>
      MergeAlone(s, t.elementType, ItemsOf(l)[i], true);
    case FromRight(j) =>
      var lk, y := Elements(s, t, ItemsOf(l)), c.items[j];
      var pe := ElementOf(s, t, y);
      var x := Observed(lk, ItemsOf(l), pe);
      ObservedHeight(s, t, l, pe);
      ItemsHeight(r, y);
      NullValid(s, t.elementType);
      MergeHolds(s, t.elementType, x, y);
      ObservedPartner(s, tr, l, y);
      MergedElement(s, tr, x, y);
  }

  lemma {:induction false} ObservedPartner(s: Schema, tr: TypeRef, l: Option<Value>, y: Value)
    requires Plain(s, tr) && (l.Some? ==> Valid(s, tr, l.value, true)) && ShapeOf(s, tr).ListShape?
    requires ItemElement(s, ShapeOf(s, tr).lt, y).Some?
    ensures var t := ShapeOf(s, tr).lt;
            Partner(s, t, Observed(Elements(s, t, ItemsOf(l)), ItemsOf(l), ElementOf(s, t, y)), y)
  {
    PlainNode(s, tr);
    assert l.Some? ==> ValidAtom(s, Resolve(s, tr).value, l.value, true);
  }

  lemma {:induction false} NullValid(s: Schema, tr: TypeRef)
    requires Plain(s, tr)
    ensures Valid(s, tr, Null, true)
  {
    PlainNode(s, tr);
    assert ValidAtom(s, Resolve(s, tr).value, Null, true);
  }

  /** Merging an object with itself gives it back. */
  lemma {:induction false} MergeIdempotent(s: Schema, tr: TypeRef, v: Value)
    requires Plain(s, tr) && Valid(s, tr, v, false)
    ensures Merge(s, tr, Some(v), Some(v)) == Merged(Some(v), true)
  {
    HoldsItself(s, tr, v);
    AllowDuplicates(s, tr, v);
    MergeHeld(s, tr, v, v);
  }

  /** Merging the same operand twice is merging it once, duplicates on the left included. */
  lemma {:induction false} MergeAbsorbs(s: Schema, tr: TypeRef, l: Value, r: Value)
    requires Plain(s, tr) && Valid(s, tr, l, true) && Valid(s, tr, r, false)
    ensures var m := Merge(s, tr, Some(l), Some(r));
            m.ok && m.out.Some? && Merge(s, tr, m.out, Some(r)) == m
  {
    MergeHolds(s, tr, Some(l), r);
    MergeHeld(s, tr, Merge(s, tr, Some(l), Some(r)).out.value, r);
  }
}
