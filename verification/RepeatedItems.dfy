/** Merging and owning lists in which keys repeat. */
module RepeatedItems {
  import opened Values
  import opened PathElements
  import opened Schemas
  import opened Merging
  import opened Comparing
  import opened Owning
  import opened ListMergeTheory
  import opened PlainSetting
  import opened MergeTheory
  import opened Absorption
  import opened OwningTheory
  import opened KindTheory
  import R = RepeatTheory

  /** Null on the left counts as nothing. */
  lemma {:induction false} MergeOverNull(s: Schema, tr: TypeRef, v: Value)
    requires Plain(s, tr) && Valid(s, tr, v, false)
    ensures Merge(s, tr, Some(Null), Some(v)) == Merged(Some(v), true)
  {
    PlainNode(s, tr);
    var a := Resolve(s, tr).value;
    MergeAlone(s, tr, v, false);
    MergeIsAtom(s, tr, Some(Null), Some(v));
    MergeIsAtom(s, tr, None, Some(v));
    assert ValidAtom(s, a, v, false);
    if ShapeOf(s, tr).MapShape? && FieldsOf(Some(v)) != map[] {
      MapMergeDepends(s, a, Some(Null), None, Some(v), Some(v));
    } else if ShapeOf(s, tr).ListShape? && ItemsOf(Some(v)) != [] {
      ListMergeDepends(s, a, Some(Null), None, Some(v), Some(v));
    }
  }

  /** The entries of `xs` whose keys are `pe`, in order. */
  function Pick<T>(ks: Keys, xs: seq<T>, pe: PathElement): seq<T>
    requires |ks| == |xs|
  {
    if ks == [] then [] else (if ks[0] == pe then [xs[0]] else []) + Pick(ks[1..], xs[1..], pe)
  }

  lemma {:induction false} PickIn<T>(ks: Keys, xs: seq<T>, pe: PathElement)
    requires |ks| == |xs|
    ensures pe in ks <==> Pick(ks, xs, pe) != []
  {
    if ks != [] {
      assert ks == [ks[0]] + ks[1..];
      PickIn(ks[1..], xs[1..], pe);
    }
  }

  lemma {:induction false} PickOnce<T>(ks: Keys, xs: seq<T>, pe: PathElement)
    requires |ks| == |xs| && Distinct(ks)
    ensures |Pick(ks, xs, pe)| <= 1
  {
    if ks != [] {
      PickOnce(ks[1..], xs[1..], pe);
      if ks[0] == pe {
        PickIn(ks[1..], xs[1..], pe);
      }
    }
  }

  /** Picking by the same keys picks at the same places. */
  lemma {:induction false} PickAligned<T, U>(ks: Keys, xs: seq<T>, ys: seq<U>, pe: PathElement, n: nat) returns (i: nat)
    requires |ks| == |xs| == |ys| && (n < |Pick(ks, xs, pe)| || n < |Pick(ks, ys, pe)|)
    ensures |Pick(ks, xs, pe)| == |Pick(ks, ys, pe)|
    ensures i < |ks| && ks[i] == pe && Pick(ks, xs, pe)[n] == xs[i] && Pick(ks, ys, pe)[n] == ys[i]
  {
    PickLength(ks, xs, ys, pe);
    if ks[0] == pe && n == 0 {
      i := 0;
    } else {
      var j := PickAligned(ks[1..], xs[1..], ys[1..], pe, if ks[0] == pe then n - 1 else n);
      i := j + 1;
    }
  }

  lemma {:induction false} PickLength<T, U>(ks: Keys, xs: seq<T>, ys: seq<U>, pe: PathElement)
    requires |ks| == |xs| == |ys|
    ensures |Pick(ks, xs, pe)| == |Pick(ks, ys, pe)|
  {
    if ks != [] {
      PickLength(ks[1..], xs[1..], ys[1..], pe);
    }
  }

  /** What the left index holds for an element: nothing, the one item, or null for more. */
  lemma {:induction false} ObservedRun(ks: Keys, items: seq<Value>, pe: PathElement)
    requires |ks| == |items|
    ensures var g := Pick(ks, items, pe);
            Observed(ks, items, pe) == if |g| >= 2 then Some(Null) else First(g)
  {
    PickIn(ks, items, pe);
    if pe in ks {
      var i := IndexOf(ks, pe);
      PickFrom(ks, items, pe, i);
      PickIn(ks[i + 1..], items[i + 1..], pe);
    }
  }

  lemma {:induction false} PickFrom(ks: Keys, items: seq<Value>, pe: PathElement, i: nat)
    requires |ks| == |items| && i < |ks| && ks[i] == pe && pe !in ks[..i]
    ensures Pick(ks, items, pe) == [items[i]] + Pick(ks[i + 1..], items[i + 1..], pe)
  {
    if i > 0 {
      assert ks[0] in ks[..i];
      assert forall x | x in ks[1..][..i - 1] :: x in ks[..i];
      PickFrom(ks[1..], items[1..], pe, i - 1);
      assert ks[1..][i..] == ks[i + 1..] && items[1..][i..] == items[i + 1..];
    }
  }

  lemma {:induction false} GroupPicks(s: Schema, t: ListType, items: seq<Value>, pe: PathElement)
    requires forall x | x in items :: ItemElement(s, t, x).Some?
    ensures Group(s, t, items, pe) == Pick(Elements(s, t, items), items, pe)
  {
    if items != [] {
      GroupPicks(s, t, items[1..], pe);
      assert Elements(s, t, items)[1..] == Elements(s, t, items[1..]);
    }
  }

  function LeftSteps(i: nat, n: nat): (steps: seq<Step>)
    requires i <= n
    ensures |steps| == n - i
  {
    seq(n - i, x requires 0 <= x < n - i => FromLeft(i + x))
  }

  function RightSteps(j: nat, n: nat): (steps: seq<Step>)
    requires j <= n
    ensures |steps| == n - j
  {
    seq(n - j, x requires 0 <= x < n - j => FromRight(j + x))
  }

  lemma {:induction false} PickCons<T>(k: PathElement, ks: Keys, x: T, xs: seq<T>, pe: PathElement)
    requires |ks| == |xs|
    ensures Pick([k] + ks, [x] + xs, pe) == (if k == pe then [x] else []) + Pick(ks, xs, pe)
  {
    assert ([k] + ks)[1..] == ks && ([x] + xs)[1..] == xs;
  }

  function PickedLeft(lk: Keys, i: nat, pe: PathElement): seq<Step>
    requires i <= |lk|
  {
    Pick(lk[i..], LeftSteps(i, |lk|), pe)
  }

  function PickedRight(rk: Keys, j: nat, pe: PathElement): seq<Step>
    requires j <= |rk|
  {
    Pick(rk[j..], RightSteps(j, |rk|), pe)
  }

  lemma {:induction false} PickedNext(ks: Keys, i: nat, pe: PathElement)
    requires i < |ks|
    ensures PickedLeft(ks, i, pe) == (if ks[i] == pe then [FromLeft(i)] else []) + PickedLeft(ks, i + 1, pe)
    ensures PickedRight(ks, i, pe) == (if ks[i] == pe then [FromRight(i)] else []) + PickedRight(ks, i + 1, pe)
  {
    assert ks[i..] == [ks[i]] + ks[i + 1..];
    assert LeftSteps(i, |ks|) == [FromLeft(i)] + LeftSteps(i + 1, |ks|);
    assert RightSteps(i, |ks|) == [FromRight(i)] + RightSteps(i + 1, |ks|);
    PickCons(ks[i], ks[i + 1..], FromLeft(i), LeftSteps(i + 1, |ks|), pe);
    PickCons(ks[i], ks[i + 1..], FromRight(i), RightSteps(i + 1, |ks|), pe);
  }

  /** Under a key of the right the plan takes the right's items, under any other one the left's, all in order. */
  lemma {:induction false} PlanPicks(lk: Keys, rk: Keys, i: nat, j: nat, pe: PathElement)
    requires i <= |lk| && j <= |rk|
    ensures |PlanKeys(lk, rk, i, j)| == |Plan(lk, rk, i, j)|
    ensures Pick(PlanKeys(lk, rk, i, j), Plan(lk, rk, i, j), pe) ==
            if pe in rk then PickedRight(rk, j, pe) else PickedLeft(lk, i, pe)
    decreases |lk| - i + |rk| - j
  {
    if i < |lk| || j < |rk| {
      var m := Advance(lk, rk, i, j);
      PlanPicks(lk, rk, m.i, m.j, pe);
      if i < m.i {
        PickedNext(lk, i, pe);
      }
      if j < m.j {
        PickedNext(rk, j, pe);
      }
      if m.emit.Some? {
        PickCons(KeyOf(lk, rk, m.emit.value), PlanKeys(lk, rk, m.i, m.j), m.emit.value, Plan(lk, rk, m.i, m.j), pe);
      }
    }
  }

  /**
   * What a merge leaves under each path element of a list whose left side may repeat it: the left's run if the
   * right has none; the right's item alone if the left repeats it; otherwise the merge of the two items.
   */
  lemma {:induction false} MergedRuns(s: Schema, tr: TypeRef, l: Value, r: Value, pe: PathElement)
    requires Plain(s, tr) && ShapeOf(s, tr).ListShape? && Valid(s, tr, l, true) && Valid(s, tr, r, false)
    requires ItemsOf(Some(l)) != [] || ItemsOf(Some(r)) != []
    ensures var t, m := ShapeOf(s, tr).lt, Merge(s, tr, Some(l), Some(r));
            m.ok && m.out.Some? && m.out.value.List? &&
            var lg, rg := Group(s, t, ItemsOf(Some(l)), pe), Group(s, t, ItemsOf(Some(r)), pe);
            var g := Group(s, t, m.out.value.items, pe);
            (rg == [] ==> g == lg) &&
            (rg != [] ==>
               |rg| == 1 && |g| == 1 &&
               Some(g[0]) == if |lg| >= 2 then Some(rg[0]) else Merge(s, t.elementType, First(lg), Some(rg[0])).out)
  {
    PlainNode(s, tr);
    var a, t := Resolve(s, tr).value, ShapeOf(s, tr).lt;
    MergeIsAtom(s, tr, Some(l), Some(r));
    assert ValidAtom(s, a, l, true) && ValidAtom(s, a, r, false);
    var out := HeldOutputs(s, tr, Some(l), r);
    assert MergeAtom(s, a, Some(l), Some(r)) == Merged(Some(List(out)), true);
    EmittedRuns(s, tr, l, r, out, pe);
  }

  /** The items that the plan emits, under each path element. */
  lemma {:induction false} EmittedRuns(s: Schema, tr: TypeRef, l: Value, r: Value, out: seq<Value>, pe: PathElement)
    requires Plain(s, tr) && ShapeOf(s, tr).ListShape? && Valid(s, tr, l, true) && Valid(s, tr, r, false)
    requires Emits(s, ShapeOf(s, tr).lt, l, r, out)
    ensures var t := ShapeOf(s, tr).lt;
            var lg, rg := Group(s, t, ItemsOf(Some(l)), pe), Group(s, t, ItemsOf(Some(r)), pe);
            var g := Group(s, t, out, pe);
            (rg == [] ==> g == lg) &&
            (rg != [] ==>
               |rg| == 1 && |g| == 1 &&
               Some(g[0]) == if |lg| >= 2 then Some(rg[0]) else Merge(s, t.elementType, First(lg), Some(rg[0])).out)
  {
    PlainNode(s, tr);
    var a, t := Resolve(s, tr).value, ShapeOf(s, tr).lt;
    assert ValidAtom(s, a, l, true) && ValidAtom(s, a, r, false);
    GroupPicks(s, t, ItemsOf(Some(l)), pe);
    GroupPicks(s, t, ItemsOf(Some(r)), pe);
    GroupPicks(s, t, out, pe);
    var rk := Elements(s, t, ItemsOf(Some(r)));
    PickIn(rk, ItemsOf(Some(r)), pe);
    PickOnce(rk, ItemsOf(Some(r)), pe);
    if pe in rk {
      EmittedRight(s, tr, l, r, out, pe);
    } else {
      EmittedLeft(s, tr, l, r, out, pe);
    }
  }

  /** The plan's steps were taken, and each item has the key of its step. */
  ghost predicate Emits(s: Schema, t: ListType, l: Value, r: Value, out: seq<Value>) {
    var lk, rk := Elements(s, t, ItemsOf(Some(l))), Elements(s, t, ItemsOf(Some(r)));
    var steps := Plan(lk, rk, 0, 0);
    (forall step | step in steps :: StepOk(Some(l), Some(r), step)) &&
    out == MergeSteps(s, t, Some(l), Some(r), steps) && Elements(s, t, out) == PlanKeys(lk, rk, 0, 0) &&
    forall x | x in out :: ItemElement(s, t, x).Some?
  }

  lemma {:induction false} EmittedRight(s: Schema, tr: TypeRef, l: Value, r: Value, out: seq<Value>, pe: PathElement)
    requires Plain(s, tr) && ShapeOf(s, tr).ListShape? && Valid(s, tr, l, true) && Valid(s, tr, r, false)
    requires Emits(s, ShapeOf(s, tr).lt, l, r, out) && pe in Elements(s, ShapeOf(s, tr).lt, ItemsOf(Some(r)))
    ensures var t := ShapeOf(s, tr).lt;
            var li, ri := ItemsOf(Some(l)), ItemsOf(Some(r));
            var lg, rg := Pick(Elements(s, t, li), li, pe), Pick(Elements(s, t, ri), ri, pe);
            var g := Pick(Elements(s, t, out), out, pe);
            |rg| == |g| >= 1 &&
            Some(g[0]) == if |lg| >= 2 then Some(rg[0]) else Merge(s, t.elementType, First(lg), Some(rg[0])).out
  {
    PlainNode(s, tr);
    var t := ShapeOf(s, tr).lt;
    var li, ri := ItemsOf(Some(l)), ItemsOf(Some(r));
    var lk, rk, ks := Elements(s, t, li), Elements(s, t, ri), Elements(s, t, out);
    var steps := Plan(lk, rk, 0, 0);
    PlanPicks(lk, rk, 0, 0, pe);
    assert rk[0..] == rk;
    PickIn(rk, ri, pe);
    PickLength(ks, out, steps, pe);
    PickLength(rk, ri, RightSteps(0, |rk|), pe);
    var j := PickAligned(rk, ri, RightSteps(0, |rk|), pe, 0);
    var x := PickAligned(ks, out, steps, pe, 0);
    assert steps[x] == FromRight(j);
    StepEmits(s, tr, l, r, steps, x);
    RightEmits(s, tr, l, r, j);
  }

  /** A step that takes a right item merges it with what its run on the left stands for. */
  lemma {:induction false} RightEmits(s: Schema, tr: TypeRef, l: Value, r: Value, j: nat)
    requires Plain(s, tr) && ShapeOf(s, tr).ListShape? && Valid(s, tr, r, false) && j < |ItemsOf(Some(r))|
    ensures var t, li, y := ShapeOf(s, tr).lt, ItemsOf(Some(l)), ItemsOf(Some(r))[j];
            var lg := Pick(Elements(s, t, li), li, ElementOf(s, t, y));
            MergeStep(s, t, Some(l), Some(r), FromRight(j)).out ==
            if |lg| >= 2 then Some(y) else Merge(s, t.elementType, First(lg), Some(y)).out
  {
    PlainNode(s, tr);
    var t, li, y := ShapeOf(s, tr).lt, ItemsOf(Some(l)), ItemsOf(Some(r))[j];
    assert ValidAtom(s, Resolve(s, tr).value, r, false);
    ObservedRun(Elements(s, t, li), li, ElementOf(s, t, y));
    MergeOverNull(s, t.elementType, y);
  }

  lemma {:induction false} EmittedLeft(s: Schema, tr: TypeRef, l: Value, r: Value, out: seq<Value>, pe: PathElement)
    requires Plain(s, tr) && ShapeOf(s, tr).ListShape? && Valid(s, tr, l, true) && Valid(s, tr, r, false)
    requires Emits(s, ShapeOf(s, tr).lt, l, r, out) && pe !in Elements(s, ShapeOf(s, tr).lt, ItemsOf(Some(r)))
    ensures var t := ShapeOf(s, tr).lt;
            var li := ItemsOf(Some(l));
            Pick(Elements(s, t, out), out, pe) == Pick(Elements(s, t, li), li, pe)
  {
    var t := ShapeOf(s, tr).lt;
    var li, ri := ItemsOf(Some(l)), ItemsOf(Some(r));
    var lk, rk, ks := Elements(s, t, li), Elements(s, t, ri), Elements(s, t, out);
    var steps := Plan(lk, rk, 0, 0);
    PlanPicks(lk, rk, 0, 0, pe);
    assert lk[0..] == lk;
    PickLength(ks, out, steps, pe);
    PickLength(lk, li, LeftSteps(0, |lk|), pe);
    forall n | 0 <= n < |Pick(ks, out, pe)|
      ensures Pick(ks, out, pe)[n] == Pick(lk, li, pe)[n]
    {
      var i := PickAligned(lk, li, LeftSteps(0, |lk|), pe, n);
      var x := PickAligned(ks, out, steps, pe, n);
      assert steps[x] == FromLeft(i);
      StepEmits(s, tr, l, r, steps, x);
      LeftEmits(s, tr, l, r, i);
    }
  }

  lemma {:induction false} LeftEmits(s: Schema, tr: TypeRef, l: Value, r: Value, i: nat)
    requires Plain(s, tr) && ShapeOf(s, tr).ListShape? && Valid(s, tr, l, true) && i < |ItemsOf(Some(l))|
    ensures MergeStep(s, ShapeOf(s, tr).lt, Some(l), Some(r), FromLeft(i)).out == Some(ItemsOf(Some(l))[i])
  {
    PlainNode(s, tr);
    assert ValidAtom(s, Resolve(s, tr).value, l, true);
    MergeAlone(s, ShapeOf(s, tr).lt.elementType, ItemsOf(Some(l))[i], true);
  }

  lemma {:induction false} StepEmits(s: Schema, tr: TypeRef, l: Value, r: Value, steps: seq<Step>, x: nat)
    requires Plain(s, tr) && ShapeOf(s, tr).ListShape? && Valid(s, tr, l, true) && Valid(s, tr, r, false)
    requires x < |steps| && forall step | step in steps :: StepOk(Some(l), Some(r), step)
    ensures var t := ShapeOf(s, tr).lt;
            |MergeSteps(s, t, Some(l), Some(r), steps)| == |steps| &&
            Some(MergeSteps(s, t, Some(l), Some(r), steps)[x]) == MergeStep(s, t, Some(l), Some(r), steps[x]).out
  {
    forall step | step in steps
      ensures MergeStep(s, ShapeOf(s, tr).lt, Some(l), Some(r), step).out.Some?
    {
      HeldStep(s, tr, Some(l), r, step);
    }
    MergeStepsAre(s, ShapeOf(s, tr).lt, Some(l), Some(r), steps);
  }

  /** The node at a path, repeated or not, exists and is mentioned itself. */
  predicate MarkedRun(s: Schema, tr: TypeRef, v: Value, p: Path)
    decreases |p|
  {
    p != [] &&
    var g := R.Kids(s, tr, v, p[0]);
    g != [] &&
    if |p| == 1 then MarkedHere(s, tr, p[0], g[0])
    else |g| == 1 && MarkedRun(s, ChildType(s, tr, p[0]), g[0], p[1..])
  }

  /** The field set of an object with repeated keys: a repeated item is mentioned once, and nothing below it. */
  lemma {:induction false} FieldSetRuns(s: Schema, tr: TypeRef, v: Value, p: Path)
    requires Plain(s, tr) && Valid(s, tr, v, true)
    ensures p in ToFieldSet(s, tr, v) <==> MarkedRun(s, tr, v, p)
    decreases |p|
  {
    if p != [] {
      var pe, rest := p[0], p[1..];
      assert p == [pe] + rest;
      var g := R.Kids(s, tr, v, pe);
      R.KidsLoose(s, tr, Some(v), pe);
      if |g| >= 2 {
        RepeatedMentioned(s, tr, v, pe, rest);
      } else {
        OnceReadable(s, tr, v, pe);
        MentionedStep(s, tr, v, pe, rest);
        if g != [] && rest != [] {
          FieldSetRuns(s, ChildType(s, tr, pe), g[0], rest);
        } else if g != [] {
          LeafMentioned(s, ChildType(s, tr, pe), g[0]);
        }
      }
    }
  }

  lemma {:induction false} LeafMentioned(s: Schema, tr: TypeRef, v: Value)
    requires Plain(s, tr)
    ensures [] in Mentioned(s, tr, v) <==> ShapeOf(s, tr).LeafShape?
  {
    PlainNode(s, tr);
    assert Mentioned(s, tr, v) == MentionedAtom(s, Resolve(s, tr).value, v);
  }

  /** An element that is not repeated is read as its one child. */
  lemma {:induction false} OnceReadable(s: Schema, tr: TypeRef, v: Value, pe: PathElement)
    requires Plain(s, tr) && Valid(s, tr, v, true) && |R.Kids(s, tr, v, pe)| <= 1
    ensures Readable(s, tr, v, pe) && Kid(s, tr, v, pe) == First(R.Kids(s, tr, v, pe))
  {
    PlainNode(s, tr);
    assert ValidAtom(s, Resolve(s, tr).value, v, true);
    if ShapeOf(s, tr).ListShape? && v.List? {
      var t := ShapeOf(s, tr).lt;
      var ks := Elements(s, t, v.items);
      GroupPicks(s, t, v.items, pe);
      PickIn(ks, v.items, pe);
      PickedOnce(ks, v.items, pe);
      if pe in ks {
        PickFrom(ks, v.items, pe, IndexOf(ks, pe));
      }
    }
  }

  lemma {:induction false} PickedOnce(ks: Keys, items: seq<Value>, pe: PathElement)
    requires |ks| == |items|
    ensures |Pick(ks, items, pe)| <= 1 <==> Once(ks, pe)
  {
    PickIn(ks, items, pe);
    if pe in ks {
      var i := IndexOf(ks, pe);
      PickFrom(ks, items, pe, i);
      PickIn(ks[i + 1..], items[i + 1..], pe);
      if !Once(ks, pe) {
        var x, y :| 0 <= x < y < |ks| && ks[x] == pe && ks[y] == pe;
        assert forall z | 0 <= z < i :: ks[z] in ks[..i];
        assert ks[y] in ks[i + 1..];
      }
      if pe in ks[i + 1..] {
        var y :| 0 <= y < |ks[i + 1..]| && ks[i + 1..][y] == pe;
        assert ks[i + 1 + y] == pe;
      }
    }
  }

  lemma {:induction false} RepeatedMentioned(s: Schema, tr: TypeRef, v: Value, pe: PathElement, q: Path)
    requires Plain(s, tr) && Valid(s, tr, v, true) && |R.Kids(s, tr, v, pe)| >= 2
    ensures [pe] + q in Mentioned(s, tr, v) <==> q == []
  {
    PlainNode(s, tr);
    var a, t := Resolve(s, tr).value, ShapeOf(s, tr).lt;
    assert ValidAtom(s, a, v, true);
    var ks := Elements(s, t, v.items);
    GroupPicks(s, t, v.items, pe);
    PickIn(ks, v.items, pe);
    PickedOnce(ks, v.items, pe);
    RepeatedItem(s, a, v, pe, q);
  }

  lemma {:induction false} RepeatedItem(s: Schema, a: Atom, v: Value, pe: PathElement, q: Path)
    requires a.mapping.None? && a.scalar.None? && a.list.Some? && !a.list.value.relationship.Atomic? && v.List?
    requires pe in Elements(s, a.list.value, v.items) && !Once(Elements(s, a.list.value, v.items), pe)
    ensures [pe] + q in MentionedAtom(s, a, v) <==> q == []
  {
    var ks := Elements(s, a.list.value, v.items);
    NotSingle(ks, pe);
    var below := set i, p | 0 <= i < |ks| && Single(ks, i) && p in Mentioned(s, a.list.value.elementType, v.items[i]) :: [ks[i]] + p;
    assert MentionedAtom(s, a, v) == (set k | k in ks :: [k]) + below;
    assert ([pe] + q)[0] == pe;
    assert [pe] + q !in below;
    assert q == [] ==> [pe] + q == [pe];
  }

  lemma {:induction false} NotSingle(ks: Keys, pe: PathElement)
    requires !Once(ks, pe)
    ensures forall i | 0 <= i < |ks| && Single(ks, i) :: ks[i] != pe
  {
    var x, y :| 0 <= x < y < |ks| && ks[x] == pe && ks[y] == pe;
  }
}
