/** The merging walker: the list loop with its order bookkeeping, and the descent into maps and lists. */
module MergeWalk {
  import opened Values
  import opened PathElements
  import opened Schemas
  import opened Merging
  import opened ListMergeTheory

  /** The index holds exactly what the left operand of a match is looked up as. */
  ghost predicate Indexes(observed: map<PathElement, Value>, ks: Keys, items: seq<Value>)
    requires |ks| == |items|
  {
    forall pe :: Find(observed, pe) == Observed(ks, items, pe)
  }

  lemma {:induction false} IndexesKeys(observed: map<PathElement, Value>, ks: Keys, items: seq<Value>, pe: PathElement)
    requires |ks| == |items| && Indexes(observed, ks, items)
    ensures pe in observed <==> pe in ks
  {
    assert Find(observed, pe) == Observed(ks, items, pe);
  }

  lemma {:induction false} IndexesNext(observed: map<PathElement, Value>, ks: Keys, items: seq<Value>, k: PathElement, x: Value)
    requires |ks| == |items| && Indexes(observed, ks, items)
    ensures Indexes(observed[k := if k in observed then Null else x], ks + [k], items + [x])
  {
    var more := observed[k := if k in observed then Null else x];
    IndexesKeys(observed, ks, items, k);
    forall pe
      ensures Find(more, pe) == Observed(ks + [k], items + [x], pe)
    {
      assert Find(observed, pe) == Observed(ks, items, pe);
      ObservedNext(ks, items, k, x, pe);
    }
  }

  /** The path elements of the items, and the items by path element, with null for repeated ones. */
  method IndexListPathElements(s: Schema, t: ListType, items: seq<Value>, allowDuplicates: bool)
    returns (ok: bool, pes: seq<PathElement>, observed: map<PathElement, Value>)
    ensures ok <==> Indexable(s, t, items, allowDuplicates)
    ensures ok ==> pes == Elements(s, t, items) && Indexes(observed, pes, items)
  {
    ok, pes, observed := true, [], map[];
    var i := 0;
    while i < |items|
      invariant 0 <= i <= |items|
      invariant ok <==> Indexable(s, t, items[..i], allowDuplicates)
      invariant ok ==> pes == Elements(s, t, items[..i]) && Indexes(observed, pes, items[..i])
    {
      var child := items[i];
      var pe := ItemElement(s, t, child);
      NextItem(s, t, items, i, allowDuplicates);
      if pe.None? {
        ok := false;
      } else {
        if ok {
          IndexesKeys(observed, pes, items[..i], pe.value);
          IndexesNext(observed, pes, items[..i], pe.value, child);
        }
        if pe.value in observed && !allowDuplicates {
          ok := false;
        } else {
          if pe.value !in observed {
            observed := observed[pe.value := child];
          } else {
            observed := observed[pe.value := Null];
          }
          pes := pes + [pe.value];
        }
      }
      i := i + 1;
    }
    assert items[..|items|] == items;
  }

  function Find<V>(m: map<PathElement, V>, pe: PathElement): Option<V> {
    if pe in m then Some(m[pe]) else None
  }

  lemma {:induction false} NextItem(s: Schema, t: ListType, items: seq<Value>, i: nat, dups: bool)
    requires i < |items|
    ensures items[..i + 1] == items[..i] + [items[i]]
    ensures Elements(s, t, items[..i + 1]) == Elements(s, t, items[..i]) + [ElementOf(s, t, items[i])]
    ensures Indexable(s, t, items[..i + 1], dups) <==>
            Indexable(s, t, items[..i], dups) && ItemElement(s, t, items[i]).Some? &&
            (dups || ElementOf(s, t, items[i]) !in Elements(s, t, items[..i]))
  {
    var xs, ys := items[..i], items[..i + 1];
    assert ys == xs + [items[i]];
    var ks, js := Elements(s, t, xs), Elements(s, t, ys);
    assert js == ks + [ElementOf(s, t, items[i])];
    if Distinct(js) {
      assert forall x | 0 <= x < i :: js[x] == ks[x] && js[x] != js[i];
    }
  }

  lemma {:induction false} ObservedNext(ks: Keys, items: seq<Value>, k: PathElement, x: Value, pe: PathElement)
    requires |ks| == |items|
    ensures Observed(ks + [k], items + [x], pe) ==
            if pe != k then Observed(ks, items, pe)
            else if k in ks then Some(Null) else Some(x)
  {
    var all := ks + [k];
    if pe in ks {
      var i := IndexOf(ks, pe);
      IndexOfPrefix(ks, k, pe);
      assert all[i + 1..] == ks[i + 1..] + [k];
    } else if pe == k {
      assert pe in all;
      var i := IndexOf(all, pe);
      assert i == |ks|;
    }
  }

  lemma {:induction false} IndexOfPrefix(ks: Keys, k: PathElement, pe: PathElement)
    requires pe in ks
    ensures pe in ks + [k] && IndexOf(ks + [k], pe) == IndexOf(ks, pe)
  {
    var i := IndexOf(ks, pe);
    assert (ks + [k])[i] == pe;
    var j := IndexOf(ks + [k], pe);
    assert j <= i by {
      assert pe !in (ks + [k])[..j];
    }
    assert pe !in ks[..i] && ks[j] == pe;
  }

  /** The keys of the right that the left has too, in the order of the right. */
  method SharedOrder(rk: Keys, lk: Keys, ghost items: seq<Value>, observed: map<PathElement, Value>) returns (shared: Keys)
    requires |lk| == |items| && Indexes(observed, lk, items)
    ensures shared == Only(rk, lk)
  {
    shared := [];
    assert rk[0..] == rk;
    for i := 0 to |rk|
      invariant shared + Only(rk[i..], lk) == Only(rk, lk)
    {
      OnlyStep(rk, lk, i);
      IndexesKeys(observed, lk, items, rk[i]);
      if rk[i] in observed {
        shared := shared + [rk[i]];
      }
    }
  }

  /** The steps taken so far, followed by what is planned from position (i, j) on, are the whole plan. */
  ghost predicate OnPlan(lk: Keys, rk: Keys, i: nat, j: nat, steps: seq<Step>) {
    i <= |lk| && j <= |rk| && steps + Plan(lk, rk, i, j) == Plan(lk, rk, 0, 0)
  }

  lemma {:induction false} PlanRound(lk: Keys, rk: Keys, i: nat, j: nat, steps: seq<Step>)
    requires OnPlan(lk, rk, i, j, steps) && (i < |lk| || j < |rk|)
    ensures var m := Advance(lk, rk, i, j);
            OnPlan(lk, rk, m.i, m.j, if m.emit.None? then steps else steps + [m.emit.value])
  {
    var m := Advance(lk, rk, i, j);
    if m.emit.Some? {
      assert steps + ([m.emit.value] + Plan(lk, rk, m.i, m.j)) == (steps + [m.emit.value]) + Plan(lk, rk, m.i, m.j);
    }
  }

  /** When both lists are used up, the whole plan was followed. */
  lemma {:induction false} PlanDone(lk: Keys, rk: Keys, steps: seq<Step>)
    requires OnPlan(lk, rk, |lk|, |rk|, steps)
    ensures steps == Plan(lk, rk, 0, 0)
  {
    assert Plan(lk, rk, |lk|, |rk|) == [];
  }

  /** The items that the steps taken so far emitted. */
  ghost predicate Emitted(s: Schema, t: ListType, l: Option<Value>, r: Option<Value>, steps: seq<Step>, items: seq<Value>) {
    (forall step | step in steps :: StepOk(l, r, step)) && items == MergeSteps(s, t, l, r, steps)
  }

  lemma {:induction false} EmitNext(s: Schema, t: ListType, l: Option<Value>, r: Option<Value>, steps: seq<Step>, items: seq<Value>, step: Step)
    requires Emitted(s, t, l, r, steps, items) && StepOk(l, r, step)
    ensures Emitted(s, t, l, r, steps + [step], items + Given(MergeStep(s, t, l, r, step).out))
    decreases |steps|
  {
    var more := steps + [step];
    if steps == [] {
      assert more[1..] == [];
    } else {
      var head := Given(MergeStep(s, t, l, r, steps[0]).out);
      EmitNext(s, t, l, r, steps[1..], MergeSteps(s, t, l, r, steps[1..]), step);
      assert more[0] == steps[0] && more[1..] == steps[1..] + [step];
    }
  }

  ghost function AllSteps(s: Schema, t: ListType, l: Option<Value>, r: Option<Value>): seq<Step> {
    Plan(Elements(s, t, ItemsOf(l)), Elements(s, t, ItemsOf(r)), 0, 0)
  }

  function Given(o: Option<Value>): seq<Value> {
    if o.None? then [] else [o.value]
  }

  /** The shared keys still to come: the next one, and those after it. */
  predicate Shared(lk: Keys, rk: Keys, j: nat, next: Option<PathElement>, order: Keys)
    requires j <= |rk|
  {
    Only(rk[j..], lk) == if next.None? then [] else [next.value] + order
  }

  lemma {:induction false} SharedRound(lk: Keys, rk: Keys, j: nat, next: Option<PathElement>, order: Keys)
    requires j <= |rk| && Shared(lk, rk, j, next, order)
    ensures next == NextShared(lk, rk, j)
    ensures j < |rk| && rk[j] in lk ==> next == Some(rk[j]) && Only(rk[j + 1..], lk) == order
    ensures j < |rk| && rk[j] !in lk ==> next != Some(rk[j]) && Shared(lk, rk, j + 1, next, order)
  {
    NextSharedIs(lk, rk, j);
    if j < |rk| {
      OnlyStep(rk, lk, j);
      if rk[j] in lk {
        assert ([rk[j]] + Only(rk[j + 1..], lk))[1..] == ([next.value] + order)[1..];
        assert ([rk[j]] + Only(rk[j + 1..], lk))[0] == ([next.value] + order)[0];
      } else if next.Some? {
        assert ([next.value] + order)[0] == next.value;
        OnlyIn(rk[j + 1..], lk, next.value);
      }
    }
  }

  /** Takes the next shared key off the order. */
  method PopShared(order: Keys) returns (next: Option<PathElement>, rest: Keys)
    ensures order == if next.None? then [] else [next.value] + rest
  {
    next, rest := None, order;
    if |order| > 0 {
      next, rest := Some(order[0]), order[1..];
    }
  }

  /** One round of the list merge: what to emit, where to go on, and the bookkeeping of shared and merged keys. */
  method Round(lk: Keys, rk: Keys, i: nat, j: nat, ghost ri: seq<Value>, observedRight: map<PathElement, Value>,
               merged: set<PathElement>, next: Option<PathElement>, order: Keys)
    returns (m: Move, merged': set<PathElement>, next': Option<PathElement>, order': Keys)
    requires i <= |lk| && j <= |rk| && (i < |lk| || j < |rk|)
    requires |rk| == |ri| && Indexes(observedRight, rk, ri)
    requires merged == Firsts(rk, j) && Shared(lk, rk, j, next, order)
    ensures m == Advance(lk, rk, i, j)
    ensures merged' == Firsts(rk, m.j) && Shared(lk, rk, m.j, next', order')
  {
    merged', next', order' := merged, next, order;
    SharedRound(lk, rk, j, next, order);
    if i < |lk| {
      IndexesKeys(observedRight, rk, ri, lk[i]);
    }
    if j < |rk| {
      FirstsNext(rk, j);
    }
    if i < |lk| && j < |rk| {
      if lk[i] == rk[j] {
        merged' := merged + {lk[i]};
        next', order' := PopShared(order);
        return Move(Some(FromRight(j)), i + 1, j + 1), merged', next', order';
      }
      if lk[i] in observedRight && next.Some? && next.value != lk[i] {
        return Move(None, i + 1, j), merged', next', order';
      }
    }
    m := Move(None, i, j);
    if i < |lk| {
      if lk[i] !in observedRight {
        return Move(Some(FromLeft(i)), i + 1, j), merged', next', order';
      } else if lk[i] in merged {
        m := m.(i := i + 1);
      }
    }
    if j < |rk| {
      merged' := merged + {rk[j]};
      if next == Some(rk[j]) {
        next', order' := PopShared(order);
      }
      m := m.(emit := Some(FromRight(j)), j := j + 1);
    }
  }

  /** The walker of one node; `out` is what the node merges to, if anything. */
  class MergingWalker {
    const s: Schema
    const typeRef: TypeRef
    const lhs: Option<Value>
    const rhs: Option<Value>
    var out: Option<Value>
    var inLeaf: bool

    constructor (s: Schema, typeRef: TypeRef, lhs: Option<Value>, rhs: Option<Value>)
      ensures this.s == s && this.typeRef == typeRef && this.lhs == lhs && this.rhs == rhs
      ensures out == None && !inLeaf
    {
      this.s, this.typeRef, this.lhs, this.rhs, this.out, this.inLeaf := s, typeRef, lhs, rhs, None, false;
    }

    /** Nothing has been written yet. */
    predicate Ready()
      reads this
    {
      out == None && !inLeaf
    }

    ghost function Size(): nat { OptHeight(lhs) + OptHeight(rhs) }

    method Merge() returns (ok: bool)
      requires Ready()
      modifies this
      ensures Merged(out, ok) == Merging.Merge(s, typeRef, lhs, rhs)
      decreases Size(), 4
    {
      if lhs.None? && rhs.None? {
        return false;
      }
      var a := Resolve(s, typeRef);
      if a.None? {
        return false;
      }
      var alhs, arhs := DeduceAtom(a.value, lhs), DeduceAtom(a.value, rhs);
      if rhs.None? {
        ok := HandleAtom(alhs);
      } else if lhs.None? || alhs == arhs {
        ok := HandleAtom(arhs);
      } else {
        var w := new MergingWalker(s, typeRef, lhs, rhs);
        var left := w.HandleAtom(alhs);
        ok := HandleAtom(arhs);
        ok := left && ok;
      }
    }

    method HandleAtom(a: Atom) returns (ok: bool)
      requires Ready()
      modifies this
      ensures Merged(out, ok) == MergeAtom(s, a, lhs, rhs)
      decreases Size(), 3
    {
      if a.mapping.Some? {
        ok := DoMap(a, a.mapping.value);
      } else if a.scalar.Some? {
        ok := DoScalar(a.scalar.value);
      } else if a.list.Some? {
        ok := DoList(a, a.list.value);
      } else {
        ok := false;
      }
    }

    /** A leaf is decided once; what lies in an atomic container is not visited again. */
    method DoLeaf()
      modifies this
      ensures inLeaf && (old(inLeaf) ==> out == old(out))
      ensures !old(inLeaf) ==> out == if lhs.None? && rhs.None? then old(out) else KeepRight(lhs, rhs)
    {
      if inLeaf {
        return;
      }
      inLeaf := true;
      if rhs.Some? {
        out := rhs;
      } else if lhs.Some? {
        out := lhs;
      }
    }

    method DoScalar(t: Scalar) returns (ok: bool)
      requires Ready()
      modifies this
      ensures Merged(out, ok) ==
              if ValidScalar(t, lhs) || ValidScalar(t, rhs) then Merged(KeepRight(lhs, rhs), true) else Merging.FAILED
    {
      if !ValidScalar(t, lhs) && !ValidScalar(t, rhs) {
        return false;
      }
      DoLeaf();
      ok := true;
    }

    method DoMap(a: Atom, t: MapType) returns (ok: bool)
      requires Ready() && a.mapping == Some(t)
      modifies this
      ensures Merged(out, ok) == MergeAtom(s, a, lhs, rhs)
      decreases Size(), 2
    {
      var lf, rf := FieldsOf(lhs), FieldsOf(rhs);
      if t.relationship.Atomic? || (lf == map[] && rf == map[]) {
        DoLeaf();
        return true;
      }
      var fields;
      fields, ok := VisitMapItems(t);
      assert fields == map k | k in lf.Keys + rf.Keys && MergeField(s, t, lhs, rhs, k).out.Some?
                         :: MergeField(s, t, lhs, rhs, k).out.value;
      if fields != map[] {
        out := Some(Map(fields));
      }
    }

    /** Visits the keys of the left, then those of the right that the left lacks. */
    method VisitMapItems(t: MapType) returns (fields: map<string, Value>, ok: bool)
      ensures fields == MergedFields(t, FieldsOf(lhs).Keys + FieldsOf(rhs).Keys)
      ensures ok <==> FieldsOk(t, FieldsOf(lhs).Keys + FieldsOf(rhs).Keys)
      decreases Size(), 1, 1
    {
      var lf, rf := FieldsOf(lhs), FieldsOf(rhs);
      fields, ok := VisitKeys(t, lf.Keys, {}, map[], true);
      fields, ok := VisitKeys(t, rf.Keys - lf.Keys, lf.Keys, fields, ok);
      assert lf.Keys + (rf.Keys - lf.Keys) == lf.Keys + rf.Keys;
    }

    ghost function MergedFields(t: MapType, done: set<string>): map<string, Value>
      requires done <= FieldsOf(lhs).Keys + FieldsOf(rhs).Keys
    {
      map k | k in done && MergeField(s, t, lhs, rhs, k).out.Some? :: MergeField(s, t, lhs, rhs, k).out.value
    }

    ghost predicate FieldsOk(t: MapType, done: set<string>)
      requires done <= FieldsOf(lhs).Keys + FieldsOf(rhs).Keys
    {
      forall k | k in done :: MergeField(s, t, lhs, rhs, k).ok
    }

    /** The keys of a map are visited in no particular order. */
    method VisitKeys(t: MapType, keys: set<string>, ghost before: set<string>, fields0: map<string, Value>, ok0: bool)
      returns (fields: map<string, Value>, ok: bool)
      requires before + keys <= FieldsOf(lhs).Keys + FieldsOf(rhs).Keys && before !! keys
      requires fields0 == MergedFields(t, before) && (ok0 <==> FieldsOk(t, before))
      ensures fields == MergedFields(t, before + keys) && (ok <==> FieldsOk(t, before + keys))
      decreases Size(), 1, 0
    {
      fields, ok := fields0, ok0;
      var todo := keys;
      ghost var done := before;
      while todo != {}
        invariant todo <= keys && done == before + (keys - todo)
        invariant fields == MergedFields(t, done) && (ok <==> FieldsOk(t, done))
        decreases |todo|
      {
        var k :| k in todo;
        TakeOff(keys, before, todo, done, k);
        fields, ok := VisitMapItem(t, k, done, fields, ok);
        todo, done := todo - {k}, done + {k};
      }
      assert done == before + keys;
    }

    method VisitMapItem(t: MapType, k: string, ghost done: set<string>, fields: map<string, Value>, ok: bool)
      returns (fields': map<string, Value>, ok': bool)
      requires done <= FieldsOf(lhs).Keys + FieldsOf(rhs).Keys && k in FieldsOf(lhs).Keys + FieldsOf(rhs).Keys && k !in done
      requires fields == MergedFields(t, done) && (ok <==> FieldsOk(t, done))
      ensures fields' == MergedFields(t, done + {k}) && (ok' <==> FieldsOk(t, done + {k}))
      decreases Size(), 0
    {
      LookupHeight(lhs, k);
      LookupHeight(rhs, k);
      var w := new MergingWalker(s, FieldType(t, k), Lookup(FieldsOf(lhs), k), Lookup(FieldsOf(rhs), k));
      var item := w.Merge();
      fields' := fields;
      if w.out.Some? {
        fields' := fields[k := w.out.value];
      }
      ok' := ok && item;
    }

    method DoList(a: Atom, t: ListType) returns (ok: bool)
      requires Ready() && a.mapping.None? && a.scalar.None? && a.list == Some(t)
      modifies this
      ensures Merged(out, ok) == MergeAtom(s, a, lhs, rhs)
      decreases Size(), 2
    {
      var li, ri := ItemsOf(lhs), ItemsOf(rhs);
      if t.relationship.Atomic? || (li == [] && ri == []) {
        DoLeaf();
        return true;
      }
      var items;
      ok, items := VisitListItems(t, li, ri);
      if ok && |items| > 0 {
        out := Some(List(items));
      }
    }

    /** Merges two keyed lists, keeping the order of the right and as much of the left's as agrees with it. */
    method VisitListItems(t: ListType, li: seq<Value>, ri: seq<Value>) returns (ok: bool, items: seq<Value>)
      requires li == ItemsOf(lhs) && ri == ItemsOf(rhs)
      ensures ok <==> Indexable(s, t, li, true) && Indexable(s, t, ri, false)
      ensures ok ==> Emitted(s, t, lhs, rhs, AllSteps(s, t, lhs, rhs), items)
      decreases Size(), 1, 1
    {
      items := [];
      var rightOk, rk, observedRight := IndexListPathElements(s, t, ri, false);
      var leftOk, lk, observedLeft := IndexListPathElements(s, t, li, true);
      ok := rightOk && leftOk;
      if !ok {
        return;
      }
      items := MergeListItems(t, lk, rk, observedLeft, observedRight);
    }

    /** The two-index loop. */
    method MergeListItems(t: ListType, lk: Keys, rk: Keys, observedLeft: map<PathElement, Value>, observedRight: map<PathElement, Value>)
      returns (items: seq<Value>)
      requires lk == Elements(s, t, ItemsOf(lhs)) && Indexes(observedLeft, lk, ItemsOf(lhs))
      requires rk == Elements(s, t, ItemsOf(rhs)) && Indexes(observedRight, rk, ItemsOf(rhs))
      requires Indexable(s, t, ItemsOf(rhs), false)
      ensures Emitted(s, t, lhs, rhs, AllSteps(s, t, lhs, rhs), items)
      decreases Size(), 1, 0
    {
      items := [];
      var order := SharedOrder(rk, lk, ItemsOf(lhs), observedLeft);
      assert rk[0..] == rk;
      var next;
      next, order := PopShared(order);
      var mergedRight: set<PathElement> := {};
      ghost var steps: seq<Step> := [];
      var i: nat, j: nat := 0, 0;
      while i < |lk| || j < |rk|
        invariant OnPlan(lk, rk, i, j, steps) && Emitted(s, t, lhs, rhs, steps, items)
        invariant mergedRight == Firsts(rk, j)
        invariant Shared(lk, rk, j, next, order)
        decreases |lk| - i + |rk| - j
      {
        PlanRound(lk, rk, i, j, steps);
        var m;
        m, mergedRight, next, order := Round(lk, rk, i, j, ItemsOf(rhs), observedRight, mergedRight, next, order);
        if m.emit.Some? {
          if m.emit.value.FromLeft? {
            items := MergeLeft(t, i, steps, items);
          } else {
            items := MergeRight(t, observedLeft, observedRight, j, steps, items);
          }
          steps := steps + [m.emit.value];
        }
        i, j := m.i, m.j;
      }
      PlanDone(lk, rk, steps);
    }

    /** A left item alone; the right lacks its key. */
    method MergeLeft(t: ListType, i: nat, ghost steps: seq<Step>, items: seq<Value>) returns (more: seq<Value>)
      requires i < |ItemsOf(lhs)| && Emitted(s, t, lhs, rhs, steps, items)
      ensures Emitted(s, t, lhs, rhs, steps + [FromLeft(i)], more)
      decreases Size(), 0
    {
      var x := ItemsOf(lhs)[i];
      ItemsHeight(lhs, x);
      var w := new MergingWalker(s, t.elementType, Some(x), None);
      var ok := w.Merge();
      more := items + Given(w.out);
      EmitNext(s, t, lhs, rhs, steps, items, FromLeft(i));
    }

    /** A right item, merged with the left item of the same key if there is one. */
    method MergeRight(t: ListType, observedLeft: map<PathElement, Value>, observedRight: map<PathElement, Value>, j: nat,
                      ghost steps: seq<Step>, items: seq<Value>)
      returns (more: seq<Value>)
      requires j < |ItemsOf(rhs)| && Indexable(s, t, ItemsOf(rhs), false)
      requires Indexes(observedLeft, Elements(s, t, ItemsOf(lhs)), ItemsOf(lhs))
      requires Indexes(observedRight, Elements(s, t, ItemsOf(rhs)), ItemsOf(rhs))
      requires Emitted(s, t, lhs, rhs, steps, items)
      ensures Emitted(s, t, lhs, rhs, steps + [FromRight(j)], more)
      decreases Size(), 0
    {
      var pe := ElementOf(s, t, ItemsOf(rhs)[j]);
      ObservedDistinct(s, t, ItemsOf(rhs), j);
      assert Find(observedRight, pe) == Some(ItemsOf(rhs)[j]);
      ObservedHeight(s, t, lhs, pe);
      ItemsHeight(rhs, ItemsOf(rhs)[j]);
      var w := new MergingWalker(s, t.elementType, Find(observedLeft, pe), Some(observedRight[pe]));
      var ok := w.Merge();
      more := items + Given(w.out);
      EmitNext(s, t, lhs, rhs, steps, items, FromRight(j));
    }
  }

  lemma {:induction false} ObservedDistinct(s: Schema, t: ListType, items: seq<Value>, j: nat)
    requires j < |items| && Indexable(s, t, items, false)
    ensures Observed(Elements(s, t, items), items, ElementOf(s, t, items[j])) == Some(items[j])
  {
    var ks := Elements(s, t, items);
    assert ks[j] == ElementOf(s, t, items[j]);
    var i := IndexOf(ks, ks[j]);
    assert ks[i] == ks[j];
    assert ks[j] !in ks[j + 1..];
  }

  /** `TypedValue.Merge` by the walker. */
  method MergeObjects(s: Schema, tr: TypeRef, l: Value, r: Value) returns (m: Merged)
    ensures m == Merging.Merge(s, tr, Some(l), Some(r))
  {
    var w := new MergingWalker(s, tr, Some(l), Some(r));
    var ok := w.Merge();
    m := Merged(w.out, ok);
  }
}
