/** Merging a partially specified object into an object: what the merge walker computes. */
module Merging {
  import opened Values
  import opened PathElements
  import opened Schemas

  /** What a walk leaves behind: the merged value, if any, and whether no error was reported. */
  datatype Merged = Merged(out: Option<Value>, ok: bool)

  /** One output item of a list merge: a left item alone, or a right item joined with its left match. */
  datatype Step = FromLeft(i: nat) | FromRight(j: nat)

  const FAILED := Merged(None, false)

  /** The rule for leaves: the right operand wins, the left one is the fallback. */
  function KeepRight(l: Option<Value>, r: Option<Value>): Option<Value> {
    if r.Some? then r else l
  }

  /** The first key at or after `j` on the right that the left also has. */
  function NextShared(lk: seq<PathElement>, rk: seq<PathElement>, j: nat): Option<PathElement>
    requires j <= |rk|
    decreases |rk| - j
  {
    if j == |rk| then None
    else if rk[j] in lk then Some(rk[j])
    else NextShared(lk, rk, j + 1)
  }

  /** What one round of the list merge emits, and the positions it leaves. */
  datatype Move = Move(emit: Option<Step>, i: nat, j: nat)

  /** One round of the two-index list merge. */
  function Advance(lk: seq<PathElement>, rk: seq<PathElement>, i: nat, j: nat): (m: Move)
    requires i <= |lk| && j <= |rk| && (i < |lk| || j < |rk|)
    ensures i <= m.i <= |lk| && j <= m.j <= |rk| && (i < m.i || j < m.j)
    ensures (m.emit == Some(FromRight(j)) && m.j == j + 1 && (m.i == i || (m.i == i + 1 && lk[i] in rk))) ||
            (m.emit == Some(FromLeft(i)) && m.i == i + 1 && m.j == j && lk[i] !in rk) ||
            (m.emit == None && m.i == i + 1 && m.j == j && lk[i] in rk)
  {
    if i < |lk| && j < |rk| && lk[i] == rk[j] then Move(Some(FromRight(j)), i + 1, j + 1)
    else if i < |lk| && j < |rk| && lk[i] in rk && SkipsShared(lk, rk, i, j) then Move(None, i + 1, j)
    else if i < |lk| && lk[i] !in rk then Move(Some(FromLeft(i)), i + 1, j)
    else
      assert rk[..|rk|] == rk;
      var i' := if i < |lk| && lk[i] in rk[..j] then i + 1 else i;
      if j < |rk| then Move(Some(FromRight(j)), i', j + 1) else Move(None, i', j)
  }

  /** The steps of the list merge from position (i, j) on. */
  function Plan(lk: seq<PathElement>, rk: seq<PathElement>, i: nat, j: nat): (steps: seq<Step>)
    requires i <= |lk| && j <= |rk|
    ensures forall step | step in steps :: InRange(lk, rk, step)
    decreases |lk| - i + |rk| - j
  {
    if i == |lk| && j == |rk| then []
    else
      var m := Advance(lk, rk, i, j);
      var rest := Plan(lk, rk, m.i, m.j);
      if m.emit.None? then rest else [m.emit.value] + rest
  }

  predicate InRange(lk: seq<PathElement>, rk: seq<PathElement>, step: Step) {
    match step
    case FromLeft(i) => i < |lk|
    case FromRight(j) => j < |rk|
  }

  /** A shared left item that is not the one the right order wants next. */
  predicate SkipsShared(lk: seq<PathElement>, rk: seq<PathElement>, i: nat, j: nat)
    requires i < |lk| && j <= |rk|
  {
    var next := NextShared(lk, rk, j);
    next.Some? && next.value != lk[i]
  }

  /** What the left index holds for `pe`: nothing, its item, or null if it occurs repeatedly. */
  function Observed(ks: seq<PathElement>, items: seq<Value>, pe: PathElement): Option<Value>
    requires |ks| == |items|
  {
    if pe !in ks then None
    else
      var i := IndexOf(ks, pe);
      if pe in ks[i + 1..] then Some(Null) else Some(items[i])
  }

  function IndexOf<T(==)>(xs: seq<T>, x: T): (i: nat)
    requires x in xs
    ensures i < |xs| && xs[i] == x && x !in xs[..i]
  {
    if xs[0] == x then 0 else 1 + IndexOf(xs[1..], x)
  }

  function Merge(s: Schema, tr: TypeRef, l: Option<Value>, r: Option<Value>): Merged
    decreases OptHeight(l) + OptHeight(r), 2
  {
    if l.None? && r.None? then FAILED
    else
      var a := Resolve(s, tr);
      if a.None? then FAILED
      else
        var al, ar := DeduceAtom(a.value, l), DeduceAtom(a.value, r);
        if r.None? then MergeAtom(s, al, l, r)
        else if l.None? || al == ar then MergeAtom(s, ar, l, r)
        else
          var m := MergeAtom(s, ar, l, r);
          Merged(m.out, m.ok && MergeAtom(s, al, l, r).ok)
  }

  function MergeAtom(s: Schema, a: Atom, l: Option<Value>, r: Option<Value>): Merged
    decreases OptHeight(l) + OptHeight(r), 1
  {
    if a.mapping.Some? then
      var t, lf, rf := a.mapping.value, FieldsOf(l), FieldsOf(r);
      if t.relationship.Atomic? || (lf == map[] && rf == map[]) then Merged(KeepRight(l, r), true)
      else
        var out := map k | k in lf.Keys + rf.Keys && MergeField(s, t, l, r, k).out.Some?
                     :: MergeField(s, t, l, r, k).out.value;
        Merged(if out == map[] then None else Some(Map(out)),
               forall k | k in lf.Keys + rf.Keys :: MergeField(s, t, l, r, k).ok)
    else if a.scalar.Some? then
      if ValidScalar(a.scalar.value, l) || ValidScalar(a.scalar.value, r)
      then Merged(KeepRight(l, r), true)
      else FAILED
    else if a.list.Some? then
      var t, li, ri := a.list.value, ItemsOf(l), ItemsOf(r);
      if t.relationship.Atomic? || (li == [] && ri == []) then Merged(KeepRight(l, r), true)
      else if !Indexable(s, t, li, true) || !Indexable(s, t, ri, false) then FAILED
      else
        var lk, rk := Elements(s, t, li), Elements(s, t, ri);
        var steps := Plan(lk, rk, 0, 0);
        assert forall step | step in steps :: InRange(lk, rk, step) ==> StepOk(l, r, step);
        var out := MergeSteps(s, t, l, r, steps);
        Merged(if out == [] then None else Some(List(out)), true)
    else FAILED
  }

  function MergeField(s: Schema, t: MapType, l: Option<Value>, r: Option<Value>, k: string): Merged
    requires k in FieldsOf(l).Keys + FieldsOf(r).Keys
    decreases OptHeight(l) + OptHeight(r), 0
  {
    LookupHeight(l, k);
    LookupHeight(r, k);
    Merge(s, FieldType(t, k), Lookup(FieldsOf(l), k), Lookup(FieldsOf(r), k))
  }

  /** Every item has a path element, and no two share one unless duplicates are allowed. */
  predicate Indexable(s: Schema, t: ListType, items: seq<Value>, dups: bool) {
    (forall x | x in items :: ItemElement(s, t, x).Some?) &&
    (dups || Distinct(Elements(s, t, items)))
  }

  predicate StepOk(l: Option<Value>, r: Option<Value>, step: Step) {
    match step
    case FromLeft(i) => i < |ItemsOf(l)|
    case FromRight(j) => j < |ItemsOf(r)|
  }

  /** The items the steps emit; an item that merges to nothing is left out, its errors are dropped. */
  function MergeSteps(s: Schema, t: ListType, l: Option<Value>, r: Option<Value>, steps: seq<Step>): seq<Value>
    requires forall step | step in steps :: StepOk(l, r, step)
    decreases OptHeight(l) + OptHeight(r), 0, |steps|
  {
    if steps == [] then []
    else
      var head := MergeStep(s, t, l, r, steps[0]).out;
      (if head.Some? then [head.value] else []) + MergeSteps(s, t, l, r, steps[1..])
  }

  function MergeStep(s: Schema, t: ListType, l: Option<Value>, r: Option<Value>, step: Step): Merged
    requires StepOk(l, r, step)
    decreases OptHeight(l) + OptHeight(r), 0, 0
  {
    var li, ri := ItemsOf(l), ItemsOf(r);
    match step
    case FromLeft(i) =>
      ItemsHeight(l, li[i]);
      Merge(s, t.elementType, Some(li[i]), None)
    case FromRight(j) =>
      ItemsHeight(r, ri[j]);
      var lc := Observed(Elements(s, t, li), li, ElementOf(s, t, ri[j]));
      ObservedHeight(s, t, l, ElementOf(s, t, ri[j]));
      Merge(s, t.elementType, lc, Some(ri[j]))
  }

  lemma {:induction false} ObservedHeight(s: Schema, t: ListType, o: Option<Value>, pe: PathElement)
    ensures OptHeight(Observed(Elements(s, t, ItemsOf(o)), ItemsOf(o), pe)) <= OptHeight(o)
  {
    var items := ItemsOf(o);
    var ks := Elements(s, t, items);
    if pe in ks {
      ItemsHeight(o, items[IndexOf(ks, pe)]);
    }
  }
}
