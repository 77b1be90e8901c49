/** When an Apply conflicts, and what a forced one takes over, path by path. */
module ConflictTheory {
  import opened Values
  import opened PathElements
  import opened Schemas
  import opened Merging
  import opened Comparing
  import opened Owning
  import opened Updating
  import opened PlainSetting
  import opened RemoveTheory
  import opened CompareTheory
  import opened MergeTheory
  import opened OwningTheory
  import opened LeftoverTheory
  import opened PruneTheory
  import opened RunTheory

  /** Another manager owns the path. */
  predicate OwnedByOther(st: State, m: string, other: string, p: Path) {
    other in st.managers && other != m && p in st.managers[other].paths
  }

  /** The configuration has something where there is nothing, or something different: another leaf, or another kind of empty container. */
  predicate Changes(s: Schema, tr: TypeRef, before: Option<Value>, wanted: Option<Value>) {
    Differs(s, tr, before, wanted) || (before.None? && wanted.Some?)
  }

  /** Another manager owns the path, the configuration changes it, and pruning does not lose it. */
  ghost predicate Contested(s: Schema, tr: TypeRef, st: State, config: Value, m: string, other: string, p: Path) {
    OwnedByOther(st, m, other, p) && Changes(s, TypeAt(s, tr, p), At(s, tr, Some(st.live), p), At(s, tr, Some(config), p)) &&
    !LosesFor(s, tr, st, config, m, p)
  }

  /** Merging into a node makes it differ exactly if what is merged differs from it. */
  lemma {:induction false} MergeDiffers(s: Schema, tr: TypeRef, l: Value, r: Value)
    requires Plain(s, tr) && Valid(s, tr, l, false) && Valid(s, tr, r, false)
    ensures Differs(s, tr, Some(l), Merge(s, tr, Some(l), Some(r)).out) <==> Differs(s, tr, Some(l), Some(r))
  {
    PlainNode(s, tr);
    MergeIsAtom(s, tr, Some(l), Some(r));
    MergeValid(s, tr, Some(l), Some(r));
    var a := Resolve(s, tr).value;
    assert ValidAtom(s, a, l, false) && ValidAtom(s, a, r, false);
    match ShapeOf(s, tr)
    case LeafShape =>
    case MapShape(t) =>
      if FieldsOf(Some(r)) != map[] {
        var k :| k in r.fields;
        MergedKidThere(s, tr, l, r, FieldName(k));
      }
    case ListShape(t) =>
      if ItemsOf(Some(r)) != [] {
        var ks := Elements(s, t, r.items);
        assert ks[0] in ks;
        MergedKidThere(s, tr, l, r, ks[0]);
      }
  }

  /** A child of the right operand is a child of the result. */
  lemma {:induction false} MergedKidThere(s: Schema, tr: TypeRef, l: Value, r: Value, pe: PathElement)
    requires Plain(s, tr) && Valid(s, tr, l, false) && Valid(s, tr, r, false) && Kid(s, tr, r, pe).Some?
    ensures var m := Merge(s, tr, Some(l), Some(r)).out; m.Some? && Kid(s, tr, m.value, pe).Some?
  {
    MergePaths(s, tr, l, r);
    AllPathsIn(s, tr, r, [pe]);
    AllPathsIn(s, tr, Merge(s, tr, Some(l), Some(r)).out.value, [pe]);
    assert [pe][1..] == [];
  }

  lemma {:induction false} MergedDiffers(s: Schema, tr: TypeRef, l: Value, r: Value, p: Path)
    requires Plain(s, tr) && Valid(s, tr, l, false) && Valid(s, tr, r, false) && At(s, tr, Some(l), p).Some?
    ensures var pt, lv := TypeAt(s, tr, p), At(s, tr, Some(l), p);
            Differs(s, pt, lv, At(s, tr, Merge(s, tr, Some(l), Some(r)).out, p)) <==> Differs(s, pt, lv, At(s, tr, Some(r), p))
  {
    MergeBias(s, tr, l, r, p);
    MergeAt(s, tr, Some(l), Some(r), p);
    if At(s, tr, Some(r), p).Some? {
      NodeValid(s, tr, l, p);
      NodeValid(s, tr, r, p);
      MergeDiffers(s, TypeAt(s, tr, p), At(s, tr, Some(l), p).value, At(s, tr, Some(r), p).value);
    }
  }

  lemma {:induction false} AtJoin(s: Schema, tr: TypeRef, o: Option<Value>, p: Path, r: Path)
    ensures At(s, tr, o, p + r) == At(s, TypeAt(s, tr, p), At(s, tr, o, p), r)
    decreases |p|
  {
    if p == [] {
      assert p + r == r;
    } else {
      AtJoin(s, ChildType(s, tr, p[0]), KidOf(s, tr, o, p[0]), p[1..], r);
      assert (p + r)[0] == p[0] && (p + r)[1..] == p[1..] + r;
    }
  }

  /** What leads to something that the configuration mentions is led to by managed paths. */
  lemma {:induction false} ClosedLed(s: Schema, tr: TypeRef, merged: Value, config: Value, managed: PathSet, u: Path)
    requires Plain(s, tr) && Valid(s, tr, config, false) && ToFieldSet(s, tr, config) <= managed
    requires u in EnsureNamed(s, tr, ToFieldSet(s, tr, config)) && At(s, tr, Some(merged), u).Some?
    ensures Led(s, tr, merged, managed, u)
  {
    var fs := ToFieldSet(s, tr, config);
    EnsureMonotone(s, tr, fs, managed);
    var w :| w in fs && u <= w by {
      if u !in fs {
        var q, i :| q in fs && 0 < i < |q| && Declared(s, tr, q[..i]) && u == q[..i];
        assert u <= q;
      }
    }
    forall j | 0 < j <= |u|
      ensures u[..j] in EnsureNamed(s, tr, managed)
    {
      FieldSetPrefix(s, tr, config, w, j);
      assert u[..j] == w[..j];
    }
  }

  /** Where the live object has nothing, the merged object mentions what the configuration does. */
  lemma {:induction false} MentionedByConfig(s: Schema, tr: TypeRef, st: State, config: Value, u: Path)
    requires Plain(s, tr) && Valid(s, tr, st.live, false) && Valid(s, tr, config, false) && At(s, tr, Some(st.live), u).None?
    ensures var merged := MergedFor(s, tr, st, config);
            Valid(s, tr, merged, false) &&
            (u in EnsureNamed(s, tr, ToFieldSet(s, tr, merged)) ==>
               At(s, tr, Some(merged), u).Some? && u in EnsureNamed(s, tr, ToFieldSet(s, tr, config)))
  {
    MergePaths(s, tr, st.live, config);
    var merged := MergedFor(s, tr, st, config);
    MergeValid(s, tr, Some(st.live), Some(config));
    if u in EnsureNamed(s, tr, ToFieldSet(s, tr, merged)) {
      MentionedPath(s, tr, merged, u);
      MergeBias(s, tr, st.live, config, u);
      SilentAt(s, tr, merged, u);
      SilentAt(s, tr, config, u);
    }
  }

  /** Below such a path nobody but managers has anything, so nothing is lost. */
  lemma {:induction false} NotLost(s: Schema, tr: TypeRef, st: State, config: Value, m: string, written: map<string, Value>, u: Path)
    requires LeafSafe(s, tr, st, written) && Valid(s, tr, config, false) && u != []
    requires forall r :: At(s, tr, Some(st.live), u + r).None?
    ensures u !in DroppedFor(s, tr, st, config, m)
  {
    ApplyInput(s, tr, st, config, m);
    var merged, managed, last := MergedFor(s, tr, st, config), Managed(ManagersFor(s, tr, st, config, m)), OwnedBy(st.managers, m);
    assert u + [] == u;
    MentionedByConfig(s, tr, st, config, u);
    if u in EnsureNamed(s, tr, ToFieldSet(s, tr, merged)) {
      ClosedLed(s, tr, merged, config, managed, u);
      assert u[..|u|] == u;
      DroppedIff(s, tr, merged, managed, last, u, |u|);
      NothingUnmanaged(s, tr, st, config, m, written, u);
      var gone := Unmanaged(s, tr, merged, managed);
      NothingBelow(u);
      EmptiedBelow(s, tr, merged, gone, {}, u);
      NeverEmptied(s, tr, merged, u);
      SilentAt(s, tr, merged, u);
    }
  }

  lemma {:induction false} NothingUnmanaged(s: Schema, tr: TypeRef, st: State, config: Value, m: string, written: map<string, Value>, u: Path)
    requires LeafSafe(s, tr, st, written) && Valid(s, tr, config, false) && u != []
    requires forall r :: At(s, tr, Some(st.live), u + r).None?
    ensures BelowPath(Unmanaged(s, tr, MergedFor(s, tr, st, config), Managed(ManagersFor(s, tr, st, config, m))), u) == {}
  {
    ApplyInput(s, tr, st, config, m);
    var merged, managed := MergedFor(s, tr, st, config), Managed(ManagersFor(s, tr, st, config, m));
    EnsureMonotone(s, tr, ToFieldSet(s, tr, config), managed);
    forall r
      ensures r !in BelowPath(Unmanaged(s, tr, merged, managed), u)
    {
      BelowPathIn(Unmanaged(s, tr, merged, managed), u, r);
      MentionedByConfig(s, tr, st, config, u + r);
    }
  }

  /** An Apply that reports no schema error, and the object it would persist. */
  ghost predicate Applying(s: Schema, tr: TypeRef, st: State, config: Value, m: string, written: map<string, Value>, next: Value) {
    LeafSafe(s, tr, st, written) && Valid(s, tr, config, false) && !Breaks(s, tr, st, config, m) && Valid(s, tr, next, false) &&
    Prune(s, tr, MergedFor(s, tr, st, config), ManagersFor(s, tr, st, config, m), OwnedBy(st.managers, m)) == Some(next)
  }

  /** A node that has no children. */
  predicate Childless(s: Schema, tr: TypeRef, v: Value) {
    ShapeOf(s, tr).LeafShape? || (FieldsOf(Some(v)) == map[] && ItemsOf(Some(v)) == [])
  }

  /** Only such a node differs as a whole. */
  lemma {:induction false} DiffersChildless(s: Schema, tr: TypeRef, v: Value, o: Option<Value>)
    requires Plain(s, tr) && Valid(s, tr, v, false) && Differs(s, tr, Some(v), o)
    ensures Childless(s, tr, v)
  {
    PlainNode(s, tr);
    assert ValidAtom(s, Resolve(s, tr).value, v, false);
  }

  /** An Apply removes nothing below it. */
  lemma {:induction false} ChildlessUntouched(s: Schema, tr: TypeRef, st: State, config: Value, m: string, written: map<string, Value>, p: Path)
    requires LeafSafe(s, tr, st, written) && Valid(s, tr, config, false) && p != [] && At(s, tr, Some(st.live), p).Some?
    requires Childless(s, TypeAt(s, tr, p), At(s, tr, Some(st.live), p).value)
    ensures BelowPath(DroppedFor(s, tr, st, config, m), p) == {}
  {
    var dropped := DroppedFor(s, tr, st, config, m);
    forall r
      ensures r !in BelowPath(dropped, p)
    {
      BelowPathIn(dropped, p, r);
      if r != [] {
        forall q
          ensures At(s, tr, Some(st.live), (p + r) + q).None?
        {
          assert (p + r) + q == p + (r + q);
          ChildlessBelow(s, tr, st.live, p, r + q);
        }
        NotLost(s, tr, st, config, m, written, p + r);
      }
    }
  }

  lemma {:induction false} ChildlessBelow(s: Schema, tr: TypeRef, v: Value, p: Path, r: Path)
    requires At(s, tr, Some(v), p).Some? && Childless(s, TypeAt(s, tr, p), At(s, tr, Some(v), p).value) && r != []
    ensures At(s, tr, Some(v), p + r).None?
  {
    AtJoin(s, tr, Some(v), p, r);
    AtNone(s, ChildType(s, TypeAt(s, tr, p), r[0]), r[1..]);
  }

  /** The live object and the new one differ at a node exactly if the node stays and the configuration differs there. */
  lemma {:induction false} NextDiffers(s: Schema, tr: TypeRef, st: State, config: Value, m: string, written: map<string, Value>, next: Value, p: Path)
    requires Applying(s, tr, st, config, m, written, next) && p != [] && At(s, tr, Some(st.live), p).Some?
    ensures var pt, lv := TypeAt(s, tr, p), At(s, tr, Some(st.live), p);
            Differs(s, pt, lv, At(s, tr, Some(next), p)) <==>
            p in AllPaths(s, tr, next) && Differs(s, pt, lv, At(s, tr, Some(config), p))
  {
    var pt, lv := TypeAt(s, tr, p), At(s, tr, Some(st.live), p).value;
    NodeValid(s, tr, st.live, p);
    if Childless(s, pt, lv) {
      ApplyInput(s, tr, st, config, m);
      ChildlessUntouched(s, tr, st, config, m, written, p);
      PruneAt(s, tr, MergedFor(s, tr, st, config), ManagersFor(s, tr, st, config, m), OwnedBy(st.managers, m), p);
      AllPathsIn(s, tr, next, p);
      MergedDiffers(s, tr, st.live, config, p);
    } else {
      if Differs(s, pt, Some(lv), At(s, tr, Some(next), p)) {
        DiffersChildless(s, pt, lv, At(s, tr, Some(next), p));
      }
      if Differs(s, pt, Some(lv), At(s, tr, Some(config), p)) {
        DiffersChildless(s, pt, lv, At(s, tr, Some(config), p));
      }
    }
  }

  /** A path that another manager owns and the configuration has is led to by managed paths. */
  lemma {:induction false} SharedLed(s: Schema, tr: TypeRef, st: State, config: Value, m: string, written: map<string, Value>, other: string, p: Path)
    requires LeafSafe(s, tr, st, written) && Valid(s, tr, config, false)
    requires OwnedByOther(st, m, other, p) && At(s, tr, Some(config), p).Some?
    ensures Led(s, tr, MergedFor(s, tr, st, config), Managed(ManagersFor(s, tr, st, config, m)), p)
  {
    ApplyInput(s, tr, st, config, m);
    var managers := ManagersFor(s, tr, st, config, m);
    var managed := Managed(managers);
    assert managers[other] == st.managers[other] && p in managed;
    MergePaths(s, tr, st.live, config);
    AllPathsIn(s, tr, config, p);
    AllPathsIn(s, tr, MergedFor(s, tr, st, config), p);
    forall j | 0 < j <= |p|
      ensures p[..j] in EnsureNamed(s, tr, managed)
    {
      if j == |p| {
        assert p[..j] == p;
      } else {
        StepManaged(s, tr, config, managed, p, j);
      }
    }
  }

  lemma {:induction false} StepManaged(s: Schema, tr: TypeRef, config: Value, managed: PathSet, p: Path, j: nat)
    requires Plain(s, tr) && Valid(s, tr, config, false) && At(s, tr, Some(config), p).Some?
    requires ToFieldSet(s, tr, config) <= managed && p in managed && 0 < j < |p|
    ensures p[..j] in EnsureNamed(s, tr, managed)
  {
    var q := p[..j];
    PrefixExists(s, tr, Some(config), p, j);
    MarkedExists(s, tr, config, q);
    FieldSetIn(s, tr, config, q);
    DeclaredIs(s, tr, config, q);
  }

  /** Such a path stays exactly if it is not lost. */
  lemma {:induction false} SharedKeepsIff(s: Schema, tr: TypeRef, st: State, config: Value, m: string, written: map<string, Value>, next: Value, other: string, p: Path)
    requires Applying(s, tr, st, config, m, written, next) && OwnedByOther(st, m, other, p) && At(s, tr, Some(config), p).Some?
    ensures p in AllPaths(s, tr, next) <==> !LosesFor(s, tr, st, config, m, p)
  {
    SharedLed(s, tr, st, config, m, written, other, p);
    ApplyInput(s, tr, st, config, m);
    LedKeepsIff(s, tr, MergedFor(s, tr, st, config), ManagersFor(s, tr, st, config, m), OwnedBy(st.managers, m), p);
  }

  /** A path that is not there is added exactly if the configuration has it and it is not lost. */
  lemma {:induction false} AddedIff(s: Schema, tr: TypeRef, st: State, config: Value, m: string, written: map<string, Value>, next: Value, other: string, p: Path)
    requires Applying(s, tr, st, config, m, written, next) && OwnedByOther(st, m, other, p) && At(s, tr, Some(st.live), p).None?
    ensures p in AllPaths(s, tr, next) <==> At(s, tr, Some(config), p).Some? && !LosesFor(s, tr, st, config, m, p)
  {
    if At(s, tr, Some(config), p).Some? {
      SharedKeepsIff(s, tr, st, config, m, written, next, other, p);
    } else {
      ApplyInput(s, tr, st, config, m);
      var merged := MergedFor(s, tr, st, config);
      MergeBias(s, tr, st.live, config, p);
      AllPathsIn(s, tr, merged, p);
      PruneExactAt(s, tr, merged, ManagersFor(s, tr, st, config, m), OwnedBy(st.managers, m), p);
    }
  }

  /** A path that another manager owns is modified or added exactly if it is contested. */
  lemma {:induction false} ChangedIff(s: Schema, tr: TypeRef, st: State, config: Value, m: string, written: map<string, Value>, next: Value, other: string, p: Path)
    requires Applying(s, tr, st, config, m, written, next) && OwnedByOther(st, m, other, p)
    ensures var c := CompareObjects(s, tr, st.live, next);
            (p in c.modified + c.added <==> Contested(s, tr, st, config, m, other, p)) &&
            (p in c.removed <==> p in AllPaths(s, tr, st.live) - AllPaths(s, tr, next))
  {
    assert Plausible(s, tr, st.managers[other].paths) && p != [];
    PlausibleCompared(s, tr, st.live, next, p);
    if At(s, tr, Some(st.live), p).None? {
      AddedIff(s, tr, st, config, m, written, next, other, p);
    } else {
      NextDiffers(s, tr, st, config, m, written, next, p);
      if At(s, tr, Some(config), p).Some? {
        SharedKeepsIff(s, tr, st, config, m, written, next, other, p);
      }
    }
  }

  /** An unforced Apply conflicts if and only if some path is contested, and names exactly the contested paths. */
  lemma {:induction false} ConflictsExact(s: Schema, tr: TypeRef, st: State, config: Value, m: string, written: map<string, Value>)
    requires LeafSafe(s, tr, st, written) && Valid(s, tr, config, false)
    ensures var after := Apply(s, tr, st, config, m, false);
            (after.Conflicts? <==> !Breaks(s, tr, st, config, m) && exists other, p :: Contested(s, tr, st, config, m, other, p)) &&
            (after.Conflicts? ==>
               forall other, p :: other in after.owned && p in after.owned[other] <==> Contested(s, tr, st, config, m, other, p))
  {
    ApplyFailsIff(s, tr, st, config, m, false, written);
    if !Breaks(s, tr, st, config, m) {
      var next, taken := ApplyParts(s, tr, st, config, m, false, written);
      var c := CompareObjects(s, tr, st.live, next);
      CompareExact(s, tr, st.live, next);
      forall other, p
        ensures Hit(st, c, m, other, p) <==> Contested(s, tr, st, config, m, other, p)
      {
        if OwnedByOther(st, m, other, p) {
          ChangedIff(s, tr, st, config, m, written, next, other, p);
        }
      }
      TakeOverConflicts(s, tr, st, config, m, next);
    }
  }

  /** Another manager owns the path, and the write adds or modifies it. */
  predicate Hit(st: State, c: Comparison, m: string, other: string, p: Path) {
    OwnedByOther(st, m, other, p) && p in c.modified + c.added
  }

  lemma {:induction false} TakeOverConflicts(s: Schema, tr: TypeRef, st: State, config: Value, m: string, next: Value)
    requires Compare(s, tr, Some(st.live), Some(next)).ok
    ensures var c := CompareObjects(s, tr, st.live, next);
            var taken := TakeOver(s, tr, st.live, next, ManagersFor(s, tr, st, config, m), m, false);
            (taken.Conflicts? <==> exists other, p :: Hit(st, c, m, other, p)) &&
            (taken.Conflicts? ==> forall other, p :: other in taken.owned && p in taken.owned[other] <==> Hit(st, c, m, other, p))
  {
    var managers, c := ManagersFor(s, tr, st, config, m), CompareObjects(s, tr, st.live, next);
    var conflicts := ConflictsWith(managers, c, m);
    forall other, p
      ensures other in conflicts && p in conflicts[other] <==> Hit(st, c, m, other, p)
    {
      if other in st.managers && other != m {
        assert managers[other] == st.managers[other];
        assert p in managers[other].paths * (c.modified + c.added) ==> other in conflicts;
      }
    }
    if conflicts != map[] {
      var other :| other in conflicts;
      var p :| p in conflicts[other];
      assert Hit(st, c, m, other, p);
    }
  }

  /** A forced Apply takes exactly the contested paths and what it removes from the others; the rest they keep. */
  lemma {:induction false} ForcedTakesContested(s: Schema, tr: TypeRef, st: State, config: Value, m: string, written: map<string, Value>, other: string, p: Path)
    requires LeafSafe(s, tr, st, written) && Valid(s, tr, config, false) && other != m
    ensures var after := Apply(s, tr, st, config, m, true);
            !Breaks(s, tr, st, config, m) ==>
              after.Done? &&
              (p in OwnedBy(after.value.managers, other) <==>
               p in OwnedBy(st.managers, other) && !Contested(s, tr, st, config, m, other, p) &&
               p !in AllPaths(s, tr, st.live) - AllPaths(s, tr, after.value.live))
  {
    if !Breaks(s, tr, st, config, m) {
      var next, taken := ApplyParts(s, tr, st, config, m, true, written);
      KeptByOthers(s, tr, st, config, m, true, next, other, p);
      if p in OwnedBy(st.managers, other) {
        ChangedIff(s, tr, st, config, m, written, next, other, p);
      }
    }
  }

  lemma {:induction false} KeptByOthers(s: Schema, tr: TypeRef, st: State, config: Value, m: string, force: bool, next: Value, other: string, p: Path)
    requires other != m
    ensures var managers := ManagersFor(s, tr, st, config, m);
            var c := CompareObjects(s, tr, st.live, next);
            var taken := TakeOver(s, tr, st.live, next, managers, m, force);
            taken.Done? ==>
              (p in OwnedBy(taken.value, other) <==>
               p in OwnedBy(st.managers, other) && p !in c.modified + c.added && p !in c.removed)
  {
  }

  predicate IsLeaf(s: Schema, tr: TypeRef, p: Path) {
    p != [] && ShapeOf(s, TypeAt(s, tr, p)).LeafShape?
  }

  /** A leaf is contested exactly if another manager owns it and the configuration has another value. */
  lemma {:induction false} LeafContested(s: Schema, tr: TypeRef, st: State, config: Value, m: string, written: map<string, Value>, other: string, p: Path)
    requires LeafSafe(s, tr, st, written) && Valid(s, tr, config, false) && IsLeaf(s, tr, p)
    ensures Contested(s, tr, st, config, m, other, p) <==>
            OwnedByOther(st, m, other, p) && At(s, tr, Some(config), p).Some? &&
            At(s, tr, Some(config), p) != At(s, tr, Some(st.live), p)
  {
    if OwnedByOther(st, m, other, p) && At(s, tr, Some(config), p).Some? {
      SharedLed(s, tr, st, config, m, written, other, p);
      ApplyInput(s, tr, st, config, m);
      LeafKept(s, tr, MergedFor(s, tr, st, config), Managed(ManagersFor(s, tr, st, config, m)), OwnedBy(st.managers, m), p);
    }
  }

  /** The object that an Apply persists has the configuration's leaves, and otherwise only leaves of the live object. */
  lemma {:induction false} AppliedLeaf(s: Schema, tr: TypeRef, st: State, config: Value, m: string, force: bool, written: map<string, Value>, p: Path)
    requires LeafSafe(s, tr, st, written) && Valid(s, tr, config, false) && IsLeaf(s, tr, p)
    requires Apply(s, tr, st, config, m, force).Done?
    ensures var next := Apply(s, tr, st, config, m, force).value.live;
            var before, wanted, after := At(s, tr, Some(st.live), p), At(s, tr, Some(config), p), At(s, tr, Some(next), p);
            (wanted.Some? ==> after == wanted) && (wanted.None? && after.Some? ==> after == before)
  {
    ApplyFailsIff(s, tr, st, config, m, force, written);
    var next, taken := ApplyParts(s, tr, st, config, m, force, written);
    ApplyInput(s, tr, st, config, m);
    MergeBias(s, tr, st.live, config, p);
    if At(s, tr, Some(config), p).Some? {
      AppliedValue(s, tr, st, config, m, written, next, p);
    }
    PruneExactAt(s, tr, MergedFor(s, tr, st, config), ManagersFor(s, tr, st, config, m), OwnedBy(st.managers, m), p);
    AllPathsIn(s, tr, next, p);
  }
}
