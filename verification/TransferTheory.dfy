/** Who owns what after a write, path by path, and what a schema change does to ownership first. */
module TransferTheory {
  import opened Values
  import opened PathElements
  import opened Schemas
  import opened Comparing
  import opened Updating
  import opened PlainSetting
  import opened ReconcileTheory
  import opened CutTheory
  import opened Owning
  import opened MergeTheory
  import opened OwningTheory
  import opened PruneTheory
  import opened RunTheory
  import opened ConflictTheory

  /** The write takes the node away. */
  predicate Drops(before: Option<Value>, after: Option<Value>) {
    before.Some? && after.None?
  }

  /** After an update, the writer owns what it changed and what it owned and did not drop; others keep what was neither changed nor dropped. */
  lemma {:induction false} UpdateTakes(s: Schema, tr: TypeRef, st: State, next: Value, writer: string, written: map<string, Value>, m: string, p: Path)
    requires LeafSafe(s, tr, st, written) && Valid(s, tr, next, false)
    ensures var after := Update(s, tr, st, next, writer);
            var bv, nv := At(s, tr, Some(st.live), p), At(s, tr, Some(next), p);
            var changed := p != [] && Changes(s, TypeAt(s, tr, p), bv, nv);
            after.Done? &&
            (p in OwnedBy(after.value.managers, m) <==>
             if m == writer then (p in OwnedBy(st.managers, m) && !Drops(bv, nv)) || changed
             else p in OwnedBy(st.managers, m) && !Drops(bv, nv) && !changed)
  {
    var others, own := UpdateParts(s, tr, st, next, writer, written);
    var c := CompareObjects(s, tr, st.live, next);
    if p != [] {
      PlausibleCompared(s, tr, st.live, next, p);
    } else {
      RootUnowned(s, tr, st, written, m);
    }
    if m != writer {
      UpdateOthers(s, tr, st, next, writer, m, p);
    }
  }

  lemma {:induction false} RootUnowned(s: Schema, tr: TypeRef, st: State, written: map<string, Value>, m: string)
    requires LeafSafe(s, tr, st, written)
    ensures [] !in OwnedBy(st.managers, m)
  {
  }

  lemma {:induction false} UpdateOthers(s: Schema, tr: TypeRef, st: State, next: Value, writer: string, m: string, p: Path)
    requires m != writer
    ensures var c := CompareObjects(s, tr, st.live, next);
            var taken := TakeOver(s, tr, st.live, next, st.managers, writer, true);
            taken.Done? ==>
              (p in OwnedBy(taken.value, m) <==> p in OwnedBy(st.managers, m) && p !in c.modified + c.added && p !in c.removed)
  {
  }

  /** On every schema: a manager is recorded as applied if its last write was an Apply. */
  lemma {:induction false} FlagsKept(s: Schema, tr: TypeRef, st: State, v: Value, m: string, force: bool, o: string)
    ensures var after := Update(s, tr, st, v, m);
            after.Done? && o in after.value.managers ==>
              (after.value.managers[o].applied <==> o != m && o in st.managers && st.managers[o].applied)
    ensures var after := Apply(s, tr, st, v, m, force);
            after.Done? && o in after.value.managers ==>
              (after.value.managers[o].applied <==> o == m || (o in st.managers && st.managers[o].applied))
  {
  }

  lemma {:induction false} ReconcileAllTwice(s: Schema, tr: TypeRef, managers: Managers)
    requires ReconcileAll(s, tr, managers).Done?
    ensures var once := ReconcileAll(s, tr, managers).value;
            ReconcileAll(s, tr, once) == Done(once)
  {
    var once := ReconcileAll(s, tr, managers).value;
    forall m | m in once
      ensures ReconcileEntry(s, tr, once[m]) == Some(once[m])
    {
      ReconcileTwice(s, tr, managers[m].paths);
    }
    assert (map m | m in once :: ReconcileEntry(s, tr, once[m]).value) == once;
  }

  /** On every schema and in every state, a write first reconciles all sets, or fails if one cannot be. */
  lemma {:induction false} WritesReconcile(s: Schema, tr: TypeRef, st: State, v: Value, m: string, force: bool)
    ensures var ms := ReconcileAll(s, tr, st.managers);
            if ms.Done? then
              Update(s, tr, st, v, m) == Update(s, tr, State(st.live, ms.value), v, m) &&
              Apply(s, tr, st, v, m, force) == Apply(s, tr, State(st.live, ms.value), v, m, force)
            else Update(s, tr, st, v, m).SchemaError? && Apply(s, tr, st, v, m, force).SchemaError?
  {
    if ReconcileAll(s, tr, st.managers).Done? {
      ReconcileAllTwice(s, tr, st.managers);
    }
  }

  /** A write adds nothing to what the others own. */
  lemma {:induction false} OthersWithin(s: Schema, tr: TypeRef, st: State, v: Value, m: string, force: bool, o: string)
    requires o != m && ReconcileAll(s, tr, st.managers).Done?
    ensures var ms := ReconcileAll(s, tr, st.managers).value;
            (Update(s, tr, st, v, m).Done? ==> OwnedBy(Update(s, tr, st, v, m).value.managers, o) <= OwnedBy(ms, o)) &&
            (Apply(s, tr, st, v, m, force).Done? ==> OwnedBy(Apply(s, tr, st, v, m, force).value.managers, o) <= OwnedBy(ms, o))
  {
  }

  /** So after any write no other manager owns a path that goes on below a cut. */
  lemma {:induction false} NobodyBelowCuts(s: Schema, tr: TypeRef, st: State, v: Value, m: string, force: bool, o: string, p: Path, n: nat)
    requires o != m && 0 < n < |p| && CutAt(s, tr, p, n)
    ensures Update(s, tr, st, v, m).Done? ==> p !in OwnedBy(Update(s, tr, st, v, m).value.managers, o)
    ensures Apply(s, tr, st, v, m, force).Done? ==> p !in OwnedBy(Apply(s, tr, st, v, m, force).value.managers, o)
  {
    var ms := ReconcileAll(s, tr, st.managers);
    if ms.Done? {
      OthersWithin(s, tr, st, v, m, force, o);
      ReconciledOwned(s, tr, st.managers, o, p, n);
    }
  }

  lemma {:induction false} ReconciledOwned(s: Schema, tr: TypeRef, managers: Managers, o: string, p: Path, n: nat)
    requires ReconcileAll(s, tr, managers).Done? && 0 < n < |p| && CutAt(s, tr, p, n)
    ensures p !in OwnedBy(ReconcileAll(s, tr, managers).value, o)
  {
    if o in managers {
      ReconciledIs(s, tr, managers[o].paths, p);
    }
  }

  /** The configuration mentions the path, or another manager owns it. */
  ghost predicate Backed(s: Schema, tr: TypeRef, st: State, config: Value, m: string, q: Path) {
    q in ToFieldSet(s, tr, config) || exists o :: OwnedByOther(st, m, o, q)
  }

  lemma {:induction false} BackedManaged(s: Schema, tr: TypeRef, st: State, config: Value, m: string, q: Path)
    ensures Backed(s, tr, st, config, m, q) <==> q in Managed(ManagersFor(s, tr, st, config, m))
  {
    var managers := ManagersFor(s, tr, st, config, m);
    if q in ToFieldSet(s, tr, config) {
      assert m in managers && q in managers[m].paths;
    }
    if o :| OwnedByOther(st, m, o, q) {
      assert o in managers && q in managers[o].paths;
    }
    if q in Managed(managers) {
      var o :| o in managers && q in managers[o].paths;
      assert o == m || OwnedByOther(st, m, o, q);
    }
  }

  /** All that leads to the path is backed or a declared field. */
  ghost predicate StepsBacked(s: Schema, tr: TypeRef, st: State, config: Value, m: string, p: Path) {
    forall j | 0 < j < |p| :: NamedAt(s, tr, p[..j]) || Backed(s, tr, st, config, m, p[..j])
  }

  lemma {:induction false} BackedLed(s: Schema, tr: TypeRef, st: State, config: Value, m: string, written: map<string, Value>, p: Path)
    requires LeafSafe(s, tr, st, written) && Valid(s, tr, config, false) && p != [] && At(s, tr, Some(st.live), p).Some?
    requires Backed(s, tr, st, config, m, p) && StepsBacked(s, tr, st, config, m, p)
    ensures Led(s, tr, MergedFor(s, tr, st, config), Managed(ManagersFor(s, tr, st, config, m)), p)
  {
    var managed := Managed(ManagersFor(s, tr, st, config, m));
    MergeBias(s, tr, st.live, config, p);
    MergePaths(s, tr, st.live, config);
    AllPathsIn(s, tr, st.live, p);
    AllPathsIn(s, tr, MergedFor(s, tr, st, config), p);
    BackedManaged(s, tr, st, config, m, p);
    forall j | 0 < j <= |p|
      ensures p[..j] in EnsureNamed(s, tr, managed)
    {
      BackedManaged(s, tr, st, config, m, p[..j]);
      if j == |p| {
        assert p[..j] == p;
      } else if NamedAt(s, tr, p[..j]) {
        PrefixExists(s, tr, Some(st.live), p, j);
        DeclaredIs(s, tr, st.live, p[..j]);
      }
    }
  }

  /**
   * An owned leaf, with all that leads to it backed or declared, stays in an Apply exactly if the configuration
   * has it or another manager owns it.
   */
  lemma {:induction false} LeafStaysIff(s: Schema, tr: TypeRef, st: State, config: Value, m: string, force: bool, written: map<string, Value>, p: Path)
    requires LeafSafe(s, tr, st, written) && Valid(s, tr, config, false) && Apply(s, tr, st, config, m, force).Done?
    requires IsLeaf(s, tr, p) && At(s, tr, Some(st.live), p).Some? && StepsBacked(s, tr, st, config, m, p)
    requires p in OwnedBy(st.managers, m) || Backed(s, tr, st, config, m, p)
    ensures At(s, tr, Some(Apply(s, tr, st, config, m, force).value.live), p).Some? <==>
            At(s, tr, Some(config), p).Some? || exists o :: OwnedByOther(st, m, o, p)
  {
    ApplyFailsIff(s, tr, st, config, m, force, written);
    var next, taken := ApplyParts(s, tr, st, config, m, force, written);
    ApplyInput(s, tr, st, config, m);
    var merged, managers, last := MergedFor(s, tr, st, config), ManagersFor(s, tr, st, config, m), OwnedBy(st.managers, m);
    PruneExactAt(s, tr, merged, managers, last, p);
    AllPathsIn(s, tr, next, p);
    FieldSetIn(s, tr, config, p);
    MarkedExists(s, tr, config, p);
    LeafDropped(s, tr, st, config, m, written, p);
  }

  /** Whether a step of such a leaf is dropped. */
  lemma {:induction false} LeafDropped(s: Schema, tr: TypeRef, st: State, config: Value, m: string, written: map<string, Value>, p: Path)
    requires LeafSafe(s, tr, st, written) && Valid(s, tr, config, false)
    requires IsLeaf(s, tr, p) && At(s, tr, Some(st.live), p).Some? && StepsBacked(s, tr, st, config, m, p)
    requires p in OwnedBy(st.managers, m) || Backed(s, tr, st, config, m, p)
    ensures p in AllPaths(s, tr, MergedFor(s, tr, st, config))
    ensures Covered(p, DroppedFor(s, tr, st, config, m)) <==> !Backed(s, tr, st, config, m, p)
  {
    ApplyInput(s, tr, st, config, m);
    var merged, managed, last := MergedFor(s, tr, st, config), Managed(ManagersFor(s, tr, st, config, m)), OwnedBy(st.managers, m);
    MergePaths(s, tr, st.live, config);
    AllPathsIn(s, tr, st.live, p);
    BackedManaged(s, tr, st, config, m, p);
    if Backed(s, tr, st, config, m, p) {
      BackedLed(s, tr, st, config, m, written, p);
      LeafKept(s, tr, merged, managed, last, p);
    } else {
      OrphanDropped(s, tr, merged, managed, last, p);
      assert p[..|p|] == p;
    }
  }
}
