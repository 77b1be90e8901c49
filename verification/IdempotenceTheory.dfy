/** Applying the same dense configuration again changes nothing. */
module IdempotenceTheory {
  import opened Values
  import opened PathElements
  import opened Schemas
  import opened Comparing
  import opened Removing
  import opened Owning
  import opened Updating
  import opened PlainSetting
  import opened MergeTheory
  import opened CompareTheory
  import opened RemoveTheory
  import opened RemoveIff
  import opened OwningTheory
  import opened Absorption
  import opened PruneTheory
  import opened RunTheory
  import opened DenseTheory
  import opened ExtractTheory

  /** Pruning removes and loses no path of a dense configuration, since each leads on to a leaf. */
  lemma {:induction false} DenseKept(s: Schema, tr: TypeRef, merged: Value, config: Value, managed: PathSet, last: PathSet, p: Path)
    requires PruneInput(s, tr, merged, managed, last)
    requires Valid(s, tr, config, false) && Dense(s, tr, config) && ToFieldSet(s, tr, config) <= managed * AllPaths(s, tr, merged)
    requires p in AllPaths(s, tr, config) && p != []
    ensures p !in Dropped(s, tr, merged, managed, last) && !Loses(s, tr, merged, managed, last, p)
  {
    DenseClosed(s, tr, config, p);
    var q :| q in ToFieldSet(s, tr, config) && p <= q && ShapeOf(s, TypeAt(s, tr, q)).LeafShape?;
    ConfigLed(s, tr, merged, config, managed, q);
    LeafKept(s, tr, merged, managed, last, q);
    PrefixKept(s, tr, merged, managed, last, q, p);
  }

  /** What leads to something that is not lost is not lost. */
  lemma {:induction false} PrefixKept(s: Schema, tr: TypeRef, merged: Value, managed: PathSet, last: PathSet, q: Path, p: Path)
    requires p <= q && p != [] && !Loses(s, tr, merged, managed, last, q)
    requires forall i | 0 < i <= |q| :: q[..i] !in Dropped(s, tr, merged, managed, last)
    ensures p !in Dropped(s, tr, merged, managed, last) && !Loses(s, tr, merged, managed, last, p)
  {
    assert q[..|p|] == p;
    forall i | 0 < i <= |p|
      ensures !LosesAt(s, tr, merged, managed, last, p[..i])
    {
      assert p[..i] == q[..i];
    }
  }

  /** Pruning keeps a dense configuration held. */
  lemma {:induction false} PruneHolds(s: Schema, tr: TypeRef, merged: Value, config: Value, managers: Managers, last: PathSet)
    requires PruneInput(s, tr, merged, Managed(managers), last) && !ShapeOf(s, tr).LeafShape?
    requires !Empties(s, tr, merged, Dropped(s, tr, merged, Managed(managers), last))
    requires Valid(s, tr, config, false) && Dense(s, tr, config) && ToFieldSet(s, tr, config) <= Managed(managers) * AllPaths(s, tr, merged)
    requires Holds(s, tr, merged, config)
    ensures Prune(s, tr, merged, managers, last).Some?
    ensures Holds(s, tr, Prune(s, tr, merged, managers, last).value, config)
  {
    PruneSound(s, tr, merged, managers, last);
    if last != {} {
      var dropped := Dropped(s, tr, merged, Managed(managers), last);
      forall p | p in AllPaths(s, tr, config) && p != []
        ensures p !in dropped
      {
        DenseKept(s, tr, merged, config, Managed(managers), last, p);
      }
      PassesSound(s, tr, merged, Managed(managers), last);
      RemovableIff(s, tr, merged, dropped);
      HoldsTrimmed(s, tr, merged, config, dropped);
      if dropped == {} {
        RemoveNothing(s, tr, merged);
      }
    }
  }

  /** Pruning by the field set of what is being applied removes nothing. */
  lemma {:induction false} PruneSame(s: Schema, tr: TypeRef, live: Value, config: Value, managers: Managers)
    requires Plain(s, tr) && !ShapeOf(s, tr).LeafShape? && Valid(s, tr, live, false) && Holds(s, tr, live, config)
    requires PruneInput(s, tr, live, Managed(managers), ToFieldSet(s, tr, config))
    requires Valid(s, tr, config, false) && Dense(s, tr, config) && ToFieldSet(s, tr, config) <= Managed(managers) * AllPaths(s, tr, live)
    ensures Prune(s, tr, live, managers, ToFieldSet(s, tr, config)) == Some(live)
  {
    PruneSound(s, tr, live, managers, ToFieldSet(s, tr, config));
    NothingDropped(s, tr, live, config, Managed(managers));
    RemoveNothing(s, tr, live);
  }

  lemma {:induction false} NothingDropped(s: Schema, tr: TypeRef, live: Value, config: Value, managed: PathSet)
    requires PruneInput(s, tr, live, managed, ToFieldSet(s, tr, config))
    requires Valid(s, tr, config, false) && Dense(s, tr, config) && ToFieldSet(s, tr, config) <= managed * AllPaths(s, tr, live)
    ensures Dropped(s, tr, live, managed, ToFieldSet(s, tr, config)) == {}
  {
    var fs := ToFieldSet(s, tr, config);
    FieldSetOwned(s, tr, config);
    EnsureOwned(s, tr, config, fs);
    forall p
      ensures p !in Dropped(s, tr, live, managed, fs)
    {
      if p in EnsureNamed(s, tr, fs) {
        DenseKept(s, tr, live, config, managed, fs, p);
      }
    }
  }

  /** A dense configuration is applied without loss in every such state, on every plain schema. */
  lemma {:induction false} DenseLossless(s: Schema, tr: TypeRef, st: State, config: Value, m: string, written: map<string, Value>)
    requires LeafSafe(s, tr, st, written) && Valid(s, tr, config, false) && Dense(s, tr, config)
    ensures Lossless(s, tr, st, config, m)
  {
    ApplyInput(s, tr, st, config, m);
    var merged, managed, last := MergedFor(s, tr, st, config), Managed(ManagersFor(s, tr, st, config, m)), OwnedBy(st.managers, m);
    FieldSetPaths(s, tr, config);
    forall p | p in ToFieldSet(s, tr, config)
      ensures !Loses(s, tr, merged, managed, last, p)
    {
      DenseKept(s, tr, merged, config, managed, last, p);
    }
  }

  /** Comparing an object with itself finds nothing. */
  lemma {:induction false} CompareSame(s: Schema, tr: TypeRef, v: Value)
    requires Plain(s, tr) && Valid(s, tr, v, false)
    ensures CompareObjects(s, tr, v, v) == SAME
  {
    var c := Compare(s, tr, Some(v), Some(v));
    CompareExact(s, tr, v, v);
    forall p
      ensures p !in c.modified
    {
      CompareAt(s, tr, Some(v), Some(v), p);
    }
    assert c.modified == {};
  }

  /** A write that changes nothing takes nothing over. */
  lemma {:induction false} TakeOverSame(s: Schema, tr: TypeRef, v: Value, managers: Managers, writer: string, force: bool)
    requires Plain(s, tr) && Valid(s, tr, v, false)
    requires forall m | m in managers :: managers[m].paths != {}
    ensures TakeOver(s, tr, v, v, managers, writer, force) == Done(managers)
  {
    CompareSame(s, tr, v);
    var c := CompareObjects(s, tr, v, v);
    forall m | m in managers
      ensures Remaining(managers, c, writer, m) == managers[m].paths
      ensures managers[m].paths * (c.modified + c.added) == {}
    {
    }
    assert ConflictsWith(managers, c, writer) == map[];
    assert (map m | m in managers && Remaining(managers, c, writer, m) != {}
              :: managers[m].(paths := Remaining(managers, c, writer, m))) == managers;
  }

  /** What a successful Apply of a dense configuration leaves. */
  lemma {:induction false} AppliedState(s: Schema, tr: TypeRef, st: State, written: map<string, Value>, config: Value, m: string, force: bool)
    requires LeafSafe(s, tr, st, written) && Valid(s, tr, config, false) && Dense(s, tr, config) && !ShapeOf(s, tr).LeafShape?
    requires Apply(s, tr, st, config, m, force).Done?
    ensures var after := Apply(s, tr, st, config, m, force).value;
            LeafSafe(s, tr, after, written[m := config]) && Holds(s, tr, after.live, config) &&
            m in after.managers && after.managers[m] == Entry(ToFieldSet(s, tr, config), true) &&
            Missing(s, tr, after.live, after.managers[m].paths) == {}
  {
    DenseLossless(s, tr, st, config, m, written);
    ApplyLeafSafe(s, tr, st, config, m, force, written);
    FieldSetNotEmpty(s, tr, config);
    var next, taken := ApplyParts(s, tr, st, config, m, force, written);
    AppliedHoldsConfig(s, tr, st, written, config, m, next);
  }

  lemma {:induction false} AppliedHoldsConfig(s: Schema, tr: TypeRef, st: State, written: map<string, Value>, config: Value, m: string, next: Value)
    requires LeafSafe(s, tr, st, written) && Valid(s, tr, config, false) && Dense(s, tr, config) && !ShapeOf(s, tr).LeafShape? && !Breaks(s, tr, st, config, m)
    requires Prune(s, tr, MergedFor(s, tr, st, config), ManagersFor(s, tr, st, config, m), OwnedBy(st.managers, m)) == Some(next)
    ensures Holds(s, tr, next, config)
  {
    ApplyInput(s, tr, st, config, m);
    AllowDuplicates(s, tr, st.live);
    MergeHolds(s, tr, Some(st.live), config);
    PruneHolds(s, tr, MergedFor(s, tr, st, config), config, ManagersFor(s, tr, st, config, m), OwnedBy(st.managers, m));
  }

  lemma {:induction false} FieldSetNotEmpty(s: Schema, tr: TypeRef, config: Value)
    requires Plain(s, tr) && !ShapeOf(s, tr).LeafShape? && Valid(s, tr, config, false) && Dense(s, tr, config)
    ensures ToFieldSet(s, tr, config) != {}
  {
    var q := DenseLeaf(s, tr, config);
    AllPathsIn(s, tr, config, q);
    DenseClosed(s, tr, config, q);
  }

  /** Applying what the object holds and the manager owns already changes nothing. */
  lemma {:induction false} ApplyHeld(s: Schema, tr: TypeRef, st: State, written: map<string, Value>, config: Value, m: string, force: bool)
    requires LeafSafe(s, tr, st, written) && Valid(s, tr, config, false) && Dense(s, tr, config) && !ShapeOf(s, tr).LeafShape? && Holds(s, tr, st.live, config)
    requires m in st.managers && st.managers[m] == Entry(ToFieldSet(s, tr, config), true)
    ensures Apply(s, tr, st, config, m, force) == Done(st)
  {
    ApplyInput(s, tr, st, config, m);
    AllowDuplicates(s, tr, st.live);
    MergeHeld(s, tr, st.live, config);
    assert st.managers[m := Entry(ToFieldSet(s, tr, config), true)] == st.managers;
    PruneSame(s, tr, st.live, config, st.managers);
    TakeOverSame(s, tr, st.live, st.managers, m, force);
    var next, taken := ApplyRest(s, tr, st, config, m, force, written);
  }

  /**
   * Re-applying a dense configuration right after it was applied, forced or not, reports no
   * conflict, returns no new object, and leaves the object and all managers as they are.
   */
  lemma {:induction false} ApplyIdempotent(s: Schema, tr: TypeRef, st: State, written: map<string, Value>, config: Value, m: string, force: bool, again: bool)
    requires LeafSafe(s, tr, st, written) && Valid(s, tr, config, false) && Dense(s, tr, config) && !ShapeOf(s, tr).LeafShape?
    requires Apply(s, tr, st, config, m, force).Done?
    ensures var after := Apply(s, tr, st, config, m, force).value;
            Apply(s, tr, after, config, m, again) == Done(after)
  {
    AppliedState(s, tr, st, written, config, m, force);
    ApplyHeld(s, tr, Apply(s, tr, st, config, m, force).value, written[m := config], config, m, again);
  }

  /** Extracting the leaves of a dense configuration from the object after Apply gives it back. */
  lemma {:induction false} ExtractUndoesApply(s: Schema, tr: TypeRef, st: State, written: map<string, Value>, config: Value, m: string, force: bool)
    requires LeafSafe(s, tr, st, written) && Valid(s, tr, config, false) && Dense(s, tr, config) && !ShapeOf(s, tr).LeafShape?
    requires Apply(s, tr, st, config, m, force).Done?
    ensures var after := Apply(s, tr, st, config, m, force).value;
            m in after.managers && Extract(s, tr, after.live, MaximalPaths(after.managers[m].paths)) == config
  {
    AppliedState(s, tr, st, written, config, m, force);
    var after := Apply(s, tr, st, config, m, force).value;
    DenseLeaves(s, tr, config);
    ExtractHeld(s, tr, after.live, config, MaximalPaths(ToFieldSet(s, tr, config)));
  }
}
