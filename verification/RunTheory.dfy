/** Ownership safety over whole runs of the updater. */
module RunTheory {
  import opened Values
  import opened PathElements
  import opened Schemas
  import opened Merging
  import opened Comparing
  import opened Owning
  import opened Reconciling
  import opened Updating
  import opened PlainSetting
  import opened MergeTheory
  import opened CompareTheory
  import opened ItemTheory
  import opened OwningTheory
  import opened KeyTheory
  import opened RemoveIff
  import opened LeftoverTheory
  import opened DiffTheory
  import opened PruneTheory

  /** The paths of the set that are not in the object. */
  function Missing(s: Schema, tr: TypeRef, v: Value, paths: PathSet): PathSet {
    paths - AllPaths(s, tr, v)
  }

  /**
   * The set is not empty, and each of its leaves is in the live object, with the value it has in the
   * object that the manager wrote or applied last.
   */
  ghost predicate LeafHolding(s: Schema, tr: TypeRef, live: Value, written: Value, paths: PathSet) {
    paths != {} && Plausible(s, tr, paths) &&
    forall p | p in paths && ShapeOf(s, TypeAt(s, tr, p)).LeafShape? ::
      At(s, tr, Some(live), p).Some? && At(s, tr, Some(written), p) == At(s, tr, Some(live), p)
  }

  /** Every entry holds its leaves, over a valid live object; `written` is what each manager wrote last. */
  ghost predicate LeafSafe(s: Schema, tr: TypeRef, st: State, written: map<string, Value>) {
    Plain(s, tr) && Valid(s, tr, st.live, false) &&
    forall m | m in st.managers ::
      m in written && LeafHolding(s, tr, st.live, written[m], st.managers[m].paths)
  }

  /** Besides, everything that is owned is there. */
  ghost predicate Safe(s: Schema, tr: TypeRef, st: State, written: map<string, Value>) {
    LeafSafe(s, tr, st, written) && forall m | m in st.managers :: Missing(s, tr, st.live, st.managers[m].paths) == {}
  }

  datatype Step = UpdateTo(manager: string, next: Value) | ApplyOf(manager: string, config: Value, force: bool)

  /** The objects that a step brings in are valid. */
  predicate ValidStep(s: Schema, tr: TypeRef, step: Step) {
    match step
    case UpdateTo(_, next) => Valid(s, tr, next, false)
    case ApplyOf(_, config, _) => Valid(s, tr, config, false)
  }

  /** Besides, configurations are solid. */
  predicate Admissible(s: Schema, tr: TypeRef, step: Step) {
    ValidStep(s, tr, step) && (step.ApplyOf? ==> Solid(s, tr, step.config))
  }

  function Perform(s: Schema, tr: TypeRef, st: State, step: Step): Outcome<State> {
    match step
    case UpdateTo(m, next) => Update(s, tr, st, next, m)
    case ApplyOf(m, config, force) => Apply(s, tr, st, config, m, force)
  }

  function Record(written: map<string, Value>, step: Step): map<string, Value> {
    match step
    case UpdateTo(m, next) => written[m := next]
    case ApplyOf(m, config, _) => written[m := config]
  }

  /** Paths of objects are not touched by reconciliation with their own schema. */
  lemma {:induction false} TruncateSame(s: Schema, tr: TypeRef, v: Value, p: Path)
    requires Plain(s, tr) && Valid(s, tr, v, false) && At(s, tr, Some(v), p).Some?
    ensures Truncated(s, tr, p) == p && Resolves(s, tr, p)
    decreases |p|
  {
    PlainNode(s, tr);
    if p != [] {
      var pe, rest, ct := p[0], p[1..], ChildType(s, tr, p[0]);
      if Kid(s, tr, v, pe).None? {
        AtNone(s, ct, rest);
      }
      KidValid(s, tr, v, pe, false);
      TruncateSame(s, ct, Kid(s, tr, v, pe).value, rest);
      assert p == [pe] + rest;
    }
  }

  lemma {:induction false} ReconcileSame(s: Schema, tr: TypeRef, paths: PathSet)
    requires Plain(s, tr) && Plausible(s, tr, paths)
    ensures Reconcile(s, tr, paths) == Some(paths)
  {
    PlainNode(s, tr);
    forall p | p in paths
      ensures Truncate(s, tr, p) == p && Resolves(s, tr, p)
    {
      assert Possible(s, tr, p);
      var v :| Valid(s, tr, v, false) && At(s, tr, Some(v), p).Some?;
      TruncateSame(s, tr, v, p);
    }
    assert (set p | p in paths :: Truncate(s, tr, p)) == paths;
  }

  lemma {:induction false} ReconcileAllSame(s: Schema, tr: TypeRef, st: State, written: map<string, Value>)
    requires LeafSafe(s, tr, st, written)
    ensures ReconcileAll(s, tr, st.managers) == Done(st.managers)
  {
    forall m | m in st.managers
      ensures Reconcile(s, tr, st.managers[m].paths) == Some(st.managers[m].paths)
    {
      ReconcileSame(s, tr, st.managers[m].paths);
    }
    Untouched(s, tr, st.managers);
  }

  /** If no set changes, no entry does. */
  lemma {:induction false} Untouched(s: Schema, tr: TypeRef, managers: Managers)
    requires forall m | m in managers :: Reconcile(s, tr, managers[m].paths) == Some(managers[m].paths)
    ensures ReconcileAll(s, tr, managers) == Done(managers)
  {
    forall m | m in managers
      ensures ReconcileEntry(s, tr, managers[m]) == Some(managers[m])
    {
    }
    assert (map m | m in managers :: ReconcileEntry(s, tr, managers[m]).value) == managers;
  }

  /** Every leaf of the set is in the object. */
  ghost predicate LeavesIn(s: Schema, tr: TypeRef, v: Value, paths: PathSet) {
    forall p | p in paths && ShapeOf(s, TypeAt(s, tr, p)).LeafShape? :: At(s, tr, Some(v), p).Some?
  }

  /** How two objects compare at the paths of a plausible set. */
  lemma {:induction false} PlausibleCompared(s: Schema, tr: TypeRef, before: Value, next: Value, p: Path)
    requires Plain(s, tr) && Valid(s, tr, before, false) && Valid(s, tr, next, false) && p != []
    ensures var c := CompareObjects(s, tr, before, next);
            var bv, nv := At(s, tr, Some(before), p), At(s, tr, Some(next), p);
            (p in c.added <==> bv.None? && nv.Some?) && (p in c.removed <==> bv.Some? && nv.None?) &&
            (p in c.modified <==> Differs(s, TypeAt(s, tr, p), bv, nv)) &&
            (p in AllPaths(s, tr, before) <==> bv.Some?) && (p in AllPaths(s, tr, next) <==> nv.Some?)
  {
    CompareAt(s, tr, Some(before), Some(next), p);
    AllPathsIn(s, tr, before, p);
    AllPathsIn(s, tr, next, p);
  }

  /** What a write leaves to another manager: its leaves are there and unchanged, and nothing more is missing. */
  lemma {:induction false} RemainingKept(s: Schema, tr: TypeRef, before: Value, next: Value, paths: PathSet)
    requires Plain(s, tr) && Valid(s, tr, before, false) && Valid(s, tr, next, false)
    requires Plausible(s, tr, paths) && LeavesIn(s, tr, before, paths)
    ensures var c := CompareObjects(s, tr, before, next);
            var rest := paths - (c.modified + c.added) - c.removed;
            Plausible(s, tr, rest) && LeavesIn(s, tr, next, rest) &&
            (forall p | p in rest && ShapeOf(s, TypeAt(s, tr, p)).LeafShape? ::
               At(s, tr, Some(next), p) == At(s, tr, Some(before), p)) &&
            Missing(s, tr, next, rest) == Missing(s, tr, before, paths) - AllPaths(s, tr, next)
  {
    var c := CompareObjects(s, tr, before, next);
    var rest := paths - (c.modified + c.added) - c.removed;
    ComparisonOwned(s, tr, before, next);
    forall p | p in paths
      ensures p in rest && ShapeOf(s, TypeAt(s, tr, p)).LeafShape? ==> At(s, tr, Some(next), p) == At(s, tr, Some(before), p)
      ensures p !in AllPaths(s, tr, next) ==> (p in rest <==> p !in AllPaths(s, tr, before))
    {
      PlausibleCompared(s, tr, before, next, p);
    }
  }

  /** The others after a write still hold the leaves that are left to them. */
  lemma {:induction false} TakeOverKept(s: Schema, tr: TypeRef, st: State, managers: Managers, next: Value, writer: string, force: bool, written: map<string, Value>)
    requires LeafSafe(s, tr, st, written) && Valid(s, tr, next, false)
    requires forall m | m in managers && m != writer :: m in st.managers && managers[m] == st.managers[m]
    ensures var after := TakeOver(s, tr, st.live, next, managers, writer, force);
            !after.SchemaError? && (force ==> after.Done?) &&
            (after.Done? ==>
               (forall m | m in after.value ::
                  m in managers && after.value[m].paths != {} &&
                  (m == writer ==> after.value[m] == managers[m]) &&
                  (m != writer ==> m in written && LeafHolding(s, tr, next, written[m], after.value[m].paths))) &&
               (forall m | m != writer ::
                  Missing(s, tr, next, OwnedBy(after.value, m)) ==
                  Missing(s, tr, st.live, OwnedBy(managers, m)) - AllPaths(s, tr, next)))
  {
    CompareExact(s, tr, st.live, next);
    var c := CompareObjects(s, tr, st.live, next);
    forall m | m in managers && m != writer
      ensures var rest := Remaining(managers, c, writer, m);
              m in written && (rest != {} ==> LeafHolding(s, tr, next, written[m], rest)) &&
              Missing(s, tr, next, rest) == Missing(s, tr, st.live, managers[m].paths) - AllPaths(s, tr, next)
    {
      RemainingKept(s, tr, st.live, next, managers[m].paths);
    }
  }

  /** What the writer of an update owns afterwards. */
  lemma {:induction false} WriterOwns(s: Schema, tr: TypeRef, before: Value, next: Value, paths: PathSet)
    requires Plain(s, tr) && Valid(s, tr, before, false) && Valid(s, tr, next, false)
    requires Plausible(s, tr, paths) && LeavesIn(s, tr, before, paths)
    ensures var c := CompareObjects(s, tr, before, next);
            var own := paths - c.removed + c.modified + c.added;
            Plausible(s, tr, own) && LeavesIn(s, tr, next, own) &&
            Missing(s, tr, next, own) == Missing(s, tr, before, paths) - AllPaths(s, tr, next)
  {
    var c := CompareObjects(s, tr, before, next);
    var own := paths - c.removed + c.modified + c.added;
    ComparisonOwned(s, tr, before, next);
    OwnedPlausible(s, tr, next, c.added);
    OwnedPlausible(s, tr, next, c.modified);
    assert KeyClosed(s, tr, paths - c.removed);
    forall p | p in own
      ensures ShapeOf(s, TypeAt(s, tr, p)).LeafShape? ==> At(s, tr, Some(next), p).Some?
      ensures p !in AllPaths(s, tr, next) ==> p in paths && p !in AllPaths(s, tr, before)
    {
      PlausibleCompared(s, tr, before, next, p);
    }
    forall p | p in paths && p !in AllPaths(s, tr, before)
      ensures p in own
    {
      PlausibleCompared(s, tr, before, next, p);
    }
  }

  /** Entries that hold their leaves, with one entry set or taken out. */
  lemma {:induction false} LeafSafeWith(s: Schema, tr: TypeRef, next: Value, others: Managers, writer: string, own: PathSet, written: map<string, Value>, last: Value)
    requires Plain(s, tr) && Valid(s, tr, next, false)
    requires forall m | m in others && m != writer ::
               m in written && LeafHolding(s, tr, next, written[m], others[m].paths)
    requires own != {} ==> LeafHolding(s, tr, next, last, own)
    ensures var ms := if own == {} then others - {writer} else others[writer := Entry(own, false)];
            LeafSafe(s, tr, State(next, ms), written[writer := last]) && OwnedBy(ms, writer) == own &&
            forall m | m != writer :: OwnedBy(ms, m) == OwnedBy(others, m)
  {
  }

  /** A step of anything else than Apply makes nothing missing for the manager. */
  ghost predicate NoneMissed(s: Schema, tr: TypeRef, st: State, after: State, m: string) {
    Missing(s, tr, after.live, OwnedBy(after.managers, m)) ==
    Missing(s, tr, st.live, OwnedBy(st.managers, m)) - AllPaths(s, tr, after.live)
  }

  /** An update, put together from its parts. */
  lemma {:induction false} UpdateParts(s: Schema, tr: TypeRef, st: State, next: Value, writer: string, written: map<string, Value>)
    returns (others: Managers, own: PathSet)
    requires LeafSafe(s, tr, st, written) && Valid(s, tr, next, false)
    ensures TakeOver(s, tr, st.live, next, st.managers, writer, true) == Done(others)
    ensures OwnedBy(others, writer) == OwnedBy(st.managers, writer)
    ensures var c := CompareObjects(s, tr, st.live, next); own == OwnedBy(others, writer) - c.removed + c.modified + c.added
    ensures Update(s, tr, st, next, writer) ==
            Done(State(next, if own == {} then others - {writer} else others[writer := Entry(own, false)]))
  {
    ReconcileAllSame(s, tr, st, written);
    TakeOverKept(s, tr, st, st.managers, next, writer, true, written);
    WriterKept(s, tr, st.live, next, st.managers, writer, true);
    others := TakeOver(s, tr, st.live, next, st.managers, writer, true).value;
    var c := CompareObjects(s, tr, st.live, next);
    own := OwnedBy(others, writer) - c.removed + c.modified + c.added;
  }

  /** An update always succeeds, keeps all owned leaves faithful, and makes nothing missing. */
  lemma {:induction false} UpdateLeafSafe(s: Schema, tr: TypeRef, st: State, next: Value, writer: string, written: map<string, Value>)
    requires LeafSafe(s, tr, st, written) && Valid(s, tr, next, false)
    ensures var after := Update(s, tr, st, next, writer);
            after.Done? && after.value.live == next && LeafSafe(s, tr, after.value, written[writer := next]) &&
            forall m :: NoneMissed(s, tr, st, after.value, m)
  {
    var others, own := UpdateParts(s, tr, st, next, writer, written);
    TakeOverKept(s, tr, st, st.managers, next, writer, true, written);
    assert Plausible(s, tr, OwnedBy(st.managers, writer)) && LeavesIn(s, tr, st.live, OwnedBy(st.managers, writer));
    WriterOwns(s, tr, st.live, next, OwnedBy(st.managers, writer));
    LeafSafeWith(s, tr, next, others, writer, own, written, next);
  }

  lemma {:induction false} UpdateSafe(s: Schema, tr: TypeRef, st: State, next: Value, writer: string, written: map<string, Value>)
    requires Safe(s, tr, st, written) && Valid(s, tr, next, false)
    ensures var after := Update(s, tr, st, next, writer);
            after.Done? && after.value.live == next && Safe(s, tr, after.value, written[writer := next])
  {
    UpdateLeafSafe(s, tr, st, next, writer, written);
    var after := Update(s, tr, st, next, writer).value;
    forall m | m in after.managers
      ensures Missing(s, tr, after.live, after.managers[m].paths) == {}
    {
      assert NoneMissed(s, tr, st, after, m);
    }
  }

  /** What Apply prunes from: the merged object, with every path that the configuration mentions in it. */
  lemma {:induction false} ApplyInput(s: Schema, tr: TypeRef, st: State, config: Value, m: string)
    requires Plain(s, tr) && Valid(s, tr, st.live, false) && Valid(s, tr, config, false)
    requires forall m | m in st.managers :: Plausible(s, tr, st.managers[m].paths)
    ensures var merged := Merge(s, tr, Some(st.live), Some(config));
            var managers := st.managers[m := Entry(ToFieldSet(s, tr, config), true)];
            merged.ok && merged.out.Some? && MentionedOk(s, tr, config) &&
            PruneInput(s, tr, merged.out.value, Managed(managers), OwnedBy(st.managers, m)) &&
            ToFieldSet(s, tr, config) <= Managed(managers) * AllPaths(s, tr, merged.out.value)
  {
    var fs := ToFieldSet(s, tr, config);
    var managers := st.managers[m := Entry(fs, true)];
    MergePaths(s, tr, st.live, config);
    LeftOk(s, tr, config, {});
    FieldSetOwned(s, tr, config);
    OwnedPlausible(s, tr, config, fs);
    forall p | p in fs
      ensures p in Managed(managers)
    {
      assert m in managers && p in managers[m].paths;
    }
    AllPlausible(s, tr, managers);
  }

  lemma {:induction false} AllPlausible(s: Schema, tr: TypeRef, managers: Managers)
    requires forall m | m in managers :: Plausible(s, tr, managers[m].paths)
    ensures Plausible(s, tr, Managed(managers))
  {
    forall p, k | IsKeyOf(s, tr, p, k)
      ensures p in Managed(managers) <==> p + [FieldName(k)] in Managed(managers)
    {
      assert forall o | o in managers :: p in managers[o].paths <==> p + [FieldName(k)] in managers[o].paths;
    }
  }

  /** The merged object an Apply prunes, the managers it prunes for, and what the writer owned last. */
  function MergedFor(s: Schema, tr: TypeRef, st: State, config: Value): Value {
    var merged := Merge(s, tr, Some(st.live), Some(config)).out;
    if merged.None? then Null else merged.value
  }

  function ManagersFor(s: Schema, tr: TypeRef, st: State, config: Value, m: string): Managers {
    st.managers[m := Entry(ToFieldSet(s, tr, config), true)]
  }

  /** What such an Apply removes. */
  function DroppedFor(s: Schema, tr: TypeRef, st: State, config: Value, m: string): PathSet {
    Dropped(s, tr, MergedFor(s, tr, st, config), Managed(ManagersFor(s, tr, st, config, m)), OwnedBy(st.managers, m))
  }

  /** It leaves some list item that is there and stays without any field. */
  ghost predicate Breaks(s: Schema, tr: TypeRef, st: State, config: Value, m: string) {
    Empties(s, tr, MergedFor(s, tr, st, config), DroppedFor(s, tr, st, config, m))
  }

  /** An Apply is the rest of Apply on these. */
  lemma {:induction false} ApplyRest(s: Schema, tr: TypeRef, st: State, config: Value, m: string, force: bool, written: map<string, Value>)
    returns (next: Value, taken: Outcome<Managers>)
    requires LeafSafe(s, tr, st, written) && Valid(s, tr, config, false)
    ensures Prune(s, tr, MergedFor(s, tr, st, config), ManagersFor(s, tr, st, config, m), OwnedBy(st.managers, m)) == Some(next)
    ensures taken == TakeOver(s, tr, st.live, next, ManagersFor(s, tr, st, config, m), m, force)
    ensures Apply(s, tr, st, config, m, force) == Persist(taken, next)
  {
    ApplyInput(s, tr, st, config, m);
    var merged, managers := MergedFor(s, tr, st, config), ManagersFor(s, tr, st, config, m);
    PruneSound(s, tr, merged, managers, OwnedBy(st.managers, m));
    next := Prune(s, tr, merged, managers, OwnedBy(st.managers, m)).value;
    taken := TakeOver(s, tr, st.live, next, managers, m, force);
    ReconcileAllSame(s, tr, st, written);
  }

  /** An Apply that breaks no item: the object to persist, and what becomes of the managers. */
  lemma {:induction false} ApplyParts(s: Schema, tr: TypeRef, st: State, config: Value, m: string, force: bool, written: map<string, Value>)
    returns (next: Value, taken: Outcome<Managers>)
    requires LeafSafe(s, tr, st, written) && Valid(s, tr, config, false) && !Breaks(s, tr, st, config, m)
    ensures Prune(s, tr, MergedFor(s, tr, st, config), ManagersFor(s, tr, st, config, m), OwnedBy(st.managers, m)) == Some(next)
    ensures Valid(s, tr, next, false) && Apply(s, tr, st, config, m, force) == Persist(taken, next)
    ensures taken == TakeOver(s, tr, st.live, next, ManagersFor(s, tr, st, config, m), m, force)
    ensures !taken.SchemaError? && (force ==> taken.Done?)
    ensures taken.Done? ==>
              (m in taken.value <==> ToFieldSet(s, tr, config) != {}) &&
              (m in taken.value ==> taken.value[m] == Entry(ToFieldSet(s, tr, config), true)) &&
              forall o | o in taken.value && o != m :: o in written && LeafHolding(s, tr, next, written[o], taken.value[o].paths)
  {
    next, taken := ApplyRest(s, tr, st, config, m, force, written);
    ApplyInput(s, tr, st, config, m);
    var merged, managers := MergedFor(s, tr, st, config), ManagersFor(s, tr, st, config, m);
    PruneSound(s, tr, merged, managers, OwnedBy(st.managers, m));
    TakeOverKept(s, tr, st, managers, next, m, force, written);
    WriterKept(s, tr, st.live, next, managers, m, force);
  }

  /** It makes nothing missing for the other managers. */
  lemma {:induction false} OthersMiss(s: Schema, tr: TypeRef, st: State, config: Value, m: string, force: bool, written: map<string, Value>, next: Value)
    requires LeafSafe(s, tr, st, written) && Valid(s, tr, next, false)
    ensures var taken := TakeOver(s, tr, st.live, next, ManagersFor(s, tr, st, config, m), m, force);
            taken.Done? ==> forall o | o != m :: NoneMissed(s, tr, st, State(next, taken.value), o)
  {
    var managers := ManagersFor(s, tr, st, config, m);
    TakeOverKept(s, tr, st, managers, next, m, force, written);
    assert forall o | o != m :: OwnedBy(managers, o) == OwnedBy(st.managers, o);
  }

  /** The writer keeps its entry, unless that is empty. */
  lemma {:induction false} WriterKept(s: Schema, tr: TypeRef, before: Value, next: Value, managers: Managers, m: string, force: bool)
    ensures var taken := TakeOver(s, tr, before, next, managers, m, force);
            taken.Done? ==>
              (m in taken.value <==> m in managers && managers[m].paths != {}) &&
              (m in taken.value ==> taken.value[m] == managers[m])
  {
  }

  /** An Apply reports a schema error exactly if it leaves a kept item without any field. */
  lemma {:induction false} ApplyFailsIff(s: Schema, tr: TypeRef, st: State, config: Value, m: string, force: bool, written: map<string, Value>)
    requires LeafSafe(s, tr, st, written) && Valid(s, tr, config, false)
    ensures Apply(s, tr, st, config, m, force).SchemaError? <==> Breaks(s, tr, st, config, m)
  {
    if Breaks(s, tr, st, config, m) {
      var next, taken := ApplyRest(s, tr, st, config, m, force, written);
      ApplyInput(s, tr, st, config, m);
      var merged, managers, last := MergedFor(s, tr, st, config), ManagersFor(s, tr, st, config, m), OwnedBy(st.managers, m);
      var dropped := DroppedFor(s, tr, st, config, m);
      PruneSound(s, tr, merged, managers, last);
      PassesSound(s, tr, merged, Managed(managers), last);
      SomethingEmptied(s, tr, merged, dropped);
      CompareLeftIff(s, tr, st.live, merged, dropped);
    } else {
      var next, taken := ApplyParts(s, tr, st, config, m, force, written);
    }
  }

  lemma {:induction false} SomethingEmptied(s: Schema, tr: TypeRef, v: Value, gone: PathSet)
    requires Empties(s, tr, v, gone)
    ensures gone != {}
  {
    if gone == {} {
      var p :| Emptied(s, tr, v, gone, p);
      NeverEmptied(s, tr, v, p);
    }
  }

  /** On anchored schemas no Apply does. */
  lemma {:induction false} AnchoredApplies(s: Schema, tr: TypeRef, st: State, config: Value, m: string, written: map<string, Value>)
    requires LeafSafe(s, tr, st, written) && Valid(s, tr, config, false) && Anchored(s, tr)
    ensures !Breaks(s, tr, st, config, m)
  {
    ApplyInput(s, tr, st, config, m);
    AnchoredPrunes(s, tr, MergedFor(s, tr, st, config), Managed(ManagersFor(s, tr, st, config, m)), OwnedBy(st.managers, m));
  }

  /** Applying the configuration in this state loses `p` or something that leads to it. */
  ghost predicate LosesFor(s: Schema, tr: TypeRef, st: State, config: Value, m: string, p: Path) {
    Loses(s, tr, MergedFor(s, tr, st, config), Managed(ManagersFor(s, tr, st, config, m)), OwnedBy(st.managers, m), p)
  }

  /** It loses no path that the configuration mentions. */
  ghost predicate Lossless(s: Schema, tr: TypeRef, st: State, config: Value, m: string) {
    forall p | p in ToFieldSet(s, tr, config) :: !LosesFor(s, tr, st, config, m, p)
  }

  /** On anchored schemas, solid configurations are applied without loss in every such state. */
  lemma {:induction false} SolidLossless(s: Schema, tr: TypeRef, st: State, config: Value, m: string, written: map<string, Value>)
    requires LeafSafe(s, tr, st, written) && Valid(s, tr, config, false) && Anchored(s, tr) && Solid(s, tr, config)
    ensures Lossless(s, tr, st, config, m)
  {
    ApplyInput(s, tr, st, config, m);
    var merged, managed, last := MergedFor(s, tr, st, config), Managed(ManagersFor(s, tr, st, config, m)), OwnedBy(st.managers, m);
    forall p | p in ToFieldSet(s, tr, config)
      ensures !Loses(s, tr, merged, managed, last, p)
    {
      ConfigKept(s, tr, merged, config, managed, last, p);
    }
  }

  /** A leaf of the configuration is in the object to persist, with the configuration's value. */
  lemma {:induction false} AppliedValue(s: Schema, tr: TypeRef, st: State, config: Value, m: string, written: map<string, Value>, next: Value, p: Path)
    requires LeafSafe(s, tr, st, written) && Valid(s, tr, config, false) && !Breaks(s, tr, st, config, m)
    requires Prune(s, tr, MergedFor(s, tr, st, config), ManagersFor(s, tr, st, config, m), OwnedBy(st.managers, m)) == Some(next)
    requires At(s, tr, Some(config), p).Some? && p != [] && ShapeOf(s, TypeAt(s, tr, p)).LeafShape?
    ensures At(s, tr, Some(next), p) == At(s, tr, Some(config), p)
  {
    ApplyInput(s, tr, st, config, m);
    var merged, managers, last := MergedFor(s, tr, st, config), ManagersFor(s, tr, st, config, m), OwnedBy(st.managers, m);
    MarkedExists(s, tr, config, p);
    FieldSetIn(s, tr, config, p);
    MergeBias(s, tr, st.live, config, p);
    ConfigLed(s, tr, merged, config, Managed(managers), p);
    LeafKept(s, tr, merged, Managed(managers), last, p);
    AllPathsIn(s, tr, merged, p);
    PruneExactAt(s, tr, merged, managers, last, p);
  }

  /** What the writer claims: its leaves are faithful, and exactly what is lost is missing. */
  lemma {:induction false} AppliedClaims(s: Schema, tr: TypeRef, st: State, config: Value, m: string, written: map<string, Value>, next: Value)
    requires LeafSafe(s, tr, st, written) && Valid(s, tr, config, false) && !Breaks(s, tr, st, config, m)
    requires Prune(s, tr, MergedFor(s, tr, st, config), ManagersFor(s, tr, st, config, m), OwnedBy(st.managers, m)) == Some(next)
    ensures var fs := ToFieldSet(s, tr, config);
            (fs != {} ==> LeafHolding(s, tr, next, config, fs)) &&
            forall p | p in fs :: p in Missing(s, tr, next, fs) <==> LosesFor(s, tr, st, config, m, p)
  {
    ApplyInput(s, tr, st, config, m);
    var fs := ToFieldSet(s, tr, config);
    FieldSetOwned(s, tr, config);
    OwnedPlausible(s, tr, config, fs);
    forall p | p in fs
      ensures p in AllPaths(s, tr, next) <==> !LosesFor(s, tr, st, config, m, p)
    {
      PruneKeepsIff(s, tr, MergedFor(s, tr, st, config), config, ManagersFor(s, tr, st, config, m), OwnedBy(st.managers, m), p);
    }
    forall p | p in fs && ShapeOf(s, TypeAt(s, tr, p)).LeafShape?
      ensures At(s, tr, Some(next), p).Some? && At(s, tr, Some(config), p) == At(s, tr, Some(next), p)
    {
      AllPathsIn(s, tr, config, p);
      AppliedValue(s, tr, st, config, m, written, next, p);
    }
  }

  /** The entries after a write by `m`. */
  lemma {:induction false} LeafSafeAfter(s: Schema, tr: TypeRef, next: Value, after: Managers, m: string, fs: PathSet, config: Value, written: map<string, Value>)
    requires Plain(s, tr) && Valid(s, tr, next, false)
    requires (m in after <==> fs != {}) && (m in after ==> after[m].paths == fs)
    requires fs != {} ==> LeafHolding(s, tr, next, config, fs)
    requires forall o | o in after && o != m :: o in written && LeafHolding(s, tr, next, written[o], after[o].paths)
    ensures LeafSafe(s, tr, State(next, after), written[m := config]) && OwnedBy(after, m) == fs
  {
  }

  /**
   * An Apply of any valid configuration fails by schema error exactly if it breaks an item, and
   * otherwise by conflict only. If it succeeds, all owned leaves are faithful, what is missing for its
   * manager is exactly what it lost, and nothing more is missing for the others.
   */
  lemma {:induction false} ApplyLeafSafe(s: Schema, tr: TypeRef, st: State, config: Value, m: string, force: bool, written: map<string, Value>)
    requires LeafSafe(s, tr, st, written) && Valid(s, tr, config, false)
    ensures var after := Apply(s, tr, st, config, m, force);
            (after.SchemaError? <==> Breaks(s, tr, st, config, m)) && (force ==> !after.Conflicts?) &&
            (after.Done? ==>
               LeafSafe(s, tr, after.value, written[m := config]) &&
               OwnedBy(after.value.managers, m) == ToFieldSet(s, tr, config) &&
               (forall p | p in ToFieldSet(s, tr, config) ::
                  p in Missing(s, tr, after.value.live, ToFieldSet(s, tr, config)) <==> LosesFor(s, tr, st, config, m, p)) &&
               (forall o | o != m :: NoneMissed(s, tr, st, after.value, o)))
  {
    ApplyFailsIff(s, tr, st, config, m, force, written);
    if !Breaks(s, tr, st, config, m) {
      var next, taken := ApplyParts(s, tr, st, config, m, force, written);
      if taken.Done? {
        AppliedClaims(s, tr, st, config, m, written, next);
        OthersMiss(s, tr, st, config, m, force, written, next);
        LeafSafeAfter(s, tr, next, taken.value, m, ToFieldSet(s, tr, config), config, written);
      }
    }
  }

  /** A successful Apply keeps ownership safe exactly if it loses nothing. */
  lemma {:induction false} ApplySafeIff(s: Schema, tr: TypeRef, st: State, config: Value, m: string, force: bool, written: map<string, Value>)
    requires Safe(s, tr, st, written) && Valid(s, tr, config, false)
    ensures var after := Apply(s, tr, st, config, m, force);
            (after.SchemaError? <==> Breaks(s, tr, st, config, m)) && (force ==> !after.Conflicts?) &&
            (after.Done? ==> (Safe(s, tr, after.value, written[m := config]) <==> Lossless(s, tr, st, config, m)))
  {
    ApplyLeafSafe(s, tr, st, config, m, force, written);
    if Apply(s, tr, st, config, m, force).Done? {
      var after := Apply(s, tr, st, config, m, force).value;
      forall o | o in after.managers && o != m
        ensures Missing(s, tr, after.live, after.managers[o].paths) == {}
      {
        assert NoneMissed(s, tr, st, after, o);
      }
      OnlyWriterMisses(s, tr, st, after, config, m);
    }
  }

  /** Nothing is missing at all exactly if the writer misses nothing. */
  lemma {:induction false} OnlyWriterMisses(s: Schema, tr: TypeRef, st: State, after: State, config: Value, m: string)
    requires OwnedBy(after.managers, m) == ToFieldSet(s, tr, config)
    requires forall p | p in ToFieldSet(s, tr, config) ::
               p in Missing(s, tr, after.live, ToFieldSet(s, tr, config)) <==> LosesFor(s, tr, st, config, m, p)
    requires forall o | o in after.managers && o != m :: Missing(s, tr, after.live, after.managers[o].paths) == {}
    ensures (forall o | o in after.managers :: Missing(s, tr, after.live, after.managers[o].paths) == {}) <==>
            Lossless(s, tr, st, config, m)
  {
    var fs := ToFieldSet(s, tr, config);
    assert m !in after.managers ==> fs == {};
    if Lossless(s, tr, st, config, m) {
      assert Missing(s, tr, after.live, fs) == {};
    }
  }

  /** What is lost is claimed by the writer all the same, and is not in the object. */
  lemma {:induction false} LostPath(s: Schema, tr: TypeRef, st: State, config: Value, m: string, written: map<string, Value>, p: Path)
    requires LeafSafe(s, tr, st, written) && Valid(s, tr, config, false) && !Breaks(s, tr, st, config, m)
    requires p in ToFieldSet(s, tr, config) && LosesFor(s, tr, st, config, m, p)
    ensures var after := Apply(s, tr, st, config, m, true);
            after.Done? && p in OwnedBy(after.value.managers, m) && p !in AllPaths(s, tr, after.value.live) &&
            !Safe(s, tr, after.value, written[m := config])
  {
    ApplyLeafSafe(s, tr, st, config, m, true, written);
    var after := Apply(s, tr, st, config, m, true).value;
    assert p in Missing(s, tr, after.live, after.managers[m].paths);
  }

  const EMPTY_STATE := State(Map(map[]), map[])

  /** Merging into an empty map gives the configuration. */
  lemma {:induction false} MergeIntoEmpty(s: Schema, tr: TypeRef, config: Value)
    requires Plain(s, tr) && ShapeOf(s, tr).MapShape? && Valid(s, tr, config, false) && FieldsOf(Some(config)) != map[]
    requires Valid(s, tr, Map(map[]), false)
    ensures Merge(s, tr, Some(Map(map[])), Some(config)) == Merged(Some(config), true)
  {
    var l, r := Some(Map(map[])), Some(config);
    var m := Merge(s, tr, l, r);
    MergeValid(s, tr, l, r);
    forall k
      ensures KidOf(s, tr, m.out, FieldName(k)) == Lookup(config.fields, k)
    {
      MergeKid(s, tr, l, r, FieldName(k));
      if k in config.fields {
        KidValid(s, tr, config, FieldName(k), false);
        MergeAlone(s, ChildType(s, tr, FieldName(k)), config.fields[k], false);
      }
    }
    var k :| k in config.fields;
    assert KidOf(s, tr, m.out, FieldName(k)).Some?;
    SameLookups(m.out.value.fields, config.fields);
  }

  lemma {:induction false} SameLookups(m: map<string, Value>, n: map<string, Value>)
    requires forall k :: Lookup(m, k) == Lookup(n, k)
    ensures m == n
  {
    forall k
      ensures k in m <==> k in n
      ensures k in m ==> m[k] == n[k]
    {
      assert Lookup(m, k) == Lookup(n, k);
    }
  }

  /** The first Apply, to an empty object: the object is the configuration, owned as its field set. */
  lemma {:induction false} FirstApply(s: Schema, tr: TypeRef, config: Value, m: string, force: bool)
    requires Plain(s, tr) && ShapeOf(s, tr).MapShape? && Valid(s, tr, config, false) && ToFieldSet(s, tr, config) != {}
    ensures var after := State(config, map[m := Entry(ToFieldSet(s, tr, config), true)]);
            Apply(s, tr, EMPTY_STATE, config, m, force) == Done(after) && Safe(s, tr, after, map[m := config])
  {
    EmptyValid(s, tr);
    SomeField(s, tr, config);
    MergeIntoEmpty(s, tr, config);
    var written: map<string, Value> := map[];
    NothingLost(s, tr, config, m);
    ApplySafeIff(s, tr, EMPTY_STATE, config, m, force, written);
    var next, taken := ApplyParts(s, tr, EMPTY_STATE, config, m, force, written);
    OnlyManager(s, tr, EMPTY_STATE.live, next, m, Entry(ToFieldSet(s, tr, config), true), force);
    assert ManagersFor(s, tr, EMPTY_STATE, config, m) == map[m := Entry(ToFieldSet(s, tr, config), true)];
    assert written[m := config] == map[m := config];
  }

  /** A manager that owned nothing loses nothing. */
  lemma {:induction false} NothingLost(s: Schema, tr: TypeRef, config: Value, m: string)
    ensures Lossless(s, tr, EMPTY_STATE, config, m) && !Breaks(s, tr, EMPTY_STATE, config, m)
  {
    assert EnsureNamed(s, tr, {}) == {} && OwnedBy(EMPTY_STATE.managers, m) == {};
    assert DroppedFor(s, tr, EMPTY_STATE, config, m) == {};
    if Breaks(s, tr, EMPTY_STATE, config, m) {
      SomethingEmptied(s, tr, MergedFor(s, tr, EMPTY_STATE, config), DroppedFor(s, tr, EMPTY_STATE, config, m));
    }
  }

  lemma {:induction false} EmptyValid(s: Schema, tr: TypeRef)
    requires Plain(s, tr) && ShapeOf(s, tr).MapShape?
    ensures Valid(s, tr, Map(map[]), false)
  {
    PlainNode(s, tr);
    assert ValidAtom(s, Resolve(s, tr).value, Map(map[]), false);
  }

  lemma {:induction false} SomeField(s: Schema, tr: TypeRef, config: Value)
    requires Plain(s, tr) && ShapeOf(s, tr).MapShape? && Valid(s, tr, config, false) && ToFieldSet(s, tr, config) != {}
    ensures FieldsOf(Some(config)) != map[]
  {
    var p :| p in ToFieldSet(s, tr, config);
    FieldSetIn(s, tr, config, p);
    assert Kid(s, tr, config, p[0]).Some?;
  }

  /** The only manager meets no conflict and keeps its entry. */
  lemma {:induction false} OnlyManager(s: Schema, tr: TypeRef, before: Value, next: Value, m: string, e: Entry, force: bool)
    requires Compare(s, tr, Some(before), Some(next)).ok && e.paths != {}
    ensures TakeOver(s, tr, before, next, map[m := e], m, force) == Done(map[m := e])
  {
    var managers: Managers := map[m := e];
    var c := CompareObjects(s, tr, before, next);
    assert ConflictsWith(managers, c, m) == map[];
    assert managers[m] == managers[m].(paths := Remaining(managers, c, m, m));
    assert (map o | o in managers && Remaining(managers, c, m, o) != {}
              :: managers[o].(paths := Remaining(managers, c, m, o))) == managers;
  }

  /** On anchored schemas an Apply of a solid configuration keeps ownership safe, and can fail by conflict only. */
  lemma {:induction false} ApplySafe(s: Schema, tr: TypeRef, st: State, config: Value, writer: string, force: bool, written: map<string, Value>)
    requires Safe(s, tr, st, written) && Valid(s, tr, config, false) && Anchored(s, tr) && Solid(s, tr, config)
    ensures var after := Apply(s, tr, st, config, writer, force);
            !after.SchemaError? && (force ==> after.Done?) &&
            (after.Done? ==> Safe(s, tr, after.value, written[writer := config]))
  {
    AnchoredApplies(s, tr, st, config, writer, written);
    SolidLossless(s, tr, st, config, writer, written);
    ApplySafeIff(s, tr, st, config, writer, force, written);
  }

  /** One successful step keeps ownership safe and faithful; only an unforced Apply can fail, by conflict. */
  lemma {:induction false} StepSafe(s: Schema, tr: TypeRef, st: State, step: Step, written: map<string, Value>)
    requires Safe(s, tr, st, written) && Anchored(s, tr) && Admissible(s, tr, step)
    ensures var after := Perform(s, tr, st, step);
            !after.SchemaError? && (after.Conflicts? ==> step.ApplyOf? && !step.force) &&
            (after.Done? ==> Safe(s, tr, after.value, Record(written, step)))
  {
    match step
    case UpdateTo(m, next) => UpdateSafe(s, tr, st, next, m, written);
    case ApplyOf(m, config, force) => ApplySafe(s, tr, st, config, m, force, written);
  }

  /** The state after the steps; a failed step changes nothing. */
  function Run(s: Schema, tr: TypeRef, st: State, steps: seq<Step>): State
    decreases |steps|
  {
    if steps == [] then st
    else
      var after := Perform(s, tr, st, steps[0]);
      Run(s, tr, if after.Done? then after.value else st, steps[1..])
  }

  /** A run of two steps that succeed. */
  lemma {:induction false} TwoSteps(s: Schema, tr: TypeRef, st: State, a: Step, st': State, b: Step, st'': State)
    requires Perform(s, tr, st, a) == Done(st') && Perform(s, tr, st', b) == Done(st'')
    ensures Run(s, tr, st, [a, b]) == st''
  {
    assert [a, b][1..] == [b] && [b][1..] == [];
    assert Run(s, tr, st', [b]) == Run(s, tr, st'', []);
  }

  /** What each manager wrote or applied last, counting successful steps only. */
  function History(s: Schema, tr: TypeRef, st: State, written: map<string, Value>, steps: seq<Step>): map<string, Value>
    decreases |steps|
  {
    if steps == [] then written
    else
      var after := Perform(s, tr, st, steps[0]);
      if after.Done? then History(s, tr, after.value, Record(written, steps[0]), steps[1..])
      else History(s, tr, st, written, steps[1..])
  }

  /** One step of a valid object keeps all owned leaves faithful, on every plain schema. */
  lemma {:induction false} StepLeafSafe(s: Schema, tr: TypeRef, st: State, step: Step, written: map<string, Value>)
    requires LeafSafe(s, tr, st, written) && ValidStep(s, tr, step)
    ensures var after := Perform(s, tr, st, step);
            (after.SchemaError? <==> step.ApplyOf? && Breaks(s, tr, st, step.config, step.manager)) &&
            (after.Conflicts? ==> step.ApplyOf? && !step.force) &&
            (after.Done? ==> LeafSafe(s, tr, after.value, Record(written, step)))
  {
    match step
    case UpdateTo(m, next) => UpdateLeafSafe(s, tr, st, next, m, written);
    case ApplyOf(m, config, force) => ApplyLeafSafe(s, tr, st, config, m, force, written);
  }

  /**
   * Leaf safety on every plain schema: after every run of valid steps, of any length and mix, no entry
   * is empty, and every owned leaf is in the object with the value its manager last wrote.
   */
  lemma {:induction false} RunLeafSafe(s: Schema, tr: TypeRef, st: State, written: map<string, Value>, steps: seq<Step>)
    requires LeafSafe(s, tr, st, written) && forall step | step in steps :: ValidStep(s, tr, step)
    ensures LeafSafe(s, tr, Run(s, tr, st, steps), History(s, tr, st, written, steps))
    decreases |steps|
  {
    if steps != [] {
      StepLeafSafe(s, tr, st, steps[0], written);
      var after := Perform(s, tr, st, steps[0]);
      if after.Done? {
        RunLeafSafe(s, tr, after.value, Record(written, steps[0]), steps[1..]);
      } else {
        RunLeafSafe(s, tr, st, written, steps[1..]);
      }
    }
  }

  /** Ownership safety on anchored schemas: it holds after every run, of any length and with any mix of steps. */
  lemma {:induction false} RunSafe(s: Schema, tr: TypeRef, st: State, written: map<string, Value>, steps: seq<Step>)
    requires Safe(s, tr, st, written) && Anchored(s, tr) && forall step | step in steps :: Admissible(s, tr, step)
    ensures Safe(s, tr, Run(s, tr, st, steps), History(s, tr, st, written, steps))
    decreases |steps|
  {
    if steps != [] {
      StepSafe(s, tr, st, steps[0], written);
      var after := Perform(s, tr, st, steps[0]);
      if after.Done? {
        RunSafe(s, tr, after.value, Record(written, steps[0]), steps[1..]);
      } else {
        RunSafe(s, tr, st, written, steps[1..]);
      }
    }
  }

  /** From an object nobody owns yet, all co-owners of a leaf always agree on its value. */
  lemma {:induction false} CoOwnersAgree(s: Schema, tr: TypeRef, live: Value, steps: seq<Step>, m: string, n: string, p: Path)
    requires Plain(s, tr) && Valid(s, tr, live, false)
    requires forall step | step in steps :: ValidStep(s, tr, step)
    requires var st := Run(s, tr, State(live, map[]), steps);
             m in st.managers && n in st.managers && p in st.managers[m].paths && p in st.managers[n].paths
    requires ShapeOf(s, TypeAt(s, tr, p)).LeafShape?
    ensures var st := Run(s, tr, State(live, map[]), steps);
            var written := History(s, tr, State(live, map[]), map[], steps);
            m in written && n in written &&
            At(s, tr, Some(st.live), p).Some? &&
            At(s, tr, Some(written[m]), p) == At(s, tr, Some(written[n]), p) == At(s, tr, Some(st.live), p)
  {
    RunLeafSafe(s, tr, State(live, map[]), map[], steps);
  }
}
