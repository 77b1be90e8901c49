/** The updater on field-set tries: every operation against the state machine on path sets. */
module Updaters {
  import opened Values
  import opened PathElements
  import opened Schemas
  import opened Comparing
  import opened Owning
  import U = Updating
  import opened Equality
  import opened Tries
  import opened TrieOps
  import opened TrieViews
  import opened TrieClosures
  import opened MergeWalk
  import CW = CompareWalk
  import FW = FieldSetWalk
  import RW = ReconcileWalk
  import opened RemoveWalk
  import Access = TrieAccess

  datatype VersionedSet = VersionedSet(fields: Trie, applied: bool)

  type ManagedFields = map<string, VersionedSet>

  datatype Diff = Diff(removed: Trie, modified: Trie, added: Trie)

  datatype Updated = Updated(managers: ManagedFields, diff: Diff) | Failed | Conflicting(conflicts: map<string, Trie>)

  predicate Sound(ms: ManagedFields) {
    forall m | m in ms :: Canonical(ms[m].fields)
  }

  predicate SoundSets(sets: map<string, Trie>) {
    forall m | m in sets :: Canonical(sets[m])
  }

  predicate SoundDiff(d: Diff) {
    Canonical(d.removed) && Canonical(d.modified) && Canonical(d.added)
  }

  ghost function EntryOf(v: VersionedSet): U.Entry {
    U.Entry(Paths(v.fields), v.applied)
  }

  /** The managers as the state machine sees them. */
  ghost function Abstract(ms: ManagedFields): U.Managers {
    map m | m in ms :: EntryOf(ms[m])
  }

  ghost function SetsOf(sets: map<string, Trie>): map<string, PathSet> {
    map m | m in sets :: Paths(sets[m])
  }

  ghost function DiffOf(d: Diff): Comparison {
    Comparison(Paths(d.removed), Paths(d.modified), Paths(d.added), true)
  }

  /** `TypedValue.Compare`. */
  method CompareTyped(s: Schema, tr: TypeRef, l: Value, r: Value) returns (ok: bool, d: Diff)
    ensures ok <==> U.CompareObjects(s, tr, l, r).ok
    ensures ok ==> SoundDiff(d) && DiffOf(d) == U.CompareObjects(s, tr, l, r)
  {
    var changes := new CW.Changes();
    var w := new CW.CompareWalker(s, tr, Some(l), Some(r), [], changes);
    ok := w.Compare();
    d := Diff(changes.removed, changes.modified, changes.added);
    ghost var c := Compare(s, tr, Some(l), Some(r));
    FW.AtRoot(c.removed);
    FW.AtRoot(c.modified);
    FW.AtRoot(c.added);
    CW.AtSame([]);
  }

  /** What a manager owns of the fields that were modified or added. */
  ghost function OwnedChanges(v: VersionedSet, d: Diff): PathSet {
    Paths(v.fields) * (Paths(d.modified) + Paths(d.added))
  }

  method ConflictSet(v: VersionedSet, d: Diff) returns (conflict: Trie, some: bool)
    requires Canonical(v.fields) && SoundDiff(d)
    ensures Canonical(conflict) && Paths(conflict) == OwnedChanges(v, d) && (some <==> OwnedChanges(v, d) != {})
  {
    var changed := Union(d.modified, d.added);
    conflict := Intersection(v.fields, changed);
    var none := Empty(conflict);
    some := !none;
  }

  /** The conflicts are those of the other managers that own something contested. */
  ghost predicate ConflictsAre(managers: ManagedFields, d: Diff, writer: string, keys: set<string>, conflicts: map<string, Trie>) {
    (forall m :: m in conflicts <==> m in keys && m in managers && m != writer && OwnedChanges(managers[m], d) != {}) &&
    (forall m | m in conflicts :: m in managers && Canonical(conflicts[m]) && Paths(conflicts[m]) == OwnedChanges(managers[m], d))
  }

  lemma {:induction false} ConflictsAreAll(managers: ManagedFields, d: Diff, writer: string, conflicts: map<string, Trie>)
    requires ConflictsAre(managers, d, writer, managers.Keys, conflicts)
    ensures SoundSets(conflicts) && SetsOf(conflicts) == U.ConflictsWith(Abstract(managers), DiffOf(d), writer)
  {
    var ms, c := Abstract(managers), DiffOf(d);
    forall m | m in managers
      ensures ms[m].paths * (c.modified + c.added) == OwnedChanges(managers[m], d)
    {
    }
  }

  /** What each other manager owns of the fields that were modified or added. */
  method ConflictSets(managers: ManagedFields, d: Diff, writer: string) returns (conflicts: map<string, Trie>)
    requires Sound(managers) && SoundDiff(d)
    ensures ConflictsAre(managers, d, writer, managers.Keys, conflicts)
  {
    conflicts := map[];
    var todo := managers.Keys;
    while todo != {}
      invariant todo <= managers.Keys && ConflictsAre(managers, d, writer, managers.Keys - todo, conflicts)
      decreases |todo|
    {
      var m :| m in todo;
      todo := todo - {m};
      if m == writer {
        continue;
      }
      var conflict, some := ConflictSet(managers[m], d);
      if some {
        conflicts := conflicts[m := conflict];
      }
    }
  }

  /** Takes from each manager that `sets` names the fields it holds for it. */
  method Subtract(managers: ManagedFields, sets: map<string, Trie>) returns (out: ManagedFields)
    requires Sound(managers) && SoundSets(sets) && sets.Keys <= managers.Keys
    ensures Sound(out) && out.Keys == managers.Keys
    ensures forall m | m in managers ::
              EntryOf(out[m]) ==
              if m in sets then U.Entry(Paths(managers[m].fields) - Paths(sets[m]), managers[m].applied)
              else EntryOf(managers[m])
  {
    out := managers;
    var todo := sets.Keys;
    while todo != {}
      invariant todo <= sets.Keys && Sound(out) && out.Keys == managers.Keys
      invariant forall m | m in managers ::
                  if m in sets && m !in todo
                  then EntryOf(out[m]) == U.Entry(Paths(managers[m].fields) - Paths(sets[m]), managers[m].applied)
                  else out[m] == managers[m]
      decreases |todo|
    {
      var m :| m in todo;
      todo := todo - {m};
      var rest := Difference(out[m].fields, sets[m]);
      out := out[m := VersionedSet(rest, out[m].applied)];
    }
  }

  /** Deletes the managers that own nothing. */
  method DropEmpty(managers: ManagedFields) returns (out: ManagedFields)
    requires Sound(managers)
    ensures Sound(out)
    ensures forall m :: m in out <==> m in managers && Paths(managers[m].fields) != {}
    ensures forall m | m in out :: out[m] == managers[m]
  {
    out := managers;
    var todo := managers.Keys;
    while todo != {}
      invariant todo <= managers.Keys && Sound(out)
      invariant forall m :: m in out <==> m in managers && (m in todo || Paths(managers[m].fields) != {})
      invariant forall m | m in out :: out[m] == managers[m]
      decreases |todo|
    {
      var m :| m in todo;
      todo := todo - {m};
      var none := Empty(managers[m].fields);
      if none {
        out := out - {m};
      }
    }
  }

  /** `Updater.update`, for one version. */
  method TakeOver(s: Schema, tr: TypeRef, before: Value, next: Value, managers: ManagedFields, writer: string, force: bool)
    returns (r: Updated)
    requires Sound(managers)
    ensures var o := U.TakeOver(s, tr, before, next, Abstract(managers), writer, force);
            match r
            case Updated(ms, d) =>
              Sound(ms) && o == U.Done(Abstract(ms)) && SoundDiff(d) && DiffOf(d) == U.CompareObjects(s, tr, before, next)
            case Failed => o.SchemaError?
            case Conflicting(cs) => SoundSets(cs) && o == U.Conflicts(SetsOf(cs))
  {
    var ok, d := CompareTyped(s, tr, before, next);
    if !ok {
      return Failed;
    }
    var conflicts := ConflictSets(managers, d, writer);
    ConflictsAreAll(managers, d, writer, conflicts);
    SomeSets(conflicts);
    if !force && conflicts != map[] {
      return Conflicting(conflicts);
    }
    var out := Rest(managers, d, writer, conflicts);
    r := Updated(out, d);
  }

  lemma {:induction false} SomeSets(sets: map<string, Trie>)
    ensures sets == map[] <==> SetsOf(sets) == map[]
  {
    assert sets.Keys == SetsOf(sets).Keys;
  }

  /** What is left to the managers: less what is contested, less what was removed, and no empty entries. */
  method Rest(managers: ManagedFields, d: Diff, writer: string, conflicts: map<string, Trie>) returns (out: ManagedFields)
    requires Sound(managers) && SoundDiff(d) && ConflictsAre(managers, d, writer, managers.Keys, conflicts)
    ensures Sound(out)
    ensures var ms, c := Abstract(managers), DiffOf(d);
            Abstract(out) == map m | m in ms && U.Remaining(ms, c, writer, m) != {}
                               :: ms[m].(paths := U.Remaining(ms, c, writer, m))
  {
    var removed: map<string, Trie> := map[];
    var none := Empty(d.removed);
    if !none {
      removed := map m | m in managers && m != writer :: d.removed;
    }
    var left := Subtract(managers, conflicts);
    var left' := Subtract(left, removed);
    out := DropEmpty(left');
    forall m | m in managers
      ensures EntryOf(left'[m]) == LeftTo(managers, d, writer, m)
    {
      LeftOver(managers, d, writer, conflicts, removed, left, left', m);
    }
    Collected(managers, d, writer, left', out);
  }

  ghost function LeftTo(managers: ManagedFields, d: Diff, writer: string, m: string): U.Entry
    requires m in managers
  {
    EntryOf(managers[m]).(paths := U.Remaining(Abstract(managers), DiffOf(d), writer, m))
  }

  lemma {:induction false} Collected(managers: ManagedFields, d: Diff, writer: string, left: ManagedFields, out: ManagedFields)
    requires left.Keys == managers.Keys && forall m | m in managers :: EntryOf(left[m]) == LeftTo(managers, d, writer, m)
    requires forall m :: m in out <==> m in left && Paths(left[m].fields) != {}
    requires forall m | m in out :: out[m] == left[m]
    ensures var ms, c := Abstract(managers), DiffOf(d);
            Abstract(out) == map m | m in ms && U.Remaining(ms, c, writer, m) != {}
                               :: ms[m].(paths := U.Remaining(ms, c, writer, m))
  {
    var ms, c := Abstract(managers), DiffOf(d);
    forall m | m in managers
      ensures Paths(left[m].fields) == U.Remaining(ms, c, writer, m)
    {
      assert EntryOf(left[m]).paths == LeftTo(managers, d, writer, m).paths;
    }
  }

  /** The fields a manager has after both subtractions. */
  lemma {:induction false} LeftOver(managers: ManagedFields, d: Diff, writer: string, conflicts: map<string, Trie>, removed: map<string, Trie>,
                                    left: ManagedFields, left': ManagedFields, m: string)
    requires ConflictsAre(managers, d, writer, managers.Keys, conflicts) && m in managers
    requires if Paths(d.removed) == {} then m !in removed else m in removed <==> m != writer
    requires m in removed ==> removed[m] == d.removed
    requires m in left && m in left'
    requires EntryOf(left[m]) ==
             if m in conflicts then U.Entry(Paths(managers[m].fields) - Paths(conflicts[m]), managers[m].applied)
             else EntryOf(managers[m])
    requires EntryOf(left'[m]) ==
             if m in removed then U.Entry(Paths(left[m].fields) - Paths(removed[m]), left[m].applied)
             else EntryOf(left[m])
    ensures EntryOf(left'[m]) == LeftTo(managers, d, writer, m)
  {
    var own, taken, gone := Paths(managers[m].fields), Paths(d.modified) + Paths(d.added), Paths(d.removed);
    assert Paths(left[m].fields) == EntryOf(left[m]).paths && left[m].applied == EntryOf(left[m]).applied;
    if m == writer {
      assert m !in conflicts;
    } else {
      assert m in conflicts <==> OwnedChanges(managers[m], d) != {};
      assert own - own * taken == own - taken;
      if m in conflicts {
        assert Paths(conflicts[m]) == own * taken;
      } else {
        assert OwnedChanges(managers[m], d) == own * taken == {};
        assert own == own - taken;
      }
      assert EntryOf(left[m]).paths == own - taken;
      assert EntryOf(left'[m]).paths == own - taken - gone;
    }
  }

  method ReconcileOne(s: Schema, tr: TypeRef, v: VersionedSet) returns (out: Option<VersionedSet>)
    requires Canonical(v.fields)
    ensures out.None? <==> U.ReconcileEntry(s, tr, EntryOf(v)).None?
    ensures out.Some? ==> Canonical(out.value.fields) && U.ReconcileEntry(s, tr, EntryOf(v)) == Some(EntryOf(out.value))
  {
    var ok, changed := RW.ReconcileFieldSet(s, tr, v.fields);
    if !ok {
      return None;
    }
    out := Some(if changed.Some? then VersionedSet(changed.value, v.applied) else v);
  }

  /** The managers' sets, each reconciled with the schema. */
  method ReconcileManagers(s: Schema, tr: TypeRef, managers: ManagedFields) returns (ok: bool, out: ManagedFields)
    requires Sound(managers)
    ensures Sound(out)
    ensures U.ReconcileAll(s, tr, Abstract(managers)) == if ok then U.Done(Abstract(out)) else U.SchemaError
  {
    out := map[];
    var todo := managers.Keys;
    while todo != {}
      invariant todo <= managers.Keys && Sound(out) && out.Keys == managers.Keys - todo
      invariant forall m | m in out :: U.ReconcileEntry(s, tr, EntryOf(managers[m])) == Some(EntryOf(out[m]))
      decreases |todo|
    {
      var m :| m in todo;
      todo := todo - {m};
      var v := ReconcileOne(s, tr, managers[m]);
      if v.None? {
        assert U.ReconcileEntry(s, tr, Abstract(managers)[m]).None?;
        return false, out;
      }
      out := out[m := v.value];
    }
    ok := true;
    ReconciledAll(s, tr, managers, out);
  }

  lemma {:induction false} ReconciledAll(s: Schema, tr: TypeRef, managers: ManagedFields, out: ManagedFields)
    requires out.Keys == managers.Keys
    requires forall m | m in out :: U.ReconcileEntry(s, tr, EntryOf(managers[m])) == Some(EntryOf(out[m]))
    ensures U.ReconcileAll(s, tr, Abstract(managers)) == U.Done(Abstract(out))
  {
    var ms := Abstract(managers);
    forall m | m in ms
      ensures U.ReconcileEntry(s, tr, ms[m]) == Some(Abstract(out)[m])
    {
    }
    assert Abstract(out) == map m | m in ms :: U.ReconcileEntry(s, tr, ms[m]).value;
  }

  /** `Updater.Update`. */
  method Update(s: Schema, tr: TypeRef, live: Value, next: Value, managers: ManagedFields, manager: string)
    returns (ok: bool, out: ManagedFields)
    requires Sound(managers)
    ensures Sound(out)
    ensures U.Update(s, tr, U.State(live, Abstract(managers)), next, manager) ==
            if ok then U.Done(U.State(next, Abstract(out))) else U.SchemaError
  {
    out := map[];
    var reconciled, ms := ReconcileManagers(s, tr, managers);
    if !reconciled {
      return false, out;
    }
    var r := TakeOver(s, tr, live, next, ms, manager, true);
    if !r.Updated? {
      return false, out;
    }
    ok := true;
    out := Claim(r.managers, r.diff, manager);
  }

  /** The writer owns what it changed, and nothing that it removed. */
  method Claim(managers: ManagedFields, d: Diff, manager: string) returns (out: ManagedFields)
    requires Sound(managers) && SoundDiff(d)
    ensures Sound(out)
    ensures var ms, c := Abstract(managers), DiffOf(d);
            var own := U.OwnedBy(ms, manager) - c.removed + c.modified + c.added;
            Abstract(out) == if own == {} then ms - {manager} else ms[manager := U.Entry(own, false)]
  {
    EmptyIs(EMPTY);
    var own := if manager in managers then managers[manager].fields else EMPTY;
    own := Difference(own, d.removed);
    own := Union(own, d.modified);
    own := Union(own, d.added);
    Replaced(managers, manager, VersionedSet(own, false));
    out := managers[manager := VersionedSet(own, false)];
    var none := Empty(own);
    if none {
      out := out - {manager};
    }
  }

  /** Everything any manager owns. */
  method ManagedSet(managers: ManagedFields) returns (managed: Trie)
    requires Sound(managers)
    ensures Canonical(managed) && Paths(managed) == U.Managed(Abstract(managers))
  {
    managed := EMPTY;
    EmptyIs(EMPTY);
    var todo := managers.Keys;
    while todo != {}
      invariant todo <= managers.Keys && Canonical(managed)
      invariant Paths(managed) == OwnedIn(managers, managers.Keys - todo)
      decreases |todo|
    {
      var m :| m in todo;
      OwnedNext(managers, managers.Keys - todo, m);
      assert managers.Keys - (todo - {m}) == managers.Keys - todo + {m};
      todo := todo - {m};
      managed := Union(managed, managers[m].fields);
    }
    OwnedByAll(managers);
  }

  ghost function OwnedIn(managers: ManagedFields, keys: set<string>): PathSet
    requires keys <= managers.Keys
  {
    set m, p | m in keys && p in Paths(managers[m].fields) :: p
  }

  lemma {:induction false} OwnedNext(managers: ManagedFields, keys: set<string>, m: string)
    requires keys <= managers.Keys && m in managers
    ensures OwnedIn(managers, keys + {m}) == OwnedIn(managers, keys) + Paths(managers[m].fields)
  {
  }

  lemma {:induction false} OwnedByAll(managers: ManagedFields)
    ensures OwnedIn(managers, managers.Keys) == U.Managed(Abstract(managers))
  {
    var ms := Abstract(managers);
    assert forall m | m in managers :: m in ms && ms[m].paths == Paths(managers[m].fields);
  }

  /** The field set of an object, closed under named fields. */
  method ClosedFieldSet(s: Schema, tr: TypeRef, v: Value) returns (ok: bool, fields: Trie)
    ensures ok <==> MentionedOk(s, tr, v)
    ensures Canonical(fields) && Paths(fields) == EnsureNamed(s, tr, ToFieldSet(s, tr, v))
  {
    ok, fields := FW.ToFieldSet(s, tr, v);
    fields := EnsureNamedFieldsAreMembers(s, tr, fields);
  }

  /** `addBackOwnedItems`: of what the first pass dropped, keeps what any manager owns. */
  method AddBackOwned(s: Schema, tr: TypeRef, merged: Value, pruned: Value, managed: Trie) returns (ok: bool, out: Value)
    requires Canonical(managed)
    ensures ok <==> MentionedOk(s, tr, merged) && MentionedOk(s, tr, pruned)
    ensures out == U.AddBackOwned(s, tr, merged, pruned, Paths(managed))
  {
    var mergedOk, mergedSet := ClosedFieldSet(s, tr, merged);
    var prunedOk, prunedSet := ClosedFieldSet(s, tr, pruned);
    ok := mergedOk && prunedOk;
    var owned := EnsureNamedFieldsAreMembers(s, tr, managed);
    var kept := Union(prunedSet, owned);
    var drop := Difference(mergedSet, kept);
    out := RemoveItemsWithSchema(s, tr, merged, drop, false);
  }

  /** `addBackDanglingItems`: drops only what was owned last time. */
  method AddBackDangling(s: Schema, tr: TypeRef, merged: Value, pruned: Value, last: Trie) returns (ok: bool, out: Value)
    requires Canonical(last)
    ensures ok <==> MentionedOk(s, tr, merged) && MentionedOk(s, tr, pruned)
    ensures out == U.AddBackDangling(s, tr, merged, pruned, Paths(last))
  {
    var prunedOk, prunedSet := ClosedFieldSet(s, tr, pruned);
    var mergedOk, mergedSet := ClosedFieldSet(s, tr, merged);
    ok := mergedOk && prunedOk;
    var lastSet := EnsureNamedFieldsAreMembers(s, tr, last);
    var drop := Difference(mergedSet, prunedSet);
    drop := Intersection(drop, lastSet);
    out := RemoveItemsWithSchema(s, tr, merged, drop, false);
  }

  /** `Updater.prune`. */
  method Prune(s: Schema, tr: TypeRef, merged: Value, managers: ManagedFields, last: Trie) returns (pruned: Option<Value>)
    requires Sound(managers) && Canonical(last)
    ensures pruned == U.Prune(s, tr, merged, Abstract(managers), Paths(last))
  {
    var none := Empty(last);
    if none {
      return Some(merged);
    }
    var lastSet := EnsureNamedFieldsAreMembers(s, tr, last);
    var first := RemoveItemsWithSchema(s, tr, merged, lastSet, false);
    var managed := ManagedSet(managers);
    var ok, second := AddBackOwned(s, tr, merged, first, managed);
    if !ok {
      return None;
    }
    var ok', third := AddBackDangling(s, tr, merged, second, last);
    if !ok' {
      return None;
    }
    pruned := Some(third);
  }

  datatype Applied = Applied(obj: Option<Value>, managers: ManagedFields) | ApplyFailed | ApplyConflicts(conflicts: seq<Conflict>)

  /** `Updater.Apply`: no object is returned if the live one did not change, unless asked for. */
  method Apply(s: Schema, tr: TypeRef, live: Value, config: Value, managers: ManagedFields, manager: string, force: bool, returnInputOnNoop: bool)
    returns (r: Applied)
    requires Sound(managers)
    ensures var st := U.State(live, Abstract(managers));
            var o := U.Apply(s, tr, st, config, manager, force);
            match r
            case Applied(obj, ms) =>
              Sound(ms) && o.Done? && o.value.managers == Abstract(ms) &&
              (obj.None? <==> !returnInputOnNoop && o.value.live == live) && (obj.Some? ==> obj.value == o.value.live)
            case ApplyFailed => o.SchemaError?
            case ApplyConflicts(cs) => o.Conflicts? && Lists(cs, o.owned)
  {
    var reconciled, ms := ReconcileManagers(s, tr, managers);
    if !reconciled {
      return ApplyFailed;
    }
    var merged := MergeObjects(s, tr, live, config);
    if !merged.ok || merged.out.None? {
      return ApplyFailed;
    }
    var ok, fields := FW.ToFieldSet(s, tr, config);
    if !ok {
      return ApplyFailed;
    }
    r := ApplyMerged(s, tr, live, merged.out.value, ms, fields, manager, force, returnInputOnNoop);
  }

  /** The rest of Apply, once the configuration is merged and its field set known. */
  method ApplyMerged(s: Schema, tr: TypeRef, live: Value, merged: Value, ms: ManagedFields, fields: Trie, manager: string, force: bool, returnInputOnNoop: bool)
    returns (r: Applied)
    requires Sound(ms) && Canonical(fields)
    ensures var o := U.ApplyMerged(s, tr, live, merged, Abstract(ms), Paths(fields), manager, force);
            match r
            case Applied(obj, after) =>
              Sound(after) && o.Done? && o.value.managers == Abstract(after) &&
              obj == if !returnInputOnNoop && live == o.value.live then None else Some(o.value.live)
            case ApplyFailed => o.SchemaError?
            case ApplyConflicts(cs) => o.Conflicts? && Lists(cs, o.owned)
  {
    EmptyIs(EMPTY);
    var last := if manager in ms then ms[manager].fields else EMPTY;
    Replaced(ms, manager, VersionedSet(fields, true));
    var managers := ms[manager := VersionedSet(fields, true)];
    var pruned := Prune(s, tr, merged, managers, last);
    if pruned.None? {
      return ApplyFailed;
    }
    r := Finish(s, tr, live, pruned.value, managers, manager, force, returnInputOnNoop);
  }

  lemma {:induction false} Replaced(ms: ManagedFields, m: string, v: VersionedSet)
    ensures Abstract(ms[m := v]) == Abstract(ms)[m := EntryOf(v)]
    ensures Abstract(ms[m := v] - {m}) == Abstract(ms) - {m}
    ensures U.OwnedBy(Abstract(ms), m) == if m in ms then Paths(ms[m].fields) else {}
  {
  }

  /** The last part of Apply: who owns what, given the object to persist. */
  method Finish(s: Schema, tr: TypeRef, live: Value, next: Value, managers: ManagedFields, manager: string, force: bool, returnInputOnNoop: bool)
    returns (r: Applied)
    requires Sound(managers)
    ensures var o := U.TakeOver(s, tr, live, next, Abstract(managers), manager, force);
            match r
            case Applied(obj, ms) =>
              Sound(ms) && o == U.Done(Abstract(ms)) && obj == if !returnInputOnNoop && live == next then None else Some(next)
            case ApplyFailed => o.SchemaError?
            case ApplyConflicts(cs) => o.Conflicts? && Lists(cs, o.owned)
  {
    var u := TakeOver(s, tr, live, next, managers, manager, force);
    match u {
      case Failed => r := ApplyFailed;
      case Conflicting(sets) =>
        var cs := ConflictsFromManagers(sets);
        r := ApplyConflicts(cs);
      case Updated(after, d) =>
        var same := ValuesEqual(live, next);
        r := Applied(if !returnInputOnNoop && same then None else Some(next), after);
    }
  }

  /** A conflict on a field with a manager that owns it. */
  datatype Conflict = Conflict(manager: string, path: Path)

  /** The conflicts are the owned paths, each with its manager, each once. */
  ghost predicate Lists(cs: seq<Conflict>, owned: map<string, PathSet>) {
    multiset(cs) == multiset(set m, p | m in owned && p in owned[m] :: Conflict(m, p))
  }

  ghost function ConflictsOf(m: string, paths: PathSet): set<Conflict> {
    set p | p in paths :: Conflict(m, p)
  }

  method ConflictsFromManagers(sets: map<string, Trie>) returns (cs: seq<Conflict>)
    requires SoundSets(sets)
    ensures Lists(cs, SetsOf(sets))
  {
    cs := [];
    var todo := sets.Keys;
    ghost var done: map<string, PathSet> := map[];
    while todo != {}
      invariant todo <= sets.Keys && done == map m | m in sets && m !in todo :: Paths(sets[m])
      invariant Lists(cs, done)
      decreases |todo|
    {
      var m :| m in todo;
      var paths := Iterate(sets[m]);
      var more := Tagged(m, paths, Paths(sets[m]));
      MoreConflicts(cs, done, m, Paths(sets[m]), more);
      cs := cs + more;
      done := done[m := Paths(sets[m])];
      todo := todo - {m};
    }
    assert done == SetsOf(sets);
  }

  lemma {:induction false} MoreConflicts(cs: seq<Conflict>, done: map<string, PathSet>, m: string, paths: PathSet, more: seq<Conflict>)
    requires Lists(cs, done) && m !in done && multiset(more) == multiset(ConflictsOf(m, paths))
    ensures Lists(cs + more, done[m := paths])
  {
    var all := set k, p | k in done && p in done[k] :: Conflict(k, p);
    var next := done[m := paths];
    assert (set k, p | k in next && p in next[k] :: Conflict(k, p)) == all + ConflictsOf(m, paths);
    assert all !! ConflictsOf(m, paths);
  }

  method Tagged(m: string, paths: seq<Path>, ghost all: PathSet) returns (cs: seq<Conflict>)
    requires multiset(paths) == multiset(all)
    ensures multiset(cs) == multiset(ConflictsOf(m, all))
  {
    cs := [];
    ghost var done: PathSet := {};
    for i := 0 to |paths|
      invariant multiset(paths[..i]) == multiset(done)
      invariant multiset(cs) == multiset(ConflictsOf(m, done))
    {
      Once(paths, all, done, i);
      assert ConflictsOf(m, done + {paths[i]}) == ConflictsOf(m, done) + {Conflict(m, paths[i])};
      cs := cs + [Conflict(m, paths[i])];
      done := done + {paths[i]};
    }
    assert paths[..|paths|] == paths;
    assert done == all by {
      forall p
        ensures p in done <==> p in all
      {
        assert p in multiset(done) <==> p in multiset(all);
      }
    }
  }

  /** In a list of a set, the next element is new. */
  lemma {:induction false} Once(paths: seq<Path>, all: PathSet, done: PathSet, i: nat)
    requires multiset(paths) == multiset(all) && i < |paths| && multiset(paths[..i]) == multiset(done)
    ensures paths[i] !in done && multiset(paths[..i + 1]) == multiset(done + {paths[i]})
  {
    assert paths == paths[..i] + [paths[i]] + paths[i + 1..];
    assert paths[..i + 1] == paths[..i] + [paths[i]];
    assert multiset(paths)[paths[i]] <= 1;
    assert multiset(paths)[paths[i]] >= multiset(paths[..i])[paths[i]] + 1;
    assert multiset(done)[paths[i]] == 0;
  }

  /** `Conflicts.ToSet`. */
  method ToSet(cs: seq<Conflict>) returns (fields: Trie)
    ensures Canonical(fields) && Paths(fields) == (set c | c in cs :: c.path) - {[]}
  {
    fields := EMPTY;
    EmptyIs(EMPTY);
    for i := 0 to |cs|
      invariant Canonical(fields) && Paths(fields) == (set c | c in cs[..i] :: c.path) - {[]}
    {
      assert cs[..i + 1] == cs[..i] + [cs[i]];
      fields := Access.Insert(fields, cs[i].path);
      assert (set c | c in cs[..i + 1] :: c.path) == (set c | c in cs[..i] :: c.path) + {cs[i].path};
    }
    assert cs[..|cs|] == cs;
  }
}
