/** The updater as a state machine over the live object and the managers' field sets. */
module Updating {
  import opened Values
  import opened PathElements
  import opened Schemas
  import Merging
  import opened Comparing
  import opened Removing
  import opened Owning
  import opened Reconciling

  /** What a manager owns, and whether it was applied. */
  datatype Entry = Entry(paths: PathSet, applied: bool)

  type Managers = map<string, Entry>

  datatype State = State(live: Value, managers: Managers)

  datatype Outcome<T> = Done(value: T) | SchemaError | Conflicts(owned: map<string, PathSet>)

  /** `TypedValue.Compare`: the root's own path is not tracked. */
  function CompareObjects(s: Schema, tr: TypeRef, l: Value, r: Value): Comparison {
    var c := Compare(s, tr, Some(l), Some(r));
    Comparison(c.removed - {[]}, c.modified - {[]}, c.added - {[]}, c.ok)
  }

  /** What other managers own of the fields that a write adds or modifies. */
  function ConflictsWith(managers: Managers, c: Comparison, writer: string): map<string, PathSet> {
    map m | m in managers && m != writer && managers[m].paths * (c.modified + c.added) != {}
      :: managers[m].paths * (c.modified + c.added)
  }

  /** What is left to a manager after a write by `writer`. */
  function Remaining(managers: Managers, c: Comparison, writer: string, m: string): PathSet
    requires m in managers
  {
    if m == writer then managers[m].paths
    else managers[m].paths - (c.modified + c.added) - c.removed
  }

  /** `Updater.update`: the others lose what the write changed; empty entries go. */
  function TakeOver(s: Schema, tr: TypeRef, before: Value, next: Value, managers: Managers, writer: string, force: bool)
    : Outcome<Managers>
  {
    var c := CompareObjects(s, tr, before, next);
    if !c.ok then SchemaError
    else
      var conflicts := ConflictsWith(managers, c, writer);
      if !force && conflicts != map[] then Conflicts(conflicts)
      else
        Done(map m | m in managers && Remaining(managers, c, writer, m) != {}
               :: managers[m].(paths := Remaining(managers, c, writer, m)))
  }

  function ReconcileEntry(s: Schema, tr: TypeRef, e: Entry): Option<Entry> {
    var paths := Reconcile(s, tr, e.paths);
    if paths.None? then None else Some(e.(paths := paths.value))
  }

  /** The managers' sets, reconciled with the schema of the live object. */
  function ReconcileAll(s: Schema, tr: TypeRef, managers: Managers): Outcome<Managers> {
    if exists m | m in managers :: ReconcileEntry(s, tr, managers[m]).None? then SchemaError
    else Done(map m | m in managers :: ReconcileEntry(s, tr, managers[m]).value)
  }

  function OwnedBy(managers: Managers, m: string): PathSet {
    if m in managers then managers[m].paths else {}
  }

  /** `Updater.Update`. */
  function Update(s: Schema, tr: TypeRef, st: State, next: Value, m: string): Outcome<State> {
    var ms := ReconcileAll(s, tr, st.managers);
    if !ms.Done? then SchemaError
    else
      var c := CompareObjects(s, tr, st.live, next);
      var after := TakeOver(s, tr, st.live, next, ms.value, m, true);
      if !after.Done? then SchemaError
      else
        var own := OwnedBy(after.value, m) - c.removed + c.modified + c.added;
        Done(State(next, if own == {} then after.value - {m} else after.value[m := Entry(own, false)]))
  }

  /** Everything any manager owns. */
  function Managed(managers: Managers): PathSet {
    set m, p | m in managers && p in managers[m].paths :: p
  }

  /** The first pass: drop everything that was owned last time. */
  function PruneLast(s: Schema, tr: TypeRef, merged: Value, last: PathSet): Value {
    Remove(s, tr, merged, EnsureNamed(s, tr, last))
  }

  /** `addBackOwnedItems`: of what that dropped, keep what any manager owns. */
  function AddBackOwned(s: Schema, tr: TypeRef, merged: Value, pruned: Value, managed: PathSet): Value {
    Remove(s, tr, merged,
           EnsureNamed(s, tr, ToFieldSet(s, tr, merged)) -
           (EnsureNamed(s, tr, ToFieldSet(s, tr, pruned)) + EnsureNamed(s, tr, managed)))
  }

  /** `addBackDanglingItems`: drop only what was owned last time. */
  function AddBackDangling(s: Schema, tr: TypeRef, merged: Value, pruned: Value, last: PathSet): Value {
    Remove(s, tr, merged,
           (EnsureNamed(s, tr, ToFieldSet(s, tr, merged)) - EnsureNamed(s, tr, ToFieldSet(s, tr, pruned))) *
           EnsureNamed(s, tr, last))
  }

  /** `Updater.prune`, or None on a schema error. */
  function Prune(s: Schema, tr: TypeRef, merged: Value, managers: Managers, last: PathSet): Option<Value> {
    if last == {} then Some(merged)
    else
      var pruned := PruneLast(s, tr, merged, last);
      var owned := AddBackOwned(s, tr, merged, pruned, Managed(managers));
      if MentionedOk(s, tr, merged) && MentionedOk(s, tr, pruned) && MentionedOk(s, tr, owned)
      then Some(AddBackDangling(s, tr, merged, owned, last))
      else None
  }

  /** `Updater.Apply`. */
  function Apply(s: Schema, tr: TypeRef, st: State, config: Value, m: string, force: bool): Outcome<State> {
    var ms := ReconcileAll(s, tr, st.managers);
    var merged := Merging.Merge(s, tr, Some(st.live), Some(config));
    if !ms.Done? || !merged.ok || merged.out.None? || !MentionedOk(s, tr, config) then SchemaError
    else ApplyMerged(s, tr, st.live, merged.out.value, ms.value, ToFieldSet(s, tr, config), m, force)
  }

  /** The rest of Apply, once the configuration is merged and its field set known. */
  function ApplyMerged(s: Schema, tr: TypeRef, live: Value, merged: Value, ms: Managers, fields: PathSet, m: string, force: bool)
    : Outcome<State>
  {
    var managers := ms[m := Entry(fields, true)];
    var pruned := Prune(s, tr, merged, managers, OwnedBy(ms, m));
    if pruned.None? then SchemaError
    else Persist(TakeOver(s, tr, live, pruned.value, managers, m, force), pruned.value)
  }

  /** The state to persist, if taking over succeeded. */
  function Persist(taken: Outcome<Managers>, next: Value): Outcome<State> {
    match taken
    case Done(after) => Done(State(next, after))
    case SchemaError => SchemaError
    case Conflicts(owned) => Conflicts(owned)
  }
}
