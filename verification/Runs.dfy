/** Whole runs of the updater on field-set tries, and what holds after them. */
module Runs {
  import opened Values
  import opened Schemas
  import U = Updating
  import opened PlainSetting
  import R = RunTheory
  import C = ConflictTheory
  import opened Updaters

  /**
   * One step on tries, whether or not an Apply returns an object that did not change; if it returns none,
   * the live object stays. A step that fails leaves everything as it is.
   */
  method Perform(s: Schema, tr: TypeRef, live: Value, managers: ManagedFields, step: R.Step, returnInputOnNoop: bool)
    returns (live': Value, managers': ManagedFields)
    requires Sound(managers)
    ensures Sound(managers')
    ensures var st := U.State(live, Abstract(managers));
            var after := R.Perform(s, tr, st, step);
            U.State(live', Abstract(managers')) == if after.Done? then after.value else st
  {
    live', managers' := live, managers;
    match step {
      case UpdateTo(m, next) =>
        var ok, ms := Update(s, tr, live, next, managers, m);
        if ok {
          live', managers' := next, ms;
        }
      case ApplyOf(m, config, force) =>
        var r := Apply(s, tr, live, config, managers, m, force, returnInputOnNoop);
        if r.Applied? {
          live', managers' := if r.obj.Some? then r.obj.value else live, r.managers;
        }
    }
  }

  /**
   * Runs any steps from an object that nobody owns: the result is that of the state machine, on every
   * schema. On plain schemas and with valid steps all owned leaves are safe in it; on anchored schemas
   * and with admissible steps everything owned is.
   */
  method Run(s: Schema, tr: TypeRef, start: Value, steps: seq<R.Step>, returnInputOnNoop: bool)
    returns (live: Value, managers: ManagedFields)
    ensures Sound(managers)
    ensures U.State(live, Abstract(managers)) == R.Run(s, tr, U.State(start, map[]), steps)
    ensures Plain(s, tr) && Valid(s, tr, start, false) && (forall step | step in steps :: R.ValidStep(s, tr, step)) ==>
              R.LeafSafe(s, tr, U.State(live, Abstract(managers)), R.History(s, tr, U.State(start, map[]), map[], steps))
    ensures Anchored(s, tr) && Valid(s, tr, start, false) && (forall step | step in steps :: R.Admissible(s, tr, step)) ==>
              R.Safe(s, tr, U.State(live, Abstract(managers)), R.History(s, tr, U.State(start, map[]), map[], steps))
  {
    live, managers := start, map[];
    ghost var st := U.State(start, map[]);
    assert Abstract(managers) == map[] && steps[0..] == steps;
    for i := 0 to |steps|
      invariant Sound(managers)
      invariant R.Run(s, tr, U.State(live, Abstract(managers)), steps[i..]) == R.Run(s, tr, st, steps)
    {
      assert steps[i..][0] == steps[i] && steps[i..][1..] == steps[i + 1..];
      live, managers := Perform(s, tr, live, managers, steps[i], returnInputOnNoop);
    }
    if Plain(s, tr) && Valid(s, tr, start, false) && forall step | step in steps :: R.ValidStep(s, tr, step) {
      R.RunLeafSafe(s, tr, st, map[], steps);
    }
    if Anchored(s, tr) && Valid(s, tr, start, false) && forall step | step in steps :: R.Admissible(s, tr, step) {
      R.RunSafe(s, tr, st, map[], steps);
    }
  }

  /** Every leaf of the configuration is in the object, with its value. */
  ghost predicate HasLeaves(s: Schema, tr: TypeRef, v: Value, config: Value) {
    forall p | C.IsLeaf(s, tr, p) && At(s, tr, Some(config), p).Some? :: At(s, tr, Some(v), p) == At(s, tr, Some(config), p)
  }

  /**
   * An Apply in a leaf-safe state: a returned object has the leaves of the configuration. None is returned
   * only if asked for, and only if the live object already has them.
   */
  method ApplyLeaves(s: Schema, tr: TypeRef, live: Value, config: Value, managers: ManagedFields, manager: string, force: bool,
                     returnInputOnNoop: bool, ghost written: map<string, Value>)
    returns (r: Applied)
    requires Sound(managers) && R.LeafSafe(s, tr, U.State(live, Abstract(managers)), written) && Valid(s, tr, config, false)
    ensures r.Applied? && r.obj.Some? ==> HasLeaves(s, tr, r.obj.value, config)
    ensures r.Applied? && r.obj.None? ==> !returnInputOnNoop && HasLeaves(s, tr, live, config)
    ensures r.Applied? && !HasLeaves(s, tr, live, config) ==> r.obj.Some? && r.obj.value != live
  {
    r := Apply(s, tr, live, config, managers, manager, force, returnInputOnNoop);
    if r.Applied? {
      ghost var st := U.State(live, Abstract(managers));
      ghost var next := U.Apply(s, tr, st, config, manager, force).value.live;
      forall p | C.IsLeaf(s, tr, p) && At(s, tr, Some(config), p).Some?
        ensures At(s, tr, Some(next), p) == At(s, tr, Some(config), p)
      {
        C.AppliedLeaf(s, tr, st, config, manager, force, written, p);
      }
    }
  }
}
