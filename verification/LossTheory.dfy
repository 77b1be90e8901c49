/** Exactly which runs keep ownership safe, on every plain schema and with any valid configurations. */
module LossTheory {
  import opened Values
  import opened PathElements
  import opened Schemas
  import opened Owning
  import opened Updating
  import opened RunTheory

  function StateAfter(s: Schema, tr: TypeRef, st: State, step: Step): State {
    var after := Perform(s, tr, st, step);
    if after.Done? then after.value else st
  }

  function WrittenAfter(s: Schema, tr: TypeRef, st: State, step: Step, written: map<string, Value>): map<string, Value> {
    if Perform(s, tr, st, step).Done? then Record(written, step) else written
  }

  /** Ownership is safe in every state of the run. */
  ghost predicate AlwaysSafe(s: Schema, tr: TypeRef, st: State, written: map<string, Value>, steps: seq<Step>)
    decreases |steps|
  {
    Safe(s, tr, st, written) &&
    (steps != [] ==>
       AlwaysSafe(s, tr, StateAfter(s, tr, st, steps[0]), WrittenAfter(s, tr, st, steps[0], written), steps[1..]))
  }

  /** No successful Apply of the run loses a path of its configuration. */
  ghost predicate NeverLoses(s: Schema, tr: TypeRef, st: State, steps: seq<Step>)
    decreases |steps|
  {
    steps != [] ==>
      (steps[0].ApplyOf? && Perform(s, tr, st, steps[0]).Done? ==> Lossless(s, tr, st, steps[0].config, steps[0].manager)) &&
      NeverLoses(s, tr, StateAfter(s, tr, st, steps[0]), steps[1..])
  }

  /**
   * Over any run of valid steps, ownership stays safe throughout exactly if no Apply loses a path; its
   * leaves stay safe in any case.
   */
  lemma {:induction false} RunSafeIff(s: Schema, tr: TypeRef, st: State, written: map<string, Value>, steps: seq<Step>)
    requires Safe(s, tr, st, written) && forall step | step in steps :: ValidStep(s, tr, step)
    ensures AlwaysSafe(s, tr, st, written, steps) <==> NeverLoses(s, tr, st, steps)
    ensures LeafSafe(s, tr, Run(s, tr, st, steps), History(s, tr, st, written, steps))
    decreases |steps|
  {
    RunLeafSafe(s, tr, st, written, steps);
    if steps != [] {
      assert ValidStep(s, tr, steps[0]);
      match steps[0]
      case UpdateTo(m, next) =>
        UpdateSafe(s, tr, st, next, m, written);
        RunSafeIff(s, tr, StateAfter(s, tr, st, steps[0]), WrittenAfter(s, tr, st, steps[0], written), steps[1..]);
      case ApplyOf(m, config, force) =>
        ApplySafeIff(s, tr, st, config, m, force, written);
        if !Perform(s, tr, st, steps[0]).Done? || Lossless(s, tr, st, config, m) {
          RunSafeIff(s, tr, StateAfter(s, tr, st, steps[0]), WrittenAfter(s, tr, st, steps[0], written), steps[1..]);
        }
    }
  }

  /** The step is a successful Apply by `m` that loses the path. */
  ghost predicate LostBy(s: Schema, tr: TypeRef, st: State, step: Step, m: string, p: Path) {
    step.ApplyOf? && step.manager == m && Perform(s, tr, st, step).Done? &&
    p in ToFieldSet(s, tr, step.config) && LosesFor(s, tr, st, step.config, m, p)
  }

  /** Some step of the run is. */
  ghost predicate LostIn(s: Schema, tr: TypeRef, st: State, steps: seq<Step>, m: string, p: Path)
    decreases |steps|
  {
    steps != [] &&
    (LostBy(s, tr, st, steps[0], m, p) || LostIn(s, tr, StateAfter(s, tr, st, steps[0]), steps[1..], m, p))
  }

  /** After any run of valid steps, what a manager owns and is not there was missing before, or was lost by an Apply of its own. */
  lemma {:induction false} MissingWasLost(s: Schema, tr: TypeRef, st: State, written: map<string, Value>, steps: seq<Step>, m: string, p: Path)
    requires LeafSafe(s, tr, st, written) && forall step | step in steps :: ValidStep(s, tr, step)
    requires var end := Run(s, tr, st, steps); p in Missing(s, tr, end.live, OwnedBy(end.managers, m))
    ensures p in Missing(s, tr, st.live, OwnedBy(st.managers, m)) || LostIn(s, tr, st, steps, m, p)
    decreases |steps|
  {
    if steps != [] {
      assert ValidStep(s, tr, steps[0]);
      StepLeafSafe(s, tr, st, steps[0], written);
      MissingWasLost(s, tr, StateAfter(s, tr, st, steps[0]), WrittenAfter(s, tr, st, steps[0], written), steps[1..], m, p);
      if Perform(s, tr, st, steps[0]).Done? {
        StepMisses(s, tr, st, written, steps[0], m, p);
      }
    }
  }

  /** One step. */
  lemma {:induction false} StepMisses(s: Schema, tr: TypeRef, st: State, written: map<string, Value>, step: Step, m: string, p: Path)
    requires LeafSafe(s, tr, st, written) && ValidStep(s, tr, step) && Perform(s, tr, st, step).Done?
    ensures var after := Perform(s, tr, st, step).value;
            p in Missing(s, tr, after.live, OwnedBy(after.managers, m)) ==>
              p in Missing(s, tr, st.live, OwnedBy(st.managers, m)) || LostBy(s, tr, st, step, m, p)
  {
    var after := Perform(s, tr, st, step).value;
    match step
    case UpdateTo(n, next) =>
      UpdateLeafSafe(s, tr, st, next, n, written);
      assert NoneMissed(s, tr, st, after, m);
    case ApplyOf(n, config, force) =>
      ApplyLeafSafe(s, tr, st, config, n, force, written);
      assert m != n ==> NoneMissed(s, tr, st, after, m);
  }
}
