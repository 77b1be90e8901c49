/** The order in which two keyed lists are merged. */
module ListMergeTheory {
  import opened Values
  import opened PathElements
  import opened Schemas
  import opened Merging

  type Keys = seq<PathElement>

  /** The elements of `xs` that are in `ks`, in order. */
  function Only(xs: Keys, ks: Keys): Keys {
    if xs == [] then [] else (if xs[0] in ks then [xs[0]] else []) + Only(xs[1..], ks)
  }

  /** The elements of `xs` that are not in `ks`, in order. */
  function Without(xs: Keys, ks: Keys): Keys {
    if xs == [] then [] else (if xs[0] in ks then [] else [xs[0]]) + Without(xs[1..], ks)
  }

  function KeyOf(lk: Keys, rk: Keys, step: Step): PathElement
    requires InRange(lk, rk, step)
  {
    match step
    case FromLeft(i) => lk[i]
    case FromRight(j) => rk[j]
  }

  /** The keys the list merge emits from position (i, j) on. */
  function PlanKeys(lk: Keys, rk: Keys, i: nat, j: nat): Keys
    requires i <= |lk| && j <= |rk|
    decreases |lk| - i + |rk| - j
  {
    if i == |lk| && j == |rk| then []
    else
      var m := Advance(lk, rk, i, j);
      var rest := PlanKeys(lk, rk, m.i, m.j);
      if m.emit.None? then rest else [KeyOf(lk, rk, m.emit.value)] + rest
  }

  lemma {:induction false} PlanKeysAre(lk: Keys, rk: Keys, i: nat, j: nat)
    requires i <= |lk| && j <= |rk|
    ensures var steps, ks := Plan(lk, rk, i, j), PlanKeys(lk, rk, i, j);
            |ks| == |steps| && forall x | 0 <= x < |steps| :: ks[x] == KeyOf(lk, rk, steps[x])
    decreases |lk| - i + |rk| - j
  {
    if i < |lk| || j < |rk| {
      var m := Advance(lk, rk, i, j);
      PlanKeysAre(lk, rk, m.i, m.j);
    }
  }

  lemma {:induction false} Split(ks: Keys, i: nat)
    requires i < |ks|
    ensures ks[i..] == [ks[i]] + ks[i + 1..]
    ensures ks[i..][0] == ks[i] && ks[i..][1..] == ks[i + 1..]
  {
  }

  lemma {:induction false} DistinctCons(k: PathElement, ks: Keys)
    requires Distinct(ks) && k !in ks
    ensures Distinct([k] + ks)
  {
  }

  /** The indices of the items taken from the right, in order of emission. */
  function Rights(steps: seq<Step>): seq<nat> {
    if steps == [] then [] else (if steps[0].FromRight? then [steps[0].j] else []) + Rights(steps[1..])
  }

  /** The indices of the items taken from the left alone, in order of emission. */
  function Lefts(steps: seq<Step>): seq<nat> {
    if steps == [] then [] else (if steps[0].FromLeft? then [steps[0].i] else []) + Lefts(steps[1..])
  }

  function Upto(j: nat, n: nat): seq<nat>
    requires j <= n
    decreases n - j
  {
    if j == n then [] else [j] + Upto(j + 1, n)
  }

  /** The indices from `i` on of the left items that the right does not have. */
  function LeftOnly(lk: Keys, rk: Keys, i: nat): seq<nat>
    requires i <= |lk|
    decreases |lk| - i
  {
    if i == |lk| then [] else (if lk[i] in rk then [] else [i]) + LeftOnly(lk, rk, i + 1)
  }

  /**
   * Whatever the two orders are, and with duplicates on the left: every right item is emitted once,
   * in the right's order, and every left-only item once, in the left's order.
   */
  lemma {:induction false} PlanComplete(lk: Keys, rk: Keys, i: nat, j: nat)
    requires i <= |lk| && j <= |rk|
    ensures Rights(Plan(lk, rk, i, j)) == Upto(j, |rk|)
    ensures Lefts(Plan(lk, rk, i, j)) == LeftOnly(lk, rk, i)
    decreases |lk| - i + |rk| - j
  {
    if i < |lk| || j < |rk| {
      var m := Advance(lk, rk, i, j);
      PlanComplete(lk, rk, m.i, m.j);
      var rest := Plan(lk, rk, m.i, m.j);
      if m.emit.Some? {
        FirstStep(m.emit.value, rest);
        assert Plan(lk, rk, i, j) == [m.emit.value] + rest;
      } else {
        assert Plan(lk, rk, i, j) == rest;
      }
    }
  }

  lemma {:induction false} FirstStep(step: Step, rest: seq<Step>)
    ensures Rights([step] + rest) == (if step.FromRight? then [step.j] else []) + Rights(rest)
    ensures Lefts([step] + rest) == (if step.FromLeft? then [step.i] else []) + Lefts(rest)
  {
    assert ([step] + rest)[0] == step && ([step] + rest)[1..] == rest;
  }

  /** The output restricted to the right's keys is the right; restricted to other keys, the left's. */
  lemma {:induction false} PlanRestricted(lk: Keys, rk: Keys, i: nat, j: nat)
    requires i <= |lk| && j <= |rk|
    ensures Only(PlanKeys(lk, rk, i, j), rk) == rk[j..]
    ensures Without(PlanKeys(lk, rk, i, j), rk) == Without(lk[i..], rk)
    decreases |lk| - i + |rk| - j
  {
    if i < |lk| || j < |rk| {
      var m := Advance(lk, rk, i, j);
      PlanRestricted(lk, rk, m.i, m.j);
      if i < m.i {
        Split(lk, i);
      }
      if j < m.j {
        Split(rk, j);
      }
    }
  }

  /** Where emitted keys come from; without duplicates in the operands there are none in the output. */
  lemma {:induction false} PlanSources(lk: Keys, rk: Keys, i: nat, j: nat)
    requires i <= |lk| && j <= |rk|
    ensures forall k | k in PlanKeys(lk, rk, i, j) :: k in rk[j..] || (k in lk[i..] && k !in rk)
    ensures forall step | step in Plan(lk, rk, i, j) && step.FromLeft? :: step.i < |lk| && lk[step.i] !in rk
    ensures Distinct(lk) && Distinct(rk) ==> Distinct(PlanKeys(lk, rk, i, j))
    decreases |lk| - i + |rk| - j
  {
    if i < |lk| || j < |rk| {
      var m := Advance(lk, rk, i, j);
      PlanSources(lk, rk, m.i, m.j);
      if i < m.i {
        Split(lk, i);
      }
      if j < m.j {
        Split(rk, j);
      }
      if Distinct(lk) && Distinct(rk) && m.emit.Some? {
        DistinctCons(KeyOf(lk, rk, m.emit.value), PlanKeys(lk, rk, m.i, m.j));
      }
    }
  }

  /** If the right is the left's shared part in the same order, each round takes the next left item. */
  lemma {:induction false} IdentityRound(lk: Keys, rk: Keys, i: nat, j: nat)
    requires i < |lk| && j <= |rk| && Only(lk[i..], rk) == rk[j..]
    ensures lk[i] in rk ==> j < |rk| && rk[j] == lk[i] && Advance(lk, rk, i, j) == Move(Some(FromRight(j)), i + 1, j + 1)
    ensures lk[i] !in rk ==> Advance(lk, rk, i, j) == Move(Some(FromLeft(i)), i + 1, j)
    ensures Only(lk[i + 1..], rk) == if lk[i] in rk then rk[j + 1..] else rk[j..]
  {
    Split(lk, i);
    if lk[i] in rk {
      Split(rk, j);
    }
  }

  /** ... so that the output has the left's order. */
  lemma {:induction false} PlanIdentity(lk: Keys, rk: Keys, i: nat, j: nat)
    requires i <= |lk| && j <= |rk| && Only(lk[i..], rk) == rk[j..]
    ensures PlanKeys(lk, rk, i, j) == lk[i..]
    decreases |lk| - i
  {
    if i < |lk| {
      IdentityRound(lk, rk, i, j);
      Split(lk, i);
      PlanIdentity(lk, rk, i + 1, if lk[i] in rk then j + 1 else j);
    }
  }

  /** If the shared keys come in the same order on both sides, the left's order is kept as well. */
  lemma {:induction false} PlanKeepsLeft(lk: Keys, rk: Keys, i: nat, j: nat)
    requires i <= |lk| && j <= |rk| && Distinct(rk)
    requires Only(lk[i..], rk) == Only(rk[j..], lk)
    ensures Only(PlanKeys(lk, rk, i, j), lk) == lk[i..]
    decreases |lk| - i + |rk| - j
  {
    if i < |lk| || j < |rk| {
      AgreeingRound(lk, rk, i, j);
      var m := Advance(lk, rk, i, j);
      PlanKeepsLeft(lk, rk, m.i, m.j);
      if i < |lk| {
        Split(lk, i);
      }
    }
  }

  lemma {:induction false} AgreeingRound(lk: Keys, rk: Keys, i: nat, j: nat)
    requires i <= |lk| && j <= |rk| && (i < |lk| || j < |rk|) && Distinct(rk)
    requires Only(lk[i..], rk) == Only(rk[j..], lk)
    ensures var m := Advance(lk, rk, i, j);
            Only(lk[m.i..], rk) == Only(rk[m.j..], lk) && m.emit.Some? &&
            (m.i == i + 1 ==> KeyOf(lk, rk, m.emit.value) == lk[i]) && (m.i == i ==> rk[j] !in lk)
  {
    if i < |lk| {
      OnlyStep(lk, rk, i);
    }
    if j < |rk| {
      OnlyStep(rk, lk, j);
    }
    if i < |lk| && lk[i] in rk {
      SharedAhead(lk, rk, i, j);
      if rk[j] == lk[i] {
        assert Advance(lk, rk, i, j) == Move(Some(FromRight(j)), i + 1, j + 1);
        var lo, ro := Only(lk[i + 1..], rk), Only(rk[j + 1..], lk);
        assert lo == ([lk[i]] + lo)[1..] == ([rk[j]] + ro)[1..] == ro;
      } else {
        assert Advance(lk, rk, i, j) == Move(Some(FromRight(j)), i, j + 1);
      }
    } else if i < |lk| {
      assert Advance(lk, rk, i, j) == Move(Some(FromLeft(i)), i + 1, j);
    } else {
      assert Advance(lk, rk, i, j) == Move(Some(FromRight(j)), i, j + 1);
    }
  }

  lemma {:induction false} OnlyStep(xs: Keys, ks: Keys, i: nat)
    requires i < |xs|
    ensures Only(xs[i..], ks) == if xs[i] in ks then [xs[i]] + Only(xs[i + 1..], ks) else Only(xs[i + 1..], ks)
  {
    Split(xs, i);
  }

  lemma {:induction false} SharedAhead(lk: Keys, rk: Keys, i: nat, j: nat)
    requires i < |lk| && j <= |rk| && Distinct(rk) && lk[i] in rk
    requires Only(lk[i..], rk) == Only(rk[j..], lk)
    ensures j < |rk| && (rk[j] in lk ==> rk[j] == lk[i]) && NextShared(lk, rk, j) == Some(lk[i]) && lk[i] !in rk[..j]
  {
    Split(lk, i);
    NextSharedIs(lk, rk, j);
    assert lk[i] == Only(rk[j..], lk)[0];
    OnlyIn(rk[j..], lk, lk[i]);
  }

  lemma {:induction false} NextSharedIs(lk: Keys, rk: Keys, j: nat)
    requires j <= |rk|
    ensures var next := Only(rk[j..], lk);
            NextShared(lk, rk, j) == if next == [] then None else Some(next[0])
    decreases |rk| - j
  {
    if j < |rk| {
      assert rk[j..] == [rk[j]] + rk[j + 1..];
      NextSharedIs(lk, rk, j + 1);
    }
  }

  lemma {:induction false} OnlyIn(xs: Keys, ks: Keys, x: PathElement)
    ensures x in Only(xs, ks) <==> x in xs && x in ks
  {
    if xs != [] {
      OnlyIn(xs[1..], ks, x);
    }
  }

  lemma {:induction false} RightsIn(steps: seq<Step>, j: nat)
    ensures j in Rights(steps) <==> FromRight(j) in steps
  {
    if steps != [] {
      RightsIn(steps[1..], j);
      assert steps == [steps[0]] + steps[1..];
    }
  }

  lemma {:induction false} LeftsIn(steps: seq<Step>, i: nat)
    ensures i in Lefts(steps) <==> FromLeft(i) in steps
  {
    if steps != [] {
      LeftsIn(steps[1..], i);
      assert steps == [steps[0]] + steps[1..];
    }
  }

  lemma {:induction false} UptoIn(j: nat, n: nat, x: nat)
    requires j <= x < n
    ensures x in Upto(j, n)
    decreases n - j
  {
    assert Upto(j, n) == [j] + Upto(j + 1, n);
    if j < x {
      UptoIn(j + 1, n, x);
      assert x in Upto(j + 1, n);
    } else {
      assert Upto(j, n)[0] == x;
    }
  }

  lemma {:induction false} LeftOnlyIn(lk: Keys, rk: Keys, i: nat, x: nat)
    requires i <= x < |lk| && lk[x] !in rk
    ensures x in LeftOnly(lk, rk, i)
    decreases |lk| - i
  {
    if i < x {
      LeftOnlyIn(lk, rk, i + 1, x);
    }
  }

  /** Every key of either side is emitted: from the right if the right has it. */
  lemma {:induction false} PlanCovers(lk: Keys, rk: Keys)
    ensures forall j: nat | j < |rk| :: FromRight(j) in Plan(lk, rk, 0, 0)
    ensures forall i: nat | i < |lk| && lk[i] !in rk :: FromLeft(i) in Plan(lk, rk, 0, 0)
  {
    PlanComplete(lk, rk, 0, 0);
    var steps := Plan(lk, rk, 0, 0);
    forall j: nat | j < |rk|
      ensures FromRight(j) in steps
    {
      UptoIn(0, |rk|, j);
      RightsIn(steps, j);
    }
    forall i: nat | i < |lk| && lk[i] !in rk
      ensures FromLeft(i) in steps
    {
      LeftOnlyIn(lk, rk, 0, i);
      LeftsIn(steps, i);
    }
  }

  /** Left items come from the position on. */
  lemma {:induction false} PlanFrom(lk: Keys, rk: Keys, i: nat, j: nat)
    requires i <= |lk| && j <= |rk|
    ensures forall step | step in Plan(lk, rk, i, j) && step.FromLeft? :: i <= step.i < |lk| && lk[step.i] !in rk
    decreases |lk| - i + |rk| - j
  {
    if i < |lk| || j < |rk| {
      var m := Advance(lk, rk, i, j);
      PlanFrom(lk, rk, m.i, m.j);
    }
  }

  /** A left-only item at the head is emitted at once, and only then. */
  lemma {:induction false} HeadEmitted(lk: Keys, rk: Keys, i: nat, j: nat)
    requires i < |lk| && j <= |rk| && lk[i] !in rk
    ensures var steps := Plan(lk, rk, i, j);
            steps == [FromLeft(i)] + Plan(lk, rk, i + 1, j) && FromLeft(i) !in Plan(lk, rk, i + 1, j)
  {
    PlanFrom(lk, rk, i + 1, j);
  }

  /** Shared left items from the position on are still ahead on the right. */
  predicate Ahead(lk: Keys, rk: Keys, i: nat, j: nat)
    requires i <= |lk| && j <= |rk|
  {
    forall k | i <= k < |lk| && lk[k] in rk :: lk[k] in rk[j..]
  }

  lemma {:induction false} AheadNext(lk: Keys, rk: Keys, i: nat, j: nat)
    requires i <= |lk| && j <= |rk| && (i < |lk| || j < |rk|) && Distinct(lk) && Distinct(rk) && Ahead(lk, rk, i, j)
    ensures var m := Advance(lk, rk, i, j);
            Ahead(lk, rk, m.i, m.j) && (m.i == i + 1 && lk[i] in rk && m.j == j + 1 ==> rk[j] == lk[i])
  {
    var m := Advance(lk, rk, i, j);
    if i < |lk| && lk[i] in rk {
      NotBehind(rk, j, lk[i]);
    }
    if m.j == j + 1 {
      forall k | m.i <= k < |lk| && lk[k] in rk
        ensures lk[k] in rk[j + 1..]
      {
        assert lk[k] in rk[j..] && rk[j] != lk[k];
        assert rk[j..] == [rk[j]] + rk[j + 1..];
      }
    }
  }

  lemma {:induction false} NotBehind(rk: Keys, j: nat, k: PathElement)
    requires j <= |rk| && Distinct(rk) && k in rk[j..]
    ensures k !in rk[..j]
  {
  }

  /** Where a left-only item comes out: right after the item before it on the left, or before that one. */
  predicate Placed(lk: Keys, rk: Keys, steps: seq<Step>, x: nat, n: nat)
    requires n < |lk| && x < |steps|
  {
    if n == 0 then x == 0
    else if lk[n - 1] !in rk then x > 0 && steps[x - 1] == FromLeft(n - 1)
    else (x > 0 && TakesKey(rk, steps[x - 1], lk[n - 1])) || exists z | x < z < |steps| :: TakesKey(rk, steps[z], lk[n - 1])
  }

  predicate TakesKey(rk: Keys, step: Step, k: PathElement) {
    step.FromRight? && step.j < |rk| && rk[step.j] == k
  }

  /** The first item after a position is emitted at once; later ones are placed by their left neighbour. */
  lemma {:induction false} NeighboursFrom(lk: Keys, rk: Keys, i: nat, j: nat, x: nat)
    requires i <= |lk| && j <= |rk| && Distinct(lk) && Distinct(rk) && Ahead(lk, rk, i, j)
    requires x < |Plan(lk, rk, i, j)| && Plan(lk, rk, i, j)[x].FromLeft?
    ensures var steps := Plan(lk, rk, i, j);
            i <= steps[x].i < |lk| && lk[steps[x].i] !in rk &&
            if steps[x].i == i then x == 0 else Placed(lk, rk, steps, x, steps[x].i)
    decreases |lk| - i + |rk| - j
  {
    var steps := Plan(lk, rk, i, j);
    var n := steps[x].i;
    PlanFrom(lk, rk, i, j);
    assert steps[x] in steps;
    if n == i {
      HeadEmitted(lk, rk, i, j);
      assert forall y | 0 < y < |steps| :: steps[y] in Plan(lk, rk, i + 1, j);
    } else {
      var m := Advance(lk, rk, i, j);
      AheadNext(lk, rk, i, j);
      var rest := Plan(lk, rk, m.i, m.j);
      var y := if m.emit.None? then x else x - 1;
      assert m.emit.Some? ==> steps == [m.emit.value] + rest;
      assert x == 0 ==> m.emit.None?;
      NeighboursFrom(lk, rk, m.i, m.j, y);
      if n == m.i {
        NextPlaced(lk, rk, i, j, x);
      } else {
        PlacedLater(lk, rk, m.emit, rest, y, n);
      }
    }
  }

  lemma {:induction false} PlacedLater(lk: Keys, rk: Keys, emit: Option<Step>, rest: seq<Step>, y: nat, n: nat)
    requires 0 < n < |lk| && y < |rest| && Placed(lk, rk, rest, y, n)
    ensures emit.Some? ==> Placed(lk, rk, [emit.value] + rest, y + 1, n)
  {
    if emit.Some? {
      var steps := [emit.value] + rest;
      assert forall z | 0 <= z < |rest| :: steps[z + 1] == rest[z];
      if lk[n - 1] in rk && !(y > 0 && TakesKey(rk, rest[y - 1], lk[n - 1])) {
        var z :| y < z < |rest| && TakesKey(rk, rest[z], lk[n - 1]);
        assert TakesKey(rk, steps[z + 1], lk[n - 1]);
      }
    }
  }

  /** The item right after the one that this round passes on the left. */
  lemma {:induction false} NextPlaced(lk: Keys, rk: Keys, i: nat, j: nat, x: nat)
    requires i < |lk| && j <= |rk| && Distinct(lk) && Distinct(rk) && Ahead(lk, rk, i, j)
    requires var m, steps := Advance(lk, rk, i, j), Plan(lk, rk, i, j);
             m.i == i + 1 < |lk| && lk[i + 1] !in rk && x < |steps| && steps[x] == FromLeft(i + 1) &&
             x == if m.emit.None? then 0 else 1
    ensures Placed(lk, rk, Plan(lk, rk, i, j), x, i + 1)
  {
    var m, steps := Advance(lk, rk, i, j), Plan(lk, rk, i, j);
    var rest := Plan(lk, rk, m.i, m.j);
    AheadNext(lk, rk, i, j);
    if m.emit.Some? {
      assert steps == [m.emit.value] + rest;
    } else {
      var y :| 0 <= y < |rk[j..]| && rk[j..][y] == lk[i];
      PlanComplete(lk, rk, m.i, m.j);
      UptoIn(j, |rk|, j + y);
      RightsIn(rest, j + y);
      var z :| 0 <= z < |rest| && rest[z] == FromRight(j + y);
      assert TakesKey(rk, steps[z], lk[i]);
    }
  }

  /**
   * Without duplicates: a left-only item comes out directly after the item before it on the left, or first if
   * there is none, unless that item is one the right orders elsewhere and comes out later.
   */
  lemma {:induction false} LeftNeighbours(lk: Keys, rk: Keys, x: nat)
    requires Distinct(lk) && Distinct(rk) && x < |Plan(lk, rk, 0, 0)| && Plan(lk, rk, 0, 0)[x].FromLeft?
    ensures var steps := Plan(lk, rk, 0, 0);
            steps[x].i < |lk| && Placed(lk, rk, steps, x, steps[x].i)
  {
    assert rk[0..] == rk;
    NeighboursFrom(lk, rk, 0, 0, x);
  }

  /** How many left items from `i` up to `n` the right has too. */
  function SharedIn(lk: Keys, rk: Keys, i: nat, n: nat): (d: nat)
    requires i <= n <= |lk|
    ensures d <= n - i
    decreases n - i
  {
    if i == n then 0 else (if lk[i] in rk then 1 else 0) + SharedIn(lk, rk, i + 1, n)
  }

  /**
   * Once the right has no more shared items: the left's rest comes out in order, and in the place of each item
   * of it that is merged already, which takes repeated keys, stands the next right item while there is one.
   */
  lemma {:induction false} TailPlaces(lk: Keys, rk: Keys, i: nat, j: nat, n: nat)
    requires i <= n < |lk| && j <= |rk| && lk[n] !in rk && forall k | k in rk[j..] :: k !in lk
    ensures var d, r := SharedIn(lk, rk, i, n), |rk| - j;
            var x := n - i - d + if d < r then d else r;
            x < |Plan(lk, rk, i, j)| && Plan(lk, rk, i, j)[x] == FromLeft(n)
    decreases n - i
  {
    if lk[i] !in rk {
      HeadEmitted(lk, rk, i, j);
      if i < n {
        TailPlaces(lk, rk, i + 1, j, n);
      }
    } else {
      TailRound(lk, rk, i, j);
      var j' := if j < |rk| then j + 1 else j;
      assert forall k | k in rk[j'..] :: k in rk[j..];
      TailPlaces(lk, rk, i + 1, j', n);
    }
  }

  lemma {:induction false} TailRound(lk: Keys, rk: Keys, i: nat, j: nat)
    requires i < |lk| && j <= |rk| && lk[i] in rk && forall k | k in rk[j..] :: k !in lk
    ensures Plan(lk, rk, i, j) ==
            if j < |rk| then [FromRight(j)] + Plan(lk, rk, i + 1, j + 1) else Plan(lk, rk, i + 1, j)
  {
    assert rk == rk[..j] + rk[j..] && lk[i] in lk;
    NextSharedIs(lk, rk, j);
    if Only(rk[j..], lk) != [] {
      OnlyIn(rk[j..], lk, Only(rk[j..], lk)[0]);
    }
    assert j < |rk| ==> rk[j] in rk[j..];
  }
}
