/** Which paths reconciliation cuts and where, by the types of the schema that a path leads to. */
module CutTheory {
  import opened Values
  import opened PathElements
  import opened Schemas
  import opened Reconciling
  import opened PlainSetting

  /** The type one step below: that of a declared field, or else of a container's elements. */
  function StepType(s: Schema, tr: TypeRef, pe: PathElement): TypeRef {
    match ShapeOf(s, tr)
    case MapShape(t) => if pe.FieldName? && pe.name in t.fields then t.fields[pe.name].fieldType else t.elementType
    case ListShape(t) => t.elementType
    case LeafShape => NO_TYPE
  }

  function ReachedType(s: Schema, tr: TypeRef, p: Path): TypeRef
    decreases |p|
  {
    if p == [] then tr else ReachedType(s, StepType(s, tr, p[0]), p[1..])
  }

  /** The type is read as an atomic map, or else as an atomic list. */
  predicate AtomicType(s: Schema, tr: TypeRef) {
    var a := Resolve(s, tr);
    a.Some? &&
    if a.value.mapping.Some? then a.value.mapping.value.relationship.Atomic?
    else a.value.scalar.None? && a.value.list.Some? && a.value.list.value.relationship.Atomic?
  }

  /** The type is a map without declared fields whose elements have the type of objects without a schema, or are untyped scalars. */
  predicate UntypedMap(s: Schema, tr: TypeRef) {
    var a := Resolve(s, tr);
    a.Some? && a.value.mapping.Some? && a.value.mapping.value.fields == map[] &&
    var e := a.value.mapping.value.elementType;
    (e.named == Some("__untyped_deduced_") || (e.named.None? && e.inlined.scalar == Some(Untyped)))
  }

  /** Up to the n-th step, the path leads through types that are neither atomic nor untyped maps. */
  ghost predicate Granular(s: Schema, tr: TypeRef, p: Path, n: nat)
    requires n <= |p|
  {
    forall i | 0 <= i < n :: !AtomicType(s, ReachedType(s, tr, p[..i])) && !UntypedMap(s, ReachedType(s, tr, p[..i]))
  }

  /** The n-th step is the first to an atomic type, before any to an untyped map. */
  ghost predicate CutAt(s: Schema, tr: TypeRef, p: Path, n: nat) {
    n <= |p| && Granular(s, tr, p, n) &&
    AtomicType(s, ReachedType(s, tr, p[..n])) && !UntypedMap(s, ReachedType(s, tr, p[..n]))
  }

  /** The same, read from the second step on. */
  lemma {:induction false} CutBelow(s: Schema, tr: TypeRef, p: Path, n: nat)
    requires p != [] && 0 < n
    ensures CutAt(s, tr, p, n) <==>
            !AtomicType(s, tr) && !UntypedMap(s, tr) && CutAt(s, StepType(s, tr, p[0]), p[1..], n - 1)
  {
    if n <= |p| {
      forall i | 0 < i <= n
        ensures ReachedType(s, tr, p[..i]) == ReachedType(s, StepType(s, tr, p[0]), p[1..][..i - 1])
      {
        assert p[..i][0] == p[0] && p[..i][1..] == p[1..][..i - 1];
      }
      var nt := StepType(s, tr, p[0]);
      if CutAt(s, tr, p, n) {
        assert p[..0] == [];
        forall i | 0 <= i < n - 1
          ensures !AtomicType(s, ReachedType(s, nt, p[1..][..i])) && !UntypedMap(s, ReachedType(s, nt, p[1..][..i]))
        {
          assert ReachedType(s, tr, p[..i + 1]) == ReachedType(s, nt, p[1..][..i]);
        }
      }
    }
  }

  /** Where no type is followed, nothing further down is atomic. */
  lemma {:induction false} NothingBelow(s: Schema, p: Path)
    ensures ReachedType(s, NO_TYPE, p) == NO_TYPE && !AtomicType(s, NO_TYPE)
    decreases |p|
  {
    if p != [] {
      NothingBelow(s, p[1..]);
    }
  }

  /** A path below a node is cut at the first step to an atomic type, or not at all. */
  lemma {:induction false} TruncatedIs(s: Schema, tr: TypeRef, p: Path)
    ensures forall n: nat | CutAt(s, tr, p, n) :: Truncated(s, tr, p) == p[..n]
    ensures (forall n: nat :: !CutAt(s, tr, p, n)) ==> Truncated(s, tr, p) == p
    decreases |p|
  {
    assert p[..0] == [];
    if AtomicType(s, tr) && !UntypedMap(s, tr) {
      assert CutAt(s, tr, p, 0);
      forall n: nat | CutAt(s, tr, p, n)
        ensures n == 0
      {
        assert Granular(s, tr, p, n);
      }
    } else if p != [] {
      var pe, rest := p[0], p[1..];
      var nt := StepType(s, tr, pe);
      assert p == [pe] + rest;
      forall n: nat
        ensures CutAt(s, tr, p, n) <==> n > 0 && !UntypedMap(s, tr) && CutAt(s, nt, rest, n - 1)
      {
        if n > 0 {
          CutBelow(s, tr, p, n);
        }
      }
      if Follows(s, tr, pe) {
        TruncatedStep(s, tr, p);
      } else {
        NotFollowed(s, tr, p);
      }
    }
  }

  lemma {:induction false} TruncatedStep(s: Schema, tr: TypeRef, p: Path)
    requires p != [] && Follows(s, tr, p[0])
    requires var nt := StepType(s, tr, p[0]);
             forall n: nat :: CutAt(s, tr, p, n) <==> n > 0 && !UntypedMap(s, tr) && CutAt(s, nt, p[1..], n - 1)
    ensures forall n: nat | CutAt(s, tr, p, n) :: Truncated(s, tr, p) == p[..n]
    ensures (forall n: nat :: !CutAt(s, tr, p, n)) ==> Truncated(s, tr, p) == p
    decreases |p|, 0
  {
    var pe, rest, nt := p[0], p[1..], StepType(s, tr, p[0]);
    assert p == [pe] + rest && TypeBelow(s, tr, pe) == nt;
    TruncatedIs(s, nt, rest);
    forall n: nat | CutAt(s, tr, p, n)
      ensures Truncated(s, tr, p) == p[..n]
    {
      assert Truncated(s, nt, rest) == rest[..n - 1];
      assert p[..n] == [pe] + rest[..n - 1];
    }
    if forall n: nat :: !CutAt(s, tr, p, n) {
      forall n: nat
        ensures !CutAt(s, nt, rest, n)
      {
        assert !CutAt(s, tr, p, n + 1);
      }
    }
  }

  lemma {:induction false} NotFollowed(s: Schema, tr: TypeRef, p: Path)
    requires p != [] && !Follows(s, tr, p[0]) && (AtomicType(s, tr) ==> UntypedMap(s, tr))
    requires forall n: nat | CutAt(s, tr, p, n) :: n > 0 && !UntypedMap(s, tr) && CutAt(s, StepType(s, tr, p[0]), p[1..], n - 1)
    ensures Truncated(s, tr, p) == p && forall n: nat :: !CutAt(s, tr, p, n)
  {
    if n: nat :| CutAt(s, tr, p, n) {
      assert StepType(s, tr, p[0]) == NO_TYPE;
      NothingBelow(s, p[1..][..n - 1]);
    }
  }

  /** The root's own path is not tracked: the first cut after the root counts, and an atomic or untyped root leaves all paths. */
  lemma {:induction false} TruncateIs(s: Schema, tr: TypeRef, p: Path)
    ensures forall n: nat | n > 0 && CutAt(s, tr, p, n) :: Truncate(s, tr, p) == p[..n]
    ensures (forall n: nat | n > 0 :: !CutAt(s, tr, p, n)) ==> Truncate(s, tr, p) == p
  {
    TruncatedIs(s, tr, p);
    assert p[..0] == [];
  }

  /** What is left of a path: it ends at its first cut after the root, or stays whole. */
  ghost predicate Shortened(s: Schema, tr: TypeRef, p: Path, q: Path) {
    (exists n: nat :: n > 0 && CutAt(s, tr, p, n) && q == p[..n]) ||
    (q == p && forall n: nat | n > 0 :: !CutAt(s, tr, p, n))
  }

  lemma {:induction false} TruncateShortens(s: Schema, tr: TypeRef, p: Path)
    ensures Shortened(s, tr, p, Truncate(s, tr, p))
    ensures forall q | Shortened(s, tr, p, q) :: q == Truncate(s, tr, p)
  {
    TruncateIs(s, tr, p);
    if n: nat :| n > 0 && CutAt(s, tr, p, n) {
      assert Truncate(s, tr, p) == p[..n];
    }
  }

  /** A reconciled set has exactly the shortened paths, and none of them goes on below a cut. */
  lemma {:induction false} ReconciledIs(s: Schema, tr: TypeRef, paths: PathSet, q: Path)
    requires Reconcile(s, tr, paths).Some?
    ensures q in Reconcile(s, tr, paths).value <==> exists p | p in paths :: Shortened(s, tr, p, q)
    ensures q in Reconcile(s, tr, paths).value ==> forall n: nat | 0 < n < |q| :: !CutAt(s, tr, q, n)
  {
    forall p
      ensures Shortened(s, tr, p, q) <==> Truncate(s, tr, p) == q
    {
      TruncateShortens(s, tr, p);
    }
    if q in Reconcile(s, tr, paths).value {
      var p :| p in paths && Truncate(s, tr, p) == q;
      forall n: nat | 0 < n < |q| && CutAt(s, tr, q, n)
        ensures false
      {
        SamePrefix(s, tr, p, q, n);
        TruncateIs(s, tr, p);
      }
    }
  }

  lemma {:induction false} SamePrefix(s: Schema, tr: TypeRef, p: Path, q: Path, n: nat)
    requires Shortened(s, tr, p, q) && n <= |q| && CutAt(s, tr, q, n)
    ensures CutAt(s, tr, p, n)
  {
    assert q <= p;
    forall i | 0 <= i <= n
      ensures q[..i] == p[..i]
    {
    }
    forall i | 0 <= i < n
      ensures !AtomicType(s, ReachedType(s, tr, p[..i])) && !UntypedMap(s, ReachedType(s, tr, p[..i]))
    {
      assert !AtomicType(s, ReachedType(s, tr, q[..i])) && !UntypedMap(s, ReachedType(s, tr, q[..i]));
    }
  }

  /** A reconciled path goes on below an atomic type only from an atomic root or through an untyped map. */
  lemma {:induction false} NoneBelowAtomic(s: Schema, tr: TypeRef, paths: PathSet, q: Path, i: nat)
    requires Reconcile(s, tr, paths).Some? && q in Reconcile(s, tr, paths).value
    requires i < |q| && AtomicType(s, ReachedType(s, tr, q[..i])) && !AtomicType(s, tr)
    ensures exists j | 0 <= j <= i :: UntypedMap(s, ReachedType(s, tr, q[..j]))
  {
    assert q[..0] == [];
    var n := i;
    while n > 0 && !Granular(s, tr, q, n)
      invariant 0 <= n <= i && AtomicType(s, ReachedType(s, tr, q[..n]))
      invariant (exists j | 0 <= j <= n :: UntypedMap(s, ReachedType(s, tr, q[..j]))) ==>
                  exists j | 0 <= j <= i :: UntypedMap(s, ReachedType(s, tr, q[..j]))
    {
      var j :| 0 <= j < n && (AtomicType(s, ReachedType(s, tr, q[..j])) || UntypedMap(s, ReachedType(s, tr, q[..j])));
      if UntypedMap(s, ReachedType(s, tr, q[..j])) {
        return;
      }
      n := j;
    }
    ReconciledIs(s, tr, paths, q);
    assert n > 0 && !CutAt(s, tr, q, n);
    assert UntypedMap(s, ReachedType(s, tr, q[..n]));
  }

  /** Paths that lead to an untyped map before anything atomic stay as they are. */
  lemma {:induction false} UntypedStays(s: Schema, tr: TypeRef, p: Path, i: nat)
    requires i <= |p| && UntypedMap(s, ReachedType(s, tr, p[..i])) && Granular(s, tr, p, i)
    ensures Truncate(s, tr, p) == p
  {
    TruncateIs(s, tr, p);
  }

  /** So do all paths if the root itself is atomic. */
  lemma {:induction false} AtomicRootStays(s: Schema, tr: TypeRef, p: Path)
    requires AtomicType(s, tr)
    ensures Truncate(s, tr, p) == p
  {
    TruncateIs(s, tr, p);
    assert p[..0] == [];
  }

  /** Along the path of a node, these are the types of the nodes it leads through. */
  lemma {:induction false} ReachedIsTypeAt(s: Schema, tr: TypeRef, o: Option<Value>, p: Path)
    requires At(s, tr, o, p).Some?
    ensures ReachedType(s, tr, p) == TypeAt(s, tr, p)
    decreases |p|
  {
    if p != [] {
      if KidOf(s, tr, o, p[0]).None? {
        AtNone(s, ChildType(s, tr, p[0]), p[1..]);
      }
      ReachedIsTypeAt(s, ChildType(s, tr, p[0]), KidOf(s, tr, o, p[0]), p[1..]);
    }
  }

  /** The walk goes on from a map or list, not an untyped map, and into fields that have a type. */
  predicate WalksOn(s: Schema, tr: TypeRef, next: TypeRef) {
    !UntypedMap(s, tr) && !ShapeOf(s, tr).LeafShape? && (ShapeOf(s, tr).MapShape? ==> next != NO_TYPE)
  }

  /** The walk gets to the n-th step. */
  ghost predicate Walked(s: Schema, tr: TypeRef, p: Path, n: nat)
    requires n <= |p|
  {
    forall i | 0 <= i < n :: WalksOn(s, ReachedType(s, tr, p[..i]), ReachedType(s, tr, p[..i + 1]))
  }

  /** The reference resolves to a type that is a map, a scalar or a list. */
  predicate HasSomeKind(s: Schema, tr: TypeRef) {
    var a := Resolve(s, tr);
    a.Some? && (a.value.mapping.Some? || a.value.scalar.Some? || a.value.list.Some?)
  }

  /** A path is an error exactly if the walk along it gets to a type without a kind. */
  lemma {:induction false} ResolvesIff(s: Schema, tr: TypeRef, p: Path)
    ensures Resolves(s, tr, p) <==> forall n: nat | n <= |p| && Walked(s, tr, p, n) :: HasSomeKind(s, ReachedType(s, tr, p[..n]))
    decreases |p|
  {
    assert p[..0] == [] && Walked(s, tr, p, 0);
    if p != [] {
      var nt := StepType(s, tr, p[0]);
      forall n: nat | 0 < n <= |p|
        ensures Walked(s, tr, p, n) <==> Follows(s, tr, p[0]) && Walked(s, nt, p[1..], n - 1)
        ensures ReachedType(s, tr, p[..n]) == ReachedType(s, nt, p[1..][..n - 1])
      {
        assert p[..n][0] == p[0] && p[..n][1..] == p[1..][..n - 1];
        WalkedStep(s, tr, p, n);
      }
      if Follows(s, tr, p[0]) {
        ResolvesIff(s, nt, p[1..]);
        assert TypeBelow(s, tr, p[0]) == nt;
        ResolvesStep(s, tr, p);
      }
    }
  }

  lemma {:induction false} ReconcileFailsIff(s: Schema, tr: TypeRef, paths: PathSet)
    ensures Reconcile(s, tr, paths).None? <==>
            !HasSomeKind(s, tr) ||
            exists p, n: nat :: p in paths && n <= |p| && Walked(s, tr, p, n) && !HasSomeKind(s, ReachedType(s, tr, p[..n]))
  {
    forall p | p in paths
      ensures Resolves(s, tr, p) <==> forall n: nat | n <= |p| && Walked(s, tr, p, n) :: HasSomeKind(s, ReachedType(s, tr, p[..n]))
    {
      ResolvesIff(s, tr, p);
    }
  }

  lemma {:induction false} ResolvesStep(s: Schema, tr: TypeRef, p: Path)
    requires p != []
    requires forall n: nat | 0 < n <= |p| ::
               (Walked(s, tr, p, n) <==> Walked(s, StepType(s, tr, p[0]), p[1..], n - 1)) &&
               ReachedType(s, tr, p[..n]) == ReachedType(s, StepType(s, tr, p[0]), p[1..][..n - 1])
    ensures (forall n: nat | 0 < n <= |p| && Walked(s, tr, p, n) :: HasSomeKind(s, ReachedType(s, tr, p[..n]))) <==>
            (forall n: nat | n <= |p[1..]| && Walked(s, StepType(s, tr, p[0]), p[1..], n) ::
               HasSomeKind(s, ReachedType(s, StepType(s, tr, p[0]), p[1..][..n])))
  {
    var nt, rest := StepType(s, tr, p[0]), p[1..];
    if forall n: nat | 0 < n <= |p| && Walked(s, tr, p, n) :: HasSomeKind(s, ReachedType(s, tr, p[..n])) {
      forall n: nat | n <= |rest| && Walked(s, nt, rest, n)
        ensures HasSomeKind(s, ReachedType(s, nt, rest[..n]))
      {
        assert Walked(s, tr, p, n + 1);
      }
    }
  }

  lemma {:induction false} WalkedStep(s: Schema, tr: TypeRef, p: Path, n: nat)
    requires 0 < n <= |p|
    ensures Walked(s, tr, p, n) <==> Follows(s, tr, p[0]) && Walked(s, StepType(s, tr, p[0]), p[1..], n - 1)
  {
    var nt, rest := StepType(s, tr, p[0]), p[1..];
    ReachedFirst(s, tr, p);
    assert Follows(s, tr, p[0]) <==> WalksOn(s, tr, nt);
    if Walked(s, tr, p, n) {
      assert WalksOn(s, ReachedType(s, tr, p[..0]), ReachedType(s, tr, p[..0 + 1]));
      forall i | 0 <= i < n - 1
        ensures WalksOn(s, ReachedType(s, nt, rest[..i]), ReachedType(s, nt, rest[..i + 1]))
      {
        assert WalksOn(s, ReachedType(s, tr, p[..i + 1]), ReachedType(s, tr, p[..(i + 1) + 1]));
        ReachedNext(s, tr, p, i);
        ReachedNext(s, tr, p, i + 1);
      }
    }
    if Follows(s, tr, p[0]) && Walked(s, nt, rest, n - 1) {
      forall i | 0 <= i < n
        ensures WalksOn(s, ReachedType(s, tr, p[..i]), ReachedType(s, tr, p[..i + 1]))
      {
        if i > 0 {
          assert WalksOn(s, ReachedType(s, nt, rest[..i - 1]), ReachedType(s, nt, rest[..(i - 1) + 1]));
          ReachedNext(s, tr, p, i - 1);
          ReachedNext(s, tr, p, i);
        }
      }
    }
  }

  lemma {:induction false} ReachedFirst(s: Schema, tr: TypeRef, p: Path)
    requires p != []
    ensures ReachedType(s, tr, p[..0]) == tr && ReachedType(s, tr, p[..1]) == StepType(s, tr, p[0])
  {
    assert p[..1] == [p[0]] && [p[0]][1..] == [];
  }

  lemma {:induction false} ReachedNext(s: Schema, tr: TypeRef, p: Path, i: nat)
    requires i < |p|
    ensures ReachedType(s, tr, p[..i + 1]) == ReachedType(s, StepType(s, tr, p[0]), p[1..][..i])
  {
    assert p[..i + 1][0] == p[0] && p[..i + 1][1..] == p[1..][..i];
  }
}
