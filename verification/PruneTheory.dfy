/** What pruning keeps and what it removes, on every plain schema. */
module PruneTheory {
  import opened Values
  import opened PathElements
  import opened Schemas
  import opened Removing
  import opened Owning
  import opened Updating
  import opened PlainSetting
  import opened ItemTheory
  import opened RemoveTheory
  import opened RemoveIff
  import opened OwningTheory
  import opened LeftoverTheory

  /** No declared field that may have children is null or an empty map. */
  predicate Solid(s: Schema, tr: TypeRef, v: Value)
    decreases v
  {
    match ShapeOf(s, tr)
    case LeafShape => true
    case MapShape(t) =>
      v.Map? ==>
        forall k | k in v.fields ::
          Solid(s, FieldType(t, k), v.fields[k]) &&
          (ShapeOf(s, FieldType(t, k)).LeafShape? || (v.fields[k] != Null && v.fields[k] != Map(map[])) || k !in t.fields)
    case ListShape(t) => v.List? ==> forall x | x in v.items :: Solid(s, t.elementType, x)
  }

  /** A solid object mentions a container itself only if it is a list item or not declared. */
  lemma {:induction false} SolidMarks(s: Schema, tr: TypeRef, v: Value, p: Path)
    requires Plain(s, tr) && Valid(s, tr, v, false) && Solid(s, tr, v) && Marked(s, tr, v, p)
    ensures ShapeOf(s, TypeAt(s, tr, p)).LeafShape? || !NamedAt(s, tr, p)
    decreases |p|
  {
    var pe, c := p[0], Kid(s, tr, v, p[0]).value;
    KidValid(s, tr, v, pe, false);
    if |p| == 1 {
      assert TypeAt(s, tr, p) == ChildType(s, tr, pe);
    } else {
      SolidMarks(s, ChildType(s, tr, pe), c, p[1..]);
    }
  }

  /** What nobody owns and the first pass leaves unmentioned: it is removed by the second pass. */
  function Orphaned(s: Schema, tr: TypeRef, merged: Value, managed: PathSet, last: PathSet): PathSet {
    set u | u in EnsureNamed(s, tr, ToFieldSet(s, tr, merged)) && u !in EnsureNamed(s, tr, managed) &&
            !Still(s, tr, merged, EnsureNamed(s, tr, last), u)
  }

  /** What was owned last time and is not mentioned once the orphaned paths are gone: the third pass removes it. */
  function Dropped(s: Schema, tr: TypeRef, merged: Value, managed: PathSet, last: PathSet): PathSet {
    set u | u in EnsureNamed(s, tr, ToFieldSet(s, tr, merged)) && u in EnsureNamed(s, tr, last) &&
            !Still(s, tr, merged, Orphaned(s, tr, merged, managed, last), u)
  }

  ghost predicate PruneInput(s: Schema, tr: TypeRef, merged: Value, managed: PathSet, last: PathSet) {
    Plain(s, tr) && Valid(s, tr, merged, false) &&
    Plausible(s, tr, managed) && Plausible(s, tr, last)
  }

  /** What the merged object mentions are paths of it. */
  lemma {:induction false} MentionedPath(s: Schema, tr: TypeRef, merged: Value, u: Path)
    requires Plain(s, tr) && Valid(s, tr, merged, false) && u in EnsureNamed(s, tr, ToFieldSet(s, tr, merged))
    ensures u in AllPaths(s, tr, merged) && u != [] && At(s, tr, Some(merged), u).Some? && NoElement !in u
  {
    FieldSetOwned(s, tr, merged);
    EnsureOwned(s, tr, merged, ToFieldSet(s, tr, merged));
    AllPathsIn(s, tr, merged, u);
    RealPath(s, tr, merged, u);
  }

  /** Selecting mentioned paths by what a removal leaves keeps items and their keys together. */
  lemma {:induction false} StillOwned(s: Schema, tr: TypeRef, merged: Value, gone: PathSet, chosen: PathSet)
    requires Plain(s, tr) && Valid(s, tr, merged, false) && Removable(s, tr, gone) && OwnedIn(s, tr, merged, chosen)
    ensures OwnedIn(s, tr, merged, set u | u in chosen && !Still(s, tr, merged, gone, u))
  {
    forall p, k | IsKeyOf(s, tr, p, k) && p in chosen
      ensures Still(s, tr, merged, gone, p) <==> Still(s, tr, merged, gone, p + [FieldName(k)])
    {
      AllPathsIn(s, tr, merged, p);
      StillKey(s, tr, merged, gone, p, k);
    }
  }

  /** Each pass removes paths of the merged object, items with their keys. */
  lemma {:induction false} PassesSound(s: Schema, tr: TypeRef, merged: Value, managed: PathSet, last: PathSet)
    requires PruneInput(s, tr, merged, managed, last)
    ensures var orphaned, dropped := Orphaned(s, tr, merged, managed, last), Dropped(s, tr, merged, managed, last);
            Removable(s, tr, EnsureNamed(s, tr, last)) &&
            OwnedIn(s, tr, merged, orphaned) && Removable(s, tr, orphaned) &&
            OwnedIn(s, tr, merged, dropped) && Removable(s, tr, dropped)
  {
    var mentioned, before := EnsureNamed(s, tr, ToFieldSet(s, tr, merged)), EnsureNamed(s, tr, last);
    FieldSetOwned(s, tr, merged);
    EnsureOwned(s, tr, merged, ToFieldSet(s, tr, merged));
    EnsurePlausible(s, tr, last);
    EnsurePlausible(s, tr, managed);
    PlausibleRemovable(s, tr, before);
    var orphaned := Orphaned(s, tr, merged, managed, last);
    StillOwned(s, tr, merged, before, mentioned - EnsureNamed(s, tr, managed));
    assert orphaned == set u | u in mentioned - EnsureNamed(s, tr, managed) && !Still(s, tr, merged, before, u);
    OwnedPlausible(s, tr, merged, orphaned);
    PlausibleRemovable(s, tr, orphaned);
    StillOwned(s, tr, merged, orphaned, mentioned * before);
    assert Dropped(s, tr, merged, managed, last) == set u | u in mentioned * before && !Still(s, tr, merged, orphaned, u);
    OwnedPlausible(s, tr, merged, Dropped(s, tr, merged, managed, last));
    PlausibleRemovable(s, tr, Dropped(s, tr, merged, managed, last));
  }

  /** The sets that the passes compute from what earlier passes left. */
  lemma {:induction false} PassesAre(s: Schema, tr: TypeRef, merged: Value, managed: PathSet, last: PathSet)
    requires PruneInput(s, tr, merged, managed, last)
    ensures var owned := AddBackOwned(s, tr, merged, PruneLast(s, tr, merged, last), managed);
            owned == Remove(s, tr, merged, Orphaned(s, tr, merged, managed, last)) &&
            AddBackDangling(s, tr, merged, owned, last) == Remove(s, tr, merged, Dropped(s, tr, merged, managed, last))
  {
    PassesSound(s, tr, merged, managed, last);
    var mentioned, before := EnsureNamed(s, tr, ToFieldSet(s, tr, merged)), EnsureNamed(s, tr, last);
    var orphaned := Orphaned(s, tr, merged, managed, last);
    forall u | u in mentioned
      ensures u in EnsureNamed(s, tr, ToFieldSet(s, tr, Remove(s, tr, merged, before))) <==> Still(s, tr, merged, before, u)
      ensures u in EnsureNamed(s, tr, ToFieldSet(s, tr, Remove(s, tr, merged, orphaned))) <==> Still(s, tr, merged, orphaned, u)
    {
      MentionedPath(s, tr, merged, u);
      LeftMentions(s, tr, merged, before, u);
      LeftMentions(s, tr, merged, orphaned, u);
    }
    assert mentioned - (EnsureNamed(s, tr, ToFieldSet(s, tr, Remove(s, tr, merged, before))) + EnsureNamed(s, tr, managed)) == orphaned;
    assert (mentioned - EnsureNamed(s, tr, ToFieldSet(s, tr, Remove(s, tr, merged, orphaned)))) * before ==
           Dropped(s, tr, merged, managed, last);
  }

  lemma {:induction false} EnsureMonotone(s: Schema, tr: TypeRef, a: PathSet, b: PathSet)
    requires a <= b
    ensures EnsureNamed(s, tr, a) <= EnsureNamed(s, tr, b)
  {
  }

  /** Pruning reports no error, and removes exactly the dropped paths; the result is valid if that empties no item. */
  lemma {:induction false} PruneSound(s: Schema, tr: TypeRef, merged: Value, managers: Managers, last: PathSet)
    requires PruneInput(s, tr, merged, Managed(managers), last)
    ensures var dropped := Dropped(s, tr, merged, Managed(managers), last);
            Prune(s, tr, merged, managers, last) == Some(if last == {} then merged else Remove(s, tr, merged, dropped)) &&
            (last == {} ==> dropped == {}) &&
            (!Empties(s, tr, merged, dropped) ==> Valid(s, tr, Prune(s, tr, merged, managers, last).value, false))
  {
    var managed := Managed(managers);
    var dropped := Dropped(s, tr, merged, managed, last);
    PassesSound(s, tr, merged, managed, last);
    PassesAre(s, tr, merged, managed, last);
    LeftOk(s, tr, merged, EnsureNamed(s, tr, last));
    LeftOk(s, tr, merged, Orphaned(s, tr, merged, managed, last));
    if !Empties(s, tr, merged, dropped) {
      RemovableIff(s, tr, merged, dropped);
      RemoveExactIff(s, tr, merged, dropped);
    }
  }

  /** The node that pruning leaves at a path. */
  lemma {:induction false} PruneAt(s: Schema, tr: TypeRef, merged: Value, managers: Managers, last: PathSet, p: Path)
    requires PruneInput(s, tr, merged, Managed(managers), last) && p != []
    requires !Empties(s, tr, merged, Dropped(s, tr, merged, Managed(managers), last))
    ensures var dropped, out := Dropped(s, tr, merged, Managed(managers), last), Prune(s, tr, merged, managers, last);
            out.Some? &&
            At(s, tr, Some(out.value), p) ==
            if Covered(p, dropped) || At(s, tr, Some(merged), p).None? then None
            else Some(Trim(s, TypeAt(s, tr, p), At(s, tr, Some(merged), p).value, BelowPath(dropped, p)))
  {
    var dropped := Dropped(s, tr, merged, Managed(managers), last);
    PruneSound(s, tr, merged, managers, last);
    if last == {} {
      NothingBelow(p);
    } else {
      PassesSound(s, tr, merged, Managed(managers), last);
      RemovableIff(s, tr, merged, dropped);
      RemoveAt(s, tr, merged, dropped, p);
    }
  }

  /** So its paths and leaves. */
  lemma {:induction false} PruneExactAt(s: Schema, tr: TypeRef, merged: Value, managers: Managers, last: PathSet, p: Path)
    requires PruneInput(s, tr, merged, Managed(managers), last)
    requires !Empties(s, tr, merged, Dropped(s, tr, merged, Managed(managers), last))
    ensures var dropped, out := Dropped(s, tr, merged, Managed(managers), last), Prune(s, tr, merged, managers, last);
            out.Some? && Valid(s, tr, out.value, false) &&
            (p in AllPaths(s, tr, out.value) <==> p in AllPaths(s, tr, merged) && !Covered(p, dropped)) &&
            (p in AllPaths(s, tr, out.value) && p != [] && ShapeOf(s, TypeAt(s, tr, p)).LeafShape? ==>
               At(s, tr, Some(out.value), p) == At(s, tr, Some(merged), p))
  {
    var dropped := Dropped(s, tr, merged, Managed(managers), last);
    PruneSound(s, tr, merged, managers, last);
    AllPathsIn(s, tr, merged, p);
    AllPathsIn(s, tr, Prune(s, tr, merged, managers, last).value, p);
    if p != [] {
      PruneAt(s, tr, merged, managers, last, p);
      if ShapeOf(s, TypeAt(s, tr, p)).LeafShape? {
        PassesSound(s, tr, merged, Managed(managers), last);
        LeafNotBelow(s, tr, dropped, p);
      }
    }
  }

  /** What the merged object mentions and nobody owns. */
  function Unmanaged(s: Schema, tr: TypeRef, merged: Value, managed: PathSet): PathSet {
    EnsureNamed(s, tr, ToFieldSet(s, tr, merged)) - EnsureNamed(s, tr, managed)
  }

  /**
   * `q` was owned last time, and without what nobody owns it is a list item without any field, or a
   * declared field with only barren fields.
   */
  ghost predicate LosesAt(s: Schema, tr: TypeRef, merged: Value, managed: PathSet, last: PathSet, q: Path) {
    q in EnsureNamed(s, tr, last) && q in EnsureNamed(s, tr, ToFieldSet(s, tr, merged)) &&
    var gone, x := Unmanaged(s, tr, merged, managed), At(s, tr, Some(merged), q);
    Emptied(s, tr, merged, gone, q) ||
    (NamedAt(s, tr, q) && x.Some? && Barren(s, TypeAt(s, tr, q), x.value, BelowPath(gone, q)))
  }

  ghost predicate Loses(s: Schema, tr: TypeRef, merged: Value, managed: PathSet, last: PathSet, p: Path) {
    exists i :: 0 < i <= |p| && LosesAt(s, tr, merged, managed, last, p[..i])
  }

  lemma {:induction false} BelowPathIn(paths: PathSet, p: Path, r: Path)
    requires p != []
    ensures r in BelowPath(paths, p) <==> r != [] && p + r in paths
    decreases |p|
  {
    if |p| == 1 {
      BelowIn(paths, p[0], r);
      assert [p[0]] + r == p + r;
    } else {
      BelowPathIn(Below(paths, p[0]), p[1..], r);
      BelowIn(paths, p[0], p[1..] + r);
      assert [p[0]] + (p[1..] + r) == p + r;
    }
  }

  /** Emptying an item depends on what is removed below it only. */
  lemma {:induction false} EmptiedBelow(s: Schema, tr: TypeRef, v: Value, a: PathSet, b: PathSet, p: Path)
    requires p != [] ==> BelowPath(a, p) == BelowPath(b, p)
    ensures Emptied(s, tr, v, a, p) <==> Emptied(s, tr, v, b, p)
    ensures Emptied(s, tr, v, a, p) ==> ShapeOf(s, TypeAt(s, tr, p)).MapShape?
    decreases |p|
  {
    if p != [] && Kid(s, tr, v, p[0]).Some? {
      assert p == [p[0]] + p[1..];
      if |p| > 1 {
        EmptiedBelow(s, ChildType(s, tr, p[0]), Kid(s, tr, v, p[0]).value, Below(a, p[0]), Below(b, p[0]), p[1..]);
      }
    }
  }

  /** An item with a field that stays is not emptied. */
  lemma {:induction false} StepStays(s: Schema, tr: TypeRef, v: Value, gone: PathSet, p: Path, i: nat)
    requires i < |p| && At(s, tr, Some(v), p).Some? && p[..i + 1] !in gone
    ensures !Emptied(s, tr, v, gone, p[..i])
    decreases |p|
  {
    if i > 0 {
      var pe, rest := p[0], p[1..];
      KidOnPath(s, tr, v, p);
      assert p[..i][0] == pe && p[..i][1..] == rest[..i - 1];
      assert p[..i + 1] == [pe] + rest[..i];
      BelowIn(gone, pe, rest[..i]);
      if i > 1 {
        StepStays(s, ChildType(s, tr, pe), Kid(s, tr, v, pe).value, Below(gone, pe), rest, i - 1);
      } else {
        KidOnPath(s, ChildType(s, tr, pe), Kid(s, tr, v, pe).value, rest);
        assert rest[..1] == [rest[0]] && p[..1] == [pe];
      }
    }
  }

  /** At and below what was owned last time, the orphaned paths are those nobody owns. */
  lemma {:induction false} OrphanedBelow(s: Schema, tr: TypeRef, merged: Value, managed: PathSet, last: PathSet, q: Path)
    requires PruneInput(s, tr, merged, managed, last) && q in EnsureNamed(s, tr, last)
    ensures BelowPath(Orphaned(s, tr, merged, managed, last), q) == BelowPath(Unmanaged(s, tr, merged, managed), q)
  {
    var before := EnsureNamed(s, tr, last);
    PassesSound(s, tr, merged, managed, last);
    forall r
      ensures r in BelowPath(Orphaned(s, tr, merged, managed, last), q) <==> r in BelowPath(Unmanaged(s, tr, merged, managed), q)
    {
      BelowPathIn(Orphaned(s, tr, merged, managed, last), q, r);
      BelowPathIn(Unmanaged(s, tr, merged, managed), q, r);
      StillIff(s, tr, merged, before, q + r);
      assert (q + r)[..|q|] == q;
    }
  }

  /** `p` is a path of the merged object, and it and all that leads to it are managed. */
  ghost predicate Led(s: Schema, tr: TypeRef, merged: Value, managed: PathSet, p: Path) {
    At(s, tr, Some(merged), p).Some? && forall j | 0 < j <= |p| :: p[..j] in EnsureNamed(s, tr, managed)
  }

  /** No such step is orphaned or, before the last, emptied. */
  lemma {:induction false} LedIntact(s: Schema, tr: TypeRef, merged: Value, managed: PathSet, last: PathSet, p: Path, i: nat)
    requires Led(s, tr, merged, managed, p) && 0 < i <= |p|
    ensures var q, orphaned := p[..i], Orphaned(s, tr, merged, managed, last);
            At(s, tr, Some(merged), q).Some? && (Intact(s, tr, merged, orphaned, q) <==> !Emptied(s, tr, merged, orphaned, q)) &&
            !Covered(q, orphaned)
  {
    var q, orphaned := p[..i], Orphaned(s, tr, merged, managed, last);
    PrefixExists(s, tr, Some(merged), p, i);
    forall j | 0 < j <= i
      ensures q[..j] !in orphaned && (j < i ==> !Emptied(s, tr, merged, orphaned, q[..j]))
    {
      assert q[..j] == p[..j];
      if j < i {
        assert q[..j + 1] == p[..j + 1];
        StepStays(s, tr, merged, orphaned, q, j);
      }
    }
    assert q[..i] == q;
  }

  /** Such a step is removed exactly if it is lost. */
  lemma {:induction false} DroppedIff(s: Schema, tr: TypeRef, merged: Value, managed: PathSet, last: PathSet, p: Path, i: nat)
    requires PruneInput(s, tr, merged, managed, last) && Led(s, tr, merged, managed, p) && 0 < i <= |p|
    ensures p[..i] in Dropped(s, tr, merged, managed, last) <==> LosesAt(s, tr, merged, managed, last, p[..i])
  {
    var q, orphaned := p[..i], Orphaned(s, tr, merged, managed, last);
    LedIntact(s, tr, merged, managed, last, p, i);
    StillIff(s, tr, merged, orphaned, q);
    if q in EnsureNamed(s, tr, last) {
      OrphanedBelow(s, tr, merged, managed, last, q);
      EmptiedBelow(s, tr, merged, orphaned, Unmanaged(s, tr, merged, managed), q);
    }
  }

  /** A path that is managed with all that leads to it survives pruning exactly if it is not lost. */
  lemma {:induction false} LedKeepsIff(s: Schema, tr: TypeRef, merged: Value, managers: Managers, last: PathSet, p: Path)
    requires PruneInput(s, tr, merged, Managed(managers), last) && Led(s, tr, merged, Managed(managers), p)
    requires !Empties(s, tr, merged, Dropped(s, tr, merged, Managed(managers), last))
    ensures Prune(s, tr, merged, managers, last).Some?
    ensures p in AllPaths(s, tr, Prune(s, tr, merged, managers, last).value) <==>
            !Loses(s, tr, merged, Managed(managers), last, p)
  {
    PruneExactAt(s, tr, merged, managers, last, p);
    AllPathsIn(s, tr, merged, p);
    forall i | 0 < i <= |p|
      ensures p[..i] in Dropped(s, tr, merged, Managed(managers), last) <==>
              LosesAt(s, tr, merged, Managed(managers), last, p[..i])
    {
      DroppedIff(s, tr, merged, Managed(managers), last, p, i);
    }
  }

  /** The configuration's paths are led to by managed ones. */
  lemma {:induction false} ConfigLed(s: Schema, tr: TypeRef, merged: Value, config: Value, managed: PathSet, p: Path)
    requires Plain(s, tr) && Valid(s, tr, merged, false) && ToFieldSet(s, tr, config) <= AllPaths(s, tr, merged)
    requires Valid(s, tr, config, false) && ToFieldSet(s, tr, config) <= managed && p in ToFieldSet(s, tr, config)
    ensures Led(s, tr, merged, managed, p)
  {
    AllPathsIn(s, tr, merged, p);
    forall j | 0 < j <= |p|
      ensures p[..j] in EnsureNamed(s, tr, managed)
    {
      FieldSetPrefix(s, tr, config, p, j);
      EnsureMonotone(s, tr, ToFieldSet(s, tr, config), managed);
    }
  }

  /**
   * A path of the configuration survives pruning exactly if no step of it is lost, as an emptied
   * item or as a barren field.
   */
  lemma {:induction false} PruneKeepsIff(s: Schema, tr: TypeRef, merged: Value, config: Value, managers: Managers, last: PathSet, p: Path)
    requires PruneInput(s, tr, merged, Managed(managers), last) && Valid(s, tr, config, false)
    requires ToFieldSet(s, tr, config) <= Managed(managers) * AllPaths(s, tr, merged) && p in ToFieldSet(s, tr, config)
    requires !Empties(s, tr, merged, Dropped(s, tr, merged, Managed(managers), last))
    ensures Prune(s, tr, merged, managers, last).Some?
    ensures p in AllPaths(s, tr, Prune(s, tr, merged, managers, last).value) <==>
            !Loses(s, tr, merged, Managed(managers), last, p)
  {
    ConfigLed(s, tr, merged, config, Managed(managers), p);
    LedKeepsIff(s, tr, merged, managers, last, p);
  }

  /** What leads to something that is still mentioned is not lost. */
  lemma {:induction false} StillKept(s: Schema, tr: TypeRef, merged: Value, managed: PathSet, last: PathSet, p: Path, i: nat)
    requires PruneInput(s, tr, merged, managed, last) && Led(s, tr, merged, managed, p) && 0 < i <= |p|
    requires Still(s, tr, merged, Orphaned(s, tr, merged, managed, last), p)
    ensures p[..i] !in Dropped(s, tr, merged, managed, last) && !LosesAt(s, tr, merged, managed, last, p[..i])
  {
    var orphaned := Orphaned(s, tr, merged, managed, last);
    PassesSound(s, tr, merged, managed, last);
    RealPath(s, tr, merged, p);
    var w := Remove(s, tr, merged, orphaned);
    TouchesIff(s, tr, merged, orphaned, w, p);
    assert NoElement !in p[..i];
    TouchesIff(s, tr, merged, orphaned, w, p[..i]);
    var r :| r in Mentioned(s, tr, w) && p <= r;
    assert p[..i] <= r;
    DroppedIff(s, tr, merged, managed, last, p, i);
  }

  /** No leaf of the configuration is lost, nor anything that leads to it. */
  lemma {:induction false} LeafKept(s: Schema, tr: TypeRef, merged: Value, managed: PathSet, last: PathSet, p: Path)
    requires PruneInput(s, tr, merged, managed, last) && Led(s, tr, merged, managed, p) && p != []
    requires ShapeOf(s, TypeAt(s, tr, p)).LeafShape?
    ensures !Loses(s, tr, merged, managed, last, p)
    ensures forall i | 0 < i <= |p| :: p[..i] !in Dropped(s, tr, merged, managed, last)
  {
    var orphaned := Orphaned(s, tr, merged, managed, last);
    LedIntact(s, tr, merged, managed, last, p, |p|);
    assert p[..|p|] == p;
    EmptiedBelow(s, tr, merged, orphaned, orphaned, p);
    StillIff(s, tr, merged, orphaned, p);
    forall i | 0 < i <= |p|
      ensures p[..i] !in Dropped(s, tr, merged, managed, last) && !LosesAt(s, tr, merged, managed, last, p[..i])
    {
      StillKept(s, tr, merged, managed, last, p, i);
    }
  }

  /** On anchored schemas, no path of a solid, managed configuration is lost. */
  lemma {:induction false} ConfigKept(s: Schema, tr: TypeRef, merged: Value, config: Value, managed: PathSet, last: PathSet, p: Path)
    requires PruneInput(s, tr, merged, managed, last) && Anchored(s, tr)
    requires Valid(s, tr, config, false) && Solid(s, tr, config)
    requires ToFieldSet(s, tr, config) <= managed * AllPaths(s, tr, merged) && p in ToFieldSet(s, tr, config)
    ensures !Loses(s, tr, merged, managed, last, p) && !Covered(p, Dropped(s, tr, merged, managed, last))
  {
    var orphaned := Orphaned(s, tr, merged, managed, last);
    PassesSound(s, tr, merged, managed, last);
    ConfigLed(s, tr, merged, config, managed, p);
    LedIntact(s, tr, merged, managed, last, p, |p|);
    assert p[..|p|] == p;
    AnchoredKeeps(s, tr, merged, orphaned, p);
    FieldSetIn(s, tr, config, p);
    SolidMarks(s, tr, config, p);
    StillIff(s, tr, merged, orphaned, p);
    forall i | 0 < i <= |p|
      ensures p[..i] !in Dropped(s, tr, merged, managed, last) && !LosesAt(s, tr, merged, managed, last, p[..i])
    {
      StillKept(s, tr, merged, managed, last, p, i);
    }
  }

  /** A leaf that was owned last time and that nobody owns now is removed. */
  lemma {:induction false} OrphanDropped(s: Schema, tr: TypeRef, merged: Value, managed: PathSet, last: PathSet, p: Path)
    requires PruneInput(s, tr, merged, managed, last)
    requires p in last && p !in managed && p in AllPaths(s, tr, merged) && ShapeOf(s, TypeAt(s, tr, p)).LeafShape?
    ensures p in Dropped(s, tr, merged, managed, last)
  {
    AllPathsIn(s, tr, merged, p);
    MarkedExists(s, tr, merged, p);
    FieldSetIn(s, tr, merged, p);
    EnsurePlausible(s, tr, managed);
    assert p[..|p|] == p;
    StillIff(s, tr, merged, EnsureNamed(s, tr, last), p);
    assert p in Orphaned(s, tr, merged, managed, last);
    StillIff(s, tr, merged, Orphaned(s, tr, merged, managed, last), p);
  }

  /** On anchored schemas pruning never empties an item. */
  lemma {:induction false} AnchoredPrunes(s: Schema, tr: TypeRef, merged: Value, managed: PathSet, last: PathSet)
    requires PruneInput(s, tr, merged, managed, last) && Anchored(s, tr)
    ensures !Empties(s, tr, merged, Dropped(s, tr, merged, managed, last))
  {
    PassesSound(s, tr, merged, managed, last);
    RemoveExact(s, tr, merged, Dropped(s, tr, merged, managed, last));
  }

  /**
   * Pruning is exact on leaves, unless it empties a list item: leaves owned last time and by nobody
   * now are gone, nothing is removed that has no prefix in the closed set owned last time, and what
   * stays has its merged leaf values. On anchored schemas it never empties an item, and all paths of
   * a solid configuration survive.
   */
  lemma {:induction false} PruneExact(s: Schema, tr: TypeRef, merged: Value, config: Value, managers: Managers, last: PathSet)
    requires PruneInput(s, tr, merged, Managed(managers), last)
    ensures Anchored(s, tr) ==> !Empties(s, tr, merged, Dropped(s, tr, merged, Managed(managers), last))
    ensures var out := Prune(s, tr, merged, managers, last);
            out.Some? &&
            (!Empties(s, tr, merged, Dropped(s, tr, merged, Managed(managers), last)) ==>
               Valid(s, tr, out.value, false) &&
               (forall p | p in last - Managed(managers) && ShapeOf(s, TypeAt(s, tr, p)).LeafShape? ::
                  p !in AllPaths(s, tr, out.value)) &&
               (forall p | p in AllPaths(s, tr, merged) - AllPaths(s, tr, out.value) :: Covered(p, EnsureNamed(s, tr, last))) &&
               AllPaths(s, tr, out.value) <= AllPaths(s, tr, merged) &&
               (forall p | p in AllPaths(s, tr, out.value) && p != [] && ShapeOf(s, TypeAt(s, tr, p)).LeafShape? ::
                  At(s, tr, Some(out.value), p) == At(s, tr, Some(merged), p)))
    ensures Anchored(s, tr) && Valid(s, tr, config, false) && Solid(s, tr, config) &&
            ToFieldSet(s, tr, config) <= Managed(managers) * AllPaths(s, tr, merged) ==>
              ToFieldSet(s, tr, config) <= AllPaths(s, tr, Prune(s, tr, merged, managers, last).value)
  {
    var managed := Managed(managers);
    var dropped := Dropped(s, tr, merged, managed, last);
    PruneSound(s, tr, merged, managers, last);
    if Anchored(s, tr) {
      AnchoredPrunes(s, tr, merged, managed, last);
    }
    if !Empties(s, tr, merged, dropped) {
      var out := Prune(s, tr, merged, managers, last).value;
      forall p
        ensures p in AllPaths(s, tr, out) <==> p in AllPaths(s, tr, merged) && !Covered(p, dropped)
        ensures p in AllPaths(s, tr, out) && p != [] && ShapeOf(s, TypeAt(s, tr, p)).LeafShape? ==>
                  At(s, tr, Some(out), p) == At(s, tr, Some(merged), p)
      {
        PruneExactAt(s, tr, merged, managers, last, p);
      }
      forall p | p in last - managed && p in AllPaths(s, tr, merged) && ShapeOf(s, TypeAt(s, tr, p)).LeafShape?
        ensures Covered(p, dropped)
      {
        OrphanDropped(s, tr, merged, managed, last, p);
        assert p[..|p|] == p;
      }
      forall p | Covered(p, dropped)
        ensures Covered(p, EnsureNamed(s, tr, last))
      {
        var i :| 0 < i <= |p| && p[..i] in dropped;
      }
    }
    if Anchored(s, tr) && Valid(s, tr, config, false) && Solid(s, tr, config) &&
       ToFieldSet(s, tr, config) <= managed * AllPaths(s, tr, merged) {
      forall p | p in ToFieldSet(s, tr, config)
        ensures p in AllPaths(s, tr, Prune(s, tr, merged, managers, last).value)
      {
        ConfigKept(s, tr, merged, config, managed, last, p);
        PruneExactAt(s, tr, merged, managers, last, p);
      }
    }
  }
}
