/** The comparing walker: one set of changes that all descents insert into. */
module CompareWalk {
  import opened Values
  import opened PathElements
  import opened Schemas
  import C = Comparing
  import opened Tries
  import opened TrieOps
  import opened TrieViews
  import Access = TrieAccess

  /** The paths of a node's comparison, put at the node's path. */
  ghost function At(path: Path, c: C.Comparison): C.Comparison {
    C.Comparison(Placed(path, c.removed), Placed(path, c.modified), Placed(path, c.added), true)
  }

  /** A child's comparison seen from its parent. */
  ghost function Lifted(pe: PathElement, c: C.Comparison): C.Comparison {
    C.Comparison(Under(pe, c.removed), Under(pe, c.modified), Under(pe, c.added), c.ok)
  }

  lemma {:induction false} AtSame(path: Path)
    ensures At(path, C.SAME) == C.SAME
    ensures forall c: C.Comparison :: C.Join(c, C.SAME) == c && C.Join(C.SAME, c) == c
  {
    assert Placed(path, {}) == {};
  }

  lemma {:induction false} AtJoin(path: Path, a: C.Comparison, b: C.Comparison)
    ensures At(path, C.Join(a, b)) == C.Join(At(path, a), At(path, b))
  {
    PlacedUnion(path, a.removed, b.removed);
    PlacedUnion(path, a.modified, b.modified);
    PlacedUnion(path, a.added, b.added);
  }

  lemma {:induction false} PlacedUnion(path: Path, a: PathSet, b: PathSet)
    ensures Placed(path, a + b) == Placed(path, a) + Placed(path, b)
  {
  }

  lemma {:induction false} AtLifted(path: Path, pe: PathElement, c: C.Comparison)
    ensures At(path, Lifted(pe, c)) == At(path + [pe], c)
  {
    PrefixedUnder(path, pe, c.removed);
    PrefixedUnder(path, pe, c.modified);
    PrefixedUnder(path, pe, c.added);
  }

  lemma {:induction false} JoinAgain(a: C.Comparison, b: C.Comparison, c: C.Comparison)
    ensures C.Join(C.Join(a, b), c) == C.Join(a, C.Join(b, c))
  {
  }

  lemma {:induction false} JoinSwap(a: C.Comparison, b: C.Comparison, c: C.Comparison)
    ensures C.Join(C.Join(a, b), c) == C.Join(a, C.Join(c, b))
  {
  }

  /** One more child adds its own comparison, lifted. */
  lemma {:induction false} GatherNext(kids: map<PathElement, C.Comparison>, pe: PathElement, c: C.Comparison)
    requires pe !in kids
    ensures C.Gather(kids[pe := c]) == C.Join(C.Gather(kids), Lifted(pe, c))
  {
    var more := kids[pe := c];
    var a, b := C.Gather(more), C.Join(C.Gather(kids), Lifted(pe, c));
    assert forall k | k in kids :: k in more && more[k] == kids[k];
    assert more[pe] == c;
    assert a.removed == b.removed;
    assert a.modified == b.modified;
    assert a.added == b.added;
  }

  /** The three sets that a comparison fills. */
  class Changes {
    var removed: Trie
    var modified: Trie
    var added: Trie

    constructor ()
      ensures Valid() && Sets() == C.SAME
    {
      removed, modified, added := EMPTY, EMPTY, EMPTY;
      new;
      EmptyIs(EMPTY);
    }

    ghost predicate Valid()
      reads this
    {
      Canonical(removed) && Canonical(modified) && Canonical(added)
    }

    ghost function Sets(): C.Comparison
      reads this
    {
      C.Comparison(Paths(removed), Paths(modified), Paths(added), true)
    }

    method Remove(path: Path)
      requires Valid()
      modifies this
      ensures Valid() && Sets() == C.Join(old(Sets()), At(path, C.SAME.(removed := {[]})))
    {
      removed := Access.Insert(removed, path);
      PlacedHere(path);
    }

    method Modify(path: Path)
      requires Valid()
      modifies this
      ensures Valid() && Sets() == C.Join(old(Sets()), At(path, C.SAME.(modified := {[]})))
    {
      modified := Access.Insert(modified, path);
      PlacedHere(path);
    }

    method Add(path: Path)
      requires Valid()
      modifies this
      ensures Valid() && Sets() == C.Join(old(Sets()), At(path, C.SAME.(added := {[]})))
    {
      added := Access.Insert(added, path);
      PlacedHere(path);
    }

    /** `IsSame`. */
    method IsSame() returns (same: bool)
      requires Valid()
      ensures same <==> Sets() == C.SAME
    {
      var r := Empty(removed);
      var m := Empty(modified);
      var a := Empty(added);
      same := r && m && a;
    }

    /** `ExcludeFields`: drops the fields and everything below them from all three sets. */
    method ExcludeFields(fields: Trie)
      requires Valid() && Canonical(fields)
      modifies this
      ensures Valid()
      ensures Paths(removed) == Uncovered(old(Paths(removed)), Paths(fields))
      ensures Paths(modified) == Uncovered(old(Paths(modified)), Paths(fields))
      ensures Paths(added) == Uncovered(old(Paths(added)), Paths(fields))
    {
      var none := Empty(fields);
      if none {
        assert forall paths :: Uncovered(paths, {}) == paths;
        return;
      }
      removed := RecursiveDifference(removed, fields);
      modified := RecursiveDifference(modified, fields);
      added := RecursiveDifference(added, fields);
    }
  }

  /** Gathering one more child extends what was found so far. */
  lemma {:induction false} Extend(base: C.Comparison, path: Path, kids: map<PathElement, C.Comparison>, pe: PathElement, c: C.Comparison)
    requires pe !in kids
    ensures C.Join(C.Join(base, At(path, C.Gather(kids))), At(path, Lifted(pe, c))) ==
            C.Join(base, At(path, C.Gather(kids[pe := c])))
    ensures C.Gather(kids[pe := c]).ok <==> C.Gather(kids).ok && c.ok
  {
    GatherNext(kids, pe, c);
    AtJoin(path, C.Gather(kids), Lifted(pe, c));
    JoinAgain(base, At(path, C.Gather(kids)), At(path, Lifted(pe, c)));
  }

  lemma {:induction false} NoKids(base: C.Comparison, path: Path)
    requires base.ok
    ensures C.Gather(map[]) == C.SAME && C.Join(base, At(path, C.Gather(map[]))) == base
  {
    assert C.Gather(map[]) == C.SAME;
    AtSame(path);
  }

  /** The items by path element, in order, and the path elements not seen before, each once. */
  method GatherItems(s: Schema, t: ListType, items: seq<Value>, seen: set<PathElement>, pes0: seq<PathElement>)
    returns (ok: bool, values: map<PathElement, seq<Value>>, pes: seq<PathElement>)
    requires Distinct(pes0) && forall pe :: pe in pes0 <==> pe in seen
    ensures ok <==> forall x | x in items :: ItemElement(s, t, x).Some?
    ensures Grouped(s, t, items, values)
    ensures Distinct(pes) && forall pe :: pe in pes <==> pe in seen || pe in C.ElementSet(s, t, items)
  {
    ok, values, pes := true, map[], pes0;
    for i := 0 to |items|
      invariant ok <==> forall x | x in items[..i] :: ItemElement(s, t, x).Some?
      invariant Grouped(s, t, items[..i], values)
      invariant Distinct(pes) && forall pe :: pe in pes <==> pe in seen || pe in C.ElementSet(s, t, items[..i])
    {
      var child := items[i];
      var pe := ItemElement(s, t, child);
      assert items[..i + 1] == items[..i] + [child];
      GroupedNext(s, t, items[..i], child, values);
      if pe.None? {
        ok := false;
        continue;
      }
      if pe.value in values {
        values := values[pe.value := values[pe.value] + [child]];
      } else {
        values := values[pe.value := [child]];
        if pe.value !in seen {
          pes := pes + [pe.value];
        }
      }
    }
    assert items[..|items|] == items;
  }

  ghost predicate Grouped(s: Schema, t: ListType, items: seq<Value>, values: map<PathElement, seq<Value>>) {
    values.Keys == C.ElementSet(s, t, items) && forall pe | pe in values :: values[pe] == C.Group(s, t, items, pe)
  }

  lemma {:induction false} GroupedNext(s: Schema, t: ListType, items: seq<Value>, x: Value, values: map<PathElement, seq<Value>>)
    requires Grouped(s, t, items, values)
    ensures var pe := ItemElement(s, t, x);
            C.ElementSet(s, t, items + [x]) == C.ElementSet(s, t, items) + (if pe.None? then {} else {pe.value}) &&
            Grouped(s, t, items + [x],
                    if pe.None? then values
                    else values[pe.value := (if pe.value in values then values[pe.value] else []) + [x]])
  {
    var pe := ItemElement(s, t, x);
    var more := if pe.None? then values else values[pe.value := (if pe.value in values then values[pe.value] else []) + [x]];
    assert C.ElementSet(s, t, items + [x]) == C.ElementSet(s, t, items) + (if pe.None? then {} else {pe.value});
    forall k | k in more
      ensures more[k] == C.Group(s, t, items + [x], k)
    {
      GroupPush(s, t, items, x, k);
      C.GroupHeight(s, t, Some(List(items)), k);
    }
  }

  lemma {:induction false} GroupPush(s: Schema, t: ListType, items: seq<Value>, x: Value, k: PathElement)
    ensures C.Group(s, t, items + [x], k) == C.Group(s, t, items, k) + if ItemElement(s, t, x) == Some(k) then [x] else []
  {
    if items == [] {
      assert (items + [x])[1..] == [];
    } else {
      var head := if ItemElement(s, t, items[0]) == Some(k) then [items[0]] else [];
      GroupPush(s, t, items[1..], x, k);
      assert (items + [x])[1..] == items[1..] + [x];
      assert C.Group(s, t, items + [x], k) == head + C.Group(s, t, items[1..] + [x], k);
    }
  }

  /** The walker of one node; everything it finds goes into the shared changes. */
  class CompareWalker {
    const s: Schema
    const typeRef: TypeRef
    const lhs: Option<Value>
    const rhs: Option<Value>
    const path: Path
    const changes: Changes
    var inLeaf: bool

    constructor (s: Schema, typeRef: TypeRef, lhs: Option<Value>, rhs: Option<Value>, path: Path, changes: Changes)
      ensures this.s == s && this.typeRef == typeRef && this.lhs == lhs && this.rhs == rhs
      ensures this.path == path && this.changes == changes && !inLeaf
    {
      this.s, this.typeRef, this.lhs, this.rhs, this.path, this.changes := s, typeRef, lhs, rhs, path, changes;
      this.inLeaf := false;
    }

    ghost function Size(): nat { OptHeight(lhs) + OptHeight(rhs) }

    /** What this walk should add to the changes. */
    ghost function Goal(): C.Comparison { C.Compare(s, typeRef, lhs, rhs) }

    method Compare() returns (ok: bool)
      requires changes.Valid() && !inLeaf
      modifies this, changes
      ensures changes.Valid() && (ok <==> Goal().ok)
      ensures ok ==> changes.Sets() == C.Join(old(changes.Sets()), At(path, Goal()))
      decreases Size(), 5
    {
      if lhs.None? && rhs.None? {
        return false;
      }
      var a := Resolve(s, typeRef);
      if a.None? {
        return false;
      }
      var alhs, arhs := DeduceAtom(a.value, lhs), DeduceAtom(a.value, rhs);
      if rhs.None? {
        ok := HandleAtom(alhs);
      } else if lhs.None? || alhs == arhs {
        ok := HandleAtom(arhs);
      } else {
        ok := HandleBoth(alhs, arhs);
        return;
      }
      if !inLeaf {
        MarkOneSided();
      }
    }

    /** The node itself is added or removed when only one side has it. */
    method MarkOneSided()
      requires changes.Valid()
      modifies changes
      ensures changes.Valid() && changes.Sets() == C.Join(old(changes.Sets()), At(path, C.OneSided(lhs, rhs)))
    {
      AtSame(path);
      if lhs.None? {
        changes.Add(path);
      } else if rhs.None? {
        changes.Remove(path);
      }
    }

    /** Operands of different kinds are walked as both kinds. */
    method HandleBoth(alhs: Atom, arhs: Atom) returns (ok: bool)
      requires changes.Valid() && !inLeaf && lhs.Some? && rhs.Some?
      modifies this, changes
      ensures changes.Valid()
      ensures var goal := C.Join(C.CompareAtom(s, alhs, lhs, rhs), C.CompareAtom(s, arhs, lhs, rhs));
              (ok <==> goal.ok) && (ok ==> changes.Sets() == C.Join(old(changes.Sets()), At(path, goal)))
      decreases Size(), 4
    {
      AtSame(path);
      var a, b := C.CompareAtom(s, alhs, lhs, rhs), C.CompareAtom(s, arhs, lhs, rhs);
      AtJoin(path, a, b);
      JoinAgain(changes.Sets(), At(path, a), At(path, b));
      var w := new CompareWalker(s, typeRef, lhs, rhs, path, changes);
      var left := w.HandleAtom(alhs);
      var right := HandleAtom(arhs);
      ok := left && right;
    }

    /** The walk of one kind; what is marked when the node is no leaf comes on top. */
    method HandleAtom(a: Atom) returns (ok: bool)
      requires changes.Valid() && !inLeaf && (lhs.Some? || rhs.Some?)
      modifies this, changes
      ensures changes.Valid() && (ok <==> C.CompareAtom(s, a, lhs, rhs).ok)
      ensures ok ==>
                C.Join(changes.Sets(), if inLeaf then C.SAME else At(path, C.OneSided(lhs, rhs))) ==
                C.Join(old(changes.Sets()), At(path, C.CompareAtom(s, a, lhs, rhs)))
      decreases Size(), 3
    {
      AtSame(path);
      if a.mapping.Some? {
        var t, lf, rf := a.mapping.value, FieldsOf(lhs), FieldsOf(rhs);
        if t.relationship.Atomic? || (lf == map[] && rf == map[]) {
          DoLeaf();
          return true;
        }
        ghost var inner := C.Gather(C.CompareFields(s, t, lhs, rhs));
        SidedFirst(changes.Sets(), inner);
        ok := VisitMapItems(t);
      } else if a.scalar.Some? {
        if !ValidScalar(a.scalar.value, lhs) && !ValidScalar(a.scalar.value, rhs) {
          return false;
        }
        DoLeaf();
        ok := true;
      } else if a.list.Some? {
        var t, li, ri := a.list.value, ItemsOf(lhs), ItemsOf(rhs);
        if t.relationship.Atomic? || (li == [] && ri == []) {
          DoLeaf();
          return true;
        }
        ghost var inner := C.Gather(C.CompareItems(s, t, lhs, rhs));
        SidedFirst(changes.Sets(), inner);
        ok := VisitListItems(t);
      } else {
        ok := false;
      }
    }

    lemma {:induction false} SidedFirst(before: C.Comparison, inner: C.Comparison)
      ensures C.Join(C.Join(before, At(path, inner)), At(path, C.OneSided(lhs, rhs))) ==
              C.Join(before, At(path, C.Join(C.OneSided(lhs, rhs), inner)))
    {
      AtJoin(path, C.OneSided(lhs, rhs), inner);
    }

    /** A leaf is compared once, as a whole. */
    method DoLeaf()
      requires changes.Valid() && !inLeaf && (lhs.Some? || rhs.Some?)
      modifies this, changes
      ensures changes.Valid() && inLeaf
      ensures changes.Sets() == C.Join(old(changes.Sets()), At(path, C.CompareLeaf(lhs, rhs)))
    {
      inLeaf := true;
      AtSame(path);
      if lhs.None? {
        changes.Add(path);
      } else if rhs.None? {
        changes.Remove(path);
      } else if rhs != lhs {
        changes.Modify(path);
      }
    }

    ghost function FieldKids(t: MapType, done: set<string>): map<PathElement, C.Comparison>
      requires done <= FieldsOf(lhs).Keys + FieldsOf(rhs).Keys
    {
      map k | k in done :: FieldName(k) := C.CompareField(s, t, lhs, rhs, k)
    }

    /** The changes hold what was there before and what the children so far contribute. */
    ghost predicate Holds(before: C.Comparison, kids: map<PathElement, C.Comparison>)
      reads changes
    {
      changes.Sets() == C.Join(before, At(path, C.Gather(kids)))
    }

    /** Visits the keys of the left, then those of the right that the left lacks. */
    method VisitMapItems(t: MapType) returns (ok: bool)
      requires changes.Valid()
      modifies changes
      ensures changes.Valid() && (ok <==> C.Gather(C.CompareFields(s, t, lhs, rhs)).ok)
      ensures ok ==> changes.Sets() == C.Join(old(changes.Sets()), At(path, C.Gather(C.CompareFields(s, t, lhs, rhs))))
      decreases Size(), 2
    {
      var lf, rf := FieldsOf(lhs).Keys, FieldsOf(rhs).Keys;
      ghost var before := changes.Sets();
      NoKids(before, path);
      AllFields(t);
      ok := VisitKeys(t, lf, {}, before, true);
      ok := VisitKeys(t, rf - lf, lf, before, ok);
    }

    lemma {:induction false} AllFields(t: MapType)
      ensures var lf, rf := FieldsOf(lhs).Keys, FieldsOf(rhs).Keys;
              {} + lf == lf && lf + (rf - lf) <= lf + rf &&
              FieldKids(t, {}) == map[] && FieldKids(t, lf + (rf - lf)) == C.CompareFields(s, t, lhs, rhs)
    {
      var lf, rf := FieldsOf(lhs).Keys, FieldsOf(rhs).Keys;
      assert lf + (rf - lf) == lf + rf;
    }

    method VisitKeys(t: MapType, keys: set<string>, ghost seen: set<string>, ghost before: C.Comparison, ok0: bool) returns (ok: bool)
      requires changes.Valid() && seen + keys <= FieldsOf(lhs).Keys + FieldsOf(rhs).Keys && seen !! keys
      requires (ok0 <==> C.Gather(FieldKids(t, seen)).ok) && (ok0 ==> Holds(before, FieldKids(t, seen)))
      modifies changes
      ensures changes.Valid() && (ok <==> C.Gather(FieldKids(t, seen + keys)).ok)
      ensures ok ==> Holds(before, FieldKids(t, seen + keys))
      decreases Size(), 1
    {
      ok := ok0;
      var todo := keys;
      ghost var done := seen;
      while todo != {}
        invariant todo <= keys && done == seen + (keys - todo) && changes.Valid()
        invariant (ok <==> C.Gather(FieldKids(t, done)).ok) && (ok ==> Holds(before, FieldKids(t, done)))
        decreases |todo|
      {
        var k :| k in todo;
        TakeOff(keys, seen, todo, done, k);
        NextField(t, done, k, before);
        var more := VisitMapItem(t, k);
        ok := ok && more;
        todo, done := todo - {k}, done + {k};
      }
      assert done == seen + keys;
    }

    lemma {:induction false} NextField(t: MapType, done: set<string>, k: string, before: C.Comparison)
      requires done + {k} <= FieldsOf(lhs).Keys + FieldsOf(rhs).Keys && k !in done
      ensures var kids, c := FieldKids(t, done), C.CompareField(s, t, lhs, rhs, k);
              var more := FieldKids(t, done + {k});
              (C.Gather(more).ok <==> C.Gather(kids).ok && c.ok) &&
              C.Join(C.Join(before, At(path, C.Gather(kids))), At(path, Lifted(FieldName(k), c))) ==
              C.Join(before, At(path, C.Gather(more)))
    {
      var kids, c := FieldKids(t, done), C.CompareField(s, t, lhs, rhs, k);
      assert FieldName(k) !in kids;
      assert FieldKids(t, done + {k}) == kids[FieldName(k) := c];
      Extend(before, path, kids, FieldName(k), c);
    }

    method VisitMapItem(t: MapType, k: string) returns (ok: bool)
      requires changes.Valid() && k in FieldsOf(lhs).Keys + FieldsOf(rhs).Keys
      modifies changes
      ensures changes.Valid() && (ok <==> C.CompareField(s, t, lhs, rhs, k).ok)
      ensures ok ==>
                changes.Sets() == C.Join(old(changes.Sets()), At(path, Lifted(FieldName(k), C.CompareField(s, t, lhs, rhs, k))))
      decreases Size(), 0
    {
      LookupHeight(lhs, k);
      LookupHeight(rhs, k);
      AtLifted(path, FieldName(k), C.CompareField(s, t, lhs, rhs, k));
      var w := new CompareWalker(s, FieldType(t, k), Lookup(FieldsOf(lhs), k), Lookup(FieldsOf(rhs), k), path + [FieldName(k)], changes);
      ok := w.Compare();
    }

    ghost function ItemKids(t: ListType, done: set<PathElement>): map<PathElement, C.Comparison>
      requires done <= C.ElementSet(s, t, ItemsOf(lhs)) + C.ElementSet(s, t, ItemsOf(rhs))
    {
      map pe | pe in done :: C.CompareGroup(s, t, lhs, rhs, pe)
    }

    /** Compares the items group by group; a group is all the items of one path element. */
    method VisitListItems(t: ListType) returns (ok: bool)
      requires changes.Valid()
      modifies changes
      ensures changes.Valid()
      ensures ok <==> C.Gather(C.CompareItems(s, t, lhs, rhs)).ok &&
                      forall x | x in ItemsOf(lhs) + ItemsOf(rhs) :: ItemElement(s, t, x).Some?
      ensures ok ==> changes.Sets() == C.Join(old(changes.Sets()), At(path, C.Gather(C.CompareItems(s, t, lhs, rhs))))
      decreases Size(), 2
    {
      var leftOk, left, pes := GatherItems(s, t, ItemsOf(lhs), {}, []);
      var rightOk, right;
      rightOk, right, pes := GatherItems(s, t, ItemsOf(rhs), left.Keys, pes);
      ghost var all := C.ElementSet(s, t, ItemsOf(lhs)) + C.ElementSet(s, t, ItemsOf(rhs));
      ok := VisitGroups(t, pes, left, right);
      FirstsAll(pes);
      assert Firsts(pes, |pes|) == all;
      assert ItemKids(t, all) == C.CompareItems(s, t, lhs, rhs);
      ok := leftOk && rightOk && ok;
    }

    method VisitGroups(t: ListType, pes: seq<PathElement>, left: map<PathElement, seq<Value>>, right: map<PathElement, seq<Value>>)
      returns (ok: bool)
      requires changes.Valid() && Grouped(s, t, ItemsOf(lhs), left) && Grouped(s, t, ItemsOf(rhs), right)
      requires Distinct(pes) && forall i | 0 <= i < |pes| :: pes[i] in left.Keys + right.Keys
      modifies changes
      ensures changes.Valid() && ItemsSeen(t, pes, |pes|) && (ok <==> C.Gather(ItemKids(t, Firsts(pes, |pes|))).ok)
      ensures ok ==> changes.Sets() == C.Join(old(changes.Sets()), At(path, C.Gather(ItemKids(t, Firsts(pes, |pes|)))))
      decreases Size(), 1
    {
      ok := true;
      ghost var before := changes.Sets();
      NoKids(before, path);
      assert ItemKids(t, {}) == map[] && Firsts(pes, 0) == {};
      for i := 0 to |pes|
        invariant changes.Valid() && ItemsSeen(t, pes, i)
        invariant (ok <==> C.Gather(ItemKids(t, Firsts(pes, i))).ok) && (ok ==> Holds(before, ItemKids(t, Firsts(pes, i))))
      {
        FirstsNext(pes, i);
        NextGroup(t, Firsts(pes, i), pes[i], before);
        var more := VisitGroup(t, pes[i], GroupIn(t, ItemsOf(lhs), left, pes[i]), GroupIn(t, ItemsOf(rhs), right, pes[i]));
        ok := ok && more;
      }
    }

    ghost predicate ItemsSeen(t: ListType, pes: seq<PathElement>, i: nat) {
      i <= |pes| && Firsts(pes, i) <= C.ElementSet(s, t, ItemsOf(lhs)) + C.ElementSet(s, t, ItemsOf(rhs))
    }

    function GroupIn(t: ListType, ghost items: seq<Value>, values: map<PathElement, seq<Value>>, pe: PathElement): (g: seq<Value>)
      requires Grouped(s, t, items, values)
      ensures g == C.Group(s, t, items, pe)
    {
      C.GroupHeight(s, t, Some(List(items)), pe);
      if pe in values then values[pe] else []
    }

    lemma {:induction false} NextGroup(t: ListType, done: set<PathElement>, pe: PathElement, before: C.Comparison)
      requires done + {pe} <= C.ElementSet(s, t, ItemsOf(lhs)) + C.ElementSet(s, t, ItemsOf(rhs)) && pe !in done
      ensures var kids, c := ItemKids(t, done), C.CompareGroup(s, t, lhs, rhs, pe);
              var more := ItemKids(t, done + {pe});
              (C.Gather(more).ok <==> C.Gather(kids).ok && c.ok) &&
              C.Join(C.Join(before, At(path, C.Gather(kids))), At(path, Lifted(pe, c))) ==
              C.Join(before, At(path, C.Gather(more)))
    {
      var kids, c := ItemKids(t, done), C.CompareGroup(s, t, lhs, rhs, pe);
      assert ItemKids(t, done + {pe}) == kids[pe := c];
      Extend(before, path, kids, pe, c);
    }

    /** Items one to one; duplicates on both sides as one atomic run; otherwise gone and replaced. */
    method VisitGroup(t: ListType, pe: PathElement, lg: seq<Value>, rg: seq<Value>) returns (ok: bool)
      requires changes.Valid() && pe in C.ElementSet(s, t, ItemsOf(lhs)) + C.ElementSet(s, t, ItemsOf(rhs))
      requires lg == C.Group(s, t, ItemsOf(lhs), pe) && rg == C.Group(s, t, ItemsOf(rhs), pe)
      modifies changes
      ensures changes.Valid() && (ok <==> C.CompareGroup(s, t, lhs, rhs, pe).ok)
      ensures ok ==> changes.Sets() == C.Join(old(changes.Sets()), At(path, Lifted(pe, C.CompareGroup(s, t, lhs, rhs, pe))))
      decreases Size(), 0, 1
    {
      C.GroupHeight(s, t, lhs, pe);
      C.GroupHeight(s, t, rhs, pe);
      AtSame(path + [pe]);
      AtLifted(path, pe, C.CompareGroup(s, t, lhs, rhs, pe));
      ok := true;
      if |lg| <= 1 && |rg| <= 1 {
        ok := CompareListItem(t, pe, C.First(lg), C.First(rg));
      } else if |lg| >= 2 && |rg| >= 2 {
        if lg != rg {
          changes.Modify(path + [pe]);
        }
      } else if |lg| >= 2 {
        if |rg| != 0 {
          JoinSwap(changes.Sets(), At(path + [pe], C.Compare(s, t.elementType, None, C.First(rg))), At(path + [pe], C.SAME.(removed := {[]})));
          AtJoin(path + [pe], C.SAME.(removed := {[]}), C.Compare(s, t.elementType, None, C.First(rg)));
          ok := CompareListItem(t, pe, None, C.First(rg));
        }
        changes.Remove(path + [pe]);
      } else {
        if |lg| != 0 {
          JoinSwap(changes.Sets(), At(path + [pe], C.Compare(s, t.elementType, C.First(lg), None)), At(path + [pe], C.SAME.(added := {[]})));
          AtJoin(path + [pe], C.SAME.(added := {[]}), C.Compare(s, t.elementType, C.First(lg), None));
          ok := CompareListItem(t, pe, C.First(lg), None);
        }
        changes.Add(path + [pe]);
      }
    }

    method CompareListItem(t: ListType, pe: PathElement, l: Option<Value>, r: Option<Value>) returns (ok: bool)
      requires changes.Valid() && OptHeight(l) + OptHeight(r) < Size()
      modifies changes
      ensures changes.Valid() && (ok <==> C.Compare(s, t.elementType, l, r).ok)
      ensures ok ==> changes.Sets() == C.Join(old(changes.Sets()), At(path + [pe], C.Compare(s, t.elementType, l, r)))
      decreases Size(), 0, 0
    {
      var w := new CompareWalker(s, t.elementType, l, r, path + [pe], changes);
      ok := w.Compare();
    }
  }
}
