/** The walker that reconciles a field-set trie with a schema by accumulating removals and additions. */
module ReconcileWalk {
  import opened Values
  import opened PathElements
  import opened Schemas
  import opened Reconciling
  import opened ReconcileTheory
  import E = ElementSets
  import opened Tries
  import opened TrieOps
  import opened TrieViews
  import opened TrieClosures
  import Access = TrieAccess

  ghost function Depth(t: Trie): nat
    decreases t, 1
  {
    if t == EMPTY then 0 else 1 + NodesDepth(t.children)
  }

  ghost function NodesDepth(nodes: seq<Node>): nat
    decreases nodes, 0
  {
    if nodes == [] then 0 else Max(NodeDepth(nodes[0]), NodesDepth(nodes[1..]))
  }

  ghost function NodeDepth(n: Node): nat
    decreases n, 2
  {
    Depth(n.sub)
  }

  lemma {:induction false} NodeBelow(nodes: seq<Node>, n: Node)
    requires n in nodes
    ensures Depth(n.sub) <= NodesDepth(nodes)
  {
    if n != nodes[0] {
      NodeBelow(nodes[1..], n);
    }
  }

  /** A set of accumulated changes that may not exist yet. */
  ghost predicate Sound(acc: Option<Trie>) {
    acc.Some? ==> Canonical(acc.value)
  }

  ghost function Listed(acc: Option<Trie>): PathSet {
    if acc.None? then {} else Paths(acc.value)
  }

  /** No error below one head. */
  ghost predicate ResolveBelow(s: Schema, tr: TypeRef, paths: PathSet, pe: PathElement) {
    Follows(s, tr, pe) ==> AllResolve(s, TypeBelow(s, tr, pe), Below(paths, pe))
  }

  method Merge(a: Option<Trie>, b: Option<Trie>) returns (c: Option<Trie>)
    requires Sound(a) && Sound(b)
    ensures Sound(c) && Listed(c) == Listed(a) + Listed(b)
  {
    if b.None? {
      c := a;
    } else if a.None? {
      c := b;
    } else {
      var u := Union(a.value, b.value);
      c := Some(u);
    }
  }

  lemma {:induction false} Regroup(a: PathSet, b: PathSet, c: PathSet)
    ensures a + b + c == a + (b + c)
  {
  }

  class Walker {
    const s: Schema
    const fieldSet: Trie
    const typeRef: TypeRef
    const path: Path
    const isAtomic: bool
    var toRemove: Option<Trie>
    var toAdd: Option<Trie>

    /** A walker for the whole set, or for what lies below a path; a missing set has no paths. */
    constructor (s: Schema, typeRef: TypeRef, fieldSet: Trie, path: Path, isAtomic: bool, toRemove: Option<Trie>, toAdd: Option<Trie>)
      ensures this.s == s && this.typeRef == typeRef && this.fieldSet == fieldSet && this.path == path
      ensures this.isAtomic == isAtomic && this.toRemove == toRemove && this.toAdd == toAdd
    {
      this.s, this.typeRef, this.fieldSet, this.path := s, typeRef, fieldSet, path;
      this.isAtomic, this.toRemove, this.toAdd := isAtomic, toRemove, toAdd;
    }

    /** Below the root, a walker visits a member without children or a set that is not empty. */
    ghost predicate Valid()
      reads this
    {
      Canonical(fieldSet) && Sound(toRemove) && Sound(toAdd) &&
      (isAtomic ==> fieldSet == EMPTY) && (!isAtomic && path != [] ==> fieldSet != EMPTY)
    }

    /** The places at which paths of the walker's set are cut short. */
    ghost function Found(): PathSet
    {
      Placed(path, Cuts(s, typeRef, Paths(fieldSet)))
    }

    /** Adds the cuts to both accumulated sets; earlier additions may be left to the parent. */
    method Reconcile() returns (ok: bool)
      requires Valid()
      modifies this`toRemove, this`toAdd
      ensures Valid()
      ensures ok <==> AllResolve(s, typeRef, Paths(fieldSet))
      ensures Found() <= Listed(toRemove) <= old(Listed(toRemove)) + Found()
      ensures Found() <= Listed(toAdd) <= old(Listed(toAdd)) + Found()
      decreases Depth(fieldSet), 2
    {
      var a := Resolve(s, typeRef);
      NoEmptyPath(fieldSet);
      if a.None? {
        StopHere();
        return false;
      }
      if a.value.mapping.Some? {
        ok := DoMap(a.value.mapping.value);
      } else if a.value.scalar.Some? {
        StopHere();
        ok := true;
      } else if a.value.list.Some? {
        ok := DoList(a.value.list.value);
      } else {
        StopHere();
        ok := false;
      }
    }

    /** Where the walk does not go on there are no cuts. */
    lemma {:induction false} StopHere()
      requires Valid() && (VisitOf(s, typeRef).Broken? || VisitOf(s, typeRef).Stop?)
      ensures Found() == {}
      ensures AllResolve(s, typeRef, Paths(fieldSet)) <==> VisitOf(s, typeRef).Stop?
    {
    }

    /** An atomic container is the one place at which everything below it is cut. */
    lemma {:induction false} CutHere()
      requires Valid() && VisitOf(s, typeRef).Cut?
      ensures Found() == if fieldSet == EMPTY || path == [] then {} else {path}
      ensures AllResolve(s, typeRef, Paths(fieldSet))
    {
      NoEmptyPath(fieldSet);
      EmptyIs(fieldSet);
      var cuts := Cuts(s, typeRef, Paths(fieldSet));
      if fieldSet == EMPTY {
        assert cuts == {};
      } else {
        var p :| p in Paths(fieldSet);
        assert Truncated(s, typeRef, p) == [] != p;
        assert cuts == {[]};
        assert path + [] == path;
      }
    }

    method CutAtPath()
      requires Valid() && VisitOf(s, typeRef).Cut? && !isAtomic && (path == [] || fieldSet != EMPTY)
      modifies this`toRemove, this`toAdd
      ensures Valid() && Listed(toRemove) == Found() && Listed(toAdd) == Found()
    {
      EmptyIs(EMPTY);
      var cut := Access.Insert(EMPTY, path);
      CutHere();
      toRemove, toAdd := Some(cut), Some(cut);
    }

    method DoList(t: ListType) returns (ok: bool)
      requires Valid()
      requires var a := Resolve(s, typeRef);
               a.Some? && a.value.mapping.None? && a.value.scalar.None? && a.value.list == Some(t)
      modifies this`toRemove, this`toAdd
      ensures Valid()
      ensures ok <==> AllResolve(s, typeRef, Paths(fieldSet))
      ensures Found() <= Listed(toRemove) <= old(Listed(toRemove)) + Found()
      ensures Found() <= Listed(toAdd) <= old(Listed(toAdd)) + Found()
      decreases Depth(fieldSet), 1
    {
      if !isAtomic && t.relationship.Atomic? {
        CutHere();
        CutAtPath();
        return true;
      }
      if t.relationship.Atomic? {
        CutHere();
        return true;
      }
      ok := VisitItems();
    }

    method DoMap(t: MapType) returns (ok: bool)
      requires Valid()
      requires var a := Resolve(s, typeRef); a.Some? && a.value.mapping == Some(t)
      modifies this`toRemove, this`toAdd
      ensures Valid()
      ensures ok <==> AllResolve(s, typeRef, Paths(fieldSet))
      ensures Found() <= Listed(toRemove) <= old(Listed(toRemove)) + Found()
      ensures Found() <= Listed(toAdd) <= old(Listed(toAdd)) + Found()
      decreases Depth(fieldSet), 1
    {
      if IsUntypedDeducedMap(t) {
        StopHere();
        return true;
      }
      if t.relationship.Atomic? {
        CutHere();
        if !isAtomic {
          var size := Size(fieldSet);
          EmptyIs(fieldSet);
          if size > 0 {
            CutAtPath();
          }
        }
        return true;
      }
      ok := VisitItems();
    }

    /** Where the cuts below one head are placed. */
    ghost function FoundBelow(pe: PathElement): PathSet
    {
      Placed(path, CutsBelow(s, typeRef, Paths(fieldSet), pe))
    }

    /** ... and below several, one after the other. */
    ghost function FoundIn(pes: seq<PathElement>): PathSet
    {
      if pes == [] then {} else FoundIn(pes[..|pes| - 1]) + FoundBelow(pes[|pes| - 1])
    }

    ghost predicate ResolveIn(pes: seq<PathElement>)
    {
      pes == [] || (ResolveIn(pes[..|pes| - 1]) && ResolveBelow(s, typeRef, Paths(fieldSet), pes[|pes| - 1]))
    }

    lemma {:induction false} FoundNext(before: PathSet, pes: seq<PathElement>, pe: PathElement)
      ensures before + FoundIn(pes) + FoundBelow(pe) == before + FoundIn(pes + [pe])
      ensures ResolveIn(pes + [pe]) <==> ResolveIn(pes) && ResolveBelow(s, typeRef, Paths(fieldSet), pe)
    {
      assert (pes + [pe])[..|pes|] == pes && (pes + [pe])[|pes|] == pe;
      Regroup(before, FoundIn(pes), FoundBelow(pe));
    }

    lemma {:induction false} FoundAre(pes: seq<PathElement>, q: Path)
      ensures q in FoundIn(pes) <==> exists pe :: pe in pes && q in FoundBelow(pe)
    {
      if pes != [] {
        var front, last := pes[..|pes| - 1], pes[|pes| - 1];
        FoundAre(front, q);
        assert pes == front + [last];
        assert FoundIn(pes) == FoundIn(front) + FoundBelow(last);
      }
    }

    lemma {:induction false} ResolveAre(pes: seq<PathElement>)
      ensures ResolveIn(pes) <==> forall pe | pe in pes :: ResolveBelow(s, typeRef, Paths(fieldSet), pe)
    {
      if pes != [] {
        var front, last := pes[..|pes| - 1], pes[|pes| - 1];
        ResolveAre(front);
        assert pes == front + [last];
        assert forall pe :: pe in pes <==> pe in front || pe == last;
        assert ResolveIn(pes) <==> ResolveIn(front) && ResolveBelow(s, typeRef, Paths(fieldSet), last);
        assert last in pes;
      }
    }

    /** Descends to every head: first the children that are no members, then the members. */
    method VisitItems() returns (ok: bool)
      requires Valid() && VisitOf(s, typeRef).Into?
      modifies this`toRemove, this`toAdd
      ensures Valid()
      ensures ok <==> AllResolve(s, typeRef, Paths(fieldSet))
      ensures Listed(toRemove) == old(Listed(toRemove)) + Found()
      ensures Listed(toAdd) == old(Listed(toAdd)) + Found()
      decreases Depth(fieldSet), 0, 2
    {
      ghost var others;
      ok, others := VisitChildren();
      ghost var all;
      ok, all := VisitMembers(old(Listed(toRemove)), old(Listed(toAdd)), others, ok);
      AllHeads(all);
    }

    method VisitChildren() returns (ok: bool, ghost done: seq<PathElement>)
      requires Valid() && VisitOf(s, typeRef).Into?
      modifies this`toRemove, this`toAdd
      ensures Valid() && (ok <==> ResolveIn(done))
      ensures forall pe :: pe in done <==> pe in Pes(fieldSet.children) && pe !in fieldSet.members
      ensures Listed(toRemove) == old(Listed(toRemove)) + FoundIn(done)
      ensures Listed(toAdd) == old(Listed(toAdd)) + FoundIn(done)
      decreases Depth(fieldSet), 0, 1
    {
      ok, done := true, [];
      var nodes := fieldSet.children;
      for i := 0 to |nodes|
        invariant Valid() && (ok <==> ResolveIn(done))
        invariant forall pe :: pe in done <==> pe in Pes(nodes)[..i] && pe !in fieldSet.members
        invariant Listed(toRemove) == old(Listed(toRemove)) + FoundIn(done)
        invariant Listed(toAdd) == old(Listed(toAdd)) + FoundIn(done)
      {
        assert Pes(nodes)[..i + 1] == Pes(nodes)[..i] + [nodes[i].pe];
        var has := E.Has(fieldSet.members, nodes[i].pe);
        if !has {
          FoundNext(old(Listed(toRemove)), done, nodes[i].pe);
          FoundNext(old(Listed(toAdd)), done, nodes[i].pe);
          assert Pes(nodes)[i] in Pes(nodes);
          var more := HandleElement(nodes[i].pe, false);
          ok, done := ok && more, done + [nodes[i].pe];
        }
      }
      assert Pes(nodes)[..|nodes|] == Pes(nodes);
    }

    method VisitMembers(ghost removals: PathSet, ghost additions: PathSet, ghost others: seq<PathElement>, ok0: bool)
      returns (ok: bool, ghost done: seq<PathElement>)
      requires Valid() && VisitOf(s, typeRef).Into? && (ok0 <==> ResolveIn(others))
      requires Listed(toRemove) == removals + FoundIn(others) && Listed(toAdd) == additions + FoundIn(others)
      modifies this`toRemove, this`toAdd
      ensures Valid() && (ok <==> ResolveIn(done))
      ensures forall pe :: pe in done <==> pe in others || pe in fieldSet.members
      ensures Listed(toRemove) == removals + FoundIn(done) && Listed(toAdd) == additions + FoundIn(done)
      decreases Depth(fieldSet), 0, 1
    {
      ok, done := ok0, others;
      var members := fieldSet.members;
      for i := 0 to |members|
        invariant Valid() && (ok <==> ResolveIn(done))
        invariant forall pe :: pe in done <==> pe in others || pe in members[..i]
        invariant Listed(toRemove) == removals + FoundIn(done) && Listed(toAdd) == additions + FoundIn(done)
      {
        assert members[..i + 1] == members[..i] + [members[i]];
        FoundNext(removals, done, members[i]);
        FoundNext(additions, done, members[i]);
        var more := HandleElement(members[i], true);
        ok, done := ok && more, done + [members[i]];
      }
      assert members[..|members|] == members;
    }

    /** When all heads are done, all cuts are found. */
    lemma {:induction false} AllHeads(done: seq<PathElement>)
      requires Valid() && VisitOf(s, typeRef).Into?
      requires forall pe :: pe in done <==> pe in Pes(fieldSet.children) || pe in fieldSet.members
      ensures FoundIn(done) == Found() && (ResolveIn(done) <==> AllResolve(s, typeRef, Paths(fieldSet)))
    {
      var paths := Paths(fieldSet);
      TrieByHead(fieldSet);
      forall pe
        ensures pe in done <==> [pe] in paths || Below(paths, pe) != {}
      {
        if pe in Pes(fieldSet.children) {
          var i :| 0 <= i < |fieldSet.children| && fieldSet.children[i].pe == pe;
          assert fieldSet.children[i] in fieldSet.children;
        }
      }
      ResolveByHead(s, typeRef, paths, set pe | pe in done);
      ResolveAre(done);
      forall q
        ensures q in FoundIn(done) <==> q in Found()
      {
        FoundAre(done, q);
        FoundByHead(done, q);
      }
    }

    lemma {:induction false} FoundByHead(done: seq<PathElement>, q: Path)
      requires VisitOf(s, typeRef).Into? && [] !in Paths(fieldSet)
      requires forall pe :: pe in done <==> [pe] in Paths(fieldSet) || Below(Paths(fieldSet), pe) != {}
      ensures q in Found() <==> exists pe :: pe in done && q in FoundBelow(pe)
    {
      var paths := Paths(fieldSet);
      PrefixedIn(path, Cuts(s, typeRef, paths), q);
      if path <= q {
        var r := q[|path|..];
        CutsByHead(s, typeRef, paths, r);
        if q in Found() {
          HeadDone(done, r);
          PrefixedIn(path, CutsBelow(s, typeRef, paths, r[0]), q);
        }
      }
      forall pe | pe in done && q in FoundBelow(pe)
        ensures q in Found()
      {
        PrefixedIn(path, CutsBelow(s, typeRef, paths, pe), q);
        UnderIn(pe, Cuts(s, TypeBelow(s, typeRef, pe), Below(paths, pe)), q[|path|..]);
      }
    }

    lemma {:induction false} HeadDone(done: seq<PathElement>, r: Path)
      requires forall pe :: pe in done <==> [pe] in Paths(fieldSet) || Below(Paths(fieldSet), pe) != {}
      requires r != [] && r in CutsBelow(s, typeRef, Paths(fieldSet), r[0])
      ensures r[0] in done
    {
      var paths, pe := Paths(fieldSet), r[0];
      UnderIn(pe, Cuts(s, TypeBelow(s, typeRef, pe), Below(paths, pe)), r);
      assert Below(paths, pe) != {};
    }

    /** Descends to one head with a walker of its own, then takes over what that found. */
    method HandleElement(pe: PathElement, isMember: bool) returns (ok: bool)
      requires Valid() && VisitOf(s, typeRef).Into?
      requires if isMember then pe in fieldSet.members else pe in Pes(fieldSet.children)
      modifies this`toRemove, this`toAdd
      ensures Valid()
      ensures ok <==> ResolveBelow(s, typeRef, Paths(fieldSet), pe)
      ensures Listed(toRemove) == old(Listed(toRemove)) + FoundBelow(pe)
      ensures Listed(toAdd) == old(Listed(toAdd)) + FoundBelow(pe)
      decreases Depth(fieldSet), 0, 0
    {
      if !Follows(s, typeRef, pe) {
        return true;
      }
      var sub := Access.WithPrefix(fieldSet, pe);
      Smaller(pe, isMember, sub);
      var v := new Walker(s, TypeBelow(s, typeRef, pe), sub, path + [pe], isMember && sub == EMPTY, toRemove, toAdd);
      ok := v.Reconcile();
      toRemove := Merge(toRemove, v.toRemove);
      toAdd := Merge(toAdd, v.toAdd);
      PrefixedUnder(path, pe, Cuts(s, TypeBelow(s, typeRef, pe), Paths(sub)));
    }

    /** What lies below a head is smaller. */
    lemma {:induction false} Smaller(pe: PathElement, isMember: bool, sub: Trie)
      requires Valid() && Canonical(sub) && Paths(sub) == Below(Paths(fieldSet), pe)
      requires if isMember then pe in fieldSet.members else pe in Pes(fieldSet.children)
      ensures Depth(sub) < Depth(fieldSet)
      ensures !isMember ==> sub != EMPTY
    {
      EmptyIs(sub);
      if pe in Pes(fieldSet.children) {
        var i :| 0 <= i < |fieldSet.children| && fieldSet.children[i].pe == pe;
        var n := fieldSet.children[i];
        assert n.pe == Pes(fieldSet.children)[i] && CanonicalNodes(fieldSet.children);
        assert CanonicalNode(fieldSet.children[i]);
        BelowChild(fieldSet, n);
        EqualIff(sub, n.sub);
        NodeBelow(fieldSet.children, n);
      } else {
        BelowNoChild(fieldSet, pe);
      }
    }
  }

  /**
   * Nothing if no change was accumulated, or else the reconciled set; in both cases every path
   * is truncated at its first atomic container.
   */
  method ReconcileFieldSet(s: Schema, tr: TypeRef, fieldSet: Trie) returns (ok: bool, changed: Option<Trie>)
    requires Canonical(fieldSet)
    ensures ok <==> Reconcile(s, tr, Paths(fieldSet)).Some?
    ensures ok && changed.Some? ==>
              Canonical(changed.value) && Reconcile(s, tr, Paths(fieldSet)) == Some(Paths(changed.value))
    ensures ok && changed.None? ==> Reconcile(s, tr, Paths(fieldSet)) == Some(Paths(fieldSet))
  {
    var v := new Walker(s, tr, fieldSet, [], false, None, None);
    ok := v.Reconcile();
    changed := None;
    NoEmptyPath(fieldSet);
    ghost var cuts := Placed([], Cuts(s, tr, Paths(fieldSet)));
    assert Listed(v.toRemove) == cuts && Listed(v.toAdd) == cuts;
    RootCuts(s, tr, Paths(fieldSet));
    if ok && (v.toAdd.Some? || v.toRemove.Some?) {
      var out := Applied(fieldSet, v.toRemove, v.toAdd);
      changed := Some(out);
    } else {
      assert Uncovered(Paths(fieldSet), {}) + {} == Paths(fieldSet);
    }
  }

  /** The set after recursive removals and then additions. */
  method Applied(fieldSet: Trie, toRemove: Option<Trie>, toAdd: Option<Trie>) returns (out: Trie)
    requires Canonical(fieldSet) && Sound(toRemove) && Sound(toAdd)
    ensures Canonical(out) && Paths(out) == Uncovered(Paths(fieldSet), Listed(toRemove)) + Listed(toAdd)
  {
    out := fieldSet;
    if toRemove.Some? {
      out := RecursiveDifference(out, toRemove.value);
    }
    if toAdd.Some? {
      out := Union(out, toAdd.value);
    }
  }

  lemma {:induction false} RootCuts(s: Schema, tr: TypeRef, paths: PathSet)
    requires [] !in paths
    ensures var cuts := Placed([], Cuts(s, tr, paths));
            AllResolve(s, tr, paths) ==> Reconcile(s, tr, paths) == Some(Uncovered(paths, cuts) + cuts)
    ensures AllResolve(s, tr, paths) <==> Reconcile(s, tr, paths).Some?
    ensures Uncovered(paths, {}) == paths
  {
    var cuts := Cuts(s, tr, paths);
    assert Uncovered(paths, {}) == paths;
    forall q
      ensures q in Prefixed([], cuts) <==> q in cuts
    {
      PrefixedIn([], cuts, q);
      assert q[0..] == q;
    }
    assert Prefixed([], cuts) == cuts;
    if VisitOf(s, tr).Cut? {
      assert cuts - {[]} == {};
      assert Placed([], cuts) == {};
      assert Uncovered(paths, {}) + {} == paths;
      assert (set p | p in paths :: Truncate(s, tr, p)) == paths;
    } else {
      forall q | q in cuts
        ensures q != []
      {
        CutsByHead(s, tr, paths, q);
      }
      assert cuts - {[]} == cuts;
      CutsTruncate(s, tr, paths);
    }
  }
}
