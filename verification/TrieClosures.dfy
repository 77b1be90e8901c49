/** The leaves of a field-set trie, and its closure under named fields. */
module TrieClosures {
  import opened PathElements
  import opened Ordering
  import opened Schemas
  import E = ElementSets
  import opened Tries
  import opened TrieOps
  import opened Owning

  /** A trie denotes `paths` if its members are their heads and its children what lies below. */
  lemma {:induction false} DenotedByHead(t: Trie, paths: PathSet)
    requires Canonical(t) && [] !in paths
    requires forall pe :: [pe] in paths <==> pe in t.members
    requires forall n | n in t.children :: Below(paths, n.pe) == Paths(n.sub)
    requires forall pe | pe !in Pes(t.children) :: Below(paths, pe) == {}
    ensures Paths(t) == paths
  {
    NoEmptyPath(t);
    forall p
      ensures p in Paths(t) <==> p in paths
    {
      if |p| == 1 {
        assert p == [p[0]];
        InOne(t, p[0]);
        PathsIn(t, p);
      } else if |p| > 1 {
        var pe := p[0];
        assert p == [pe] + p[1..];
        BelowIn(paths, pe, p[1..]);
        BelowIn(Paths(t), pe, p[1..]);
        if pe in Pes(t.children) {
          var i :| 0 <= i < |t.children| && t.children[i].pe == pe;
          BelowChild(t, t.children[i]);
        } else {
          BelowNoChild(t, pe);
        }
      }
    }
  }

  /** The heads of a trie, and what lies below them. */
  lemma {:induction false} TrieByHead(t: Trie)
    requires Canonical(t)
    ensures [] !in Paths(t)
    ensures forall pe :: [pe] in Paths(t) <==> pe in t.members
    ensures forall n | n in t.children :: Below(Paths(t), n.pe) == Paths(n.sub) != {}
    ensures forall pe | pe !in Pes(t.children) :: Below(Paths(t), pe) == {}
  {
    NoEmptyPath(t);
    forall pe
      ensures [pe] in Paths(t) <==> pe in t.members
      ensures pe !in Pes(t.children) ==> Below(Paths(t), pe) == {}
    {
      InOne(t, pe);
      PathsIn(t, [pe]);
      if pe !in Pes(t.children) {
        BelowNoChild(t, pe);
      }
    }
    forall n | n in t.children
      ensures Below(Paths(t), n.pe) == Paths(n.sub) != {}
    {
      BelowChild(t, n);
      var i :| 0 <= i < |t.children| && t.children[i] == n;
      assert CanonicalNode(t.children[i]);
      EmptyIs(n.sub);
    }
  }

  /** A path that extends another one starts with the same element. */
  lemma {:induction false} ExtendsBelow(pe: PathElement, p: Path, q: Path)
    ensures [pe] + p < q <==> q != [] && q[0] == pe && p < q[1..]
  {
    if q != [] && q[0] == pe {
      assert q == [pe] + q[1..];
      if p < q[1..] {
        assert q[..|p| + 1] == [pe] + q[1..][..|p|];
      }
      if [pe] + p < q {
        assert q[1..][..|p|] == q[..|p| + 1][1..] == p;
      }
    }
    if [pe] + p < q {
      assert q[0] == ([pe] + p)[0];
    }
  }

  lemma {:induction false} MaximalByHead(paths: PathSet, pe: PathElement)
    ensures [pe] in MaximalPaths(paths) <==> [pe] in paths && Below(paths, pe) == {}
    ensures Below(MaximalPaths(paths), pe) == MaximalPaths(Below(paths, pe))
  {
    forall q | q in paths
      ensures [pe] < q <==> q != [] && q[0] == pe && |q| > 1
    {
      ExtendsBelow(pe, [], q);
      assert [pe] + [] == [pe];
    }
    if Below(paths, pe) != {} {
      var r :| r in Below(paths, pe);
      BelowIn(paths, pe, r);
      assert [pe] < [pe] + r;
    }
    if q :| q in paths && [pe] < q {
      assert q[1..] in Below(paths, pe);
    }
    forall p
      ensures p in Below(MaximalPaths(paths), pe) <==> p in MaximalPaths(Below(paths, pe))
    {
      MaximalBelow(paths, pe, p);
    }
  }

  lemma {:induction false} MaximalBelow(paths: PathSet, pe: PathElement, p: Path)
    ensures p in Below(MaximalPaths(paths), pe) <==> p in MaximalPaths(Below(paths, pe))
  {
    BelowIn(MaximalPaths(paths), pe, p);
    BelowIn(paths, pe, p);
    if q :| q in paths && [pe] + p < q {
      ExtendsBelow(pe, p, q);
      BelowIn(paths, pe, q[1..]);
      assert q == [pe] + q[1..];
    }
    if r :| r in Below(paths, pe) && p < r {
      BelowIn(paths, pe, r);
      ExtendsBelow(pe, p, [pe] + r);
      assert ([pe] + r)[1..] == r;
    }
  }

  /** Some path of a non-empty set is maximal. */
  lemma {:induction false} SomeMaximal(paths: PathSet)
    requires paths != {}
    ensures MaximalPaths(paths) != {}
  {
    var p :| p in paths;
    var q := Longest(paths, p);
    assert q in MaximalPaths(paths);
  }

  lemma {:induction false} Longest(paths: PathSet, p: Path) returns (q: Path)
    requires p in paths
    ensures q in paths && forall r | r in paths :: |r| <= |q|
    decreases paths
  {
    var rest := paths - {p};
    if rest == {} {
      q := p;
    } else {
      var p' :| p' in rest;
      q := Longest(rest, p');
      if |q| < |p| {
        q := p;
      }
    }
  }

  /** Exactly the maximal paths. */
  method Leaves(t: Trie) returns (u: Trie)
    requires Canonical(t)
    ensures Canonical(u) && Paths(u) == MaximalPaths(Paths(t))
    decreases t, 1
  {
    var members := LeafMembers(t.members, t.children);
    var children := [];
    for i := 0 to |t.children|
      invariant |children| == i
      invariant forall x | 0 <= x < i :: LeafNodeOf(t.children[x], children[x])
    {
      assert CanonicalNode(t.children[i]);
      var n := LeafNode(t.children[i]);
      children := children + [n];
    }
    u := Trie(members, children);
    LeavesDenote(t, u);
  }

  ghost predicate LeafNodeOf(n: Node, leaf: Node) {
    CanonicalNode(leaf) && leaf.pe == n.pe && Paths(leaf.sub) == MaximalPaths(Paths(n.sub))
  }

  method LeafNode(n: Node) returns (leaf: Node)
    requires CanonicalNode(n)
    ensures LeafNodeOf(n, leaf)
    decreases n, 2
  {
    var sub := Leaves(n.sub);
    leaf := Node(n.pe, sub);
    EmptyIs(n.sub);
    EmptyIs(sub);
    SomeMaximal(Paths(n.sub));
  }

  lemma {:induction false} LeavesDenote(t: Trie, u: Trie)
    requires Canonical(t) && |u.children| == |t.children|
    requires E.Sorted(u.members) && E.AsSet(u.members) == E.AsSet(t.members) - E.AsSet(Pes(t.children))
    requires forall x | 0 <= x < |t.children| :: LeafNodeOf(t.children[x], u.children[x])
    ensures Canonical(u) && Paths(u) == MaximalPaths(Paths(t))
  {
    var paths := Paths(t);
    TrieByHead(t);
    assert Pes(u.children) == Pes(t.children);
    assert Canonical(u);
    forall pe
      ensures [pe] in MaximalPaths(paths) <==> pe in u.members
      ensures pe !in Pes(u.children) ==> Below(MaximalPaths(paths), pe) == {}
    {
      MaximalByHead(paths, pe);
      assert pe in u.members <==> pe in E.AsSet(u.members);
      if pe in Pes(t.children) {
        var i :| 0 <= i < |t.children| && t.children[i].pe == pe;
        assert t.children[i] in t.children;
      }
    }
    forall n | n in u.children
      ensures Below(MaximalPaths(paths), n.pe) == Paths(n.sub)
    {
      var i :| 0 <= i < |u.children| && u.children[i] == n;
      MaximalByHead(paths, n.pe);
      assert t.children[i] in t.children && LeafNodeOf(t.children[i], n);
    }
    DenotedByHead(u, MaximalPaths(paths));
  }

  /** The members that have no child of the same element, by one pass over both sorted lists. */
  method LeafMembers(ms: seq<PathElement>, nodes: seq<Node>) returns (leaves: seq<PathElement>)
    requires E.Sorted(ms) && E.Sorted(Pes(nodes))
    ensures E.Sorted(leaves) && E.AsSet(leaves) == E.AsSet(ms) - E.AsSet(Pes(nodes))
  {
    leaves := [];
    var im, ic := 0, 0;
    ghost var pes := Pes(nodes);
    label outer:
    while im < |ms|
      invariant 0 <= im <= |ms| && 0 <= ic <= |nodes|
      invariant E.Sorted(leaves) && E.Before(leaves, ms[im..])
      invariant E.AsSet(leaves) == E.AsSet(ms[..im]) - E.AsSet(pes)
      invariant Separate(ms, pes, im, ic)
      decreases |ms| - im
    {
      var member := ms[im];
      E.AsSetNext(ms, im);
      E.BeforeNext(leaves, ms, im);
      E.SortedNext(ms, im);
      while ic < |nodes|
        invariant 0 <= ic <= |nodes|
        invariant Separate(ms, pes, im, ic)
      {
        Ordered(member, nodes[ic].pe);
        var d := Compare(member, nodes[ic].pe);
        if d == 0 {
          SkipBoth(ms, pes, im, ic);
          assert member in E.AsSet(pes);
          ic := ic + 1;
          im := im + 1;
          continue outer;
        } else if d < 0 {
          break;
        } else {
          SkipRight(ms, pes, im, ic);
          ic := ic + 1;
        }
      }
      if ic < |nodes| {
        SkipLeft(ms, pes, im, ic);
      } else {
        assert member in ms[im..] && pes[..ic] == pes;
        assert ms[im..] == [ms[im]] + ms[im + 1..];
      }
      E.SortedConcat(leaves, [member]);
      E.BeforePush(leaves, member, ms[im + 1..]);
      E.AsSetPush(leaves, member);
      leaves := leaves + [member];
      im := im + 1;
    }
    assert ms[..im] == ms;
  }

  /** One step of the closure: declared heads that lead somewhere, and the closure below each head. */
  lemma {:induction false} EnsureByHead(s: Schema, tr: TypeRef, paths: PathSet, pe: PathElement)
    ensures [pe] in EnsureNamed(s, tr, paths) <==>
            [pe] in paths || (DeclaredHere(s, tr, pe) && Below(paths, pe) != {})
    ensures Below(EnsureNamed(s, tr, paths), pe) == EnsureNamed(s, NamedType(s, tr, pe), Below(paths, pe))
  {
    if [pe] in EnsureNamed(s, tr, paths) && [pe] !in paths {
      var p, i :| p in paths && 0 < i < |p| && Declared(s, tr, p[..i]) && p[..i] == [pe];
      assert i == |p[..i]| == 1 && p[0] == p[..1][0];
      assert p[1..] in Below(paths, pe);
    }
    if DeclaredHere(s, tr, pe) && Below(paths, pe) != {} {
      var r :| r in Below(paths, pe);
      BelowIn(paths, pe, r);
      assert ([pe] + r)[..1] == [pe];
    }
    forall p
      ensures p in Below(EnsureNamed(s, tr, paths), pe) <==> p in EnsureNamed(s, NamedType(s, tr, pe), Below(paths, pe))
    {
      EnsureBelow(s, tr, paths, pe, p);
    }
  }

  lemma {:induction false} EnsureBelow(s: Schema, tr: TypeRef, paths: PathSet, pe: PathElement, p: Path)
    ensures p in Below(EnsureNamed(s, tr, paths), pe) <==> p in EnsureNamed(s, NamedType(s, tr, pe), Below(paths, pe))
  {
    var nt, sub := NamedType(s, tr, pe), Below(paths, pe);
    BelowIn(EnsureNamed(s, tr, paths), pe, p);
    BelowIn(paths, pe, p);
    assert ([pe] + p)[1..] == p;
    if p in EnsureNamed(s, nt, sub) && p !in sub {
      var q, i :| q in sub && 0 < i < |q| && Declared(s, nt, q[..i]) && q[..i] == p;
      BelowIn(paths, pe, q);
      assert ([pe] + q)[..i + 1] == [pe] + p;
    }
    if p in Below(EnsureNamed(s, tr, paths), pe) && p !in sub {
      var q, i :| q in paths && 0 < i < |q| && Declared(s, tr, q[..i]) && q[..i] == [pe] + p;
      assert i == |[pe] + p| && q[0] == q[..i][0] == pe;
      assert q == [pe] + q[1..];
      BelowIn(paths, pe, q[1..]);
      assert q[1..][..i - 1] == q[..i][1..] == p;
    }
  }

  /** Adds the named fields that lead to members. */
  method EnsureNamedFieldsAreMembers(s: Schema, tr: TypeRef, t: Trie) returns (u: Trie)
    requires Canonical(t)
    ensures Canonical(u) && Paths(u) == EnsureNamed(s, tr, Paths(t))
    decreases t, 1
  {
    var members := t.members;
    for i := 0 to |t.children|
      invariant E.Sorted(members)
      invariant E.AsSet(members) == E.AsSet(t.members) + NamedHeads(s, tr, t.children[..i])
    {
      assert t.children[..i + 1] == t.children[..i] + [t.children[i]];
      if DeclaredHere(s, tr, t.children[i].pe) {
        members := E.Insert(members, t.children[i].pe);
      }
    }
    assert t.children[..|t.children|] == t.children;
    var children := [];
    for i := 0 to |t.children|
      invariant |children| == i
      invariant forall x | 0 <= x < i :: NamedNodeOf(s, tr, t.children[x], children[x])
    {
      assert CanonicalNode(t.children[i]);
      var n := EnsureNamedBelow(s, tr, t.children[i]);
      children := children + [n];
    }
    u := Trie(members, children);
    EnsureDenotes(s, tr, t, u);
  }

  /** The path elements of the children that name declared fields. */
  ghost function NamedHeads(s: Schema, tr: TypeRef, nodes: seq<Node>): set<PathElement> {
    set n | n in nodes && DeclaredHere(s, tr, n.pe) :: n.pe
  }

  ghost predicate NamedNodeOf(s: Schema, tr: TypeRef, n: Node, m: Node) {
    CanonicalNode(m) && m.pe == n.pe && Paths(m.sub) == EnsureNamed(s, NamedType(s, tr, n.pe), Paths(n.sub))
  }

  method EnsureNamedBelow(s: Schema, tr: TypeRef, n: Node) returns (m: Node)
    requires CanonicalNode(n)
    ensures NamedNodeOf(s, tr, n, m)
    decreases n, 2
  {
    var sub := EnsureNamedFieldsAreMembers(s, NamedType(s, tr, n.pe), n.sub);
    m := Node(n.pe, sub);
    EmptyIs(n.sub);
    EmptyIs(sub);
  }

  lemma {:induction false} EnsureDenotes(s: Schema, tr: TypeRef, t: Trie, u: Trie)
    requires Canonical(t) && |u.children| == |t.children|
    requires E.Sorted(u.members) && E.AsSet(u.members) == E.AsSet(t.members) + NamedHeads(s, tr, t.children)
    requires forall x | 0 <= x < |t.children| :: NamedNodeOf(s, tr, t.children[x], u.children[x])
    ensures Canonical(u) && Paths(u) == EnsureNamed(s, tr, Paths(t))
  {
    var paths := Paths(t);
    TrieByHead(t);
    assert Pes(u.children) == Pes(t.children);
    assert Canonical(u);
    forall pe
      ensures [pe] in EnsureNamed(s, tr, paths) <==> pe in u.members
      ensures pe !in Pes(u.children) ==> Below(EnsureNamed(s, tr, paths), pe) == {}
    {
      EnsureByHead(s, tr, paths, pe);
      assert pe in u.members <==> pe in E.AsSet(u.members);
      if pe in Pes(t.children) {
        var i :| 0 <= i < |t.children| && t.children[i].pe == pe;
        assert t.children[i] in t.children;
      }
    }
    forall n | n in u.children
      ensures Below(EnsureNamed(s, tr, paths), n.pe) == Paths(n.sub)
    {
      var i :| 0 <= i < |u.children| && u.children[i] == n;
      EnsureByHead(s, tr, paths, n.pe);
      assert t.children[i] in t.children && NamedNodeOf(s, tr, t.children[i], n);
    }
    DenotedByHead(u, EnsureNamed(s, tr, paths));
  }

  /** The closure only adds, adds nothing the second time, and can be taken part by part. */
  lemma {:induction false} EnsureIsClosure(s: Schema, tr: TypeRef, a: PathSet, b: PathSet)
    ensures a <= EnsureNamed(s, tr, a)
    ensures EnsureNamed(s, tr, EnsureNamed(s, tr, a)) == EnsureNamed(s, tr, a)
    ensures EnsureNamed(s, tr, a + b) == EnsureNamed(s, tr, a) + EnsureNamed(s, tr, b)
  {
    var once := EnsureNamed(s, tr, a);
    forall q, i | q in once && 0 < i < |q| && Declared(s, tr, q[..i])
      ensures q[..i] in once
    {
      if q !in a {
        var r, j :| r in a && 0 < j < |r| && Declared(s, tr, r[..j]) && r[..j] == q;
        assert r[..i] == q[..i];
      }
    }
  }

  /** Recursive differences in a row are one recursive difference by the union. */
  lemma {:induction false} RecursiveDifferences(a: PathSet, b: PathSet, c: PathSet)
    ensures Uncovered(Uncovered(a, b), c) == Uncovered(a, b + c)
  {
    forall p
      ensures Covered(p, b + c) <==> Covered(p, b) || Covered(p, c)
    {
      if Covered(p, b + c) {
        var i :| 0 < i <= |p| && p[..i] in b + c;
      }
    }
  }
}
