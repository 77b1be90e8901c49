/** Counting, listing, comparing and reshaping field-set tries. */
module TrieViews {
  import opened PathElements
  import opened Ordering
  import E = ElementSets
  import opened Tries
  import opened TrieOps

  /** The paths of the members and the first `i` children. */
  ghost function PathsUpto(t: Trie, i: nat): PathSet
    requires i <= |t.children|
  {
    Paths(Trie(t.members, t.children[..i]))
  }

  /** Adding one child adds exactly the paths below it, each of them new. */
  lemma {:induction false} NextChild(t: Trie, i: nat)
    requires Canonical(t) && i < |t.children|
    ensures PathsUpto(t, i + 1) == PathsUpto(t, i) + PathsBelow(t.children[i])
    ensures PathsUpto(t, i) !! PathsBelow(t.children[i])
    ensures CanonicalNode(t.children[i])
  {
    var nodes := t.children;
    var s, u, n := Trie(t.members, nodes[..i]), Trie(t.members, nodes[..i + 1]), nodes[i];
    NextNode(nodes, i);
    NodeDenotes(n);
    Denotes(s);
    Denotes(u);
    assert n.pe !in Pes(nodes[..i]) by {
      if n.pe in Pes(nodes[..i]) {
        var j :| 0 <= j < i && Pes(nodes)[j] == n.pe;
        E.Irreflexive(n.pe);
      }
    }
    NoPe(nodes[..i], n.pe);
    forall p
      ensures p in Paths(u) <==> p in Paths(s) || p in PathsBelow(n)
      ensures !(p in Paths(s) && p in PathsBelow(n))
    {
      SplitIn(s, p);
      SplitIn(u, p);
    }
  }

  lemma {:induction false} AllChildren(t: Trie)
    requires Canonical(t)
    ensures PathsUpto(t, 0) == Singles(t.members) && |PathsUpto(t, 0)| == |t.members|
    ensures PathsUpto(t, |t.children|) == Paths(t)
  {
    assert t.children[..0] == [] && t.children[..|t.children|] == t.children;
    assert Trie(t.members, t.children) == t;
    assert NodePaths([]) == {};
    SinglesSize(t.members);
  }

  lemma {:induction false} NodeDenotes(n: Node)
    ensures forall p :: p in PathsBelow(n) <==> InNode(n, p)
  {
    Denotes(n.sub);
    NoEmptyPath(n.sub);
    forall p
      ensures p in PathsBelow(n) <==> InNode(n, p)
    {
      UnderIn(n.pe, Paths(n.sub), p);
    }
  }

  /** Putting paths below an element loses none of them. */
  lemma {:induction false} UnderSize(pe: PathElement, paths: PathSet)
    ensures |Under(pe, paths)| == |paths|
  {
    if paths != {} {
      var p :| p in paths;
      UnderSize(pe, paths - {p});
      UnderIn(pe, paths - {p}, [pe] + p);
      assert ([pe] + p)[1..] == p;
      assert Under(pe, paths) == Under(pe, paths - {p}) + {[pe] + p};
    }
  }

  /** The one-element paths. */
  ghost function Singles(ms: seq<PathElement>): PathSet {
    set pe | pe in ms :: [pe]
  }

  lemma {:induction false} NextSingle(ms: seq<PathElement>, i: nat)
    requires E.Sorted(ms) && i < |ms|
    ensures Singles(ms[..i + 1]) == Singles(ms[..i]) + {[ms[i]]} && [ms[i]] !in Singles(ms[..i])
  {
    E.Irreflexive(ms[i]);
    assert ms[..i + 1] == ms[..i] + [ms[i]];
  }

  lemma {:induction false} SinglesSize(ms: seq<PathElement>)
    requires E.Sorted(ms)
    ensures |Singles(ms)| == |ms|
  {
    if ms != [] {
      var n := |ms| - 1;
      SinglesSize(ms[..n]);
      NextSingle(ms, n);
      assert ms[..n + 1] == ms;
    }
  }

  /** The number of paths. */
  method Size(t: Trie) returns (n: nat)
    requires Canonical(t)
    ensures n == |Paths(t)|
    decreases t, 1
  {
    n := |t.members|;
    AllChildren(t);
    for i := 0 to |t.children|
      invariant n == |PathsUpto(t, i)|
    {
      NextChild(t, i);
      var k := SizeBelow(t.children[i]);
      n := n + k;
    }
  }

  method SizeBelow(n: Node) returns (k: nat)
    requires CanonicalNode(n)
    ensures k == |PathsBelow(n)|
    decreases n, 2
  {
    k := Size(n.sub);
    UnderSize(n.pe, Paths(n.sub));
  }

  function Prefixed(prefix: Path, paths: PathSet): PathSet {
    set p | p in paths :: prefix + p
  }

  lemma {:induction false} PrefixedIn(prefix: Path, paths: PathSet, q: Path)
    ensures q in Prefixed(prefix, paths) <==> prefix <= q && q[|prefix|..] in paths
  {
    if prefix <= q && q[|prefix|..] in paths {
      assert q == prefix + q[|prefix|..];
    }
    if q in Prefixed(prefix, paths) {
      var p :| p in paths && prefix + p == q;
      assert q[|prefix|..] == p;
    }
  }

  /** Paths relative to a node, put at the node's path; the root's own path is not tracked. */
  ghost function Placed(path: Path, paths: PathSet): PathSet {
    Prefixed(path, paths) - {[]}
  }

  lemma {:induction false} PlacedHere(path: Path)
    ensures Placed(path, {[]}) == Tracked(path)
    ensures Placed(path, {}) == {}
  {
    assert path + [] == path;
    assert Prefixed(path, {[]}) == {path};
  }

  lemma {:induction false} PrefixedUnion(prefix: Path, a: PathSet, b: PathSet)
    requires a !! b
    ensures multiset(Prefixed(prefix, a + b)) == multiset(Prefixed(prefix, a)) + multiset(Prefixed(prefix, b))
  {
    assert Prefixed(prefix, a + b) == Prefixed(prefix, a) + Prefixed(prefix, b);
    forall q
      ensures !(q in Prefixed(prefix, a) && q in Prefixed(prefix, b))
    {
      PrefixedIn(prefix, a, q);
      PrefixedIn(prefix, b, q);
    }
  }

  lemma {:induction false} PrefixedUnder(prefix: Path, pe: PathElement, paths: PathSet)
    ensures Prefixed(prefix, Under(pe, paths)) == Prefixed(prefix + [pe], paths)
  {
    forall q
      ensures q in Prefixed(prefix, Under(pe, paths)) <==> q in Prefixed(prefix + [pe], paths)
    {
      PrefixedIn(prefix, Under(pe, paths), q);
      PrefixedIn(prefix + [pe], paths, q);
      if prefix <= q {
        UnderIn(pe, paths, q[|prefix|..]);
        if |q| > |prefix| {
          assert q[|prefix|..][1..] == q[|prefix + [pe]|..];
        }
      }
    }
  }

  /** Visits every path of the set exactly once. */
  method Iterate(t: Trie) returns (visited: seq<Path>)
    requires Canonical(t)
    ensures multiset(visited) == multiset(Paths(t))
  {
    visited := IteratePrefix(t, []);
    assert Prefixed([], Paths(t)) == Paths(t) by {
      forall p
        ensures p in Prefixed([], Paths(t)) <==> p in Paths(t)
      {
        PrefixedIn([], Paths(t), p);
        assert p[0..] == p;
      }
    }
  }

  method IteratePrefix(t: Trie, prefix: Path) returns (visited: seq<Path>)
    requires Canonical(t)
    ensures multiset(visited) == multiset(Prefixed(prefix, Paths(t)))
    decreases t, 1
  {
    visited := IterateMembers(t.members, prefix);
    AllChildren(t);
    for i := 0 to |t.children|
      invariant multiset(visited) == multiset(Prefixed(prefix, PathsUpto(t, i)))
    {
      NextChild(t, i);
      PrefixedUnion(prefix, PathsUpto(t, i), PathsBelow(t.children[i]));
      var more := IterateBelow(t.children[i], prefix);
      visited := visited + more;
    }
  }

  method IterateMembers(ms: seq<PathElement>, prefix: Path) returns (visited: seq<Path>)
    requires E.Sorted(ms)
    ensures multiset(visited) == multiset(Prefixed(prefix, Singles(ms)))
  {
    visited := [];
    for i := 0 to |ms|
      invariant multiset(visited) == multiset(Prefixed(prefix, Singles(ms[..i])))
    {
      NextSingle(ms, i);
      PrefixedUnion(prefix, Singles(ms[..i]), {[ms[i]]});
      assert Prefixed(prefix, {[ms[i]]}) == {prefix + [ms[i]]};
      visited := visited + [prefix + [ms[i]]];
    }
    assert ms[..|ms|] == ms;
  }

  method IterateBelow(n: Node, prefix: Path) returns (visited: seq<Path>)
    requires CanonicalNode(n)
    ensures multiset(visited) == multiset(Prefixed(prefix, PathsBelow(n)))
    decreases n, 2
  {
    visited := IteratePrefix(n.sub, prefix + [n.pe]);
    PrefixedUnder(prefix, n.pe, Paths(n.sub));
  }

  /** Structural equality of canonical tries is equality of their path sets. */
  lemma {:induction false} EqualIff(s: Trie, t: Trie)
    requires Canonical(s) && Canonical(t)
    ensures s == t <==> Paths(s) == Paths(t)
  {
    if Paths(s) == Paths(t) {
      Denotes(s);
      Denotes(t);
      CanonicalUnique(s, t);
    }
  }

  method Equals(s: Trie, t: Trie) returns (equal: bool)
    requires Canonical(s) && Canonical(t)
    ensures equal <==> Paths(s) == Paths(t)
    decreases s, 1
  {
    EqualIff(s, t);
    if |s.members| != |t.members| {
      return false;
    }
    for i := 0 to |s.members|
      invariant forall x | 0 <= x < i :: s.members[x] == t.members[x]
    {
      Ordered(s.members[i], t.members[i]);
      if Compare(s.members[i], t.members[i]) != 0 {
        return false;
      }
    }
    assert s.members == t.members;
    if |s.children| != |t.children| {
      return false;
    }
    for i := 0 to |s.children|
      invariant forall x | 0 <= x < i :: s.children[x] == t.children[x]
    {
      assert CanonicalNode(s.children[i]) && CanonicalNode(t.children[i]);
      var same := EqualNodes(s.children[i], t.children[i]);
      if !same {
        return false;
      }
    }
    assert s.children == t.children;
    equal := true;
  }

  method EqualNodes(x: Node, y: Node) returns (equal: bool)
    requires CanonicalNode(x) && CanonicalNode(y)
    ensures equal <==> x == y
    decreases x, 2
  {
    Ordered(x.pe, y.pe);
    if Compare(x.pe, y.pe) != 0 {
      return false;
    }
    equal := Equals(x.sub, y.sub);
    EqualIff(x.sub, y.sub);
  }
}
