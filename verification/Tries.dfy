/** The field-set trie: sorted members, sorted children, and the path set it denotes. */
module Tries {
  import opened PathElements
  import opened Ordering
  import E = ElementSets

  datatype Trie = Trie(members: seq<PathElement>, children: seq<Node>)
  datatype Node = Node(pe: PathElement, sub: Trie)

  const EMPTY := Trie([], [])

  function Pes(nodes: seq<Node>): (pes: seq<PathElement>)
    ensures |pes| == |nodes| && forall i | 0 <= i < |nodes| :: pes[i] == nodes[i].pe
  {
    seq(|nodes|, i requires 0 <= i < |nodes| => nodes[i].pe)
  }

  /** Both lists are strictly sorted, and no child is empty. */
  predicate Canonical(t: Trie) {
    E.Sorted(t.members) && CanonicalNodes(t.children)
  }

  predicate CanonicalNodes(nodes: seq<Node>) {
    E.Sorted(Pes(nodes)) &&
    forall i | 0 <= i < |nodes| :: CanonicalNode(nodes[i])
  }

  predicate CanonicalNode(n: Node) {
    Canonical(n.sub) && n.sub != EMPTY
  }

  /** The path is in the set that the trie denotes. */
  predicate In(t: Trie, p: Path) {
    (|p| == 1 && p[0] in t.members) || InNodes(t.children, p)
  }

  predicate InNodes(nodes: seq<Node>, p: Path) {
    exists i | 0 <= i < |nodes| :: InNode(nodes[i], p)
  }

  predicate InNode(n: Node, p: Path) {
    |p| > 1 && p[0] == n.pe && In(n.sub, p[1..])
  }

  /** The path set that the trie denotes. */
  function Paths(t: Trie): PathSet {
    (set pe | pe in t.members :: [pe]) + NodePaths(t.children)
  }

  function NodePaths(nodes: seq<Node>): PathSet {
    set i, p | 0 <= i < |nodes| && p in PathsBelow(nodes[i]) :: p
  }

  function PathsBelow(n: Node): PathSet {
    Under(n.pe, Paths(n.sub))
  }

  lemma {:induction false} PathsIn(t: Trie, p: Path)
    ensures p in Paths(t) <==> In(t, p)
    decreases |p|
  {
    forall i | 0 <= i < |t.children|
      ensures p in PathsBelow(t.children[i]) <==> InNode(t.children[i], p)
    {
      var n := t.children[i];
      UnderIn(n.pe, Paths(n.sub), p);
      if p != [] {
        PathsIn(n.sub, p[1..]);
      }
      NoEmptyPath(n.sub);
    }
    if |p| == 1 {
      assert p == [p[0]];
    }
  }

  lemma {:induction false} NoEmptyPath(t: Trie)
    ensures !In(t, []) && [] !in Paths(t)
  {
    forall i | 0 <= i < |t.children|
      ensures !InNode(t.children[i], []) && [] !in PathsBelow(t.children[i])
    {
    }
  }

  lemma {:induction false} InOne(t: Trie, pe: PathElement)
    ensures In(t, [pe]) <==> pe in t.members
  {
    forall i | 0 <= i < |t.children|
      ensures !InNode(t.children[i], [pe])
    {
    }
  }

  /** Equal membership is equal path sets. */
  lemma {:induction false} SamePaths(t: Trie, paths: PathSet)
    requires forall p :: In(t, p) <==> p in paths
    ensures Paths(t) == paths
  {
    forall p
      ensures p in Paths(t) <==> p in paths
    {
      PathsIn(t, p);
    }
  }

  /** A canonical trie other than the empty one has a path. */
  lemma {:induction false} NonEmpty(t: Trie) returns (p: Path)
    requires Canonical(t) && t != EMPTY
    ensures In(t, p)
  {
    if t.members != [] {
      p := [t.members[0]];
    } else {
      var n := t.children[0];
      assert CanonicalNode(n);
      var q := NonEmpty(n.sub);
      NoEmptyPath(n.sub);
      p := [n.pe] + q;
      assert p[1..] == q;
      assert InNode(t.children[0], p);
    }
  }

  /** Canonical tries that denote the same paths are the same. */
  lemma {:induction false} CanonicalUnique(s: Trie, t: Trie)
    requires Canonical(s) && Canonical(t) && forall p :: In(s, p) <==> In(t, p)
    ensures s == t
    decreases s, 1
  {
    forall pe
      ensures pe in s.members <==> pe in t.members
    {
      InOne(s, pe);
      InOne(t, pe);
    }
    E.SortedUnique(s.members, t.members);
    NodesUnique(s.children, t.children, s, t);
  }

  lemma {:induction false} NodesUnique(xs: seq<Node>, ys: seq<Node>, s: Trie, t: Trie)
    requires CanonicalNodes(xs) && CanonicalNodes(ys) && xs == s.children && ys == t.children
    requires forall p :: |p| > 1 ==> (In(s, p) <==> In(t, p))
    ensures xs == ys
    decreases s, 0
  {
    forall pe
      ensures pe in Pes(xs) <==> pe in Pes(ys)
    {
      SamePe(xs, ys, s, t, pe);
      SamePe(ys, xs, t, s, pe);
    }
    E.SortedUnique(Pes(xs), Pes(ys));
    forall i | 0 <= i < |xs|
      ensures xs[i] == ys[i]
    {
      assert xs[i].pe == Pes(xs)[i] == Pes(ys)[i] == ys[i].pe;
      forall q
        ensures In(xs[i].sub, q) <==> In(ys[i].sub, q)
      {
        OnlyChild(xs, i, q);
        OnlyChild(ys, i, q);
        assert |[xs[i].pe] + q| > 1 || q == [];
        NoEmptyPath(xs[i].sub);
        NoEmptyPath(ys[i].sub);
      }
      assert CanonicalNode(xs[i]) && CanonicalNode(ys[i]);
      CanonicalUnique(xs[i].sub, ys[i].sub);
    }
  }

  /** In sorted children, the paths below a path element are those of its one child. */
  lemma {:induction false} OnlyChild(nodes: seq<Node>, i: nat, q: Path)
    requires E.Sorted(Pes(nodes)) && i < |nodes|
    ensures q != [] ==> (InNodes(nodes, [nodes[i].pe] + q) <==> In(nodes[i].sub, q))
  {
    if q != [] {
      var p := [nodes[i].pe] + q;
      assert p[1..] == q;
      forall j | 0 <= j < |nodes| && j != i
        ensures nodes[j].pe != nodes[i].pe
      {
        var pes := Pes(nodes);
        E.Irreflexive(pes[i]);
        assert Less(pes[if i < j then i else j], pes[if i < j then j else i]);
      }
      assert InNode(nodes[i], p) <==> In(nodes[i].sub, q);
    }
  }

  lemma {:induction false} SamePe(xs: seq<Node>, ys: seq<Node>, s: Trie, t: Trie, pe: PathElement)
    requires CanonicalNodes(xs) && xs == s.children && ys == t.children
    requires forall p :: |p| > 1 ==> (In(s, p) <==> In(t, p))
    ensures pe in Pes(xs) ==> pe in Pes(ys)
  {
    if pe in Pes(xs) {
      var i :| 0 <= i < |xs| && xs[i].pe == pe;
      assert CanonicalNode(xs[i]);
      var q := NonEmpty(xs[i].sub);
      NoEmptyPath(xs[i].sub);
      OnlyChild(xs, i, q);
      assert In(s, [pe] + q);
      assert InNodes(ys, [pe] + q);
      var j :| 0 <= j < |ys| && InNode(ys[j], [pe] + q);
      assert Pes(ys)[j] == pe;
    }
  }
}
