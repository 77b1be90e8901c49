/** Looking up, inserting and counting paths in the field-set trie. */
module TrieAccess {
  import opened Values
  import opened PathElements
  import E = ElementSets
  import opened Tries
  import opened TrieOps

  /** The child that `pe` selects, if there is one. */
  method Get(nodes: seq<Node>, pe: PathElement) returns (sub: Option<Trie>)
    requires CanonicalNodes(nodes)
    ensures sub.None? <==> pe !in Pes(nodes)
    ensures sub.Some? ==> Node(pe, sub.value) in nodes
  {
    var loc := E.Search(Pes(nodes), pe);
    E.Found(Pes(nodes), pe, loc);
    if loc == |nodes| {
      return None;
    }
    if nodes[loc].pe == pe {
      assert nodes[loc] == Node(pe, nodes[loc].sub);
      return Some(nodes[loc].sub);
    }
    return None;
  }

  /** The paths below `pe`. */
  method WithPrefix(t: Trie, pe: PathElement) returns (sub: Trie)
    requires Canonical(t)
    ensures Canonical(sub) && Paths(sub) == Below(Paths(t), pe)
  {
    var found := Get(t.children, pe);
    if found.None? {
      sub := EMPTY;
      BelowNoChild(t, pe);
      EmptyIs(EMPTY);
    } else {
      sub := found.value;
      BelowChild(t, Node(pe, sub));
      ghost var i :| 0 <= i < |t.children| && t.children[i] == Node(pe, sub);
      assert CanonicalNode(t.children[i]);
    }
  }

  method Has(t: Trie, path: Path) returns (has: bool)
    requires Canonical(t)
    ensures has <==> path in Paths(t)
  {
    NoEmptyPath(t);
    if path == [] {
      return false;
    }
    var s, p := t, path;
    while |p| > 1
      invariant p != [] && Canonical(s)
      invariant p in Paths(s) <==> path in Paths(t)
      decreases |p|
    {
      BelowIn(Paths(s), p[0], p[1..]);
      assert [p[0]] + p[1..] == p;
      var sub := Get(s.children, p[0]);
      if sub.None? {
        BelowNoChild(s, p[0]);
        return false;
      }
      BelowChild(s, Node(p[0], sub.value));
      ghost var i :| 0 <= i < |s.children| && s.children[i] == Node(p[0], sub.value);
      assert CanonicalNode(s.children[i]);
      s, p := sub.value, p[1..];
    }
    has := E.Has(s.members, p[0]);
    assert p == [p[0]];
    InOne(s, p[0]);
    PathsIn(s, p);
  }

  /** Adds a path; the empty path is not tracked. */
  method Insert(t: Trie, p: Path) returns (u: Trie)
    requires Canonical(t)
    ensures Canonical(u) && Paths(u) == Paths(t) + Tracked(p)
    decreases |p|
  {
    if p == [] {
      return t;
    }
    Denotes(t);
    if |p| == 1 {
      var members := E.Insert(t.members, p[0]);
      u := Trie(members, t.children);
      assert p == [p[0]];
      forall q
        ensures In(u, q) <==> In(t, q) || q == p
      {
        SplitIn(u, q);
        SplitIn(t, q);
      }
    } else {
      var children := InsertBelow(t.children, p);
      u := Trie(t.members, children);
      forall q
        ensures In(u, q) <==> In(t, q) || q == p
      {
        SplitIn(u, q);
        SplitIn(t, q);
      }
    }
    SamePaths(u, Paths(t) + {p});
  }

  /** Descends to the child of the first element, adding it if necessary. */
  method InsertBelow(nodes: seq<Node>, p: Path) returns (out: seq<Node>)
    requires CanonicalNodes(nodes) && |p| > 1
    ensures CanonicalNodes(out)
    ensures forall q :: InNodes(out, q) <==> InNodes(nodes, q) || q == p
    decreases |p|, 0
  {
    var pe, pes := p[0], Pes(nodes);
    var loc := E.Search(pes, pe);
    E.Found(pes, pe, loc);
    var found := loc < |nodes| && nodes[loc].pe == pe;
    var before := if found then nodes[loc].sub else EMPTY;
    assert found ==> CanonicalNode(nodes[loc]);
    var sub := Insert(before, p[1..]);
    var n := Node(pe, sub);
    assert InNode(n, p) && CanonicalNode(n) && forall q :: InNode(n, q) <==> q == p || InNode(Node(pe, before), q) by {
      InsertedNode(n, before, p);
    }
    out := nodes[..loc] + [n] + (if found then nodes[loc + 1..] else nodes[loc..]);
    Rebuilt(nodes, loc, n, found, p, out);
  }

  lemma {:induction false} InsertedNode(n: Node, before: Trie, p: Path)
    requires |p| > 1 && n.pe == p[0] && Canonical(n.sub) && Paths(n.sub) == Paths(before) + {p[1..]}
    ensures InNode(n, p) && CanonicalNode(n)
    ensures forall q :: InNode(n, q) <==> q == p || InNode(Node(n.pe, before), q)
  {
    Denotes(n.sub);
    Denotes(before);
    EmptyIs(n.sub);
    forall q
      ensures InNode(n, q) <==> q == p || InNode(Node(n.pe, before), q)
    {
      if |q| > 1 && q[0] == n.pe {
        assert q == [q[0]] + q[1..] && p == [p[0]] + p[1..];
      }
    }
  }

  /** Replacing the child of an element, or adding one in its place. */
  lemma {:induction false} Put(nodes: seq<Node>, loc: nat, n: Node, found: bool, out: seq<Node>)
    requires CanonicalNodes(nodes) && CanonicalNode(n) && loc <= |nodes|
    requires found ==> loc < |nodes| && nodes[loc].pe == n.pe
    requires !found ==> E.Before(Pes(nodes)[..loc], [n.pe]) && E.Before([n.pe], Pes(nodes)[loc..])
    requires out == nodes[..loc] + [n] + (if found then nodes[loc + 1..] else nodes[loc..])
    ensures CanonicalNodes(out)
    ensures forall p :: InNodes(out, p) <==> InNode(n, p) || (InNodes(nodes, p) && !Starts(p, n.pe))
  {
    var rest := if found then nodes[loc + 1..] else nodes[loc..];
    assert CanonicalNodes(out) by {
      var pes := Pes(nodes);
      assert [n.pe][0] == n.pe;
      assert Pes(out) == pes[..loc] + [n.pe] + (if found then pes[loc + 1..] else pes[loc..]);
    }
    NotThere(nodes, loc, n, found);
    NoPe(nodes[..loc], n.pe);
    NoPe(rest, n.pe);
    if found {
      NextNode(nodes, loc);
      SplitNodes(nodes, loc + 1);
    } else {
      SplitNodes(nodes, loc);
    }
    PushNode(nodes[..loc], n);
    ConcatNodes(nodes[..loc] + [n], rest);
  }

  lemma {:induction false} NotThere(nodes: seq<Node>, loc: nat, n: Node, found: bool)
    requires CanonicalNodes(nodes) && loc <= |nodes|
    requires found ==> loc < |nodes| && nodes[loc].pe == n.pe
    requires !found ==> E.Before(Pes(nodes)[..loc], [n.pe]) && E.Before([n.pe], Pes(nodes)[loc..])
    ensures n.pe !in Pes(nodes[..loc])
    ensures n.pe !in Pes(if found then nodes[loc + 1..] else nodes[loc..])
  {
    var pes := Pes(nodes);
    E.Irreflexive(n.pe);
    assert [n.pe][0] == n.pe;
    assert Pes(nodes[..loc]) == pes[..loc];
    assert Pes(nodes[loc..]) == pes[loc..];
    assert found ==> Pes(nodes[loc + 1..]) == pes[loc + 1..];
  }

  /** ... which inserts one path if the child has one path more than before. */
  lemma {:induction false} Rebuilt(nodes: seq<Node>, loc: nat, n: Node, found: bool, p: Path, out: seq<Node>)
    requires CanonicalNodes(nodes) && CanonicalNode(n) && loc <= |nodes|
    requires found ==> loc < |nodes| && nodes[loc].pe == n.pe
    requires !found ==> E.Before(Pes(nodes)[..loc], [n.pe]) && E.Before([n.pe], Pes(nodes)[loc..]) && n.pe !in Pes(nodes)
    requires var before := if found then nodes[loc].sub else EMPTY;
             forall q :: InNode(n, q) <==> q == p || InNode(Node(n.pe, before), q)
    requires out == nodes[..loc] + [n] + (if found then nodes[loc + 1..] else nodes[loc..])
    ensures CanonicalNodes(out) && forall q :: InNodes(out, q) <==> InNodes(nodes, q) || q == p
  {
    Put(nodes, loc, n, found, out);
    if found {
      assert nodes[loc] == Node(n.pe, nodes[loc].sub);
      HeadNode(nodes, loc);
    } else {
      NoPe(nodes, n.pe);
      Denotes(EMPTY);
      EmptyIs(EMPTY);
    }
    forall q
      ensures InNodes(out, q) <==> InNodes(nodes, q) || q == p
    {
      assert Starts(q, n.pe) ==> (InNodes(nodes, q) <==> InNode(Node(n.pe, if found then nodes[loc].sub else EMPTY), q));
    }
  }
}
