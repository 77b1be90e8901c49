/** The operations of the field-set trie, against the path sets they denote. */
module TrieOps {
  import opened PathElements
  import opened Ordering
  import E = ElementSets
  import opened Tries

  /** Membership in the trie is membership in its path set. */
  lemma {:induction false} Denotes(t: Trie)
    ensures forall p :: In(t, p) <==> p in Paths(t)
  {
    forall p
      ensures In(t, p) <==> p in Paths(t)
    {
      PathsIn(t, p);
    }
  }

  lemma {:induction false} PushNode(nodes: seq<Node>, n: Node)
    ensures Pes(nodes + [n]) == Pes(nodes) + [n.pe]
    ensures forall p :: InNodes(nodes + [n], p) <==> InNodes(nodes, p) || InNode(n, p)
    ensures CanonicalNodes(nodes) && CanonicalNode(n) && E.Before(Pes(nodes), [n.pe]) ==> CanonicalNodes(nodes + [n])
  {
    var all := nodes + [n];
    forall p
      ensures InNodes(all, p) <==> InNodes(nodes, p) || InNode(n, p)
    {
      if InNodes(nodes, p) {
        var i :| 0 <= i < |nodes| && InNode(nodes[i], p);
        assert InNode(all[i], p);
      }
      if InNode(n, p) {
        assert InNode(all[|nodes|], p);
      }
    }
    if CanonicalNodes(nodes) && CanonicalNode(n) && E.Before(Pes(nodes), [n.pe]) {
      E.SortedConcat(Pes(nodes), [n.pe]);
    }
  }

  lemma {:induction false} NextNode(nodes: seq<Node>, i: nat)
    requires i < |nodes|
    ensures forall p :: InNodes(nodes[..i + 1], p) <==> InNodes(nodes[..i], p) || InNode(nodes[i], p)
  {
    assert nodes[..i + 1] == nodes[..i] + [nodes[i]];
    PushNode(nodes[..i], nodes[i]);
  }

  lemma {:induction false} ConcatNodes(xs: seq<Node>, ys: seq<Node>)
    ensures Pes(xs + ys) == Pes(xs) + Pes(ys)
    ensures forall p :: InNodes(xs + ys, p) <==> InNodes(xs, p) || InNodes(ys, p)
    ensures CanonicalNodes(xs) && CanonicalNodes(ys) && E.Before(Pes(xs), Pes(ys)) ==> CanonicalNodes(xs + ys)
  {
    var all := xs + ys;
    forall p
      ensures InNodes(all, p) <==> InNodes(xs, p) || InNodes(ys, p)
    {
      if InNodes(xs, p) {
        var i :| 0 <= i < |xs| && InNode(xs[i], p);
        assert InNode(all[i], p);
      }
      if InNodes(ys, p) {
        var i :| 0 <= i < |ys| && InNode(ys[i], p);
        assert InNode(all[|xs| + i], p);
      }
    }
    if CanonicalNodes(xs) && CanonicalNodes(ys) && E.Before(Pes(xs), Pes(ys)) {
      E.SortedConcat(Pes(xs), Pes(ys));
    }
  }

  lemma {:induction false} SplitNodes(nodes: seq<Node>, i: nat)
    requires i <= |nodes|
    ensures forall p :: InNodes(nodes, p) <==> InNodes(nodes[..i], p) || InNodes(nodes[i..], p)
    ensures Pes(nodes[i..]) == Pes(nodes)[i..]
    ensures CanonicalNodes(nodes) ==> CanonicalNodes(nodes[i..])
  {
    assert nodes == nodes[..i] + nodes[i..];
    ConcatNodes(nodes[..i], nodes[i..]);
  }

  /** A trie denotes the combination of two others if its members and its children do. */
  lemma {:induction false} CombinePaths(u: Trie, s: Trie, t: Trie)
    requires E.AsSet(u.members) == E.AsSet(s.members) + E.AsSet(t.members)
    requires forall p :: InNodes(u.children, p) <==> InNodes(s.children, p) || InNodes(t.children, p)
    ensures Paths(u) == Paths(s) + Paths(t)
  {
    Denotes(s);
    Denotes(t);
    forall p
      ensures In(u, p) <==> In(s, p) || In(t, p)
    {
      if |p| == 1 {
        assert p[0] in u.members <==> p[0] in E.AsSet(u.members);
        assert p[0] in s.members <==> p[0] in E.AsSet(s.members);
        assert p[0] in t.members <==> p[0] in E.AsSet(t.members);
      }
    }
    SamePaths(u, Paths(s) + Paths(t));
  }

  method Union(s: Trie, t: Trie) returns (u: Trie)
    requires Canonical(s) && Canonical(t)
    ensures Canonical(u) && Paths(u) == Paths(s) + Paths(t)
    decreases s, 1
  {
    var members := E.Union(s.members, t.members);
    var children := UnionNodes(s.children, t.children);
    u := Trie(members, children);
    CombinePaths(u, s, t);
  }

  method UnionNodes(xs: seq<Node>, ys: seq<Node>) returns (out: seq<Node>)
    requires CanonicalNodes(xs) && CanonicalNodes(ys)
    ensures CanonicalNodes(out)
    ensures forall p :: InNodes(out, p) <==> InNodes(xs, p) || InNodes(ys, p)
    decreases xs, 0
  {
    out := [];
    var i, j := 0, 0;
    ghost var xp, yp := Pes(xs), Pes(ys);
    while i < |xs| && j < |ys|
      invariant 0 <= i <= |xs| && 0 <= j <= |ys|
      invariant CanonicalNodes(out) && E.Before(Pes(out), xp[i..]) && E.Before(Pes(out), yp[j..])
      invariant forall p :: InNodes(out, p) <==> InNodes(xs[..i], p) || InNodes(ys[..j], p)
    {
      NextNode(xs, i);
      NextNode(ys, j);
      E.BeforeNext(Pes(out), xp, i);
      E.BeforeNext(Pes(out), yp, j);
      E.SortedNext(xp, i);
      E.SortedNext(yp, j);
      assert CanonicalNode(xs[i]) && CanonicalNode(ys[j]);
      if Less(xs[i].pe, ys[j].pe) {
        E.BelowAll(xp[i], yp, j);
        PushNode(out, xs[i]);
        E.Push(Pes(out), xp[i], xp[i + 1..], yp[j..]);
        out := out + [xs[i]];
        i := i + 1;
      } else if !Less(ys[j].pe, xs[i].pe) {
        E.Antisymmetric(xs[i].pe, ys[j].pe);
        var n := UnionNode(xs[i], ys[j]);
        PushNode(out, n);
        E.Push(Pes(out), n.pe, xp[i + 1..], yp[j + 1..]);
        out := out + [n];
        i := i + 1;
        j := j + 1;
      } else {
        E.BelowAll(yp[j], xp, i);
        PushNode(out, ys[j]);
        E.Push(Pes(out), yp[j], xp[i..], yp[j + 1..]);
        out := out + [ys[j]];
        j := j + 1;
      }
    }
    SplitNodes(xs, i);
    SplitNodes(ys, j);
    if i < |xs| {
      ConcatNodes(out, xs[i..]);
      out := out + xs[i..];
    }
    if j < |ys| {
      ConcatNodes(out, ys[j..]);
      out := out + ys[j..];
    }
  }

  method UnionNode(x: Node, y: Node) returns (n: Node)
    requires CanonicalNode(x) && CanonicalNode(y) && x.pe == y.pe
    ensures n.pe == x.pe && CanonicalNode(n)
    ensures forall p :: InNode(n, p) <==> InNode(x, p) || InNode(y, p)
    decreases x, 2
  {
    var sub := Union(x.sub, y.sub);
    n := Node(x.pe, sub);
    Denotes(sub);
    Denotes(x.sub);
    Denotes(y.sub);
    ghost var p := NonEmpty(x.sub);
    assert In(sub, p);
  }

  /** Whether the trie has no path; it need not be canonical. */
  method Empty(t: Trie) returns (empty: bool)
    ensures empty <==> Paths(t) == {}
    decreases t, 1
  {
    if |t.members| > 0 {
      assert [t.members[0]] in Paths(t);
      return false;
    }
    empty := true;
    var i := 0;
    while i < |t.children|
      invariant 0 <= i <= |t.children|
      invariant forall x | 0 <= x < i :: PathsBelow(t.children[x]) == {}
    {
      empty := EmptyNode(t.children[i]);
      if !empty {
        ghost var p :| p in PathsBelow(t.children[i]);
        assert p in NodePaths(t.children);
        return;
      }
      i := i + 1;
    }
    assert NodePaths(t.children) == {};
    empty := true;
  }

  method EmptyNode(n: Node) returns (empty: bool)
    ensures empty <==> PathsBelow(n) == {}
    decreases n, 2
  {
    empty := Empty(n.sub);
    if !empty {
      ghost var q :| q in Paths(n.sub);
      assert [n.pe] + q in PathsBelow(n);
    }
  }

  /** For canonical tries, having no path is being the empty trie. */
  lemma {:induction false} EmptyIs(t: Trie)
    requires Canonical(t)
    ensures Paths(t) == {} <==> t == EMPTY
  {
    Denotes(t);
    if t != EMPTY {
      var p := NonEmpty(t);
    } else {
      assert forall p :: !InNodes([], p);
    }
  }

  /** One-element paths are members; longer ones lie below a child. */
  lemma {:induction false} SplitIn(t: Trie, p: Path)
    ensures In(t, p) <==> if |p| == 1 then p[0] in E.AsSet(t.members) else InNodes(t.children, p)
    ensures |p| <= 1 ==> !InNodes(t.children, p)
  {
    if |p| <= 1 {
      assert forall i | 0 <= i < |t.children| :: !InNode(t.children[i], p);
    }
  }

  /** A path below the nodes starts with one of their path elements. */
  lemma {:induction false} NoPe(nodes: seq<Node>, pe: PathElement)
    requires pe !in Pes(nodes)
    ensures forall p | p != [] && p[0] == pe :: !InNodes(nodes, p)
  {
    forall p | InNodes(nodes, p)
      ensures p != [] && p[0] != pe
    {
      var i :| 0 <= i < |nodes| && InNode(nodes[i], p);
      assert Pes(nodes)[i] in Pes(nodes);
    }
  }

  /** In sorted nodes, the paths that start with a node's path element are that node's. */
  lemma {:induction false} HeadNode(nodes: seq<Node>, j: nat)
    requires E.Sorted(Pes(nodes)) && j < |nodes|
    ensures forall p | p != [] && p[0] == nodes[j].pe :: InNodes(nodes, p) <==> InNode(nodes[j], p)
  {
    forall p | p != [] && p[0] == nodes[j].pe
      ensures InNodes(nodes, p) <==> InNode(nodes[j], p)
    {
      if |p| > 1 {
        OnlyChild(nodes, j, p[1..]);
        assert p == [nodes[j].pe] + p[1..];
      } else {
        assert forall i | 0 <= i < |nodes| :: !InNode(nodes[i], p);
      }
    }
  }

  /** An element before the rest of a sorted sequence and apart from its prefix is not in it. */
  lemma {:induction false} NotIn(pe: PathElement, ks: seq<PathElement>, j: nat)
    requires E.Sorted(ks) && j <= |ks| && (j < |ks| ==> Less(pe, ks[j])) && pe !in ks[..j]
    ensures pe !in ks
  {
    E.BelowHead(pe, ks, j);
    assert ks == ks[..j] + ks[j..];
  }

  method Intersection(s: Trie, t: Trie) returns (u: Trie)
    requires Canonical(s) && Canonical(t)
    ensures Canonical(u) && Paths(u) == Paths(s) * Paths(t)
    decreases s, 1
  {
    var members := E.Intersection(s.members, t.members);
    var children := IntersectNodes(s.children, t.children);
    u := Trie(members, children);
    Denotes(s);
    Denotes(t);
    forall p
      ensures In(u, p) <==> In(s, p) && In(t, p)
    {
      SplitIn(u, p);
      SplitIn(s, p);
      SplitIn(t, p);
    }
    SamePaths(u, Paths(s) * Paths(t));
  }

  method IntersectNode(x: Node, y: Node) returns (n: Node, some: bool)
    requires CanonicalNode(x) && CanonicalNode(y) && x.pe == y.pe
    ensures n.pe == x.pe && (some ==> CanonicalNode(n))
    ensures forall p :: some && InNode(n, p) <==> InNode(x, p) && InNode(y, p)
    decreases x, 2
  {
    var sub := Intersection(x.sub, y.sub);
    n := Node(x.pe, sub);
    var none := Empty(sub);
    some := !none;
    Denotes(sub);
    Denotes(x.sub);
    Denotes(y.sub);
    EmptyIs(sub);
    assert forall p :: In(sub, p) <==> In(x.sub, p) && In(y.sub, p);
    assert none ==> forall p :: !In(sub, p);
  }

  method IntersectNodes(xs: seq<Node>, ys: seq<Node>) returns (out: seq<Node>)
    requires CanonicalNodes(xs) && CanonicalNodes(ys)
    ensures CanonicalNodes(out)
    ensures forall p :: InNodes(out, p) <==> InNodes(xs, p) && InNodes(ys, p)
    decreases xs, 0
  {
    out := [];
    var i, j := 0, 0;
    ghost var xp, yp := Pes(xs), Pes(ys);
    while i < |xs| && j < |ys|
      invariant 0 <= i <= |xs| && 0 <= j <= |ys|
      invariant CanonicalNodes(out) && E.Before(Pes(out), xp[i..])
      invariant forall p :: InNodes(out, p) <==> InNodes(xs[..i], p) && InNodes(ys, p)
      invariant Separate(xp, yp, i, j)
    {
      NextNode(xs, i);
      E.BeforeNext(Pes(out), xp, i);
      E.SortedNext(xp, i);
      assert CanonicalNode(xs[i]) && CanonicalNode(ys[j]);
      if Less(xs[i].pe, ys[j].pe) {
        SkipLeft(xp, yp, i, j);
        NoPe(ys, xp[i]);
        i := i + 1;
      } else if !Less(ys[j].pe, xs[i].pe) {
        E.Antisymmetric(xs[i].pe, ys[j].pe);
        SkipBoth(xp, yp, i, j);
        HeadNode(ys, j);
        var n, some := IntersectNode(xs[i], ys[j]);
        if some {
          PushNode(out, n);
          E.BeforePush(Pes(out), n.pe, xp[i + 1..]);
          out := out + [n];
        }
        i := i + 1;
        j := j + 1;
      } else {
        SkipRight(xp, yp, i, j);
        j := j + 1;
      }
    }
    Exhausted(xs, ys, i, j);
    SplitNodes(xs, i);
  }

  /** What was passed on the right is not ahead on the left. */
  predicate Separate(xp: seq<PathElement>, yp: seq<PathElement>, i: nat, j: nat)
    requires i <= |xp| && j <= |yp|
  {
    forall k | k in yp[..j] :: k !in xp[i..]
  }

  lemma {:induction false} SkipLeft(xp: seq<PathElement>, yp: seq<PathElement>, i: nat, j: nat)
    requires E.Sorted(xp) && E.Sorted(yp) && i < |xp| && j < |yp| && Less(xp[i], yp[j]) && Separate(xp, yp, i, j)
    ensures xp[i] !in yp && Separate(xp, yp, i + 1, j)
  {
    assert xp[i] in xp[i..];
    NotIn(xp[i], yp, j);
    assert xp[i..] == [xp[i]] + xp[i + 1..];
  }

  lemma {:induction false} SkipRight(xp: seq<PathElement>, yp: seq<PathElement>, i: nat, j: nat)
    requires E.Sorted(xp) && E.Sorted(yp) && i < |xp| && j < |yp| && Less(yp[j], xp[i]) && Separate(xp, yp, i, j)
    ensures Separate(xp, yp, i, j + 1)
  {
    E.BelowHead(yp[j], xp, i);
    assert yp[..j + 1] == yp[..j] + [yp[j]];
  }

  lemma {:induction false} SkipBoth(xp: seq<PathElement>, yp: seq<PathElement>, i: nat, j: nat)
    requires E.Sorted(xp) && E.Sorted(yp) && i < |xp| && j < |yp| && yp[j] == xp[i] && Separate(xp, yp, i, j)
    ensures Separate(xp, yp, i + 1, j + 1)
  {
    E.BelowHead(yp[j], xp, i + 1);
    assert yp[..j + 1] == yp[..j] + [yp[j]];
    assert xp[i..] == [xp[i]] + xp[i + 1..];
  }

  /** When one side is used up, the rest of the left has no path in common with the right. */
  lemma {:induction false} Exhausted(xs: seq<Node>, ys: seq<Node>, i: nat, j: nat)
    requires i <= |xs| && j <= |ys| && (i == |xs| || j == |ys|) && Separate(Pes(xs), Pes(ys), i, j)
    ensures forall p :: InNodes(xs[i..], p) ==> !InNodes(ys, p)
  {
    if i < |xs| {
      assert Pes(ys)[..j] == Pes(ys);
      forall x | 0 <= x < |xs[i..]|
        ensures forall p | p != [] && p[0] == xs[i..][x].pe :: !InNodes(ys, p)
      {
        assert Pes(xs)[i..][x] == xs[i..][x].pe;
        NoPe(ys, xs[i..][x].pe);
      }
      forall p | InNodes(xs[i..], p)
        ensures !InNodes(ys, p)
      {
        var x :| 0 <= x < |xs[i..]| && InNode(xs[i..][x], p);
      }
    }
  }

  /** Exact path difference: a path below a removed one stays. */
  method Difference(s: Trie, t: Trie) returns (u: Trie)
    requires Canonical(s) && Canonical(t)
    ensures Canonical(u) && Paths(u) == Paths(s) - Paths(t)
    decreases s, 1
  {
    var members := E.Difference(s.members, t.members);
    var children := DifferenceNodes(s.children, t.children);
    u := Trie(members, children);
    Denotes(s);
    Denotes(t);
    forall p
      ensures In(u, p) <==> In(s, p) && !In(t, p)
    {
      SplitIn(u, p);
      SplitIn(s, p);
      SplitIn(t, p);
    }
    SamePaths(u, Paths(s) - Paths(t));
  }

  method DifferenceNode(x: Node, y: Node) returns (n: Node, some: bool)
    requires CanonicalNode(x) && CanonicalNode(y) && x.pe == y.pe
    ensures n.pe == x.pe && (some ==> CanonicalNode(n))
    ensures forall p :: some && InNode(n, p) <==> InNode(x, p) && !InNode(y, p)
    decreases x, 2
  {
    var sub := Difference(x.sub, y.sub);
    n := Node(x.pe, sub);
    var none := Empty(sub);
    some := !none;
    Denotes(sub);
    Denotes(x.sub);
    Denotes(y.sub);
    EmptyIs(sub);
    assert forall p :: In(sub, p) <==> In(x.sub, p) && !In(y.sub, p);
    assert none ==> forall p :: !In(sub, p);
  }

  method DifferenceNodes(xs: seq<Node>, ys: seq<Node>) returns (out: seq<Node>)
    requires CanonicalNodes(xs) && CanonicalNodes(ys)
    ensures CanonicalNodes(out)
    ensures forall p :: InNodes(out, p) <==> InNodes(xs, p) && !InNodes(ys, p)
    decreases xs, 0
  {
    out := [];
    var i, j := 0, 0;
    ghost var xp, yp := Pes(xs), Pes(ys);
    while i < |xs| && j < |ys|
      invariant 0 <= i <= |xs| && 0 <= j <= |ys|
      invariant CanonicalNodes(out) && E.Before(Pes(out), xp[i..])
      invariant forall p :: InNodes(out, p) <==> InNodes(xs[..i], p) && !InNodes(ys, p)
      invariant Separate(xp, yp, i, j)
    {
      NextNode(xs, i);
      E.BeforeNext(Pes(out), xp, i);
      E.SortedNext(xp, i);
      assert CanonicalNode(xs[i]) && CanonicalNode(ys[j]);
      if Less(xs[i].pe, ys[j].pe) {
        SkipLeft(xp, yp, i, j);
        NoPe(ys, xp[i]);
        PushNode(out, xs[i]);
        E.BeforePush(Pes(out), xp[i], xp[i + 1..]);
        out := out + [xs[i]];
        i := i + 1;
      } else if !Less(ys[j].pe, xs[i].pe) {
        E.Antisymmetric(xs[i].pe, ys[j].pe);
        SkipBoth(xp, yp, i, j);
        HeadNode(ys, j);
        var n, some := DifferenceNode(xs[i], ys[j]);
        if some {
          PushNode(out, n);
          E.BeforePush(Pes(out), n.pe, xp[i + 1..]);
          out := out + [n];
        }
        i := i + 1;
        j := j + 1;
      } else {
        SkipRight(xp, yp, i, j);
        j := j + 1;
      }
    }
    Exhausted(xs, ys, i, j);
    SplitNodes(xs, i);
    if i < |xs| {
      ConcatNodes(out, xs[i..]);
      out := out + xs[i..];
    }
  }

  /** The paths that have no prefix in the other set. */
  function Uncovered(paths: PathSet, other: PathSet): PathSet {
    set p | p in paths && !Covered(p, other)
  }

  /** Removes every path of the other set together with everything below it. */
  method RecursiveDifference(s: Trie, t: Trie) returns (u: Trie)
    requires Canonical(s) && Canonical(t)
    ensures Canonical(u) && Paths(u) == Uncovered(Paths(s), Paths(t))
    decreases s, 1
  {
    var members := E.Difference(s.members, t.members);
    var children := RecursiveDifferenceNodes(s.children, t);
    u := Trie(members, children);
    Denotes(s);
    Denotes(t);
    forall p
      ensures In(u, p) <==> p in Uncovered(Paths(s), Paths(t))
    {
      SplitIn(u, p);
      SplitIn(s, p);
      NoEmptyPath(s);
      NoEmptyPath(u);
      if |p| == 1 {
        InOne(t, p[0]);
        assert p == [p[0]] && p[..1] == p;
      }
    }
    SamePaths(u, Uncovered(Paths(s), Paths(t)));
  }

  method RecursiveDifferenceNode(x: Node, y: Node, ghost t: Trie) returns (n: Node, some: bool)
    requires CanonicalNode(x) && CanonicalNode(y) && x.pe == y.pe && Canonical(t)
    requires y in t.children && x.pe !in t.members
    ensures n.pe == x.pe && (some ==> CanonicalNode(n))
    ensures forall p :: some && InNode(n, p) <==> InNode(x, p) && !Covered(p, Paths(t))
    decreases x, 2
  {
    var sub := RecursiveDifference(x.sub, y.sub);
    n := Node(x.pe, sub);
    var none := Empty(sub);
    some := !none;
    Denotes(sub);
    Denotes(x.sub);
    EmptyIs(sub);
    assert none ==> forall p :: !In(sub, p);
    BelowChild(t, y);
    InOne(t, x.pe);
    Denotes(t);
    forall p
      ensures some && InNode(n, p) <==> InNode(x, p) && !Covered(p, Paths(t))
    {
      if |p| > 1 && p[0] == x.pe {
        assert InNode(n, p) <==> In(sub, p[1..]);
        CoveredStep(p, Paths(t));
        assert Covered(p, Paths(t)) <==> Covered(p[1..], Paths(y.sub));
        assert In(sub, p[1..]) <==> In(x.sub, p[1..]) && !Covered(p[1..], Paths(y.sub));
      }
    }
  }

  /** The paths below a child's path element are the child's. */
  lemma {:induction false} BelowChild(t: Trie, n: Node)
    requires Canonical(t) && n in t.children
    ensures Below(Paths(t), n.pe) == Paths(n.sub)
  {
    var i :| 0 <= i < |t.children| && t.children[i] == n;
    Denotes(t);
    Denotes(n.sub);
    NoEmptyPath(n.sub);
    forall q
      ensures q in Below(Paths(t), n.pe) <==> q in Paths(n.sub)
    {
      BelowIn(Paths(t), n.pe, q);
      if q != [] {
        OnlyChild(t.children, i, q);
        SplitIn(t, [n.pe] + q);
      }
    }
  }

  /** Without a child there are no paths below. */
  lemma {:induction false} BelowNoChild(t: Trie, pe: PathElement)
    requires pe !in Pes(t.children)
    ensures Below(Paths(t), pe) == {}
  {
    Denotes(t);
    NoPe(t.children, pe);
    forall q
      ensures q !in Below(Paths(t), pe)
    {
      BelowIn(Paths(t), pe, q);
      if q != [] {
        SplitIn(t, [pe] + q);
      }
    }
  }

  /** A node whose element the other trie has no child for is dropped or kept as a whole. */
  lemma {:induction false} KeptWhole(x: Node, t: Trie)
    requires x.pe !in Pes(t.children)
    ensures forall p | InNode(x, p) :: Covered(p, Paths(t)) <==> x.pe in t.members
  {
    BelowNoChild(t, x.pe);
    InOne(t, x.pe);
    Denotes(t);
    forall p | InNode(x, p)
      ensures Covered(p, Paths(t)) <==> x.pe in t.members
    {
      CoveredStep(p, Paths(t));
    }
  }

  lemma {:induction false} DroppedWhole(x: Node, t: Trie)
    requires x.pe in t.members
    ensures forall p | InNode(x, p) :: Covered(p, Paths(t))
  {
    InOne(t, x.pe);
    Denotes(t);
    forall p | InNode(x, p)
      ensures Covered(p, Paths(t))
    {
      CoveredStep(p, Paths(t));
    }
  }

  method RecursiveDifferenceNodes(xs: seq<Node>, t: Trie) returns (out: seq<Node>)
    requires CanonicalNodes(xs) && Canonical(t)
    ensures CanonicalNodes(out)
    ensures forall p :: InNodes(out, p) <==> InNodes(xs, p) && !Covered(p, Paths(t))
    decreases xs, 0
  {
    out := [];
    var ys := t.children;
    var i, j := 0, 0;
    ghost var xp, yp := Pes(xs), Pes(ys);
    while i < |xs| && j < |ys|
      invariant 0 <= i <= |xs| && 0 <= j <= |ys|
      invariant CanonicalNodes(out) && E.Before(Pes(out), xp[i..])
      invariant forall p :: InNodes(out, p) <==> InNodes(xs[..i], p) && !Covered(p, Paths(t))
      invariant Separate(xp, yp, i, j)
    {
      NextNode(xs, i);
      E.BeforeNext(Pes(out), xp, i);
      E.SortedNext(xp, i);
      assert CanonicalNode(xs[i]) && CanonicalNode(ys[j]);
      if Less(xs[i].pe, ys[j].pe) {
        SkipLeft(xp, yp, i, j);
        KeptWhole(xs[i], t);
        var has := E.Has(t.members, xs[i].pe);
        if !has {
          PushNode(out, xs[i]);
          E.BeforePush(Pes(out), xp[i], xp[i + 1..]);
          out := out + [xs[i]];
        }
        i := i + 1;
      } else if !Less(ys[j].pe, xs[i].pe) {
        E.Antisymmetric(xs[i].pe, ys[j].pe);
        SkipBoth(xp, yp, i, j);
        var has := E.Has(t.members, xs[i].pe);
        if !has {
          var n, some := RecursiveDifferenceNode(xs[i], ys[j], t);
          if some {
            PushNode(out, n);
            E.BeforePush(Pes(out), n.pe, xp[i + 1..]);
            out := out + [n];
          }
        } else {
          DroppedWhole(xs[i], t);
        }
        i := i + 1;
        j := j + 1;
      } else {
        SkipRight(xp, yp, i, j);
        j := j + 1;
      }
    }
    if i < |xs| {
      assert yp[..j] == yp;
    }
    out := KeepUncovered(xs, i, t, out);
  }

  /** The rest of the nodes has no children in common with the other trie: each is kept or dropped as a whole. */
  method KeepUncovered(xs: seq<Node>, start: nat, t: Trie, before: seq<Node>) returns (out: seq<Node>)
    requires CanonicalNodes(xs) && Canonical(t) && start <= |xs|
    requires CanonicalNodes(before) && E.Before(Pes(before), Pes(xs)[start..])
    requires forall x | start <= x < |xs| :: xs[x].pe !in Pes(t.children)
    requires forall p :: InNodes(before, p) <==> InNodes(xs[..start], p) && !Covered(p, Paths(t))
    ensures CanonicalNodes(out)
    ensures forall p :: InNodes(out, p) <==> InNodes(xs, p) && !Covered(p, Paths(t))
  {
    out := before;
    ghost var xp := Pes(xs);
    for i := start to |xs|
      invariant CanonicalNodes(out) && E.Before(Pes(out), xp[i..])
      invariant forall p :: InNodes(out, p) <==> InNodes(xs[..i], p) && !Covered(p, Paths(t))
    {
      NextNode(xs, i);
      E.BeforeNext(Pes(out), xp, i);
      E.SortedNext(xp, i);
      assert CanonicalNode(xs[i]);
      KeptWhole(xs[i], t);
      var has := E.Has(t.members, xs[i].pe);
      if !has {
        PushNode(out, xs[i]);
        E.BeforePush(Pes(out), xp[i], xp[i + 1..]);
        out := out + [xs[i]];
      }
    }
    assert xs[..|xs|] == xs;
  }
}
