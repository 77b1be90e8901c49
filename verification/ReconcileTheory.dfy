/** What reconciliation does to each path, and why doing it twice changes nothing. */
module ReconcileTheory {
  import opened PathElements
  import opened Schemas
  import opened Reconciling
  import opened TrieOps

  /** The path leads, through types that are followed, to an atomic container. */
  predicate AtomicAt(s: Schema, tr: TypeRef, p: Path)
    decreases |p|
  {
    if p == [] then VisitOf(s, tr).Cut?
    else Follows(s, tr, p[0]) && AtomicAt(s, TypeBelow(s, tr, p[0]), p[1..])
  }

  /** A path is cut at the first atomic container it leads through, and only there. */
  lemma {:induction false} TruncatedFirst(s: Schema, tr: TypeRef, p: Path)
    ensures var q := Truncated(s, tr, p);
            q <= p && (q == p || AtomicAt(s, tr, q)) && forall i | 0 <= i < |q| :: !AtomicAt(s, tr, p[..i])
    decreases |p|
  {
    if !VisitOf(s, tr).Cut? && p != [] {
      var pe, rest := p[0], p[1..];
      if Follows(s, tr, pe) {
        var nt := TypeBelow(s, tr, pe);
        TruncatedFirst(s, nt, rest);
        var q := Truncated(s, nt, rest);
        assert p == [pe] + rest && ([pe] + q)[1..] == q;
        forall i | 0 <= i < |[pe] + q|
          ensures !AtomicAt(s, tr, p[..i])
        {
          if i > 0 {
            assert p[..i][1..] == rest[..i - 1] && p[..i][0] == pe;
          }
        }
      } else {
        forall i | 0 <= i < |p|
          ensures !AtomicAt(s, tr, p[..i])
        {
          if i > 0 {
            assert p[..i][0] == pe;
          }
        }
      }
    }
  }

  /** A path that starts with a cut is cut there. */
  lemma {:induction false} TruncatedThere(s: Schema, tr: TypeRef, p: Path, n: nat)
    requires n <= |p| && AtomicAt(s, tr, p[..n]) && forall i | 0 <= i < n :: !AtomicAt(s, tr, p[..i])
    ensures Truncated(s, tr, p) == p[..n]
  {
    TruncatedFirst(s, tr, p);
    var q := Truncated(s, tr, p);
    assert p[..|q|] == q;
    assert |q| <= n;
  }

  lemma {:induction false} TruncatedTwice(s: Schema, tr: TypeRef, p: Path)
    ensures Truncated(s, tr, Truncated(s, tr, p)) == Truncated(s, tr, p)
  {
    TruncatedFirst(s, tr, p);
    var q := Truncated(s, tr, p);
    TruncatedFirst(s, tr, q);
    var r := Truncated(s, tr, q);
    assert p[..|r|] == q[..|r|] == r;
  }

  lemma {:induction false} ResolvesPrefix(s: Schema, tr: TypeRef, p: Path, n: nat)
    requires Resolves(s, tr, p) && n <= |p|
    ensures Resolves(s, tr, p[..n])
    decreases |p|
  {
    if n > 0 && Follows(s, tr, p[0]) {
      ResolvesPrefix(s, TypeBelow(s, tr, p[0]), p[1..], n - 1);
      assert p[..n][1..] == p[1..][..n - 1];
    }
  }

  /** Reconciling a reconciled set succeeds and changes nothing more. */
  lemma {:induction false} ReconcileTwice(s: Schema, tr: TypeRef, paths: PathSet)
    requires Reconcile(s, tr, paths).Some?
    ensures Reconcile(s, tr, Reconcile(s, tr, paths).value) == Reconcile(s, tr, paths)
  {
    var once := Reconcile(s, tr, paths).value;
    forall q | q in once
      ensures Resolves(s, tr, q) && Truncate(s, tr, q) == q
    {
      var p :| p in paths && Truncate(s, tr, p) == q;
      TruncatedFirst(s, tr, p);
      ResolvesPrefix(s, tr, p, |q|);
      assert p[..|q|] == q;
      TruncatedTwice(s, tr, p);
    }
    assert (set p | p in once :: Truncate(s, tr, p)) == once;
  }

  /** The places where paths of the set are cut short. */
  function Cuts(s: Schema, tr: TypeRef, paths: PathSet): PathSet {
    set p | p in paths && Truncated(s, tr, p) != p :: Truncated(s, tr, p)
  }

  /** Removing every cut with all below it and adding the cuts again truncates every path. */
  lemma {:induction false} CutsTruncate(s: Schema, tr: TypeRef, paths: PathSet)
    requires !VisitOf(s, tr).Cut? && [] !in paths
    ensures Uncovered(paths, Cuts(s, tr, paths)) + Cuts(s, tr, paths) == set p | p in paths :: Truncate(s, tr, p)
  {
    var cuts := Cuts(s, tr, paths);
    forall p | p in paths
      ensures Truncated(s, tr, p) != p ==> Covered(p, cuts)
      ensures Covered(p, cuts) ==> Truncated(s, tr, p) in cuts
    {
      var q := Truncated(s, tr, p);
      TruncatedFirst(s, tr, p);
      if q != p {
        assert p[..|q|] == q && q in cuts;
        assert q != [];
      }
      if Covered(p, cuts) {
        var i :| 0 < i <= |p| && p[..i] in cuts;
        CutThere(s, tr, paths, p, i);
      }
    }
  }

  lemma {:induction false} CutThere(s: Schema, tr: TypeRef, paths: PathSet, p: Path, n: nat)
    requires n <= |p| && p[..n] in Cuts(s, tr, paths)
    ensures Truncated(s, tr, p) == p[..n]
  {
    var r :| r in paths && Truncated(s, tr, r) != r && Truncated(s, tr, r) == p[..n];
    TruncatedFirst(s, tr, r);
    forall i | 0 <= i < n
      ensures !AtomicAt(s, tr, p[..i])
    {
      assert r[..i] == p[..n][..i] == p[..i];
    }
    TruncatedThere(s, tr, p, n);
  }

  /** The cuts below one path element. */
  function CutsBelow(s: Schema, tr: TypeRef, paths: PathSet, pe: PathElement): PathSet {
    if Follows(s, tr, pe) then Under(pe, Cuts(s, TypeBelow(s, tr, pe), Below(paths, pe))) else {}
  }

  /** A path is cut exactly where its tail is cut below its head. */
  lemma {:induction false} CutsByHead(s: Schema, tr: TypeRef, paths: PathSet, q: Path)
    requires !VisitOf(s, tr).Cut? && [] !in paths
    ensures q in Cuts(s, tr, paths) <==> q != [] && q in CutsBelow(s, tr, paths, q[0])
  {
    if q in Cuts(s, tr, paths) {
      var p :| p in paths && Truncated(s, tr, p) != p && Truncated(s, tr, p) == q;
      var pe, rest := p[0], p[1..];
      assert Follows(s, tr, pe);
      var r := Truncated(s, TypeBelow(s, tr, pe), rest);
      assert q == [pe] + r && p == [pe] + rest && q[0] == pe && q[1..] == r;
      TruncatedFirst(s, TypeBelow(s, tr, pe), rest);
      assert rest != [];
      BelowIn(paths, pe, rest);
      UnderIn(pe, Cuts(s, TypeBelow(s, tr, pe), Below(paths, pe)), q);
    }
    if q != [] && q in CutsBelow(s, tr, paths, q[0]) {
      var pe := q[0];
      UnderIn(pe, Cuts(s, TypeBelow(s, tr, pe), Below(paths, pe)), q);
      var rest :| rest in Below(paths, pe) && Truncated(s, TypeBelow(s, tr, pe), rest) != rest &&
        Truncated(s, TypeBelow(s, tr, pe), rest) == q[1..];
      BelowIn(paths, pe, rest);
      var p := [pe] + rest;
      assert p[0] == pe && p[1..] == rest && q == [pe] + q[1..];
      assert Truncated(s, tr, p) == q;
    }
  }

  /** No error at the node or along any of the paths below it. */
  predicate AllResolve(s: Schema, tr: TypeRef, paths: PathSet) {
    !VisitOf(s, tr).Broken? && forall p | p in paths :: Resolves(s, tr, p)
  }

  /** ... which can be checked head by head. */
  lemma {:induction false} ResolveByHead(s: Schema, tr: TypeRef, paths: PathSet, heads: set<PathElement>)
    requires [] !in paths && !VisitOf(s, tr).Broken?
    requires forall pe :: pe in heads <==> [pe] in paths || Below(paths, pe) != {}
    ensures AllResolve(s, tr, paths) <==>
            forall pe | pe in heads && Follows(s, tr, pe) :: AllResolve(s, TypeBelow(s, tr, pe), Below(paths, pe))
  {
    if AllResolve(s, tr, paths) {
      forall pe | pe in heads && Follows(s, tr, pe)
        ensures AllResolve(s, TypeBelow(s, tr, pe), Below(paths, pe))
      {
        var nt := TypeBelow(s, tr, pe);
        forall r | [pe] + r in paths
          ensures Resolves(s, nt, r) && !VisitOf(s, nt).Broken?
        {
          assert ([pe] + r)[0] == pe && ([pe] + r)[1..] == r;
          assert Resolves(s, tr, [pe] + r);
        }
        forall r | r in Below(paths, pe)
          ensures [pe] + r in paths
        {
          BelowIn(paths, pe, r);
        }
        assert [pe] == [pe] + [];
      }
    }
    if forall pe | pe in heads && Follows(s, tr, pe) :: AllResolve(s, TypeBelow(s, tr, pe), Below(paths, pe)) {
      forall p | p in paths
        ensures Resolves(s, tr, p)
      {
        var pe, rest := p[0], p[1..];
        assert p == [pe] + rest;
        BelowIn(paths, pe, rest);
        if rest == [] {
          assert p == [pe];
        }
        assert pe in heads;
      }
    }
  }
}
