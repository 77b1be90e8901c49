/** Sorted sets of path elements. */
module ElementSets {
  import opened PathElements
  import opened Ordering

  predicate Sorted(xs: seq<PathElement>) {
    forall i, j | 0 <= i < j < |xs| :: Less(xs[i], xs[j])
  }

  function AsSet(xs: seq<PathElement>): set<PathElement> {
    set x | x in xs
  }

  /** Everything in `xs` comes before everything in `ys`. */
  predicate Before(xs: seq<PathElement>, ys: seq<PathElement>) {
    forall i, j | 0 <= i < |xs| && 0 <= j < |ys| :: Less(xs[i], ys[j])
  }

  lemma {:induction false} AsSetPush(xs: seq<PathElement>, x: PathElement)
    ensures AsSet(xs + [x]) == AsSet(xs) + {x}
  {
  }

  /** The next element of a prefix. */
  lemma {:induction false} AsSetNext(xs: seq<PathElement>, i: nat)
    requires i < |xs|
    ensures AsSet(xs[..i + 1]) == AsSet(xs[..i]) + {xs[i]}
  {
    assert xs[..i + 1] == xs[..i] + [xs[i]];
    AsSetPush(xs[..i], xs[i]);
  }

  lemma {:induction false} AsSetSplit(xs: seq<PathElement>, i: nat)
    requires i <= |xs|
    ensures AsSet(xs) == AsSet(xs[..i]) + AsSet(xs[i..])
  {
    assert xs == xs[..i] + xs[i..];
  }

  lemma {:induction false} AsSetConcat(xs: seq<PathElement>, ys: seq<PathElement>)
    ensures AsSet(xs + ys) == AsSet(xs) + AsSet(ys)
  {
  }

  /** Appending what comes after everything so far keeps the order. */
  lemma {:induction false} SortedConcat(xs: seq<PathElement>, ys: seq<PathElement>)
    requires Sorted(xs) && Sorted(ys) && Before(xs, ys)
    ensures Sorted(xs + ys)
  {
  }

  lemma {:induction false} BeforePush(xs: seq<PathElement>, x: PathElement, ys: seq<PathElement>)
    requires Before(xs, ys) && Before([x], ys)
    ensures Before(xs + [x], ys)
  {
  }

  /** A prefix before a suffix is before its head and before its tail. */
  lemma {:induction false} BeforeNext(xs: seq<PathElement>, ys: seq<PathElement>, j: nat)
    requires j < |ys| && Before(xs, ys[j..])
    ensures Before(xs, [ys[j]]) && Before(xs, ys[j + 1..])
  {
    assert ys[j..][0] == ys[j] && ys[j..][1..] == ys[j + 1..];
  }

  lemma {:induction false} SortedNext(ys: seq<PathElement>, j: nat)
    requires j < |ys| && Sorted(ys)
    ensures Before([ys[j]], ys[j + 1..])
  {
  }

  lemma {:induction false} Irreflexive(a: PathElement)
    ensures !Less(a, a)
  {
    Ordered(a, a);
  }

  lemma {:induction false} Antisymmetric(a: PathElement, b: PathElement)
    ensures !(Less(a, b) && Less(b, a))
    ensures !Less(a, b) && !Less(b, a) ==> a == b
  {
    Ordered(a, b);
  }

  /** What is below the head of a sorted sequence is below all of it. */
  lemma {:induction false} BelowAll(a: PathElement, xs: seq<PathElement>, i: nat)
    requires Sorted(xs) && i < |xs| && Less(a, xs[i])
    ensures Before([a], xs[i..])
  {
    forall j | 0 <= j < |xs[i..]|
      ensures Less(a, xs[i..][j])
    {
      if j > 0 {
        Transitive(a, xs[i], xs[i..][j]);
      }
    }
  }

  /** An element below the head of a sorted sequence is not in it. */
  lemma {:induction false} BelowHead(a: PathElement, xs: seq<PathElement>, i: nat)
    requires Sorted(xs) && i <= |xs| && (i < |xs| ==> Less(a, xs[i]))
    ensures a !in xs[i..]
  {
    if i < |xs| {
      BelowAll(a, xs, i);
      Irreflexive(a);
      assert [a][0] == a;
    }
  }

  /** Binary search for the first element that does not come before `pe`. */
  method Search(xs: seq<PathElement>, pe: PathElement) returns (loc: nat)
    requires Sorted(xs)
    ensures loc <= |xs|
    ensures forall i | 0 <= i < loc :: Less(xs[i], pe)
    ensures forall i | loc <= i < |xs| :: !Less(xs[i], pe)
  {
    loc := 0;
    var hi := |xs|;
    while loc < hi
      invariant 0 <= loc <= hi <= |xs|
      invariant forall i | 0 <= i < loc :: Less(xs[i], pe)
      invariant forall i | hi <= i < |xs| :: !Less(xs[i], pe)
    {
      var mid := (loc + hi) / 2;
      if Less(xs[mid], pe) {
        forall i | loc <= i < mid
          ensures Less(xs[i], pe)
        {
          Transitive(xs[i], xs[mid], pe);
        }
        loc := mid + 1;
      } else {
        forall i | mid < i < hi
          ensures !Less(xs[i], pe)
        {
          if Less(xs[i], pe) {
            Transitive(xs[mid], xs[i], pe);
          }
        }
        hi := mid;
      }
    }
  }

  /** Whether the element the search stops at is the one looked for. */
  lemma {:induction false} Found(xs: seq<PathElement>, pe: PathElement, loc: nat)
    requires Sorted(xs) && loc <= |xs|
    requires forall i | 0 <= i < loc :: Less(xs[i], pe)
    requires forall i | loc <= i < |xs| :: !Less(xs[i], pe)
    ensures pe in xs <==> loc < |xs| && xs[loc] == pe
    ensures pe !in xs ==> Before(xs[..loc], [pe]) && Before([pe], xs[loc..])
  {
    Irreflexive(pe);
    forall i | loc <= i < |xs|
      ensures xs[i] == pe || Less(pe, xs[i])
    {
      Antisymmetric(xs[i], pe);
    }
  }

  method Has(xs: seq<PathElement>, pe: PathElement) returns (has: bool)
    requires Sorted(xs)
    ensures has <==> pe in xs
  {
    var loc := Search(xs, pe);
    Found(xs, pe, loc);
    has := loc < |xs| && xs[loc] == pe;
  }

  method Insert(xs: seq<PathElement>, pe: PathElement) returns (out: seq<PathElement>)
    requires Sorted(xs)
    ensures Sorted(out) && AsSet(out) == AsSet(xs) + {pe}
  {
    var loc := Search(xs, pe);
    Found(xs, pe, loc);
    if loc == |xs| {
      out := xs + [pe];
    } else if xs[loc] == pe {
      out := xs;
    } else {
      out := xs[..loc] + [pe] + xs[loc..];
      assert [pe][0] == pe;
    }
  }

  method Union(xs: seq<PathElement>, ys: seq<PathElement>) returns (out: seq<PathElement>)
    requires Sorted(xs) && Sorted(ys)
    ensures Sorted(out) && AsSet(out) == AsSet(xs) + AsSet(ys)
  {
    out := [];
    var i, j := 0, 0;
    while i < |xs| && j < |ys|
      invariant 0 <= i <= |xs| && 0 <= j <= |ys|
      invariant Sorted(out) && Before(out, xs[i..]) && Before(out, ys[j..])
      invariant AsSet(out) == AsSet(xs[..i]) + AsSet(ys[..j])
    {
      AsSetNext(xs, i);
      AsSetNext(ys, j);
      BeforeNext(out, xs, i);
      BeforeNext(out, ys, j);
      SortedNext(xs, i);
      SortedNext(ys, j);
      if Less(xs[i], ys[j]) {
        BelowAll(xs[i], ys, j);
        Push(out, xs[i], xs[i + 1..], ys[j..]);
        out := out + [xs[i]];
        i := i + 1;
      } else {
        Antisymmetric(xs[i], ys[j]);
        if !Less(ys[j], xs[i]) {
          Push(out, ys[j], xs[i + 1..], ys[j + 1..]);
          out := out + [ys[j]];
          i := i + 1;
        } else {
          BelowAll(ys[j], xs, i);
          Push(out, ys[j], xs[i..], ys[j + 1..]);
          out := out + [ys[j]];
        }
        j := j + 1;
      }
    }
    AsSetSplit(xs, i);
    AsSetSplit(ys, j);
    if i < |xs| {
      AsSetConcat(out, xs[i..]);
      SortedConcat(out, xs[i..]);
      out := out + xs[i..];
    }
    if j < |ys| {
      AsSetConcat(out, ys[j..]);
      SortedConcat(out, ys[j..]);
      out := out + ys[j..];
    }
  }

  /** Appending an element that comes before both rests. */
  lemma {:induction false} Push(out: seq<PathElement>, x: PathElement, xs: seq<PathElement>, ys: seq<PathElement>)
    requires Sorted(out) && Before(out, [x]) && Before(out, xs) && Before(out, ys) && Before([x], xs) && Before([x], ys)
    ensures Sorted(out + [x]) && Before(out + [x], xs) && Before(out + [x], ys) && AsSet(out + [x]) == AsSet(out) + {x}
  {
    SortedConcat(out, [x]);
    BeforePush(out, x, xs);
    BeforePush(out, x, ys);
    AsSetPush(out, x);
  }

  method Intersection(xs: seq<PathElement>, ys: seq<PathElement>) returns (out: seq<PathElement>)
    requires Sorted(xs) && Sorted(ys)
    ensures Sorted(out) && AsSet(out) == AsSet(xs) * AsSet(ys)
  {
    out := [];
    var i, j := 0, 0;
    while i < |xs| && j < |ys|
      invariant 0 <= i <= |xs| && 0 <= j <= |ys|
      invariant Sorted(out) && Before(out, xs[i..])
      invariant AsSet(out) == AsSet(xs[..i]) * AsSet(ys)
      invariant AsSet(ys[..j]) !! AsSet(xs[i..])
    {
      AsSetNext(xs, i);
      AsSetNext(ys, j);
      AsSetSplit(ys, j);
      if Less(xs[i], ys[j]) {
        BelowHead(xs[i], ys, j);
        i := i + 1;
      } else {
        Antisymmetric(xs[i], ys[j]);
        if !Less(ys[j], xs[i]) {
          AsSetPush(out, xs[i]);
          out := out + [xs[i]];
          i := i + 1;
        }
        BelowHead(ys[j], xs, i);
        j := j + 1;
      }
    }
    AsSetSplit(xs, i);
    AsSetSplit(ys, j);
  }

  method Difference(xs: seq<PathElement>, ys: seq<PathElement>) returns (out: seq<PathElement>)
    requires Sorted(xs) && Sorted(ys)
    ensures Sorted(out) && AsSet(out) == AsSet(xs) - AsSet(ys)
  {
    out := [];
    var i, j := 0, 0;
    while i < |xs| && j < |ys|
      invariant 0 <= i <= |xs| && 0 <= j <= |ys|
      invariant Sorted(out) && Before(out, xs[i..])
      invariant AsSet(out) == AsSet(xs[..i]) - AsSet(ys)
      invariant AsSet(ys[..j]) !! AsSet(xs[i..])
    {
      AsSetNext(xs, i);
      AsSetNext(ys, j);
      AsSetSplit(ys, j);
      if Less(xs[i], ys[j]) {
        BelowHead(xs[i], ys, j);
        AsSetPush(out, xs[i]);
        out := out + [xs[i]];
        i := i + 1;
      } else {
        Antisymmetric(xs[i], ys[j]);
        if !Less(ys[j], xs[i]) {
          i := i + 1;
        }
        BelowHead(ys[j], xs, i);
        j := j + 1;
      }
    }
    AsSetSplit(xs, i);
    AsSetSplit(ys, j);
    if i < |xs| {
      AsSetConcat(out, xs[i..]);
      out := out + xs[i..];
    }
  }

  /** Sorted sequences with the same elements are the same. */
  lemma {:induction false} SortedUnique(xs: seq<PathElement>, ys: seq<PathElement>)
    requires Sorted(xs) && Sorted(ys) && AsSet(xs) == AsSet(ys)
    ensures xs == ys
  {
    EmptySet(xs);
    EmptySet(ys);
    if xs != [] {
      assert xs[0] in AsSet(ys);
      assert ys[0] in AsSet(xs);
      Antisymmetric(xs[0], ys[0]);
      HeadFirst(xs, ys[0]);
      HeadFirst(ys, xs[0]);
      BelowHead(xs[0], xs, 1);
      BelowHead(ys[0], ys, 1);
      assert AsSet(xs) == {xs[0]} + AsSet(xs[1..]);
      assert AsSet(ys) == {ys[0]} + AsSet(ys[1..]);
      SortedUnique(xs[1..], ys[1..]);
    }
  }

  lemma {:induction false} EmptySet(xs: seq<PathElement>)
    ensures AsSet(xs) == {} <==> xs == []
  {
    if xs != [] {
      assert xs[0] in AsSet(xs);
    }
  }

  lemma {:induction false} HeadFirst(xs: seq<PathElement>, x: PathElement)
    requires Sorted(xs) && x in xs
    ensures x == xs[0] || Less(xs[0], x)
  {
  }
}
