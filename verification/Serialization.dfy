/** Field sets as JSON objects whose keys are path elements, and back. */
module Serialization {
  import opened Values
  import opened PathElements
  import opened Ordering
  import E = ElementSets
  import opened Tries
  import opened TrieOps
  import opened TrieAccess

  /** `Dot` marks the object itself as a member; unknown kinds of keys are skipped by the reader. */
  datatype JsonKey = Dot | Elem(pe: PathElement) | Unknown(text: string)

  datatype Json = Object(entries: seq<Entry>)

  datatype Entry = Entry(key: JsonKey, value: Json)

  const EMPTY_OBJECT := Object([])

  /** The object that stands for a set, with a dot if the set's own path is a member as well. */
  function Encoded(t: Trie, includeSelf: bool): seq<Entry>
    decreases t, 1
  {
    (if includeSelf && t != EMPTY then [Entry(Dot, EMPTY_OBJECT)] else []) + Listed(t.members, t.children)
  }

  /** Members and children by ascending path element; one entry where an element is both. */
  function Listed(ms: seq<PathElement>, nodes: seq<Node>): seq<Entry>
    decreases nodes, 0, |ms|
  {
    if ms == [] && nodes == [] then []
    else if nodes == [] || (ms != [] && Compare(ms[0], nodes[0].pe) < 0) then
      [Entry(Elem(ms[0]), EMPTY_OBJECT)] + Listed(ms[1..], nodes)
    else if ms == [] || Compare(ms[0], nodes[0].pe) > 0 then
      [EncodedNode(nodes[0], false)] + Listed(ms, nodes[1..])
    else
      [EncodedNode(nodes[0], true)] + Listed(ms[1..], nodes[1..])
  }

  function EncodedNode(n: Node, includeSelf: bool): Entry
    decreases n, 2
  {
    Entry(Elem(n.pe), Object(Encoded(n.sub, includeSelf)))
  }

  method EmitContents(t: Trie, includeSelf: bool) returns (out: seq<Entry>)
    ensures out == Encoded(t, includeSelf)
    decreases t, 1
  {
    out := [];
    if includeSelf && !(|t.members| == 0 && |t.children| == 0) {
      out := [Entry(Dot, EMPTY_OBJECT)];
    }
    var rest := EmitListed(t.members, t.children);
    out := out + rest;
  }

  /** Writes the entries in one pass over members and children. */
  method EmitListed(ms: seq<PathElement>, nodes: seq<Node>) returns (out: seq<Entry>)
    ensures out == Listed(ms, nodes)
    decreases nodes, 0
  {
    out := [];
    assert ms[0..] == ms && nodes[0..] == nodes;
    var mi, ci := 0, 0;
    while mi < |ms| && ci < |nodes|
      invariant 0 <= mi <= |ms| && 0 <= ci <= |nodes|
      invariant out + Listed(ms[mi..], nodes[ci..]) == Listed(ms, nodes)
    {
      var c := Compare(ms[mi], nodes[ci].pe);
      ListedStep(ms, nodes, mi, ci);
      if c < 0 {
        Append(out, Entry(Elem(ms[mi]), EMPTY_OBJECT), Listed(ms[mi + 1..], nodes[ci..]));
        out := out + [Entry(Elem(ms[mi]), EMPTY_OBJECT)];
        mi := mi + 1;
      } else if c > 0 {
        var e := EmitNode(nodes[ci], false);
        Append(out, e, Listed(ms[mi..], nodes[ci + 1..]));
        out := out + [e];
        ci := ci + 1;
      } else {
        var e := EmitNode(nodes[ci], true);
        Append(out, e, Listed(ms[mi + 1..], nodes[ci + 1..]));
        out := out + [e];
        mi := mi + 1;
        ci := ci + 1;
      }
    }
    while mi < |ms|
      invariant 0 <= mi <= |ms| && 0 <= ci <= |nodes| && (mi < |ms| ==> ci == |nodes|)
      invariant out + Listed(ms[mi..], nodes[ci..]) == Listed(ms, nodes)
    {
      ListedStep(ms, nodes, mi, ci);
      Append(out, Entry(Elem(ms[mi]), EMPTY_OBJECT), Listed(ms[mi + 1..], nodes[ci..]));
      out := out + [Entry(Elem(ms[mi]), EMPTY_OBJECT)];
      mi := mi + 1;
    }
    while ci < |nodes|
      invariant 0 <= ci <= |nodes|
      invariant out + Listed(ms[mi..], nodes[ci..]) == Listed(ms, nodes)
    {
      ListedStep(ms, nodes, mi, ci);
      var e := EmitNode(nodes[ci], false);
      Append(out, e, Listed(ms[mi..], nodes[ci + 1..]));
      out := out + [e];
      ci := ci + 1;
    }
  }

  lemma {:induction false} Append<T>(xs: seq<T>, x: T, ys: seq<T>)
    ensures xs + ([x] + ys) == (xs + [x]) + ys
  {
  }

  /** What is written next at positions `mi` and `ci`. */
  lemma {:induction false} ListedStep(ms: seq<PathElement>, nodes: seq<Node>, mi: nat, ci: nat)
    requires mi <= |ms| && ci <= |nodes| && (mi < |ms| || ci < |nodes|)
    ensures var now := Listed(ms[mi..], nodes[ci..]);
            if ci == |nodes| || (mi < |ms| && Compare(ms[mi], nodes[ci].pe) < 0) then
              now == [Entry(Elem(ms[mi]), EMPTY_OBJECT)] + Listed(ms[mi + 1..], nodes[ci..])
            else if mi == |ms| || Compare(ms[mi], nodes[ci].pe) > 0 then
              now == [EncodedNode(nodes[ci], false)] + Listed(ms[mi..], nodes[ci + 1..])
            else
              now == [EncodedNode(nodes[ci], true)] + Listed(ms[mi + 1..], nodes[ci + 1..])
  {
    if mi < |ms| {
      Rest(ms, mi);
    }
    if ci < |nodes| {
      Rest(nodes, ci);
    }
  }

  method EmitNode(n: Node, includeSelf: bool) returns (e: Entry)
    ensures e == EncodedNode(n, includeSelf)
    decreases n, 2
  {
    var entries := EmitContents(n.sub, includeSelf);
    e := Entry(Elem(n.pe), Object(entries));
  }

  lemma {:induction false} Rest<T>(xs: seq<T>, i: nat)
    requires i < |xs|
    ensures xs[i..] == [xs[i]] + xs[i + 1..] && xs[i..][0] == xs[i] && xs[i..][1..] == xs[i + 1..]
  {
  }

  /** The set an object stands for; of entries for one element, the last non-empty one counts. */
  function ReadPaths(j: Json): PathSet
    decreases j, 1
  {
    ReadEntries(j.entries)
  }

  function ReadEntries(es: seq<Entry>): PathSet
    decreases es, 0
  {
    if es == [] then {} else ReadEntry(ReadEntries(es[..|es| - 1]), es[|es| - 1])
  }

  function ReadEntry(paths: PathSet, e: Entry): PathSet
    decreases e, 2
  {
    if !e.key.Elem? then paths
    else
      var pe, sub := e.key.pe, ReadPaths(e.value);
      (if sub == {} then paths else paths - Under(pe, Below(paths, pe))) +
      (if IsMember(e.value) then {[pe]} else {}) + Under(pe, sub)
  }

  /** An object is a member of its parent if it says so, or if it has nothing below. */
  predicate IsMember(j: Json)
    decreases j, 2
  {
    HasDot(j.entries) || ReadPaths(j) == {}
  }

  predicate HasDot(es: seq<Entry>) {
    exists i | 0 <= i < |es| :: es[i].key == Dot
  }

  /** Reads an object entry by entry, appending in order where it can. */
  method Read(j: Json) returns (children: Option<Trie>, isMember: bool)
    ensures children.None? ==> ReadPaths(j) == {}
    ensures children.Some? ==> Canonical(children.value) && children.value != EMPTY && Paths(children.value) == ReadPaths(j)
    ensures isMember <==> IsMember(j)
    decreases j, 1
  {
    var es := j.entries;
    children, isMember := None, false;
    for i := 0 to |es|
      invariant isMember <==> HasDot(es[..i])
      invariant children.None? ==> ReadEntries(es[..i]) == {}
      invariant children.Some? ==>
                  Canonical(children.value) && children.value != EMPTY && Paths(children.value) == ReadEntries(es[..i])
    {
      NextEntry(es, i);
      if es[i].key == Dot {
        isMember := true;
      } else if es[i].key.Elem? {
        children := ReadChild(children, ReadEntries(es[..i]), es[i]);
      }
    }
    assert es[..|es|] == es;
    if children.None? {
      isMember := true;
    } else {
      EmptyIs(children.value);
    }
  }

  lemma {:induction false} NextEntry(es: seq<Entry>, i: nat)
    requires i < |es|
    ensures ReadEntries(es[..i + 1]) == ReadEntry(ReadEntries(es[..i]), es[i])
    ensures HasDot(es[..i + 1]) <==> HasDot(es[..i]) || es[i].key == Dot
  {
    assert es[..i + 1][..i] == es[..i] && es[..i + 1][i] == es[i];
    if HasDot(es[..i]) {
      var x :| 0 <= x < i && es[..i][x].key == Dot;
      assert es[..i + 1][x].key == Dot;
    }
  }

  method ReadChild(before: Option<Trie>, ghost paths: PathSet, e: Entry) returns (children: Option<Trie>)
    requires e.key.Elem?
    requires before.None? ==> paths == {}
    requires before.Some? ==> Canonical(before.value) && before.value != EMPTY && Paths(before.value) == paths
    ensures children.Some? && Canonical(children.value) && children.value != EMPTY
    ensures Paths(children.value) == ReadEntry(paths, e)
    decreases e, 2
  {
    var pe := e.key.pe;
    var t := if before.None? then EMPTY else before.value;
    EmptyIs(EMPTY);
    var grandchildren, childIsMember := Read(e.value);
    var members := t.members;
    if childIsMember {
      members := AddMember(members, pe);
    }
    var nodes := t.children;
    if grandchildren.Some? {
      nodes := PutChild(nodes, Node(pe, grandchildren.value));
      EmptyIs(grandchildren.value);
    }
    children := Some(Trie(members, nodes));
    ReadDenotes(t, Trie(members, nodes), e, grandchildren);
  }

  /** One entry sets the membership of its element and replaces what lies below it. */
  lemma {:induction false} ReadEntryIn(paths: PathSet, e: Entry, p: Path)
    requires [] !in paths && [] !in ReadPaths(e.value) && e.key.Elem?
    ensures p in ReadEntry(paths, e) <==>
            if |p| == 1 then p in paths || (p[0] == e.key.pe && IsMember(e.value))
            else if Starts(p, e.key.pe) && ReadPaths(e.value) != {} then p[1..] in ReadPaths(e.value)
            else p in paths
  {
    var pe := e.key.pe;
    UnderIn(pe, ReadPaths(e.value), p);
    UnderIn(pe, Below(paths, pe), p);
    if |p| == 1 {
      assert p == [p[0]];
    } else if p != [] {
      BelowIn(paths, p[0], p[1..]);
      assert p == [p[0]] + p[1..];
    }
  }

  lemma {:induction false} ReadDenotes(t: Trie, u: Trie, e: Entry, sub: Option<Trie>)
    requires Canonical(t) && E.Sorted(u.members) && CanonicalNodes(u.children) && e.key.Elem?
    requires sub.None? ==> ReadPaths(e.value) == {} && u.children == t.children
    requires sub.Some? ==> Paths(sub.value) == ReadPaths(e.value) != {}
    requires sub.Some? ==>
               forall p :: InNodes(u.children, p) <==>
                           InNode(Node(e.key.pe, sub.value), p) || (InNodes(t.children, p) && !Starts(p, e.key.pe))
    requires E.AsSet(u.members) == E.AsSet(t.members) + if IsMember(e.value) then {e.key.pe} else {}
    ensures Canonical(u) && u != EMPTY && Paths(u) == ReadEntry(Paths(t), e)
  {
    var pe, paths := e.key.pe, Paths(t);
    Denotes(t);
    NoEmptyPath(t);
    NoEmptyPath(u);
    if sub.Some? {
      Denotes(sub.value);
      NoEmptyPath(sub.value);
    }
    forall p
      ensures In(u, p) <==> p in ReadEntry(paths, e)
    {
      SplitIn(u, p);
      SplitIn(t, p);
      ReadEntryIn(paths, e, p);
    }
    SamePaths(u, ReadEntry(paths, e));
    EmptyIs(u);
    if IsMember(e.value) {
      assert [pe] in ReadEntry(paths, e);
    } else {
      var q :| q in ReadPaths(e.value);
      assert [pe] + q in ReadEntry(paths, e);
    }
  }

  /** Appends an element that comes last, or else inserts it. */
  method AddMember(ms: seq<PathElement>, pe: PathElement) returns (out: seq<PathElement>)
    requires E.Sorted(ms)
    ensures E.Sorted(out) && E.AsSet(out) == E.AsSet(ms) + {pe}
  {
    if |ms| == 0 || Less(ms[|ms| - 1], pe) {
      LastBefore(ms, pe);
      E.SortedConcat(ms, [pe]);
      E.AsSetPush(ms, pe);
      out := ms + [pe];
    } else {
      out := E.Insert(ms, pe);
    }
  }

  lemma {:induction false} LastBefore(ms: seq<PathElement>, pe: PathElement)
    requires E.Sorted(ms) && (ms != [] ==> Less(ms[|ms| - 1], pe))
    ensures E.Before(ms, [pe])
  {
    forall i | 0 <= i < |ms|
      ensures Less(ms[i], pe)
    {
      if i < |ms| - 1 {
        Transitive(ms[i], ms[|ms| - 1], pe);
      }
    }
  }

  /** Appends a child that comes last, or else puts it in the place of its element. */
  method PutChild(nodes: seq<Node>, n: Node) returns (out: seq<Node>)
    requires CanonicalNodes(nodes) && CanonicalNode(n)
    ensures CanonicalNodes(out)
    ensures forall p :: InNodes(out, p) <==> InNode(n, p) || (InNodes(nodes, p) && !Starts(p, n.pe))
  {
    if |nodes| == 0 || Less(nodes[|nodes| - 1].pe, n.pe) {
      LastBefore(Pes(nodes), n.pe);
      assert nodes[..|nodes|] == nodes && Pes(nodes)[..|nodes|] == Pes(nodes);
      out := nodes + [n];
      assert out == nodes[..|nodes|] + [n] + nodes[|nodes|..];
      Put(nodes, |nodes|, n, false, out);
    } else {
      var loc := E.Search(Pes(nodes), n.pe);
      E.Found(Pes(nodes), n.pe, loc);
      var found := loc < |nodes| && nodes[loc].pe == n.pe;
      out := nodes[..loc] + [n] + (if found then nodes[loc + 1..] else nodes[loc..]);
      Put(nodes, loc, n, found, out);
    }
  }

  /** No two entries have the same path element as key. */
  predicate DistinctKeys(es: seq<Entry>) {
    forall i, j | 0 <= i < j < |es| && es[i].key.Elem? :: es[i].key != es[j].key
  }

  /** Some entry contributes the path. */
  ghost predicate Contributes(es: seq<Entry>, p: Path) {
    exists i | 0 <= i < |es| :: p in ReadEntry({}, es[i])
  }

  /** With distinct keys, what an object stands for does not depend on the order of its entries. */
  lemma {:induction false} ReadIn(es: seq<Entry>, p: Path)
    requires DistinctKeys(es)
    ensures p in ReadEntries(es) <==> Contributes(es, p)
    decreases |es|
  {
    if es != [] {
      var n := |es| - 1;
      var front, e := es[..n], es[n];
      ReadIn(front, p);
      assert forall i | 0 <= i < n :: front[i] == es[i];
      if i :| 0 <= i < n && p in ReadEntry({}, front[i]) {
        assert p in ReadEntry({}, es[i]);
        EntryHead(front[i], p);
      }
      if e.key.Elem? {
        var paths := ReadEntries(front);
        UnderIn(e.key.pe, Below(paths, e.key.pe), p);
        assert p in ReadEntry(paths, e) <==> p in ReadEntry({}, e) || p in paths;
      }
    }
  }

  lemma {:induction false} EntryHead(e: Entry, p: Path)
    requires p in ReadEntry({}, e)
    ensures e.key.Elem? && p != [] && p[0] == e.key.pe
  {
  }

  /** `to` is a permutation of the first `n` numbers, and `back` its inverse. */
  ghost predicate Permutation(to: seq<nat>, back: seq<nat>, n: nat) {
    |to| == n && |back| == n &&
    (forall i | 0 <= i < n :: to[i] < n) && (forall j | 0 <= j < n :: back[j] < n && to[back[j]] == j)
  }

  /** The same entries at every level, in any order, with distinct keys. */
  ghost predicate Permuted(a: Json, b: Json)
    decreases a, 0
  {
    var x, y := a.entries, b.entries;
    DistinctKeys(x) && DistinctKeys(y) && |x| == |y| &&
    exists to, back ::
      Permutation(to, back, |x|) && forall i | 0 <= i < |x| :: Match(x[i], y[to[i]])
  }

  ghost predicate Match(x: Entry, y: Entry)
    decreases x, 1
  {
    x.key == y.key && Permuted(x.value, y.value)
  }

  /** Objects are unordered: permuting distinct keys at any level does not change the set that is read. */
  lemma {:induction false} PermutedSame(a: Json, b: Json)
    requires Permuted(a, b)
    ensures ReadPaths(a) == ReadPaths(b) && (IsMember(a) <==> IsMember(b))
    decreases a, 0
  {
    var x, y := a.entries, b.entries;
    var to, back :| Permutation(to, back, |x|) && forall i | 0 <= i < |x| :: Match(x[i], y[to[i]]);
    forall i | 0 <= i < |x|
      ensures ReadEntry({}, x[i]) == ReadEntry({}, y[to[i]]) && x[i].key == y[to[i]].key
    {
      MatchSame(x[i], y[to[i]]);
    }
    PermutedEntries(x, y, to, back);
  }

  lemma {:induction false} PermutedEntries(x: seq<Entry>, y: seq<Entry>, to: seq<nat>, back: seq<nat>)
    requires |x| == |y| && DistinctKeys(x) && DistinctKeys(y) && Permutation(to, back, |x|)
    requires forall i | 0 <= i < |x| :: ReadEntry({}, x[i]) == ReadEntry({}, y[to[i]]) && x[i].key == y[to[i]].key
    ensures ReadEntries(x) == ReadEntries(y) && (HasDot(x) <==> HasDot(y))
  {
    forall p
      ensures p in ReadEntries(x) <==> p in ReadEntries(y)
    {
      ReadIn(x, p);
      ReadIn(y, p);
      if j :| 0 <= j < |y| && p in ReadEntry({}, y[j]) {
        assert p in ReadEntry({}, x[back[j]]);
      }
    }
    if j :| 0 <= j < |y| && y[j].key == Dot {
      assert x[back[j]].key == Dot;
    }
  }

  lemma {:induction false} MatchSame(x: Entry, y: Entry)
    requires Match(x, y)
    ensures ReadEntry({}, x) == ReadEntry({}, y)
    decreases x, 1
  {
    PermutedSame(x.value, y.value);
  }

  /** The keys written for a set are distinct and, after the dot, strictly increasing. */
  ghost predicate Ascending(es: seq<Entry>) {
    (forall i | 0 <= i < |es| :: es[i].key.Elem?) &&
    forall i, j | 0 <= i < j < |es| :: Less(es[i].key.pe, es[j].key.pe)
  }

  /** All keys are path elements of the members and children. */
  lemma {:induction false} ListedAscends(ms: seq<PathElement>, nodes: seq<Node>)
    requires E.Sorted(ms) && E.Sorted(Pes(nodes))
    ensures Ascending(Listed(ms, nodes))
    ensures forall e | e in Listed(ms, nodes) :: e.key.pe in ms || e.key.pe in Pes(nodes)
    decreases |ms| + |nodes|
  {
    if ms != [] || nodes != [] {
      var pes := Pes(nodes);
      assert nodes != [] ==> pes[1..] == Pes(nodes[1..]);
      if ms != [] && nodes != [] {
        Ordered(ms[0], pes[0]);
      }
      if nodes == [] || (ms != [] && Compare(ms[0], pes[0]) < 0) {
        ListedAscends(ms[1..], nodes);
        HeadAscends(ms[0], ms[1..], pes, Listed(ms, nodes));
      } else if ms == [] || Compare(ms[0], pes[0]) > 0 {
        ListedAscends(ms, nodes[1..]);
        HeadAscends(pes[0], ms, pes[1..], Listed(ms, nodes));
      } else {
        ListedAscends(ms[1..], nodes[1..]);
        HeadAscends(pes[0], ms[1..], pes[1..], Listed(ms, nodes));
      }
    }
  }

  lemma {:induction false} HeadAscends(pe: PathElement, ms: seq<PathElement>, pes: seq<PathElement>, es: seq<Entry>)
    requires es != [] && es[0].key == Elem(pe) && Ascending(es[1..])
    requires E.Sorted(ms) && E.Sorted(pes) && (ms != [] ==> Less(pe, ms[0])) && (pes != [] ==> Less(pe, pes[0]))
    requires forall e | e in es[1..] :: e.key.pe in ms || e.key.pe in pes
    ensures Ascending(es)
  {
    if ms != [] {
      E.BelowAll(pe, ms, 0);
    }
    if pes != [] {
      E.BelowAll(pe, pes, 0);
    }
    assert [pe][0] == pe;
    forall j | 0 < j < |es|
      ensures es[j].key.Elem? && Less(pe, es[j].key.pe)
    {
      assert es[j] == es[1..][j - 1];
      assert es[j] in es[1..];
    }
    forall i, j | 0 < i < j < |es|
      ensures Less(es[i].key.pe, es[j].key.pe)
    {
      assert es[i] == es[1..][i - 1] && es[j] == es[1..][j - 1];
    }
  }

  lemma {:induction false} ContributesCons(e: Entry, es: seq<Entry>, p: Path)
    ensures Contributes([e] + es, p) <==> p in ReadEntry({}, e) || Contributes(es, p)
  {
    var all := [e] + es;
    assert all[0] == e && forall i | 0 <= i < |es| :: all[i + 1] == es[i];
    if i :| 0 <= i < |es| && p in ReadEntry({}, es[i]) {
      assert p in ReadEntry({}, all[i + 1]);
    }
  }

  /** An entry that is a member only. */
  lemma {:induction false} ReadMember(pe: PathElement)
    ensures ReadEntry({}, Entry(Elem(pe), EMPTY_OBJECT)) == {[pe]}
  {
    assert ReadPaths(EMPTY_OBJECT) == {};
  }

  /** An entry with something below it. */
  lemma {:induction false} ReadNode(n: Node, self: bool, p: Path)
    requires CanonicalNode(n)
    ensures p in ReadEntry({}, EncodedNode(n, self)) <==> (self && p == [n.pe]) || InNode(n, p)
    decreases n, 2
  {
    var e := EncodedNode(n, self);
    ReadEncoded(n.sub, self);
    EmptyIs(n.sub);
    Denotes(n.sub);
    NoEmptyPath(n.sub);
    ReadEntryIn({}, e, p);
    if |p| == 1 {
      assert p == [p[0]];
    }
  }

  lemma {:induction false} ReadListed(ms: seq<PathElement>, nodes: seq<Node>, p: Path)
    requires CanonicalNodes(nodes)
    ensures Contributes(Listed(ms, nodes), p) <==> (|p| == 1 && p[0] in ms) || InNodes(nodes, p)
    decreases nodes, 0, |ms|
  {
    if |p| == 1 {
      assert p == [p[0]];
    }
    if nodes != [] {
      SplitNodes(nodes, 1);
      assert nodes[..1] == [nodes[0]];
      assert InNodes(nodes[..1], p) <==> InNode(nodes[0], p);
      assert CanonicalNode(nodes[0]);
    }
    if nodes == [] && ms == [] {
    } else if nodes == [] || (ms != [] && Compare(ms[0], nodes[0].pe) < 0) {
      ReadListed(ms[1..], nodes, p);
      ReadMember(ms[0]);
      ContributesCons(Entry(Elem(ms[0]), EMPTY_OBJECT), Listed(ms[1..], nodes), p);
    } else if ms == [] || Compare(ms[0], nodes[0].pe) > 0 {
      ReadListed(ms, nodes[1..], p);
      ReadNode(nodes[0], false, p);
      ContributesCons(EncodedNode(nodes[0], false), Listed(ms, nodes[1..]), p);
    } else {
      Ordered(ms[0], nodes[0].pe);
      ReadListed(ms[1..], nodes[1..], p);
      ReadNode(nodes[0], true, p);
      ContributesCons(EncodedNode(nodes[0], true), Listed(ms[1..], nodes[1..]), p);
    }
  }

  /** A dot in front contributes no path. */
  lemma {:induction false} DotAside(rest: seq<Entry>, es: seq<Entry>, p: Path)
    requires DistinctKeys(es) && (es == rest || es == [Entry(Dot, EMPTY_OBJECT)] + rest)
    ensures p in ReadEntries(es) <==> Contributes(rest, p)
  {
    ReadIn(es, p);
    ContributesCons(Entry(Dot, EMPTY_OBJECT), rest, p);
  }

  /** Reading what was written for a canonical set gives its paths and its own membership back. */
  lemma {:induction false} ReadEncoded(t: Trie, self: bool)
    requires Canonical(t)
    ensures ReadEntries(Encoded(t, self)) == Paths(t)
    ensures IsMember(Object(Encoded(t, self))) <==> self || t == EMPTY
    decreases t, 1
  {
    EncodedKeys(t, self);
    Denotes(t);
    EmptyIs(t);
    forall p
      ensures p in ReadEntries(Encoded(t, self)) <==> p in Paths(t)
    {
      DotAside(Listed(t.members, t.children), Encoded(t, self), p);
      ReadListed(t.members, t.children, p);
    }
  }

  /** The keys written for a canonical set: a dot at most in front, then strictly increasing elements. */
  lemma {:induction false} EncodedKeys(t: Trie, self: bool)
    requires Canonical(t)
    ensures var es := Encoded(t, self);
            DistinctKeys(es) && (HasDot(es) <==> self && t != EMPTY) &&
            Ascending(if self && t != EMPTY then es[1..] else es)
  {
    ListedAscends(t.members, t.children);
    var rest := Listed(t.members, t.children);
    var es := Encoded(t, self);
    if self && t != EMPTY {
      assert es == [Entry(Dot, EMPTY_OBJECT)] + rest;
      assert es[1..] == rest;
      assert es[0].key == Dot;
    } else {
      assert es == rest;
    }
    AscendingDistinct(rest);
  }

  lemma {:induction false} AscendingDistinct(es: seq<Entry>)
    requires Ascending(es)
    ensures DistinctKeys(es) && !HasDot(es)
  {
    forall i, j | 0 <= i < j < |es|
      ensures es[i].key != es[j].key
    {
      E.Irreflexive(es[i].key.pe);
    }
  }

  method ToJson(t: Trie) returns (j: Json)
    requires Canonical(t)
    ensures j == Object(Encoded(t, false)) && Ascending(j.entries) && ReadPaths(j) == Paths(t)
  {
    var entries := EmitContents(t, false);
    j := Object(entries);
    ReadEncoded(t, false);
    EncodedKeys(t, false);
  }

  method FromJson(j: Json) returns (t: Trie)
    ensures Canonical(t) && Paths(t) == ReadPaths(j)
  {
    var found, isMember := Read(j);
    EmptyIs(EMPTY);
    t := if found.None? then EMPTY else found.value;
  }

  /** Writing a canonical set and reading it back restores it. */
  method RoundTrip(t: Trie) returns (u: Trie)
    requires Canonical(t)
    ensures u == t
  {
    var j := ToJson(t);
    u := FromJson(j);
    Denotes(t);
    Denotes(u);
    CanonicalUnique(u, t);
  }
}
