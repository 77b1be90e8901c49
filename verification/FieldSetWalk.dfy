/** The walker that collects the field set an object mentions. */
module FieldSetWalk {
  import opened Values
  import opened PathElements
  import opened Schemas
  import O = Owning
  import opened Tries
  import opened TrieOps
  import opened TrieViews
  import Access = TrieAccess

  /** The set that all walkers of one object insert into. */
  class FieldSet {
    var trie: Trie

    constructor ()
      ensures Valid() && Contents() == {}
    {
      trie := EMPTY;
      new;
      EmptyIs(EMPTY);
    }

    ghost predicate Valid()
      reads this
    {
      Canonical(trie)
    }

    ghost function Contents(): PathSet
      reads this
    {
      Paths(trie)
    }

    method Insert(path: Path)
      requires Valid()
      modifies this
      ensures Valid() && Contents() == old(Contents()) + Tracked(path)
    {
      trie := Access.Insert(trie, path);
    }
  }

  /** What a child mentions, and the child itself if it is marked, seen from the parent. */
  ghost function Child(pe: PathElement, paths: PathSet, marked: bool): PathSet {
    Under(pe, paths) + if marked then {[pe]} else {}
  }

  /** One more child extends what was placed so far. */
  lemma {:induction false} PlaceNext(before: PathSet, path: Path, done: PathSet, pe: PathElement, paths: PathSet, marked: bool)
    ensures before + Placed(path, done) + Placed(path + [pe], paths) + (if marked then Tracked(path + [pe]) else {}) ==
            before + Placed(path, done + Child(pe, paths, marked))
  {
    PrefixedUnder(path, pe, paths);
    assert Prefixed(path, done + Child(pe, paths, marked)) ==
           Prefixed(path, done) + Prefixed(path, Under(pe, paths)) + (if marked then {path + [pe]} else {});
  }

  class FieldSetWalker {
    const s: Schema
    const typeRef: TypeRef
    const value: Value
    const path: Path
    const fields: FieldSet

    constructor (s: Schema, typeRef: TypeRef, value: Value, path: Path, fields: FieldSet)
      ensures this.s == s && this.typeRef == typeRef && this.value == value && this.path == path && this.fields == fields
    {
      this.s, this.typeRef, this.value, this.path, this.fields := s, typeRef, value, path, fields;
    }

    /** Inserts everything the value mentions, at the walker's path. */
    method ToFieldSet() returns (ok: bool)
      requires fields.Valid()
      modifies fields
      ensures fields.Valid() && (ok <==> O.MentionedOk(s, typeRef, value))
      ensures fields.Contents() == old(fields.Contents()) + Placed(path, O.Mentioned(s, typeRef, value))
      decreases value, 5
    {
      var a := Resolve(s, typeRef);
      PlacedHere(path);
      if a.None? {
        return false;
      }
      ok := HandleAtom(DeduceAtom(a.value, Some(value)));
    }

    method HandleAtom(a: Atom) returns (ok: bool)
      requires fields.Valid()
      modifies fields
      ensures fields.Valid() && (ok <==> O.MentionedOkAtom(s, a, value))
      ensures fields.Contents() == old(fields.Contents()) + Placed(path, O.MentionedAtom(s, a, value))
      decreases value, 4
    {
      PlacedHere(path);
      ok := true;
      if a.mapping.Some? {
        if a.mapping.value.relationship.Atomic? {
          fields.Insert(path);
        } else if value.Map? {
          ok := VisitMapItems(a.mapping.value);
          AllFields(a.mapping.value);
        }
      } else if a.scalar.Some? {
        fields.Insert(path);
      } else if a.list.Some? {
        if a.list.value.relationship.Atomic? {
          fields.Insert(path);
        } else if value.List? {
          ghost var repeated;
          ok, repeated := VisitListItems(a.list.value);
          AllItems(a.list.value);
        }
      } else {
        ok := false;
      }
    }

    /** What some of the fields mention. */
    ghost function FieldPaths(t: MapType, done: set<string>): PathSet
      requires value.Map? && done <= value.fields.Keys
    {
      (set k, p | k in done && p in O.Mentioned(s, FieldType(t, k), value.fields[k]) :: [FieldName(k)] + p) +
      (set k | k in done && O.MarksField(t, k, value.fields[k]) :: [FieldName(k)])
    }

    lemma {:induction false} AllFields(t: MapType)
      requires value.Map? && !t.relationship.Atomic?
      ensures FieldPaths(t, value.fields.Keys) == O.MentionedAtom(s, Atom(None, None, Some(t)), value)
    {
    }

    lemma {:induction false} NextField(t: MapType, done: set<string>, k: string)
      requires value.Map? && done <= value.fields.Keys && k in value.fields
      ensures FieldPaths(t, done + {k}) ==
              FieldPaths(t, done) +
              Child(FieldName(k), O.Mentioned(s, FieldType(t, k), value.fields[k]), O.MarksField(t, k, value.fields[k]))
    {
    }

    ghost predicate FieldsOk(t: MapType, done: set<string>)
      requires value.Map? && done <= value.fields.Keys
    {
      forall k | k in done :: O.MentionedOk(s, FieldType(t, k), value.fields[k])
    }

    method VisitMapItems(t: MapType) returns (ok: bool)
      requires fields.Valid() && value.Map?
      modifies fields
      ensures fields.Valid() && (ok <==> FieldsOk(t, value.fields.Keys))
      ensures fields.Contents() == old(fields.Contents()) + Placed(path, FieldPaths(t, value.fields.Keys))
      decreases value, 3
    {
      ok := true;
      var todo := value.fields.Keys;
      ghost var done: set<string> := {};
      PlacedHere(path);
      assert FieldPaths(t, {}) == {};
      while todo != {}
        invariant todo <= value.fields.Keys && done == {} + (value.fields.Keys - todo) && fields.Valid()
        invariant ok <==> FieldsOk(t, done)
        invariant fields.Contents() == old(fields.Contents()) + Placed(path, FieldPaths(t, done))
        decreases |todo|
      {
        var k :| k in todo;
        TakeOff(value.fields.Keys, {}, todo, done, k);
        NextField(t, done, k);
        var more := VisitChild(FieldName(k), FieldType(t, k), value.fields[k], O.MarksField(t, k, value.fields[k]),
                               old(fields.Contents()), FieldPaths(t, done));
        ok := ok && more;
        todo, done := todo - {k}, done + {k};
      }
      assert done == value.fields.Keys;
    }

    /** Collects a child with a walker of its own and inserts the child itself if it is marked. */
    method VisitChild(pe: PathElement, tr: TypeRef, x: Value, marked: bool, ghost before: PathSet, ghost done: PathSet) returns (ok: bool)
      requires fields.Valid() && x < value
      requires fields.Contents() == before + Placed(path, done)
      modifies fields
      ensures fields.Valid() && (ok <==> O.MentionedOk(s, tr, x))
      ensures fields.Contents() == before + Placed(path, done + Child(pe, O.Mentioned(s, tr, x), marked))
      decreases value, 1
    {
      PlaceNext(before, path, done, pe, O.Mentioned(s, tr, x), marked);
      var w := new FieldSetWalker(s, tr, x, path + [pe], fields);
      ok := w.ToFieldSet();
      if marked {
        fields.Insert(w.path);
      }
    }

    /** The path elements that occur more than once among the first `i`. */
    ghost function Repeated(ks: seq<PathElement>, i: nat): set<PathElement>
      requires i <= |ks|
    {
      set x, y | 0 <= x < y < i && ks[x] == ks[y] :: ks[x]
    }

    ghost function Heads(pes: set<PathElement>): PathSet {
      set pe | pe in pes :: [pe]
    }

    /** The repeated path elements, and what the first `i` items mention, those aside. */
    ghost function ListPaths(t: ListType, repeated: set<PathElement>, i: nat): PathSet
      requires value.List? && i <= |value.items|
    {
      if i == 0 then Heads(repeated)
      else if ElementOf(s, t, value.items[i - 1]) in repeated then ListPaths(t, repeated, i - 1)
      else ListPaths(t, repeated, i - 1) + ItemPaths(t, i - 1)
    }

    ghost function ItemPaths(t: ListType, i: nat): PathSet
      requires value.List? && i < |value.items|
    {
      Child(ElementOf(s, t, value.items[i]), O.Mentioned(s, t.elementType, value.items[i]), true)
    }

    /** No error below the first `i` items, repeated ones aside. */
    ghost predicate ItemsOk(t: ListType, repeated: set<PathElement>, i: nat)
      requires value.List? && i <= |value.items|
    {
      i > 0 ==>
        ItemsOk(t, repeated, i - 1) &&
        (ElementOf(s, t, value.items[i - 1]) in repeated || O.MentionedOk(s, t.elementType, value.items[i - 1]))
    }

    lemma {:induction false} ItemsAre(t: ListType, repeated: set<PathElement>, i: nat, p: Path)
      requires value.List? && i <= |value.items|
      ensures p in ListPaths(t, repeated, i) <==>
              p in Heads(repeated) ||
              exists x | 0 <= x < i :: ElementOf(s, t, value.items[x]) !in repeated && p in ItemPaths(t, x)
      ensures i == |value.items| ==> (p in ListPaths(t, repeated, i) <==> p in Heads(repeated) || ListedBy(t, repeated, p))
      ensures ItemsOk(t, repeated, i) <==>
              forall x | 0 <= x < i ::
                ElementOf(s, t, value.items[x]) in repeated || O.MentionedOk(s, t.elementType, value.items[x])
    {
      if i > 0 {
        ItemsAre(t, repeated, i - 1, p);
      }
    }

    /** With the repeated elements aside, the items are those whose element occurs once. */
    lemma {:induction false} AllItems(t: ListType)
      requires value.List? && !t.relationship.Atomic?
      ensures var repeated := Repeated(Elements(s, t, value.items), |value.items|);
              ListPaths(t, repeated, |value.items|) == O.MentionedAtom(s, Atom(None, Some(t), None), value) &&
              (ItemsOk(t, repeated, |value.items|) <==> O.MentionedOkAtom(s, Atom(None, Some(t), None), value))
    {
      var repeated := Repeated(Elements(s, t, value.items), |value.items|);
      forall p
        ensures p in ListPaths(t, repeated, |value.items|) <==> p in O.MentionedAtom(s, Atom(None, Some(t), None), value)
      {
        ItemsAre(t, repeated, |value.items|, p);
        if p in O.MentionedAtom(s, Atom(None, Some(t), None), value) {
          MentionedIsListed(t, p);
        }
        if p in ListPaths(t, repeated, |value.items|) {
          ListedIsMentioned(t, p);
        }
      }
      OkIsOk(t);
    }

    /** Some item whose element is not repeated mentions the path. */
    ghost predicate ListedBy(t: ListType, repeated: set<PathElement>, p: Path)
      requires value.List?
    {
      exists x | 0 <= x < |value.items| :: ElementOf(s, t, value.items[x]) !in repeated && p in ItemPaths(t, x)
    }

    lemma {:induction false} MentionedIsListed(t: ListType, p: Path)
      requires value.List? && !t.relationship.Atomic? && p in O.MentionedAtom(s, Atom(None, Some(t), None), value)
      ensures var repeated := Repeated(Elements(s, t, value.items), |value.items|);
              p in Heads(repeated) || ListedBy(t, repeated, p)
    {
      var ks := Elements(s, t, value.items);
      if k :| k in ks && p == [k] {
        var i :| 0 <= i < |ks| && ks[i] == k;
        assert p in ItemPaths(t, i);
      } else {
        var i, q :| 0 <= i < |ks| && O.Single(ks, i) && q in O.Mentioned(s, t.elementType, value.items[i]) && p == [ks[i]] + q;
        RepeatedIff(ks, i);
        assert p in ItemPaths(t, i);
      }
    }

    lemma {:induction false} ListedIsMentioned(t: ListType, p: Path)
      requires value.List? && !t.relationship.Atomic?
      requires var repeated := Repeated(Elements(s, t, value.items), |value.items|);
               p in Heads(repeated) || ListedBy(t, repeated, p)
      ensures p in O.MentionedAtom(s, Atom(None, Some(t), None), value)
    {
      var ks := Elements(s, t, value.items);
      var repeated := Repeated(ks, |ks|);
      if p !in Heads(repeated) {
        var x :| 0 <= x < |ks| && ks[x] !in repeated && p in ItemPaths(t, x);
        RepeatedIff(ks, x);
        assert ks[x] in ks;
      }
    }

    lemma {:induction false} OkIsOk(t: ListType)
      requires value.List? && !t.relationship.Atomic?
      ensures var repeated := Repeated(Elements(s, t, value.items), |value.items|);
              ItemsOk(t, repeated, |value.items|) <==> O.MentionedOkAtom(s, Atom(None, Some(t), None), value)
    {
      var ks := Elements(s, t, value.items);
      var repeated := Repeated(ks, |ks|);
      ItemsAre(t, repeated, |ks|, []);
      if ItemsOk(t, repeated, |ks|) {
        forall i | 0 <= i < |ks| && O.Single(ks, i)
          ensures O.MentionedOk(s, t.elementType, value.items[i])
        {
          RepeatedIff(ks, i);
        }
      } else {
        var x :| 0 <= x < |ks| && ks[x] !in repeated && !O.MentionedOk(s, t.elementType, value.items[x]);
        RepeatedIff(ks, x);
      }
    }

    lemma {:induction false} NextRepeated(ks: seq<PathElement>, i: nat)
      requires i < |ks|
      ensures Repeated(ks, i + 1) == Repeated(ks, i) + if ks[i] in Firsts(ks, i) then {ks[i]} else {}
    {
      if ks[i] in Firsts(ks, i) {
        var x :| 0 <= x < i && ks[x] == ks[i];
        assert ks[x] in Repeated(ks, i + 1);
      }
    }

    /** Inserts the repeated path elements; returns them. */
    method MarkDuplicates(ks: seq<PathElement>) returns (duplicates: set<PathElement>)
      requires fields.Valid()
      modifies fields
      ensures fields.Valid() && duplicates == Repeated(ks, |ks|)
      ensures fields.Contents() == old(fields.Contents()) + Placed(path, Heads(duplicates))
    {
      var seen: set<PathElement> := {};
      duplicates := {};
      PlacedHere(path);
      for i := 0 to |ks|
        invariant fields.Valid() && seen == Firsts(ks, i) && duplicates == Repeated(ks, i)
        invariant fields.Contents() == old(fields.Contents()) + Placed(path, Heads(duplicates))
      {
        FirstsNext(ks, i);
        NextRepeated(ks, i);
        if ks[i] in seen {
          if ks[i] !in duplicates {
            MarkNext(old(fields.Contents()), duplicates, ks[i]);
            fields.Insert(path + [ks[i]]);
            duplicates := duplicates + {ks[i]};
          }
        } else {
          seen := seen + {ks[i]};
        }
      }
    }

    lemma {:induction false} MarkNext(before: PathSet, pes: set<PathElement>, pe: PathElement)
      ensures before + Placed(path, Heads(pes)) + Tracked(path + [pe]) == before + Placed(path, Heads(pes + {pe}))
    {
      assert Prefixed(path, Heads(pes + {pe})) == Prefixed(path, Heads(pes)) + {path + [pe]};
    }

    lemma {:induction false} RepeatedIff(ks: seq<PathElement>, i: nat)
      requires i < |ks|
      ensures ks[i] in Repeated(ks, |ks|) <==> !O.Single(ks, i)
    {
      if !O.Single(ks, i) {
        var j :| 0 <= j < |ks| && j != i && ks[j] == ks[i];
        assert ks[if i < j then i else j] == ks[if i < j then j else i] == ks[i];
      }
      if ks[i] in Repeated(ks, |ks|) {
        var x, y :| 0 <= x < y < |ks| && ks[x] == ks[y] == ks[i];
        assert ks[if x == i then y else x] == ks[i];
      }
    }

    method VisitListItems(t: ListType) returns (ok: bool, ghost repeated: set<PathElement>)
      requires fields.Valid() && value.List?
      modifies fields
      ensures fields.Valid() && repeated == Repeated(Elements(s, t, value.items), |value.items|)
      ensures ok <==> ItemsOk(t, repeated, |value.items|)
      ensures fields.Contents() == old(fields.Contents()) + Placed(path, ListPaths(t, repeated, |value.items|))
      decreases value, 3
    {
      ghost var before := fields.Contents();
      var duplicates := MarkDuplicates(Elements(s, t, value.items));
      ok := VisitSingles(t, duplicates, before);
      repeated := duplicates;
    }

    /** Every item whose path element is not repeated. */
    method VisitSingles(t: ListType, duplicates: set<PathElement>, ghost before: PathSet) returns (ok: bool)
      requires fields.Valid() && value.List? && ItemsOk(t, duplicates, 0)
      requires fields.Contents() == before + Placed(path, ListPaths(t, duplicates, 0))
      modifies fields
      ensures fields.Valid() && (ok <==> ItemsOk(t, duplicates, |value.items|))
      ensures fields.Contents() == before + Placed(path, ListPaths(t, duplicates, |value.items|))
      decreases value, 2
    {
      ok := true;
      for i := 0 to |value.items|
        invariant fields.Valid() && (ok <==> ItemsOk(t, duplicates, i))
        invariant fields.Contents() == before + Placed(path, ListPaths(t, duplicates, i))
      {
        var k := ElementOf(s, t, value.items[i]);
        if k in duplicates {
          continue;
        }
        var more := VisitChild(k, t.elementType, value.items[i], true, before, ListPaths(t, duplicates, i));
        ok := ok && more;
      }
    }
  }

  /** `TypedValue.ToFieldSet`. */
  method ToFieldSet(s: Schema, tr: TypeRef, v: Value) returns (ok: bool, set': Trie)
    ensures ok <==> O.MentionedOk(s, tr, v)
    ensures Canonical(set') && Paths(set') == O.ToFieldSet(s, tr, v)
  {
    var fields := new FieldSet();
    var w := new FieldSetWalker(s, tr, v, [], fields);
    ok := w.ToFieldSet();
    set' := fields.trie;
    AtRoot(O.Mentioned(s, tr, v));
  }

  lemma {:induction false} AtRoot(paths: PathSet)
    ensures Placed([], paths) == paths - {[]}
  {
    forall p
      ensures p in Prefixed([], paths) <==> p in paths
    {
      PrefixedIn([], paths, p);
      assert p[0..] == p;
    }
  }
}
