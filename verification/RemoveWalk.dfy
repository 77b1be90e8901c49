/** The walker that removes or extracts the items of a field-set trie. */
module RemoveWalk {
  import opened Values
  import opened PathElements
  import opened Schemas
  import opened Removing
  import opened Tries
  import opened TrieOps
  import Access = TrieAccess

  /** What is left of a value, or what is taken out of it. */
  method RemoveItemsWithSchema(s: Schema, tr: TypeRef, v: Value, toRemove: Trie, extract: bool) returns (out: Value)
    requires Canonical(toRemove)
    ensures out == Walk(s, tr, v, Paths(toRemove), extract)
    decreases v, 5
  {
    var w := new RemovingWalker(s, v, toRemove, extract);
    var a := Resolve(s, tr);
    if a.Some? {
      w.HandleAtom(DeduceAtom(a.value, Some(v)));
    }
    out := w.out;
  }

  class RemovingWalker {
    const s: Schema
    const value: Value
    const toRemove: Trie
    const shouldExtract: bool
    var out: Value

    constructor (s: Schema, value: Value, toRemove: Trie, shouldExtract: bool)
      ensures this.s == s && this.value == value && this.toRemove == toRemove && this.shouldExtract == shouldExtract
      ensures out == Null
    {
      this.s, this.value, this.toRemove, this.shouldExtract, this.out := s, value, toRemove, shouldExtract, Null;
    }

    method HandleAtom(a: Atom)
      requires Canonical(toRemove) && out == Null
      modifies this
      ensures out == WalkAtom(s, a, value, Paths(toRemove), shouldExtract)
      decreases value, 4
    {
      if a.mapping.Some? {
        DoMap(a.mapping.value);
      } else if a.scalar.Some? {
        out := value;
      } else if a.list.Some? {
        DoList(a.list.value);
      }
    }

    method DoMap(t: MapType)
      requires Canonical(toRemove) && out == Null
      modifies this
      ensures out == WalkAtom(s, Atom(None, None, Some(t)), value, Paths(toRemove), shouldExtract)
      decreases value, 3
    {
      if !value.Map? || value.fields == map[] {
        return;
      }
      if t.relationship.Atomic? {
        if shouldExtract {
          out := value;
        }
        return;
      }
      var fields := VisitFields(t);
      assert fields == map k | k in value.fields && WalkField(s, t, k, value.fields[k], Paths(toRemove), shouldExtract).Some?
                         :: WalkField(s, t, k, value.fields[k], Paths(toRemove), shouldExtract).value;
      if fields != map[] {
        out := Map(fields);
      }
    }

    /** What becomes of some of the fields. */
    ghost function WalkedFields(t: MapType, done: set<string>): map<string, Value>
      requires value.Map? && done <= value.fields.Keys
    {
      map k | k in done && WalkField(s, t, k, value.fields[k], Paths(toRemove), shouldExtract).Some?
        :: WalkField(s, t, k, value.fields[k], Paths(toRemove), shouldExtract).value
    }

    lemma {:induction false} NextField(t: MapType, done: set<string>, k: string)
      requires value.Map? && done <= value.fields.Keys && k in value.fields && k !in done
      ensures var item := WalkField(s, t, k, value.fields[k], Paths(toRemove), shouldExtract);
              WalkedFields(t, done + {k}) ==
              if item.None? then WalkedFields(t, done) else WalkedFields(t, done)[k := item.value]
    {
    }

    method VisitFields(t: MapType) returns (fields: map<string, Value>)
      requires Canonical(toRemove) && value.Map?
      ensures fields == WalkedFields(t, value.fields.Keys)
      decreases value, 2
    {
      fields := map[];
      var todo := value.fields.Keys;
      ghost var done: set<string> := {};
      while todo != {}
        invariant todo <= value.fields.Keys && done == {} + (value.fields.Keys - todo)
        invariant fields == WalkedFields(t, done)
        decreases |todo|
      {
        var k :| k in todo;
        TakeOff(value.fields.Keys, {}, todo, done, k);
        NextField(t, done, k);
        var item := VisitField(t, k);
        if item.Some? {
          fields := fields[k := item.value];
        }
        todo, done := todo - {k}, done + {k};
      }
      assert done == value.fields.Keys;
    }

    method VisitField(t: MapType, k: string) returns (item: Option<Value>)
      requires Canonical(toRemove) && value.Map? && k in value.fields
      ensures item == WalkField(s, t, k, value.fields[k], Paths(toRemove), shouldExtract)
      decreases value, 1
    {
      var pe, x, tr := FieldName(k), value.fields[k], FieldType(t, k);
      var has := Access.Has(toRemove, [pe]);
      if has {
        if shouldExtract {
          var kept := RemoveItemsWithSchema(s, tr, x, toRemove, shouldExtract);
          return Some(kept);
        }
        return None;
      }
      var subset := Access.WithPrefix(toRemove, pe);
      var none := Empty(subset);
      if !none {
        x := RemoveItemsWithSchema(s, tr, x, subset, shouldExtract);
      } else if shouldExtract {
        return None;
      }
      item := Some(x);
    }

    method DoList(t: ListType)
      requires Canonical(toRemove) && out == Null
      modifies this
      ensures out == WalkAtom(s, Atom(None, Some(t), None), value, Paths(toRemove), shouldExtract)
      decreases value, 3
    {
      if !value.List? || value.items == [] {
        return;
      }
      if t.relationship.Atomic? {
        if shouldExtract {
          out := value;
        }
        return;
      }
      var items := VisitItems(t);
      if items != [] {
        out := List(items);
      }
    }

    method VisitItems(t: ListType) returns (items: seq<Value>)
      requires Canonical(toRemove) && value.List?
      ensures items == WalkItems(s, t, value.items, Paths(toRemove), shouldExtract)
      decreases value, 2
    {
      items := [];
      assert value.items[0..] == value.items;
      for i := 0 to |value.items|
        invariant items + WalkItems(s, t, value.items[i..], Paths(toRemove), shouldExtract) ==
                  WalkItems(s, t, value.items, Paths(toRemove), shouldExtract)
      {
        assert value.items[i..][0] == value.items[i] && value.items[i..][1..] == value.items[i + 1..];
        var kept := VisitItem(t, value.items[i]);
        Joined(items, kept, WalkItems(s, t, value.items[i + 1..], Paths(toRemove), shouldExtract));
        items := items + kept;
      }
    }

    lemma {:induction false} Joined(a: seq<Value>, b: seq<Value>, c: seq<Value>)
      ensures a + (b + c) == (a + b) + c
    {
    }

    method VisitItem(t: ListType, x: Value) returns (kept: seq<Value>)
      requires Canonical(toRemove) && value.List? && x in value.items
      ensures kept == WalkItem(s, t, x, Paths(toRemove), shouldExtract)
      decreases value, 1
    {
      kept := [];
      var pe, item := ElementOf(s, t, x), x;
      var has := Access.Has(toRemove, [pe]);
      if has {
        if shouldExtract {
          var own := RemoveItemsWithSchema(s, t.elementType, item, toRemove, shouldExtract);
          kept := [own];
        } else {
          return;
        }
      }
      var subset := Access.WithPrefix(toRemove, pe);
      var none := Empty(subset);
      if !none {
        item := RemoveItemsWithSchema(s, t.elementType, item, subset, shouldExtract);
      } else if shouldExtract {
        return;
      }
      kept := kept + [item];
    }
  }
}
