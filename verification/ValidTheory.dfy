/** Validity node by node, on every schema: which values each type takes. */
module ValidTheory {
  import opened Values
  import opened PathElements
  import opened Schemas

  /** A step into a value: to a field by name, or to an item by its position. */
  datatype Spot = InField(name: string) | InItem(i: nat)

  function Child(v: Value, at: Spot): (c: Option<Value>)
    ensures c.Some? ==> c.value < v
  {
    match at
    case InField(k) => if v.Map? && k in v.fields then Some(v.fields[k]) else None
    case InItem(i) => if v.List? && i < |v.items| then Some(v.items[i]) else None
  }

  /** The type a child has by the type of its parent. */
  function TypeOf(s: Schema, tr: TypeRef, at: Spot): TypeRef {
    var a := Resolve(s, tr);
    if a.None? then NO_TYPE
    else
      match at
      case InField(k) => if a.value.mapping.Some? then FieldType(a.value.mapping.value, k) else NO_TYPE
      case InItem(_) => if a.value.list.Some? then a.value.list.value.elementType else NO_TYPE
  }

  /** The node at the end of the steps, atomic containers included. */
  function NodeAt(v: Value, spots: seq<Spot>): Option<Value> {
    if spots == [] then Some(v)
    else
      var c := Child(v, spots[0]);
      if c.None? then None else NodeAt(c.value, spots[1..])
  }

  function NodeType(s: Schema, tr: TypeRef, spots: seq<Spot>): TypeRef
    decreases |spots|
  {
    if spots == [] then tr else NodeType(s, TypeOf(s, tr, spots[0]), spots[1..])
  }

  /** The node alone is of a kind its type has, and as the type wants it. */
  predicate NodeOk(s: Schema, tr: TypeRef, v: Value, dups: bool) {
    var a := Resolve(s, tr);
    a.Some? &&
    match v
    case Null => a.value.mapping.Some? || a.value.scalar.Some? || a.value.list.Some?
    case Num(_) => a.value.scalar == Some(Numeric) || a.value.scalar == Some(Untyped)
    case Str(_) => a.value.scalar == Some(StringScalar) || a.value.scalar == Some(Untyped)
    case Bool(_) => a.value.scalar == Some(Boolean) || a.value.scalar == Some(Untyped)
    case Map(fields) =>
      a.value.mapping.Some? &&
      forall k | k in fields :: k in a.value.mapping.value.fields || a.value.mapping.value.elementType != NO_TYPE
    case List(items) =>
      a.value.list.Some? &&
      (a.value.list.value.relationship.Associative? ==>
         (forall x | x in items :: ItemElement(s, a.value.list.value, x).Some?) &&
         (dups || forall i, j | 0 <= i < j < |items| ::
            ItemElement(s, a.value.list.value, items[i]) != ItemElement(s, a.value.list.value, items[j])))
  }

  /** One level: the node is as its type wants it, and its children are valid. */
  lemma {:induction false} ValidStep(s: Schema, tr: TypeRef, v: Value, dups: bool)
    ensures Valid(s, tr, v, dups) <==>
            NodeOk(s, tr, v, dups) && forall at | Child(v, at).Some? :: Valid(s, TypeOf(s, tr, at), Child(v, at).value, dups)
  {
    if Resolve(s, tr).Some? {
      if v.Map? {
        assert forall k | k in v.fields :: Child(v, InField(k)) == Some(v.fields[k]);
      } else if v.List? {
        ValidItems(s, tr, v, dups);
      }
    }
  }

  lemma {:induction false} ValidItems(s: Schema, tr: TypeRef, v: Value, dups: bool)
    requires Resolve(s, tr).Some? && v.List?
    ensures Valid(s, tr, v, dups) <==>
            NodeOk(s, tr, v, dups) && forall at | Child(v, at).Some? :: Valid(s, TypeOf(s, tr, at), Child(v, at).value, dups)
  {
    var a := Resolve(s, tr).value;
    if a.list.Some? {
      var t := a.list.value;
      var ks := Elements(s, t, v.items);
      assert (forall x | x in v.items :: Valid(s, t.elementType, x, dups)) <==>
             (forall at | Child(v, at).Some? :: Valid(s, TypeOf(s, tr, at), Child(v, at).value, dups)) by {
        assert forall i | 0 <= i < |v.items| :: Child(v, InItem(i)) == Some(v.items[i]);
      }
      if forall x | x in v.items :: ItemElement(s, t, x).Some? {
        assert forall i | 0 <= i < |v.items| :: ItemElement(s, t, v.items[i]) == Some(ks[i]);
      }
    }
  }

  /** Every node, to any depth, is as its type wants it. */
  ghost predicate AllNodesOk(s: Schema, tr: TypeRef, v: Value, dups: bool) {
    forall spots | NodeAt(v, spots).Some? :: NodeOk(s, NodeType(s, tr, spots), NodeAt(v, spots).value, dups)
  }

  /** A value is valid exactly if every node in it is of a kind its type takes. */
  lemma {:induction false} ValidIff(s: Schema, tr: TypeRef, v: Value, dups: bool)
    ensures Valid(s, tr, v, dups) <==> AllNodesOk(s, tr, v, dups)
    decreases v
  {
    ValidStep(s, tr, v, dups);
    forall at | Child(v, at).Some?
      ensures Valid(s, TypeOf(s, tr, at), Child(v, at).value, dups) <==> AllNodesOk(s, TypeOf(s, tr, at), Child(v, at).value, dups)
    {
      ValidIff(s, TypeOf(s, tr, at), Child(v, at).value, dups);
    }
    NodesStep(s, tr, v, dups);
  }

  lemma {:induction false} NodesStep(s: Schema, tr: TypeRef, v: Value, dups: bool)
    ensures AllNodesOk(s, tr, v, dups) <==>
            NodeOk(s, tr, v, dups) && forall at | Child(v, at).Some? :: AllNodesOk(s, TypeOf(s, tr, at), Child(v, at).value, dups)
  {
    if AllNodesOk(s, tr, v, dups) {
      assert NodeAt(v, []) == Some(v) && NodeType(s, tr, []) == tr;
      forall at, spots | Child(v, at).Some? && NodeAt(Child(v, at).value, spots).Some?
        ensures NodeOk(s, NodeType(s, TypeOf(s, tr, at), spots), NodeAt(Child(v, at).value, spots).value, dups)
      {
        var all := [at] + spots;
        assert all[0] == at && all[1..] == spots;
        assert NodeAt(v, all) == NodeAt(Child(v, at).value, spots);
        assert NodeType(s, tr, all) == NodeType(s, TypeOf(s, tr, at), spots);
      }
    }
    if NodeOk(s, tr, v, dups) && forall at | Child(v, at).Some? :: AllNodesOk(s, TypeOf(s, tr, at), Child(v, at).value, dups) {
      forall spots | NodeAt(v, spots).Some?
        ensures NodeOk(s, NodeType(s, tr, spots), NodeAt(v, spots).value, dups)
      {
        if spots != [] {
          assert AllNodesOk(s, TypeOf(s, tr, spots[0]), Child(v, spots[0]).value, dups);
        }
      }
    }
  }
}
