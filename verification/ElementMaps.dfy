/** A map from path elements to values, kept as a list sorted by path element. */
module ElementMaps {
  import opened Values
  import opened PathElements
  import opened Ordering
  import E = ElementSets
  import opened Merging

  datatype Item<V> = Item(pe: PathElement, value: V)

  function Pes<V>(items: seq<Item<V>>): (pes: seq<PathElement>)
    ensures |pes| == |items| && forall i | 0 <= i < |items| :: pes[i] == items[i].pe
  {
    seq(|items|, i requires 0 <= i < |items| => items[i].pe)
  }

  /** The pairs of a sorted list, as a map. */
  ghost function AsMap<V>(items: seq<Item<V>>): map<PathElement, V> {
    map pe | pe in Pes(items) :: items[IndexOf(Pes(items), pe)].value
  }

  /** In a sorted list each path element has one value. */
  lemma {:induction false} AsMapAt<V>(items: seq<Item<V>>, i: nat)
    requires E.Sorted(Pes(items)) && i < |items|
    ensures items[i].pe in AsMap(items) && AsMap(items)[items[i].pe] == items[i].value
  {
    var pes := Pes(items);
    var j := IndexOf(pes, pes[i]);
    E.Irreflexive(pes[i]);
    assert j == i;
  }

  class PathElementMap<V> {
    var members: seq<Item<V>>

    constructor ()
      ensures Valid() && Contents() == map[]
    {
      members := [];
    }

    ghost predicate Valid()
      reads this
    {
      E.Sorted(Pes(members))
    }

    ghost function Contents(): map<PathElement, V>
      reads this
    {
      AsMap(members)
    }

    /** Overwrites the value of the element, or inserts the element in its place. */
    method Insert(pe: PathElement, v: V)
      requires Valid()
      modifies this
      ensures Valid() && Contents() == old(Contents())[pe := v]
    {
      var loc := E.Search(Pes(members), pe);
      E.Found(Pes(members), pe, loc);
      ghost var before := members;
      if loc == |members| {
        members := members + [Item(pe, v)];
      } else if members[loc].pe == pe {
        members := members[loc := Item(pe, v)];
      } else {
        members := members[..loc] + [Item(pe, v)] + members[loc..];
      }
      Inserted(before, members, loc, pe, v);
    }

    /** The value of the element, if it has one. */
    method Get(pe: PathElement) returns (v: Option<V>)
      requires Valid()
      ensures v == if pe in Contents() then Some(Contents()[pe]) else None
    {
      var loc := E.Search(Pes(members), pe);
      E.Found(Pes(members), pe, loc);
      if loc == |members| {
        return None;
      }
      if members[loc].pe == pe {
        AsMapAt(members, loc);
        return Some(members[loc].value);
      }
      return None;
    }
  }

  /** Overwriting or inserting at the place of an element. */
  ghost predicate PutAt<V>(items: seq<Item<V>>, out: seq<Item<V>>, loc: nat, pe: PathElement, v: V) {
    E.Sorted(Pes(items)) && loc <= |items| &&
    (pe in Pes(items) <==> loc < |items| && items[loc].pe == pe) &&
    (pe !in Pes(items) ==> E.Before(Pes(items)[..loc], [pe]) && E.Before([pe], Pes(items)[loc..])) &&
    out == if pe in Pes(items) then items[loc := Item(pe, v)] else items[..loc] + [Item(pe, v)] + items[loc..]
  }

  lemma {:induction false} PutSorted<V>(items: seq<Item<V>>, out: seq<Item<V>>, loc: nat, pe: PathElement, v: V)
    requires PutAt(items, out, loc, pe, v)
    ensures E.Sorted(Pes(out)) && loc < |out| && out[loc] == Item(pe, v)
    ensures forall k :: k in Pes(out) <==> k in Pes(items) || k == pe
  {
    var pes := Pes(items);
    if pe in pes {
      assert Pes(out) == pes;
    } else {
      assert Pes(out) == pes[..loc] + [pe] + pes[loc..];
      assert [pe][0] == pe;
      assert pes == pes[..loc] + pes[loc..];
    }
  }

  lemma {:induction false} PutValue<V>(items: seq<Item<V>>, out: seq<Item<V>>, loc: nat, pe: PathElement, v: V, i: nat)
    requires PutAt(items, out, loc, pe, v) && E.Sorted(Pes(out)) && loc < |out| && out[loc] == Item(pe, v) && i < |out|
    ensures if out[i].pe == pe then out[i].value == v
            else out[i].pe in AsMap(items) && out[i].value == AsMap(items)[out[i].pe]
  {
    if i != loc {
      var j := if i < loc || pe in Pes(items) then i else i - 1;
      assert out[i] == items[j];
      AsMapAt(items, j);
      Apart(out, i, loc);
    }
  }

  lemma {:induction false} Inserted<V>(items: seq<Item<V>>, out: seq<Item<V>>, loc: nat, pe: PathElement, v: V)
    requires PutAt(items, out, loc, pe, v)
    ensures E.Sorted(Pes(out)) && AsMap(out) == AsMap(items)[pe := v]
  {
    PutSorted(items, out, loc, pe, v);
    forall k | k in AsMap(out)
      ensures AsMap(out)[k] == AsMap(items)[pe := v][k]
    {
      PutValue(items, out, loc, pe, v, IndexOf(Pes(out), k));
    }
  }

  lemma {:induction false} Apart<V>(items: seq<Item<V>>, i: nat, j: nat)
    requires E.Sorted(Pes(items)) && i < |items| && j < |items| && i != j
    ensures items[i].pe != items[j].pe
  {
    E.Irreflexive(items[i].pe);
    assert Less(Pes(items)[if i < j then i else j], Pes(items)[if i < j then j else i]);
  }
}
