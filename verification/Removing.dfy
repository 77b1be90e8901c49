/** Removing or extracting items: what the removing walker leaves of an object. */
module Removing {
  import opened Values
  import opened PathElements
  import opened Schemas

  /** With `extract`, only what is on the paths is kept; without, what is on them is dropped. */
  function Walk(s: Schema, tr: TypeRef, v: Value, paths: PathSet, extract: bool): Value
    decreases v, 3
  {
    var a := Resolve(s, tr);
    if a.None? then Null else WalkAtom(s, DeduceAtom(a.value, Some(v)), v, paths, extract)
  }

  function WalkAtom(s: Schema, a: Atom, v: Value, paths: PathSet, extract: bool): Value
    decreases v, 2
  {
    if a.mapping.Some? then
      if !v.Map? || v.fields == map[] then Null
      else if a.mapping.value.relationship.Atomic? then (if extract then v else Null)
      else
        var out := map k | k in v.fields && WalkField(s, a.mapping.value, k, v.fields[k], paths, extract).Some?
                     :: WalkField(s, a.mapping.value, k, v.fields[k], paths, extract).value;
        if out == map[] then Null else Map(out)
    else if a.scalar.Some? then v
    else if a.list.Some? then
      if !v.List? || v.items == [] then Null
      else if a.list.value.relationship.Atomic? then (if extract then v else Null)
      else
        var out := WalkItems(s, a.list.value, v.items, paths, extract);
        if out == [] then Null else List(out)
    else Null
  }

  function WalkField(s: Schema, t: MapType, k: string, x: Value, paths: PathSet, extract: bool): Option<Value>
    decreases x, 4
  {
    var pe := FieldName(k);
    if [pe] in paths then
      if extract then Some(Walk(s, FieldType(t, k), x, paths, extract)) else None
    else if Below(paths, pe) != {} then Some(Walk(s, FieldType(t, k), x, Below(paths, pe), extract))
    else if extract then None
    else Some(x)
  }

  function WalkItems(s: Schema, t: ListType, items: seq<Value>, paths: PathSet, extract: bool): seq<Value>
    decreases items, 0
  {
    if items == [] then []
    else WalkItem(s, t, items[0], paths, extract) + WalkItems(s, t, items[1..], paths, extract)
  }

  /** What is kept of one item: nothing, one value, or two when an extracted item also has paths below. */
  function WalkItem(s: Schema, t: ListType, x: Value, paths: PathSet, extract: bool): seq<Value>
    decreases x, 4
  {
    var pe := ElementOf(s, t, x);
    var own := if [pe] in paths && extract then [Walk(s, t.elementType, x, paths, extract)] else [];
    if [pe] in paths && !extract then []
    else if Below(paths, pe) != {} then own + [Walk(s, t.elementType, x, Below(paths, pe), extract)]
    else if extract then own
    else [x]
  }

  /** `TypedValue.RemoveItems`. */
  function Remove(s: Schema, tr: TypeRef, v: Value, paths: PathSet): Value {
    Walk(s, tr, v, paths, false)
  }

  /** `TypedValue.ExtractItems`. */
  function Extract(s: Schema, tr: TypeRef, v: Value, paths: PathSet): Value {
    Walk(s, tr, v, paths, true)
  }
}
