/** The field set an object mentions, and the closure of a field set under named fields. */
module Owning {
  import opened Values
  import opened PathElements
  import opened Schemas

  /** Paths relative to the node; the node's own path is [], dropped at the root. */
  function Mentioned(s: Schema, tr: TypeRef, v: Value): PathSet
    decreases v, 1
  {
    var a := Resolve(s, tr);
    if a.None? then {} else MentionedAtom(s, DeduceAtom(a.value, Some(v)), v)
  }

  function MentionedAtom(s: Schema, a: Atom, v: Value): PathSet
    decreases v, 0
  {
    if a.mapping.Some? then
      var t := a.mapping.value;
      if t.relationship.Atomic? then {[]}
      else if !v.Map? then {}
      else
        (set k, p | k in v.fields && p in Mentioned(s, FieldType(t, k), v.fields[k]) :: [FieldName(k)] + p) +
        (set k | k in v.fields && MarksField(t, k, v.fields[k]) :: [FieldName(k)])
    else if a.scalar.Some? then {[]}
    else if a.list.Some? then
      var t := a.list.value;
      if t.relationship.Atomic? then {[]}
      else if !v.List? then {}
      else
        var ks := Elements(s, t, v.items);
        (set k | k in ks :: [k]) +
        (set i, p | 0 <= i < |ks| && Single(ks, i) && p in Mentioned(s, t.elementType, v.items[i]) :: [ks[i]] + p)
    else {}
  }

  /** A map item is mentioned itself if it is null, an empty map, or not a declared field. */
  predicate MarksField(t: MapType, k: string, v: Value) {
    v.Null? || v == Map(map[]) || k !in t.fields
  }

  /** The i-th path element occurs once. */
  predicate Single(ks: seq<PathElement>, i: nat)
    requires i < |ks|
  {
    forall j | 0 <= j < |ks| && j != i :: ks[j] != ks[i]
  }

  /** No error: every type met resolves to an atom with a kind. */
  predicate MentionedOk(s: Schema, tr: TypeRef, v: Value)
    decreases v, 1
  {
    var a := Resolve(s, tr);
    a.Some? && MentionedOkAtom(s, DeduceAtom(a.value, Some(v)), v)
  }

  predicate MentionedOkAtom(s: Schema, a: Atom, v: Value)
    decreases v, 0
  {
    if a.mapping.Some? then
      a.mapping.value.relationship.Atomic? || !v.Map? ||
      forall k | k in v.fields :: MentionedOk(s, FieldType(a.mapping.value, k), v.fields[k])
    else
      a.scalar.Some? ||
      (a.list.Some? &&
       (a.list.value.relationship.Atomic? || !v.List? ||
        var ks := Elements(s, a.list.value, v.items);
        forall i | 0 <= i < |ks| && Single(ks, i) :: MentionedOk(s, a.list.value.elementType, v.items[i])))
  }

  /** `TypedValue.ToFieldSet`, when there is no error. */
  function ToFieldSet(s: Schema, tr: TypeRef, v: Value): PathSet {
    Mentioned(s, tr, v) - {[]}
  }

  /** The type below `pe` as the closure follows it: fields of maps and keyed list items only. */
  function NamedType(s: Schema, tr: TypeRef, pe: PathElement): TypeRef {
    var a := Resolve(s, tr);
    if a.None? then NO_TYPE
    else if pe.FieldName? && a.value.mapping.Some? then FieldType(a.value.mapping.value, pe.name)
    else if pe.Key? && a.value.list.Some? then a.value.list.value.elementType
    else NO_TYPE
  }

  predicate DeclaredHere(s: Schema, tr: TypeRef, pe: PathElement) {
    var a := Resolve(s, tr);
    a.Some? && pe.FieldName? && a.value.mapping.Some? && pe.name in a.value.mapping.value.fields
  }

  /** The last element of `p` names a declared field of the type it is selected from. */
  predicate Declared(s: Schema, tr: TypeRef, p: Path)
    decreases |p|
  {
    p != [] && if |p| == 1 then DeclaredHere(s, tr, p[0]) else Declared(s, NamedType(s, tr, p[0]), p[1..])
  }

  /** Adds the declared fields that lead to a path of the set. */
  function EnsureNamed(s: Schema, tr: TypeRef, paths: PathSet): PathSet {
    paths + set p, i | p in paths && 0 < i < |p| && Declared(s, tr, p[..i]) :: p[..i]
  }
}
