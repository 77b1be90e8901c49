/** Reconciling a field set with a schema in which containers may have become atomic. */
module Reconciling {
  import opened Values
  import opened PathElements
  import opened Schemas

  const DEDUCED := "__untyped_deduced_"

  predicate IsUntypedDeducedRef(tr: TypeRef) {
    if tr.named.Some? then tr.named.value == DEDUCED else tr.inlined.scalar == Some(Untyped)
  }

  predicate IsUntypedDeducedMap(t: MapType) {
    IsUntypedDeducedRef(t.elementType) && t.fields == map[]
  }

  /** The type of an item as reconciliation follows it; no type for unknown fields of a map. */
  function TypeBelow(s: Schema, tr: TypeRef, pe: PathElement): TypeRef {
    var a := Resolve(s, tr);
    if a.None? then NO_TYPE
    else if a.value.mapping.Some? then
      if pe.FieldName? then FieldType(a.value.mapping.value, pe.name) else a.value.mapping.value.elementType
    else if a.value.list.Some? then a.value.list.value.elementType
    else NO_TYPE
  }

  /** What reconciliation does at a node of a type. */
  datatype Visit = Broken | Stop | Cut | Into

  function VisitOf(s: Schema, tr: TypeRef): Visit {
    var a := Resolve(s, tr);
    if a.None? then Broken
    else if a.value.mapping.Some? then
      var t := a.value.mapping.value;
      if IsUntypedDeducedMap(t) then Stop
      else if t.relationship.Atomic? then Cut
      else Into
    else if a.value.scalar.Some? then Stop
    else if a.value.list.Some? then
      var t := a.value.list.value;
      if t.relationship.Atomic? then Cut else Into
    else Broken
  }

  /** An item of a map without a type is not followed; an item of a list always is. */
  predicate Follows(s: Schema, tr: TypeRef, pe: PathElement) {
    VisitOf(s, tr).Into? && (Resolve(s, tr).value.mapping.Some? ==> TypeBelow(s, tr, pe) != NO_TYPE)
  }

  /** The path below a node, truncated at the first atomic container at or below the node. */
  function Truncated(s: Schema, tr: TypeRef, p: Path): Path
    decreases |p|
  {
    if VisitOf(s, tr).Cut? then []
    else if p == [] || !Follows(s, tr, p[0]) then p
    else [p[0]] + Truncated(s, TypeBelow(s, tr, p[0]), p[1..])
  }

  /** The root's own path is not tracked, so an atomic root truncates nothing. */
  function Truncate(s: Schema, tr: TypeRef, p: Path): Path {
    if VisitOf(s, tr).Cut? then p else Truncated(s, tr, p)
  }

  /** Every type met along the path resolves to an atom with a kind. */
  predicate Resolves(s: Schema, tr: TypeRef, p: Path)
    decreases |p|
  {
    !VisitOf(s, tr).Broken? &&
    (p != [] && Follows(s, tr, p[0]) ==> Resolves(s, TypeBelow(s, tr, p[0]), p[1..]))
  }

  /** `ReconcileFieldSetWithSchema`, or None on a schema error. */
  function Reconcile(s: Schema, tr: TypeRef, paths: PathSet): Option<PathSet> {
    if VisitOf(s, tr).Broken? || exists p | p in paths :: !Resolves(s, tr, p) then None
    else Some(set p | p in paths :: Truncate(s, tr, p))
  }
}
