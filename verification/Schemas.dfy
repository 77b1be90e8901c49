/** The schema language and the resolution of type references. */
module Schemas {
  import opened Values
  import opened PathElements
  import opened Ordering

  /** `Separable` also stands for an unset relationship, which the walkers treat alike. */
  datatype ElementRelationship = Associative | Atomic | Separable

  datatype Scalar = Numeric | StringScalar | Boolean | Untyped | UnknownScalar

  /** Each kind that is present is a possible kind of the value. */
  datatype Atom = Atom(scalar: Option<Scalar>, list: Option<ListType>, mapping: Option<MapType>)

  datatype ListType = ListType(elementType: TypeRef, relationship: ElementRelationship, keys: seq<string>)

  datatype MapType = MapType(fields: map<string, StructField>, elementType: TypeRef, relationship: ElementRelationship)

  datatype StructField = StructField(fieldType: TypeRef, default: Option<Value>)

  datatype TypeRef = TypeRef(named: Option<string>, inlined: Atom, relationship: Option<ElementRelationship>)

  datatype Schema = Schema(types: map<string, Atom>)

  const NO_ATOM := Atom(None, None, None)
  const NO_TYPE := TypeRef(None, NO_ATOM, None)

  function ResolveNoOverrides(s: Schema, tr: TypeRef): Option<Atom> {
    if tr.named.Some? then Lookup(s.types, tr.named.value) else Some(tr.inlined)
  }

  /** The atom a reference stands for, with the reference's own relationship put in place. */
  function Resolve(s: Schema, tr: TypeRef): Option<Atom> {
    var atom := ResolveNoOverrides(s, tr);
    if tr.relationship.None? || atom.None? then atom
    else if atom.value.mapping.Some? then
      Some(atom.value.(mapping := Some(atom.value.mapping.value.(relationship := tr.relationship.value))))
    else if atom.value.list.Some? then
      Some(atom.value.(list := Some(atom.value.list.value.(relationship := tr.relationship.value))))
    else None
  }

  /** The type of a map's item: its declared field's, or else the map's element type. */
  function FieldType(t: MapType, k: string): TypeRef {
    if k in t.fields then t.fields[k].fieldType else t.elementType
  }

  predicate IsScalar(v: Value) {
    v.Num? || v.Str? || v.Bool?
  }

  /** Narrows an atom to the kind of the value, when the atom has that kind. */
  function DeduceAtom(a: Atom, v: Option<Value>): Atom {
    if v.None? then a
    else if IsScalar(v.value) && a.scalar.Some? then Atom(a.scalar, None, None)
    else if v.value.List? && a.list.Some? then Atom(None, a.list, None)
    else if v.value.Map? && a.mapping.Some? then Atom(None, None, a.mapping)
    else a
  }

  /** Stable insertion of `f` after the fields whose names do not come later. */
  function InsertField(fs: seq<Field>, f: Field): seq<Field> {
    if fs == [] then [f]
    else if CompareStrings(f.name, fs[0].name) < 0 then [f] + fs
    else [fs[0]] + InsertField(fs[1..], f)
  }

  function SortFields(fs: seq<Field>): seq<Field> {
    if fs == [] then [] else InsertField(SortFields(fs[..|fs| - 1]), fs[|fs| - 1])
  }

  /** The default of a key field of the list's element type; an error if that type is no map. */
  function KeyDefault(s: Schema, t: ListType, k: string): Option<Value> {
    var e := Resolve(s, t.elementType);
    if e.Some? && e.value.mapping.Some? && k in e.value.mapping.value.fields
    then e.value.mapping.value.fields[k].default
    else None
  }

  /** The key fields of an item in the order of the list's keys, or an error if one is missing. */
  function KeyFields(s: Schema, t: ListType, keys: seq<string>, item: map<string, Value>): Option<seq<Field>> {
    if keys == [] then Some([])
    else
      var v := if keys[0] in item then Some(item[keys[0]]) else KeyDefault(s, t, keys[0]);
      var rest := KeyFields(s, t, keys[1..], item);
      if v.None? || rest.None? then None else Some([Field(keys[0], v.value)] + rest.value)
  }

  /** The path element that selects `item` in a list of type `t`, or an error. */
  function ItemElement(s: Schema, t: ListType, item: Value): Option<PathElement> {
    if !t.relationship.Associative? then None
    else if t.keys != [] then
      if !item.Map? then None
      else
        var fs := KeyFields(s, t, t.keys, item.fields);
        if fs.None? then None else Some(Key(SortFields(fs.value)))
    else if IsScalar(item) then Some(Element(item))
    else None
  }

  predicate ValidScalar(t: Scalar, v: Option<Value>) {
    v.None? || v.value.Null? ||
    match t
    case Numeric => v.value.Num?
    case StringScalar => v.value.Str?
    case Boolean => v.value.Bool?
    case Untyped => IsScalar(v.value)
    case UnknownScalar => false
  }

  /** The object conforms to its type; duplicate list keys only if `dups`. */
  predicate Valid(s: Schema, tr: TypeRef, v: Value, dups: bool)
    decreases v, 1
  {
    var a := Resolve(s, tr);
    a.Some? && ValidAtom(s, DeduceAtom(a.value, Some(v)), v, dups)
  }

  predicate ValidAtom(s: Schema, a: Atom, v: Value, dups: bool)
    decreases v, 0
  {
    if a.mapping.Some? then
      v.Null? ||
      (v.Map? && forall k | k in v.fields ::
         (k in a.mapping.value.fields || a.mapping.value.elementType != NO_TYPE) &&
         Valid(s, FieldType(a.mapping.value, k), v.fields[k], dups))
    else if a.scalar.Some? then
      ValidScalar(a.scalar.value, Some(v))
    else
      a.list.Some? &&
      (v.Null? ||
       (v.List? &&
        (forall x | x in v.items :: Valid(s, a.list.value.elementType, x, dups)) &&
        (a.list.value.relationship.Associative? ==>
           (forall x | x in v.items :: ItemElement(s, a.list.value, x).Some?) &&
           (dups || Distinct(Elements(s, a.list.value, v.items))))))
  }

  /** The path element of each item; the zero element where there is none. */
  function Elements(s: Schema, t: ListType, items: seq<Value>): (ks: seq<PathElement>)
    ensures |ks| == |items|
    ensures forall i | 0 <= i < |items| :: ks[i] == ElementOf(s, t, items[i])
  {
    seq(|items|, i requires 0 <= i < |items| => ElementOf(s, t, items[i]))
  }

  function ElementOf(s: Schema, t: ListType, item: Value): PathElement {
    var pe := ItemElement(s, t, item);
    if pe.Some? then pe.value else NoElement
  }

  predicate Distinct<T(==)>(xs: seq<T>) {
    forall i, j | 0 <= i < j < |xs| :: xs[i] != xs[j]
  }
}
