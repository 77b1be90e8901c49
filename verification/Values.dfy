/** The unstructured value tree that objects, configurations and list keys are made of. */
module Values {

  datatype Option<+T> = None | Some(value: T)

  /** Numbers are exact: the model covers finite floats and the integers a float64 represents. */
  datatype Value =
    | Null
    | Num(n: real)
    | Str(s: string)
    | Bool(b: bool)
    | List(items: seq<Value>)
    | Map(fields: map<string, Value>)

  /** Nesting depth; every walker below terminates because the values it visits get shallower. */
  ghost function Height(v: Value): nat {
    match v
    case List(items) => 1 + SeqHeight(items)
    case Map(fields) => 1 + FieldsHeight(v, fields.Keys)
    case _ => 0
  }

  ghost function SeqHeight(items: seq<Value>): nat {
    if items == [] then 0
    else Max(Height(items[0]), SeqHeight(items[1..]))
  }

  ghost function FieldsHeight(v: Value, keys: set<string>): nat
    requires v.Map? && keys <= v.fields.Keys
    decreases v, keys
  {
    if keys == {} then 0
    else
      var k := Pick(keys);
      Max(Height(v.fields[k]), FieldsHeight(v, keys - {k}))
  }

  ghost function Pick<T>(xs: set<T>): (x: T)
    requires xs != {}
    ensures x in xs
  {
    var x :| x in xs; x
  }

  function Max(a: int, b: int): int { if a < b then b else a }

  /** The height of an operand that may be absent; an absent one is below every value. */
  ghost function OptHeight(o: Option<Value>): nat {
    if o.None? then 0 else 1 + Height(o.value)
  }

  lemma {:induction false} ItemHeight(items: seq<Value>, x: Value)
    requires x in items
    ensures Height(x) <= SeqHeight(items)
  {
    if x != items[0] {
      ItemHeight(items[1..], x);
    }
  }

  lemma {:induction false} FieldHeight(v: Value, keys: set<string>, k: string)
    requires v.Map? && keys <= v.fields.Keys && k in keys
    ensures Height(v.fields[k]) <= FieldsHeight(v, keys)
    decreases keys
  {
    if k != Pick(keys) {
      FieldHeight(v, keys - {Pick(keys)}, k);
    }
  }

  /** The fields of an operand read as a map; an absent, null or differently typed one has none. */
  function FieldsOf(o: Option<Value>): map<string, Value> {
    if o.Some? && o.value.Map? then o.value.fields else map[]
  }

  /** The items of an operand read as a list; an absent, null or differently typed one has none. */
  function ItemsOf(o: Option<Value>): seq<Value> {
    if o.Some? && o.value.List? then o.value.items else []
  }

  function Lookup<T>(m: map<string, T>, k: string): Option<T> {
    if k in m then Some(m[k]) else None
  }

  lemma {:induction false} LookupHeight(o: Option<Value>, k: string)
    ensures OptHeight(Lookup(FieldsOf(o), k)) <= OptHeight(o)
    ensures k in FieldsOf(o) ==> OptHeight(Lookup(FieldsOf(o), k)) < OptHeight(o)
  {
    if k in FieldsOf(o) {
      FieldHeight(o.value, o.value.fields.Keys, k);
    }
  }

  lemma {:induction false} ItemsHeight(o: Option<Value>, x: Value)
    requires x in ItemsOf(o)
    ensures OptHeight(Some(x)) < OptHeight(o)
  {
    ItemHeight(o.value.items, x);
  }

  /** The first `i` elements, as a set. */
  ghost function Firsts<T>(xs: seq<T>, i: nat): set<T>
    requires i <= |xs|
  {
    set x | x in xs[..i]
  }

  lemma {:induction false} FirstsNext<T>(xs: seq<T>, i: nat)
    requires i < |xs|
    ensures Firsts(xs, i + 1) == Firsts(xs, i) + {xs[i]}
    ensures (forall j | 0 <= j < i :: xs[j] != xs[i]) ==> xs[i] !in Firsts(xs, i)
  {
    assert xs[..i + 1] == xs[..i] + [xs[i]];
  }

  lemma {:induction false} FirstsAll<T>(xs: seq<T>)
    ensures forall x :: x in Firsts(xs, |xs|) <==> x in xs
  {
    assert xs[..|xs|] == xs;
  }

  /** Taking one element off a set that is worked through in any order. */
  lemma {:induction false} TakeOff<T>(keys: set<T>, seen: set<T>, todo: set<T>, done: set<T>, k: T)
    requires seen !! keys && todo <= keys && done == seen + (keys - todo) && k in todo
    ensures k !in done && done + {k} == seen + (keys - (todo - {k})) && done + {k} <= seen + keys
    ensures |todo - {k}| < |todo|
  {
  }
}
