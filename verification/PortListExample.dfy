/** A list keyed by port and protocol, where only the protocol has a default: every run is safe. */
module PortListExample {
  import opened Values
  import opened Schemas
  import opened Updating
  import opened PlainSetting
  import opened RunTheory

  const NUMERIC := TypeRef(None, Atom(Some(Numeric), None, None), None)
  const TEXT := TypeRef(None, Atom(Some(StringScalar), None, None), None)
  const PORT := MapType(map["port" := StructField(NUMERIC, None),
                            "protocol" := StructField(TEXT, Some(Str("TCP"))),
                            "name" := StructField(TEXT, None)], NO_TYPE, Separable)
  const PORT_TYPE := TypeRef(None, Atom(None, None, Some(PORT)), None)
  const PORTS := ListType(PORT_TYPE, Associative, ["port", "protocol"])
  const PORTS_TYPE := TypeRef(None, Atom(None, Some(PORTS), None), None)
  const ROOT := MapType(map["containerPorts" := StructField(PORTS_TYPE, None)], NO_TYPE, Separable)
  const ROOT_TYPE := TypeRef(Some("v1"), NO_ATOM, None)
  const PORT_SCHEMA := Schema(map["v1" := Atom(None, None, Some(ROOT))])

  /** One type at a time: it resolves to a plain atom, and if it is a list, it has a key without a default. */
  ghost predicate Fine(types: set<TypeRef>, tr: TypeRef) {
    Resolve(PORT_SCHEMA, tr).Some? && PlainAtom(PORT_SCHEMA, types, Resolve(PORT_SCHEMA, tr).value) &&
    (ShapeOf(PORT_SCHEMA, tr).ListShape? ==> HasGivenKey(PORT_SCHEMA, ShapeOf(PORT_SCHEMA, tr).lt))
  }

  lemma {:induction false} RootFine(types: set<TypeRef>)
    requires PORTS_TYPE in types
    ensures Fine(types, ROOT_TYPE) && ShapeOf(PORT_SCHEMA, ROOT_TYPE) == MapShape(ROOT)
  {
    assert Resolve(PORT_SCHEMA, ROOT_TYPE) == Some(Atom(None, None, Some(ROOT)));
  }

  lemma {:induction false} PortsFine(types: set<TypeRef>)
    requires PORT_TYPE in types
    ensures Fine(types, PORTS_TYPE)
  {
    assert "port" in PORTS.keys && KeyDefault(PORT_SCHEMA, PORTS, "port").None?;
  }

  lemma {:induction false} PortFine(types: set<TypeRef>)
    requires NUMERIC in types && TEXT in types
    ensures Fine(types, PORT_TYPE)
  {
  }

  lemma {:induction false} ScalarsFine(types: set<TypeRef>)
    ensures Fine(types, NUMERIC) && Fine(types, TEXT)
  {
  }

  /** The schema is anchored: no item can do without its port. */
  lemma {:induction false} PortListAnchored()
    ensures Anchored(PORT_SCHEMA, ROOT_TYPE) && ShapeOf(PORT_SCHEMA, ROOT_TYPE).MapShape?
  {
    var types := {ROOT_TYPE, PORTS_TYPE, PORT_TYPE, NUMERIC, TEXT};
    RootFine(types);
    PortsFine(types);
    PortFine(types);
    ScalarsFine(types);
    AllFine(types, ROOT_TYPE);
  }

  lemma {:induction false} AllFine(types: set<TypeRef>, tr: TypeRef)
    requires tr in types && forall t | t in types :: Fine(types, t)
    ensures Anchored(PORT_SCHEMA, tr)
  {
    assert ClosedTypes(PORT_SCHEMA, types) && GivenKeys(PORT_SCHEMA, types);
  }

  /** Ownership stays safe over every run on it, with the protocol written out or left to its default. */
  lemma {:induction false} PortListSafe(live: Value, steps: seq<Step>)
    requires Valid(PORT_SCHEMA, ROOT_TYPE, live, false)
    requires forall step | step in steps :: Admissible(PORT_SCHEMA, ROOT_TYPE, step)
    ensures var start := State(live, map[]);
            Safe(PORT_SCHEMA, ROOT_TYPE, Run(PORT_SCHEMA, ROOT_TYPE, start, steps),
                 History(PORT_SCHEMA, ROOT_TYPE, start, map[], steps))
  {
    PortListAnchored();
    RunSafe(PORT_SCHEMA, ROOT_TYPE, State(live, map[]), map[], steps);
  }
}
