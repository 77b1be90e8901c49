/** Path elements, paths, and the path sets that field sets denote. */
module PathElements {
  import opened Values

  datatype Field = Field(name: string, value: Value)

  /** How to select a child of a container; `NoElement` is the zero element. */
  datatype PathElement =
    | FieldName(name: string)
    | Key(fields: seq<Field>)
    | Element(value: Value)
    | Index(index: int)
    | NoElement

  type Path = seq<PathElement>
  type PathSet = set<Path>

  predicate Starts(p: Path, pe: PathElement) {
    p != [] && p[0] == pe
  }

  /** A set with one path; the root's own path is not tracked. */
  function Tracked(p: Path): PathSet {
    if p == [] then {} else {p}
  }

  /** The paths of `paths`, each put below `pe`. */
  function Under(pe: PathElement, paths: PathSet): PathSet {
    set p | p in paths :: [pe] + p
  }

  /** The non-empty tails of the paths that start with `pe`. */
  function Below(paths: PathSet, pe: PathElement): PathSet {
    set p | p in paths && |p| > 1 && p[0] == pe :: p[1..]
  }

  /** Some non-empty prefix of `p`, possibly `p` itself, is in `paths`. */
  predicate Covered(p: Path, paths: PathSet) {
    exists i :: 0 < i <= |p| && p[..i] in paths
  }

  /** The paths that no other path of the set extends. */
  function MaximalPaths(paths: PathSet): PathSet {
    set p | p in paths && !exists q | q in paths :: p < q
  }

  lemma {:induction false} UnderIn(pe: PathElement, paths: PathSet, p: Path)
    ensures p in Under(pe, paths) <==> |p| > 0 && p[0] == pe && p[1..] in paths
  {
    if |p| > 0 && p[0] == pe && p[1..] in paths {
      assert p == [pe] + p[1..];
    }
  }

  lemma {:induction false} BelowIn(paths: PathSet, pe: PathElement, p: Path)
    ensures p in Below(paths, pe) <==> p != [] && [pe] + p in paths
  {
    if p != [] && [pe] + p in paths {
      assert ([pe] + p)[1..] == p;
    }
    if p in Below(paths, pe) {
      var q :| q in paths && |q| > 1 && q[0] == pe && q[1..] == p;
      assert q == [pe] + p;
    }
  }

  /** One step of `Covered`: the head alone, or the tail among the paths below the head. */
  lemma {:induction false} CoveredStep(p: Path, paths: PathSet)
    requires p != []
    ensures Covered(p, paths) <==> [p[0]] in paths || Covered(p[1..], Below(paths, p[0]))
  {
    var pe, rest, sub := p[0], p[1..], Below(paths, p[0]);
    if [pe] in paths {
      assert p[..1] == [pe];
    }
    if Covered(rest, sub) {
      var i :| 0 < i <= |rest| && rest[..i] in sub;
      BelowIn(paths, pe, rest[..i]);
      assert [pe] + rest[..i] == p[..i + 1];
    }
    if Covered(p, paths) {
      var i :| 0 < i <= |p| && p[..i] in paths;
      if i == 1 {
        assert p[..1] == [pe];
      } else {
        assert [pe] + rest[..i - 1] == p[..i];
        BelowIn(paths, pe, rest[..i - 1]);
      }
    }
  }
}
