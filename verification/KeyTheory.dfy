/** Comparisons never split a list item from its key fields, save from those at their defaults. */
module KeyTheory {
  import opened Values
  import opened PathElements
  import opened Schemas
  import opened Comparing
  import opened PlainSetting
  import opened ListKeys
  import opened ItemTheory
  import opened OwningTheory
  import opened CompareTheory

  /** At the path of a list item, a key that is not at its default has one value in all objects. */
  lemma {:induction false} KeyValueAt(s: Schema, tr: TypeRef, l: Option<Value>, r: Option<Value>, p: Path, k: string)
    requires Plain(s, tr) && ValidOpt(s, tr, l) && ValidOpt(s, tr, r) && IsKeyOf(s, tr, p, k)
    requires At(s, tr, l, p).Some? && At(s, tr, r, p).Some?
    ensures At(s, tr, l, p + [FieldName(k)]) == At(s, tr, r, p + [FieldName(k)])
    decreases |p|
  {
    var pe, rest, ct := p[0], p[1..], ChildType(s, tr, p[0]);
    assert (p + [FieldName(k)])[0] == pe && (p + [FieldName(k)])[1..] == rest + [FieldName(k)];
    if KidOf(s, tr, l, pe).None? || KidOf(s, tr, r, pe).None? {
      AtNone(s, ct, rest);
    }
    KidValidOpt(s, tr, l, pe);
    KidValidOpt(s, tr, r, pe);
    if rest != [] {
      KeyValueAt(s, ct, KidOf(s, tr, l, pe), KidOf(s, tr, r, pe), rest, k);
    } else {
      assert rest + [FieldName(k)] == [FieldName(k)] && p == [pe];
      KeyHere(s, tr, l.value, pe, k);
      KeyHere(s, tr, r.value, pe, k);
      PlainNode(s, tr);
      SameKeys(s, ShapeOf(s, tr).lt, Kid(s, tr, l.value, pe).value, Kid(s, tr, r.value, pe).value, k);
    }
  }

  /** Comparing two objects yields sets of the objects' paths, with items and such keys together. */
  lemma {:induction false} ComparisonOwned(s: Schema, tr: TypeRef, l: Value, r: Value)
    requires Plain(s, tr) && Valid(s, tr, l, false) && Valid(s, tr, r, false)
    ensures var c := Compare(s, tr, Some(l), Some(r));
            OwnedIn(s, tr, r, c.added) && OwnedIn(s, tr, l, c.removed) &&
            OwnedIn(s, tr, l, c.modified - {[]}) && OwnedIn(s, tr, r, c.modified - {[]})
  {
    var c := Compare(s, tr, Some(l), Some(r));
    CompareExact(s, tr, l, r);
    AllPathsKeyClosed(s, tr, l);
    AllPathsKeyClosed(s, tr, r);
    forall p, k | IsKeyOf(s, tr, p, k)
      ensures p !in c.modified && p + [FieldName(k)] !in c.modified && p != []
    {
      var q := p + [FieldName(k)];
      CompareAt(s, tr, Some(l), Some(r), p);
      CompareAt(s, tr, Some(l), Some(r), q);
      KeyPresent(s, tr, Some(l), p, k);
      KeyPresent(s, tr, Some(r), p, k);
      if At(s, tr, Some(l), p).Some? && At(s, tr, Some(r), p).Some? {
        KeyValueAt(s, tr, Some(l), Some(r), p, k);
      }
    }
  }
}
