/**
 * The abstract domain for int values that the constant-argument analysis
 * records: `Unknown` (no useful fact) above every `Constant` set.
 */
module IntValues {
  import opened Asm

  datatype IntValueSet = Unknown | Constant(values: set<Int32>)

  /** `singleton`: the one value of a one-element constant set. */
  function Singleton(v: IntValueSet): (r: Option<Int32>)
    ensures r.Some? <==> v.Constant? && |v.values| == 1
    ensures r.Some? ==> v.values == {r.value}
  {
    if v.Constant? && |v.values| == 1 then
      var x := OnlyElement(v.values);
      Some(x)
    else None
  }

  function OnlyElement(s: set<Int32>): (x: Int32)
    requires |s| == 1
    ensures s == {x}
  {
    var x :| x in s;
    assert |s - {x}| == 0;
    assert s == {x};
    x
  }

  /** `union`: `Unknown` absorbs, constant sets are merged. */
  function Union(a: IntValueSet, b: IntValueSet): (r: IntValueSet)
    ensures Le(a, r) && Le(b, r)
    ensures r.Unknown? <==> a.Unknown? || b.Unknown?
    ensures r.Constant? ==> r.values == a.values + b.values
  {
    if a.Unknown? || b.Unknown? then Unknown else Constant(a.values + b.values)
  }

  /** The lattice order: `a` carries at least as precise a fact as `b`. */
  predicate Le(a: IntValueSet, b: IntValueSet) {
    b.Unknown? || (a.Constant? && b.Constant? && a.values <= b.values)
  }

  lemma UnionCommutes(a: IntValueSet, b: IntValueSet)
    ensures Union(a, b) == Union(b, a)
  {
  }

  lemma UnionAssociates(a: IntValueSet, b: IntValueSet, c: IntValueSet)
    ensures Union(Union(a, b), c) == Union(a, Union(b, c))
  {
  }

  lemma UnionIdempotent(a: IntValueSet)
    ensures Union(a, a) == a
  {
  }

  /** Union is the least upper bound in the order `Le`. */
  lemma UnionLeast(a: IntValueSet, b: IntValueSet, c: IntValueSet)
    requires Le(a, c) && Le(b, c)
    ensures Le(Union(a, b), c)
  {
  }

  lemma LeTransitive(a: IntValueSet, b: IntValueSet, c: IntValueSet)
    requires Le(a, b) && Le(b, c)
    ensures Le(a, c)
  {
  }

  lemma LeAntisymmetric(a: IntValueSet, b: IntValueSet)
    requires Le(a, b) && Le(b, a)
    ensures a == b
  {
  }
}
