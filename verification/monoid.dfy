/**
 * Monoid.kt: the value algebra behind every storage. `neutral` is the value
 * every resource implicitly has (and that a storage never keeps), `combine`
 * merges two peers' values, and `combineAll` folds a collection from
 * `neutral`.
 */
module Monoids {

  datatype Monoid<!V> = Monoid(neutral: V, combine: (V, V) -> V)

  /** Kotlin's `fold(acc) { acc, value -> combine(acc, value) }`, first element first. */
  function Fold<V>(m: Monoid<V>, acc: V, values: seq<V>): V
    decreases |values|
  {
    if |values| == 0 then acc else Fold(m, m.combine(acc, values[0]), values[1..])
  }

  /** `combineAll(values)`. */
  function CombineAll<V>(m: Monoid<V>, values: seq<V>): V
  {
    Fold(m, m.neutral, values)
  }

  /** Folding one more value combines it onto the previous result. */
  lemma {:induction false} FoldSnoc<V>(m: Monoid<V>, acc: V, values: seq<V>, v: V)
    ensures Fold(m, acc, values + [v]) == m.combine(Fold(m, acc, values), v)
    decreases |values|
  {
    if |values| > 0 {
      assert (values + [v])[1..] == values[1..] + [v];
      FoldSnoc(m, m.combine(acc, values[0]), values[1..], v);
    }
  }

  /** `combineAll` is a left fold: the empty collection gives `neutral`, and a last element is combined on the right. */
  lemma CombineAllLeftFold<V>(m: Monoid<V>, values: seq<V>, v: V)
    ensures CombineAll(m, []) == m.neutral
    ensures CombineAll(m, values + [v]) == m.combine(CombineAll(m, values), v)
    ensures CombineAll(m, [v]) == m.combine(m.neutral, v)
  {
    FoldSnoc(m, m.neutral, values, v);
    FoldSnoc(m, m.neutral, [], v);
    assert [] + [v] == [v];
  }
}
