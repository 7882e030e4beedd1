/** What several parts of the model use. */
module Basics {
  const WRAP_32 := 0x1_0000_0000
  const WRAP_64 := 0x1_0000_0000_0000_0000

  type byte = b: int | 0 <= b < 256

  datatype Option<T> = None | Some(value: T)

  /** No number occurs twice. */
  ghost predicate Distinct(q: seq<int>) {
    forall i, j | 0 <= i < j < |q| :: q[i] != q[j]
  }

  lemma SubsetSize<T>(a: set<T>, b: set<T>)
    requires a <= b
    ensures |a| <= |b|
  {
    assert b == a + (b - a) && a * (b - a) == {};
  }
}
