/** What several modules share. */
module Basics {
  datatype Option<+T> = None | Some(value: T)

  /** Always true. A fact stated under `Open` stays folded until a proof mentions it. */
  predicate Open(k: nat) { k >= 0 }

  lemma {:induction false} SubsetSize<T>(a: set<T>, b: set<T>)
    requires a <= b
    ensures |a| <= |b|
    decreases |a|
  {
    if x :| x in a {
      SubsetSize(a - {x}, b - {x});
    }
  }
}
