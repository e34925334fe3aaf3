/** Integers among the reals. */
module Rounding {
  predicate IsInteger(v: real) {
    v == v.Floor as real
  }

  /** The least integer that is not below `v`. */
  function Ceiling(v: real): int {
    -((-v).Floor)
  }

  lemma {:induction false} FloorAbove(k: int, x: real)
    ensures k as real <= x <==> k <= x.Floor
  {
  }
}
