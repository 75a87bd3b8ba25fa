/** Multiplication facts the counting proofs share. */
module Arithmetic {

  lemma OneMore(i: int, j: int)
    ensures i * j == j + (i - 1) * j
  {}
}
