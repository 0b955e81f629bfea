/** Small facts about products of naturals, kept apart so proofs stay linear. */
module Arith {

  lemma MulMonotone(a: nat, b: nat, c: nat)
    requires a <= b
    ensures a * c <= b * c
  {
  }

  /** (k - 1) * n + n == k * n. */
  lemma MulPred(k: nat, n: nat)
    requires k >= 1
    ensures (k - 1) * n + n == k * n
  {
  }

  /** A product of two naturals is a natural. */
  lemma MulNat(a: nat, b: nat)
    ensures a * b >= 0
  {
  }
}
