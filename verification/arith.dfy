/** Arithmetic facts shared by the keyspace, humaniser and crack-time proofs. */
module Arith {

  /** Products of naturals are monotone in both factors. */
  lemma MultiplyBoth(a: nat, b: nat, x: nat, y: nat)
    requires a <= b && x <= y
    ensures a * x <= b * y
  {
    assert a * x <= b * x;
    assert b * x <= b * y;
  }
}
