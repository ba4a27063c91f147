/** Facts about sequences that the imperative proofs cite. */
module Sequences {

  /** Associativity of concatenation, for regrouping what a method has written so far. */
  lemma Append<T>(a: seq<T>, b: seq<T>, c: seq<T>)
    ensures (a + b) + c == a + (b + c)
  {
  }
}
