/** A fact about sequences that the proofs of the other modules share. */
module Sequences {
  lemma Regrouped<T>(a: seq<T>, b: seq<T>, c: seq<T>)
    ensures (a + b) + c == a + (b + c)
  {
  }
}
