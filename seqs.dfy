/** A fact about sequence concatenation the proofs cite by name. */
module Seqs {

  /** Concatenation is associative; citing it saves the solver a search through extensionality. */
  lemma AppendAssoc<T>(a: seq<T>, b: seq<T>, c: seq<T>)
    ensures a + (b + c) == (a + b) + c
  {
  }
}
