/** Facts about sequences that the proofs cite by name. */
module SeqFacts {

  /**
    Regrouping a concatenation. Proofs whose context is full of facts about
    recursive functions call this lemma instead of leaving the solver to find it.
   */
  lemma ConcatAssoc<T>(x: seq<T>, y: seq<T>, z: seq<T>)
    ensures x + (y + z) == (x + y) + z
  {
  }
}
