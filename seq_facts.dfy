/** Facts about sequences that the proofs of the store and the queries
    share. */
module SeqFacts {
  lemma ConcatAssoc<T>(a: seq<T>, b: seq<T>, c: seq<T>)
    ensures a + b + c == a + (b + c)
  {
  }
}
