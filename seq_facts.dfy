/** Two facts about sequences that the loop proofs of several modules use. */
module SeqFacts {
  /** Concatenation is associative. */
  lemma AppendAssoc<T>(a: seq<T>, b: seq<T>, c: seq<T>)
    ensures a + b + c == a + (b + c)
  {
  }

  /** The prefix of full length is the whole sequence. */
  lemma AllPrefix<T>(s: seq<T>)
    ensures s[..|s|] == s
  {
  }
}
