/** Facts about sequences that the stage proofs share. */
module Sequences {

  /** `s` is the part before index `j`, the element at `j`, and the rest. */
  lemma SplitAround<T>(s: seq<T>, j: nat)
    requires j < |s|
    ensures s == s[..j] + ([s[j]] + s[j + 1..])
  {
  }
}
