/** Facts about sequences that the proofs use at many element types. */
module Seqs {
  /** A suffix is its first element followed by the suffix after it. */
  lemma SliceCons<T>(s: seq<T>, k: nat)
    requires k < |s|
    ensures s[k..] == [s[k]] + s[k + 1..]
  {
  }
}
