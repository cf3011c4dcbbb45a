/** What several modules share: options, powers of two, repetition-free sequences, whole multiples. */
module Basics {
  datatype Option<+T> = None | Some(value: T)

  function Pow2(k: nat): (r: nat)
    ensures r > 0
  {
    if k == 0 then 1 else 2 * Pow2(k - 1)
  }

  ghost predicate NoDup<T>(s: seq<T>) {
    forall i, j :: 0 <= i < j < |s| ==> s[i] != s[j]
  }

  /** A whole number of units is none, or at least one of them either way. */
  lemma WholeBlocks(blocks: int, unit: int)
    requires unit > 0
    ensures if blocks < 0 then blocks * unit <= -unit else if blocks == 0 then blocks * unit == 0 else blocks * unit >= unit
  {
  }
}
