/** What several modules share. */
module Basics {
  datatype Option<T> = None | Some(value: T)

  type Byte = b: nat | b < 256

  ghost predicate Distinct<T>(q: seq<T>)
  {
    forall i: nat, j: nat | i < j < |q| :: q[i] != q[j]
  }

  lemma Regroup<T>(x: seq<T>, y: seq<T>, z: seq<T>)
    ensures x + (y + z) == (x + y) + z
  {}

  lemma SliceOf<T>(pre: seq<T>, mid: seq<T>, post: seq<T>, i: nat, j: nat)
    requires i <= j <= |mid|
    ensures (pre + mid + post)[|pre| + i..|pre| + j] == mid[i..j]
  {}
}
