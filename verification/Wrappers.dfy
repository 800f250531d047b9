/** Small definitions that several modules share. */
module Wrappers {
  datatype Option<+T> = None | Some(value: T)

  /** A list without repetitions. */
  ghost predicate Distinct(l: seq<int>) {
    forall i, j | 0 <= i < j < |l| :: l[i] != l[j]
  }
}
