/** Values that every part of the model uses. */
module Basics {
  datatype Option<+T> = None | Some(value: T)

  function Min(a: nat, b: nat): nat { if a < b then a else b }

  ghost predicate Distinct(c: seq<nat>) {
    forall i, j | 0 <= i < j < |c| :: c[i] != c[j]
  }
}
