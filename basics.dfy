/**
 * Small definitions shared by both updater variants.
 */
module Basics {

  /** A lookup that may fail: Go's `(value, err)` pair, with `err != nil`
      read as `None`. */
  datatype Option<T> = None | Some(value: T)

  /** No name occurs twice. */
  predicate Distinct(s: seq<string>) {
    forall i, j :: 0 <= i < j < |s| ==> s[i] != s[j]
  }
}
