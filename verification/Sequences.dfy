/** What several modules need to say about sequences. */
module Sequences {
  /** No element is there twice. */
  ghost predicate Distinct<T>(s: seq<T>) {
    forall i, j | 0 <= i < j < |s| :: s[i] != s[j]
  }
}
