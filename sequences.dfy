/** Facts about plain sequences shared by the permanent and the channel index. */
module Sequences {
  /** No element occurs twice: a list of distinct rows, or of distinct dictionary keys. */
  predicate Distinct<T(==)>(s: seq<T>) {
    forall a, b :: 0 <= a < b < |s| ==> s[a] != s[b]
  }
}
