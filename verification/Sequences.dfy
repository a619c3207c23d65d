/** Sequences without repetition, and the elements of a sequence. */
module Sequences {
  predicate Distinct<T(==)>(s: seq<T>) { forall i, j :: 0 <= i < j < |s| ==> s[i] != s[j] }

  function Elems<T(==)>(s: seq<T>): set<T> { set x | x in s }
}
