/** What several parts say about plain lists. */
module Lists {
  predicate NoRepeats<T(==)>(list: seq<T>) {
    forall i, j :: 0 <= i < j < |list| ==> list[i] != list[j]
  }
}
