/** What several modules share: the stock Option type, name orders, and one fact about sequences. */
module Wrappers {
  datatype Option<+T> = None | Some(value: T)

  type NameOrder = (string, string) -> bool

  /** `localeCompare` as a strict total order. */
  ghost predicate StrictTotalOrder(less: NameOrder) {
    && (forall a :: !less(a, a))
    && (forall a, b :: a != b ==> less(a, b) || less(b, a))
    && (forall a, b, c :: less(a, b) && less(b, c) ==> less(a, c))
  }

  lemma Associate<T>(a: seq<T>, b: seq<T>, c: seq<T>)
    ensures a + (b + c) == (a + b) + c
  {
  }
}
