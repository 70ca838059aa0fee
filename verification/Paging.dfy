/** Pages of an ordered scan. */
module Paging {

  ghost predicate Listed<K, V>(items: seq<(K, V)>, k: K) {
    exists i :: 0 <= i < |items| && items[i].0 == k
  }

  /** `items` is a page of a scan that has the keys `todo` ahead of it: in order, with
      the stored values, and leaving out no key up to its last one, nor any key when
      it is the last page. */
  ghost predicate IsPage<K(!new), V>(items: seq<(K, V)>, truncated: bool, data: map<K, V>, todo: set<K>,
                                     less: (K, K) -> bool)
  {
    && (forall i :: 0 <= i < |items| ==> items[i].0 in todo && items[i].0 in data && data[items[i].0] == items[i].1)
    && (forall i, j :: 0 <= i < j < |items| ==> less(items[i].0, items[j].0))
    && (items == [] ==> todo == {})
    && (forall k :: k in todo ==> Listed(items, k) || (truncated && items != [] && less(items[|items| - 1].0, k)))
  }
}
