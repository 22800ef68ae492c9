/** Lists of keyed entries, oldest first, as the caches keep them. */
module Entries {
  datatype Entry<K, V> = Entry(key: K, value: V)

  ghost predicate DistinctKeys<K, V>(entries: seq<Entry<K, V>>) {
    forall i, j | 0 <= i < j < |entries| :: entries[i].key != entries[j].key
  }

  /** The position of a key, or the length of the list if it has none. */
  function IndexOf<K(==), V>(entries: seq<Entry<K, V>>, key: K): (i: nat)
    ensures i <= |entries| && (i < |entries| ==> entries[i].key == key)
    ensures forall j | 0 <= j < i :: entries[j].key != key
  {
    if entries == [] || entries[0].key == key then 0 else 1 + IndexOf(entries[1..], key)
  }
}
