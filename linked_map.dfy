/**
 * A Kotlin LinkedHashMap as a value: the entries plus the order in which their keys were first
 * inserted. Iteration (entries, keys, find) follows that order.
 */
module LinkedMaps {
  import opened Seqs

  datatype LinkedMap<K(==,!new), V> = LinkedMap(items: map<K, V>, keys: seq<K>) {

    /** The key order lists every key exactly once. */
    ghost predicate Valid() {
      Distinct(keys) && (forall k :: k in keys <==> k in items)
    }

    /** put: a new key goes last, an existing key keeps its position. */
    function Put(k: K, v: V): (r: LinkedMap<K, V>)
      ensures Valid() ==> r.Valid()
      ensures r.items.Keys == items.Keys + {k} && r.items[k] == v
      ensures forall j :: j in items && j != k ==> r.items[j] == items[j]
      ensures k in items ==> r.keys == keys
      ensures k !in items ==> r.keys == keys + [k]
    {
      LinkedMap(items[k := v], if k in items then keys else keys + [k])
    }

    /** remove: drops the key and its place in the order. */
    function Remove(k: K): (r: LinkedMap<K, V>)
      ensures Valid() ==> r.Valid()
      ensures r.items.Keys == items.Keys - {k}
      ensures forall j :: j in r.items ==> r.items[j] == items[j]
    {
      assert Distinct(keys) ==> Distinct(Without(keys, {k})) by {
        if Distinct(keys) {
          WithoutDistinct(keys, {k});
        }
      }
      LinkedMap(items - {k}, Without(keys, {k}))
    }
  }

  /** mutableMapOf(). */
  function Empty<K(==,!new), V>(): (r: LinkedMap<K, V>)
    ensures r.Valid() && r.items == map[]
  {
    LinkedMap(map[], [])
  }
}
