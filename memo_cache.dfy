/**
  The single-entry memo cache both scripts keep in a module-level `global_cache`
  dict: a hit returns the stored value; a miss empties the dict, runs the
  external model once and stores its answer under the queried key.
*/
module MemoCache {

  class SingleEntryCache<K(==), V> {
    /** The dict's contents. */
    var entries: map<K, V>
    /** Every key the external model has been run on through this cache, oldest first. */
    ghost var calls: seq<K>

    /** The cache never holds more than one key. */
    ghost predicate Valid()
      reads this
    {
      |entries| <= 1
    }

    /** Every stored value is what `produce` gives for its key. */
    ghost predicate Coherent(produce: K -> V)
      reads this
    {
      forall k :: k in entries ==> entries[k] == produce(k)
    }

    /** `global_cache = {}` at module load. */
    constructor ()
      ensures Valid()
      ensures entries == map[] && calls == []
    {
      entries := map[];
      calls := [];
    }

    /**
      One memoised call: a stored key is answered from the dict; any other key
      empties the dict, runs `produce` on it and stores the answer as the only entry.
    */
    method Lookup(key: K, produce: K -> V) returns (v: V, hit: bool)
      requires Valid()
      modifies this
      ensures Valid()
      ensures hit == (key in old(entries))
      ensures entries == map[key := v]
      ensures hit ==> v == old(entries)[key] && calls == old(calls)
      ensures !hit ==> v == produce(key) && calls == old(calls) + [key]
      ensures old(Coherent(produce)) ==> Coherent(produce) && v == produce(key)
    {
      if key in entries {
        v, hit := entries[key], true;
        SingleKey(entries, key);
      } else {
        entries := map[];
        v := produce(key);
        entries := entries[key := v];
        calls := calls + [key];
        hit := false;
      }
    }
  }

  /** The keys the cache holds after looking up `keys` in order, starting from the keys `held`. */
  function KeysAfter<K>(held: set<K>, keys: seq<K>): (r: set<K>)
    ensures keys != [] ==> r == {keys[|keys| - 1]}
  {
    if keys == [] then held else {keys[|keys| - 1]}
  }

  /** The keys the model is run on, in order: each looked-up key that is not the one held at that point. */
  function Misses<K>(held: set<K>, keys: seq<K>): seq<K> {
    if keys == [] then []
    else
      var n := |keys| - 1;
      Misses(held, keys[..n]) + (if keys[n] in KeysAfter(held, keys[..n]) then [] else [keys[n]])
  }

  lemma MissesSnoc<K>(held: set<K>, keys: seq<K>, k: K)
    ensures Misses(held, keys + [k]) == Misses(held, keys) + (if k in KeysAfter(held, keys) then [] else [k])
    ensures KeysAfter(held, keys + [k]) == {k}
  {
    assert (keys + [k])[..|keys|] == keys;
  }

  /** A map with at most one key that holds `key` is the singleton at `key`. */
  lemma SingleKey<K, V>(m: map<K, V>, key: K)
    requires |m| <= 1 && key in m
    ensures m == map[key := m[key]]
  {
    var others := m.Keys - {key};
    assert m.Keys == others + {key};
    assert |m.Keys| == |others| + 1;
    assert others == {};
    assert m.Keys == {key};
  }
}
