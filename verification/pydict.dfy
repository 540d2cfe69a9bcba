/**
 * A Python `dict` keyed by strings: a map together with the order in which
 * its keys were first inserted, which is the order Python iterates in.
 * Assigning to a present key keeps its position; a new key goes last;
 * `pop` removes the key from the order.
 */
module PyDict {
  import opened Common

  datatype Dict<V> = Dict(keys: seq<string>, entries: map<string, V>)
  {
    /** The order lists every key exactly once. */
    ghost predicate Valid()
    {
      NoDup(keys) && forall k :: k in entries <==> k in keys
    }

    /** `d.get(k)`. */
    function Get(k: string): Option<V>
    {
      if k in entries then Some(entries[k]) else None
    }

    /** `d[k] = v`. */
    function Set(k: string, v: V): (d: Dict<V>)
      ensures Valid() ==> d.Valid()
      ensures d.entries == entries[k := v]
      ensures k in entries ==> d.keys == keys
      ensures k !in entries ==> d.keys == keys + [k]
    {
      if k in entries then Dict(keys, entries[k := v]) else Dict(keys + [k], entries[k := v])
    }

    /** `d.pop(k, None)`. */
    function Pop(k: string): (d: Dict<V>)
      ensures Valid() ==> d.Valid()
      ensures d.entries == entries - {k}
      ensures d.keys == Without(keys, k)
    {
      WithoutKeepsNoDup(keys, k);
      Dict(Without(keys, k), entries - {k})
    }
  }

  function Empty<V>(): (d: Dict<V>)
    ensures d.Valid() && d.entries == map[]
  {
    Dict([], map[])
  }

  /** Popping an absent key changes nothing. */
  lemma PopAbsent<V>(d: Dict<V>, k: string)
    requires d.Valid() && k !in d.entries
    ensures d.Pop(k) == d
  {
    WithoutAbsent(d.keys, k);
  }
}
