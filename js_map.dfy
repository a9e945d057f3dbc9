/**
 * A JavaScript `Map` (or a plain object used as a dictionary) with string
 * keys: a value per key, and the keys in insertion order, which is the order
 * `entries()` and `Object.keys` visit them in for the keys used here.
 */
module JsMaps {
  import opened Sorting

  datatype OrderedMap<V> = OrderedMap(keys: seq<string>, values: map<string, V>) {
    /** Every key is listed once, and the listed keys are the keys that have a value. */
    ghost predicate Valid() {
      NoDup(keys) && forall k :: k in keys <==> k in values
    }

    /** `map.set(k, v)`: a new key goes to the end; an existing key keeps its place. */
    function Set(k: string, v: V): (m: OrderedMap<V>)
      ensures Valid() ==> m.Valid()
      ensures m.values == values[k := v]
      ensures k in values ==> m.keys == keys
      ensures k !in values ==> m.keys == keys + [k]
    {
      if k in values then OrderedMap(keys, values[k := v])
      else
        var m := OrderedMap(keys + [k], values[k := v]);
        assert Valid() ==> m.Valid() by {
          if Valid() {
            assert forall i :: 0 <= i < |keys| ==> keys[i] in values;
          }
        }
        m
    }

    /** `map.get(k) ?? d`. */
    function GetOr(k: string, d: V): V {
      if k in values then values[k] else d
    }
  }

  /** `new Map()` / `{}`. */
  function Empty<V>(): (m: OrderedMap<V>)
    ensures m.Valid() && m.keys == [] && m.values == map[]
  {
    OrderedMap([], map[])
  }
}
