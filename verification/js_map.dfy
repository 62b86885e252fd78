/** An ECMAScript `Map` from JSON values to records. `set` on a new key
    appends it to the iteration order; `set` on an existing key replaces the
    value and keeps the key where it was. */
module JsMap {
  import opened JsValues

  datatype OrderedMap = OrderedMap(keys: seq<Json>, vals: map<Json, Record>)

  predicate Distinct(xs: seq<Json>) {
    forall i, j | 0 <= i < j < |xs| :: xs[i] != xs[j]
  }

  /** The key order lists every key of the map exactly once. */
  predicate Valid(m: OrderedMap) {
    && Distinct(m.keys)
    && (forall i | 0 <= i < |m.keys| :: m.keys[i] in m.vals)
    && (forall k | k in m.vals :: k in m.keys)
  }

  const Empty := OrderedMap([], map[])

  /** `m.set(k, v)`. */
  function Set(m: OrderedMap, k: Json, v: Record): (m': OrderedMap)
    ensures m'.vals == m.vals[k := v]
    ensures k in m.vals ==> m'.keys == m.keys
    ensures k !in m.vals ==> m'.keys == m.keys + [k]
    ensures Valid(m) ==> Valid(m')
  {
    if k in m.vals then OrderedMap(m.keys, m.vals[k := v])
    else OrderedMap(m.keys + [k], m.vals[k := v])
  }

  /** `{...m.get(k)}`: the stored record, or no properties at all when `k` is
      absent (spreading `undefined` adds nothing). */
  function GetOrEmpty(m: OrderedMap, k: Json): (r: Record)
    ensures k in m.vals ==> r == m.vals[k]
    ensures k !in m.vals ==> r == map[]
  {
    if k in m.vals then m.vals[k] else map[]
  }

  /** `Array.from(m.values())`. */
  function Values(m: OrderedMap): (rs: seq<Record>)
    requires Valid(m)
    ensures |rs| == |m.keys|
    ensures forall i :: 0 <= i < |rs| ==> rs[i] == m.vals[m.keys[i]]
  {
    seq(|m.keys|, i requires 0 <= i < |m.keys| && Valid(m) => m.vals[m.keys[i]])
  }
}
