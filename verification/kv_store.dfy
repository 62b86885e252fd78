/** The key-value store behind the server: string keys, record values. The
    store itself is not part of this model; only the three operations the
    server calls are, over a finite map. */
module KvStore {
  import opened JsValues
  import opened JsStrings

  type Store = map<string, Record>

  /** `kv.set(key, value)`. */
  function Put(store: Store, key: string, value: Record): (s': Store)
    ensures s'.Keys == store.Keys + {key}
    ensures s'[key] == value
    ensures forall k :: k in store && k != key ==> s'[k] == store[k]
  {
    store[key := value]
  }

  /** `kv.get(key)`: `None` is `undefined`. */
  function Lookup(store: Store, key: string): (r: Option<Record>)
    ensures r.Some? <==> key in store
    ensures r.Some? ==> r.value == store[key]
  {
    if key in store then Some(store[key]) else None
  }

  /** The keys a prefix scan visits, in the order the database returns them.
      That order is not specified, so it is an input: `order` lists keys in
      visiting order. */
  function MatchingKeys(store: Store, order: seq<string>, prefix: string): (ks: seq<string>)
    ensures forall k :: k in ks <==> k in order && k in store && StartsWith(k, prefix)
    ensures |ks| <= |order|
  {
    if order == [] then []
    else
      var init := MatchingKeys(store, order[..|order| - 1], prefix);
      var k := order[|order| - 1];
      assert order == order[..|order| - 1] + [k];
      if k in store && StartsWith(k, prefix) then init + [k] else init
  }

  /** `kv.getByPrefix(prefix)`: the values stored under keys starting with
      `prefix`. */
  function ScanPrefix(store: Store, order: seq<string>, prefix: string): (rs: seq<Record>)
    ensures |rs| == |MatchingKeys(store, order, prefix)|
    ensures forall i :: 0 <= i < |rs| ==> rs[i] == store[MatchingKeys(store, order, prefix)[i]]
  {
    var ks := MatchingKeys(store, order, prefix);
    seq(|ks|, i requires 0 <= i < |ks| => store[ks[i]])
  }

  /** The scan's order lists every key of the store. */
  predicate Enumerates(store: Store, order: seq<string>) {
    forall k | k in store :: k in order
  }

  /** With a complete order, the scan returns the value of every key that
      starts with the prefix, and nothing else. */
  lemma ScanPrefixComplete(store: Store, order: seq<string>, prefix: string)
    requires Enumerates(store, order)
    ensures forall k :: k in store && StartsWith(k, prefix) ==> store[k] in ScanPrefix(store, order, prefix)
    ensures forall r :: r in ScanPrefix(store, order, prefix) <==>
      exists k :: k in store && StartsWith(k, prefix) && store[k] == r
  {
    var ks := MatchingKeys(store, order, prefix);
    var rs := ScanPrefix(store, order, prefix);
    forall k | k in store && StartsWith(k, prefix)
      ensures store[k] in rs
    {
      var i :| 0 <= i < |ks| && ks[i] == k;
      assert rs[i] == store[k];
    }
    forall r | r in rs
      ensures exists k :: k in store && StartsWith(k, prefix) && store[k] == r
    {
      var i :| 0 <= i < |rs| && rs[i] == r;
      assert ks[i] in ks;
    }
  }

}
