/** The browser's persistent key-value store (`localStorage`) as a map from
    keys to strings, and the load-or-seed pattern both stores use on start.
    Serialisation is a pair of functions supplied by the caller: the model
    does not describe the JSON text format. */
module Storage {
  import opened Types

  type Store = map<string, string>

  /** The three entries the application keeps. */
  const OrdersKey: string := "tecnoReparos-serviceOrders"
  const StockKey: string := "tecnoReparos-stockItems"
  const ThemeKey: string := "theme"

  /** `getItem`: `null` when the key was never written. */
  function GetItem(store: Store, key: string): (r: Option<string>)
    ensures r.Some? <==> key in store
    ensures r.Some? ==> r.value == store[key]
  {
    if key in store then Some(store[key]) else None
  }

  /** `JSON.stringify` and `JSON.parse`; `decode` answers None where parsing
      throws. */
  datatype Codec<!T> = Codec(encode: T -> string, decode: string -> Option<T>)

  /** The codec restores `x` from its own encoding, and that encoding is a
      non-empty string (`JSON.stringify` of an array is at least "[]"). */
  ghost predicate RoundTrips<T>(codec: Codec<T>, x: T)
  {
    codec.encode(x) != "" && codec.decode(codec.encode(x)) == Some(x)
  }

  /** The initial state of a store and the key-value store after loading. */
  datatype Loaded<T> = Loaded(state: T, store: Store)

  /** A stored value is used when it is a non-empty string that decodes;
      otherwise `seed` is used and written back under `key`. */
  function LoadOrSeed<T>(store: Store, key: string, codec: Codec<T>, seed: T): (r: Loaded<T>)
    ensures key in store && store[key] != "" && codec.decode(store[key]).Some? ==>
              r.state == codec.decode(store[key]).value && r.store == store
    ensures !(key in store && store[key] != "" && codec.decode(store[key]).Some?) ==>
              r.state == seed && key in r.store && r.store[key] == codec.encode(seed)
    ensures r.store.Keys == store.Keys + {key}
    ensures forall k :: k in store && k != key ==> r.store[k] == store[k]
  {
    match GetItem(store, key)
    case Some(item) =>
      if item != "" && codec.decode(item).Some? then Loaded(codec.decode(item).value, store)
      else Loaded(seed, store[key := codec.encode(seed)])
    case None => Loaded(seed, store[key := codec.encode(seed)])
  }

  /** The persist-on-change effect: the whole collection is written under
      `key`. A write that throws is caught and leaves the store as it was. */
  function Persist<T>(store: Store, key: string, codec: Codec<T>, state: T, writeOk: bool): (r: Store)
    ensures writeOk ==> key in r && r[key] == codec.encode(state)
    ensures !writeOk ==> r == store
    ensures forall k :: k in store && k != key ==> k in r && r[k] == store[k]
  {
    if writeOk then store[key := codec.encode(state)] else store
  }

  /** Persisting a collection and then starting again restores it. */
  lemma PersistThenLoad<T>(store: Store, key: string, codec: Codec<T>, state: T, seed: T)
    requires RoundTrips(codec, state)
    ensures LoadOrSeed(Persist(store, key, codec, state, true), key, codec, seed).state == state
  {
  }

  /** Loading is stable: once a start has seeded the store, the next start
      reads back the same collection and leaves the store alone. */
  lemma LoadTwice<T>(store: Store, key: string, codec: Codec<T>, seed: T)
    requires RoundTrips(codec, seed)
    ensures var first := LoadOrSeed(store, key, codec, seed);
            var second := LoadOrSeed(first.store, key, codec, seed);
            second == first
  {
  }

  /** The three entries never overwrite one another. */
  lemma KeysDistinct()
    ensures OrdersKey != StockKey && OrdersKey != ThemeKey && StockKey != ThemeKey
  {
    assert |OrdersKey| == 26 && |StockKey| == 23 && |ThemeKey| == 5;
  }
}
