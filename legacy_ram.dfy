/** The first in-memory store (Sources/Caches/RamCache.swift): a dictionary
    `storage` from keys to values, read by `get`, written by `set`, emptied
    by `clear`. */
module LegacyRam {
  import opened Results
  import opened Caches

  /** The store's behaviour as a `Cache` over its dictionary, for use inside
      pipelines. */
  function Store<K(==), V>(): Cache<map<K, V>, K, V> {
    Conforming(
      (s: map<K, V>, k: K) => GetReply(s, Ok(if k in s then Some(s[k]) else None)),
      (s: map<K, V>, v: V, k: K) => SetReply(s[k := v], Ok(())),
      (s: map<K, V>) => map[])
  }

  /** After `set(v, k)`, `get(k)` yields `v`. */
  lemma StoreReadsOwnWrites<K(!new), V(!new)>()
    ensures ReadsOwnWrites(Store<K, V>())
  {
  }

  /** `get` reads the dictionary as it is at the call and never changes it;
      a key never written reads as absence. */
  lemma StoreGet<K, V>(s: map<K, V>, k: K)
    ensures Store<K, V>().Get(s, k).state == s
    ensures k in s ==> Store<K, V>().Get(s, k).result == Ok(Some(s[k]))
    ensures k !in s ==> Store<K, V>().Get(s, k).result == Ok(None)
  {
  }

  /** `set` always succeeds, overwrites the entry for its key and leaves every
      other key as it was. */
  lemma StoreSet<K, V>(s: map<K, V>, v: V, k: K, other: K)
    requires other != k
    ensures Store<K, V>().Set(s, v, k).result == Ok(())
    ensures Store<K, V>().Get(Store<K, V>().Set(s, v, k).state, k).result == Ok(Some(v))
    ensures Store<K, V>().Get(Store<K, V>().Set(s, v, k).state, other) == GetReply(Store<K, V>().Set(s, v, k).state, Store<K, V>().Get(s, other).result)
  {
  }

  /** After `clear`, every key reads as absence. */
  lemma StoreClear<K, V>(s: map<K, V>, k: K)
    ensures Store<K, V>().Get(Store<K, V>().Clear(s), k).result == Ok(None)
  {
  }

  class RamCache<K(==), V> {
    var storage: map<K, V>

    constructor ()
      ensures storage == map[]
    {
      storage := map[];
    }

    /** Emits the entry for `k` as it is when `get` is called. */
    method Get(k: K) returns (r: Result<Option<V>>)
      ensures r == Store<K, V>().Get(storage, k).result
      ensures k in storage ==> r == Ok(Some(storage[k]))
      ensures k !in storage ==> r == Ok(None)
    {
      r := Ok(if k in storage then Some(storage[k]) else None);
    }

    /** Stores `v` under `k` and emits a single unit. */
    method Set(v: V, k: K) returns (r: Result<()>)
      modifies this
      ensures storage == Store<K, V>().Set(old(storage), v, k).state
      ensures storage == old(storage)[k := v]
      ensures r == Ok(())
    {
      storage := storage[k := v];
      r := Ok(());
    }

    method Clear()
      modifies this
      ensures storage == map[]
    {
      storage := map[];
    }
  }
}
