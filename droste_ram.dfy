/** The in-memory store of the second library version
    (Sources/DrosteSwift/Caches/RamCache.swift). Its dictionary holds values
    of any type (`Any`), here the type parameter `A`; a read names the type
    it expects, here a partial `cast` from `A`, and a stored value that is
    not of that type reads as absence. */
module DrosteRam {
  import opened Results

  class RamCache<K(==), A> {
    var storage: map<K, A>

    constructor ()
      ensures storage == map[]
    {
      storage := map[];
    }

    /** `clear`: the dictionary becomes empty. */
    method Clear()
      modifies this
      ensures storage == map[]
    {
      storage := map[];
    }

    /** `_getData`: the entry for `k` if it has the expected type, else
        absence; the dictionary is not changed. */
    method GetData<T>(k: K, cast: A -> Option<T>) returns (r: Option<T>)
      ensures r.Some? <==> k in storage && cast(storage[k]).Some?
      ensures r.Some? ==> cast(storage[k]) == r
    {
      if k in storage && cast(storage[k]).Some? {
        r := cast(storage[k]);
      } else {
        r := None;
      }
    }

    /** `_setData`: stores `a` under `k`, replacing any previous entry, and
        emits a single unit. */
    method SetData(a: A, k: K) returns (r: Result<()>)
      modifies this
      ensures storage == old(storage)[k := a]
      ensures r == Ok(())
    {
      storage := storage[k := a];
      r := Ok(());
    }
  }

  /** Read your write: a value set under `k` is read back under `k` with
      the type it was stored as, a second `set` under `k` overwrites the
      first, a different key is left unchanged, and after `clear` nothing is
      found. */
  method ReadYourWrites<K(==), A, T>(k: K, other: K, a: A, b: A, cast: A -> Option<T>)
    returns (afterSet: Option<T>, afterOverwrite: Option<T>, otherKey: Option<T>, afterClear: Option<T>)
    requires other != k
    ensures afterSet == cast(a)
    ensures afterOverwrite == cast(b)
    ensures otherKey == None
    ensures afterClear == None
  {
    var cache := new RamCache<K, A>();
    var _ := cache.SetData(a, k);
    afterSet := cache.GetData(k, cast);
    var _ := cache.SetData(b, k);
    afterOverwrite := cache.GetData(k, cast);
    otherKey := cache.GetData(other, cast);
    cache.Clear();
    afterClear := cache.GetData(k, cast);
  }

  /** A stored value of another type than the one asked for reads as
      absence, although its key is present. */
  method MismatchedTypeReadsAsAbsent<K(==), A, T>(k: K, a: A, cast: A -> Option<T>) returns (r: Option<T>)
    requires cast(a).None?
    ensures r == None
  {
    var cache := new RamCache<K, A>();
    var _ := cache.SetData(a, k);
    assert k in cache.storage;
    r := cache.GetData(k, cast);
  }
}
