/** `normalize()` (Sources/Normalize.swift): a `CompositeCache` is returned
    as it is; any other conforming cache is wrapped in a `CompositeCache`
    whose three behaviours are its own `get`, `set` and `clear`. */
module Normalization {
  import opened Caches

  function Normalize<S(!new), K(!new), V(!new)>(c: Cache<S, K, V>): (r: Cache<S, K, V>)
    ensures r.CompositeCache?
    ensures c.CompositeCache? ==> r == c
    ensures Equivalent(r, c)
  {
    if c.CompositeCache? then c
    else CompositeCache((s: S, k: K) => c.Get(s, k), (s: S, v: V, k: K) => c.Set(s, v, k), (s: S) => c.Clear(s))
  }

  /** Normalizing twice is normalizing once: the first result is already a
      `CompositeCache`. */
  lemma NormalizeIsIdempotent<S(!new), K(!new), V(!new)>(c: Cache<S, K, V>)
    ensures Normalize(Normalize(c)) == Normalize(c)
  {
  }
}
