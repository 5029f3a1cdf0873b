/** A `Fetcher` (Sources/Fetchers/Fetcher.swift) is a cache that only reads:
    the conforming type supplies `get`, and the protocol supplies a `set`
    that emits one unit and stores nothing and a `clear` that does nothing. */
module Fetchers {
  import opened Results
  import opened Caches
  import Composition

  function FetcherCache<S(!new), K(!new), V(!new)>(get: (S, K) -> GetReply<S, V>): (r: Cache<S, K, V>)
    ensures r.Conforming?
    ensures forall s, k :: r.Get(s, k) == get(s, k)
    ensures forall s, v, k :: r.Set(s, v, k) == SetReply(s, Ok(()))
    ensures forall s :: r.Clear(s) == s
  {
    Conforming(get, (s: S, v: V, k: K) => SetReply(s, Ok(())), (s: S) => s)
  }

  /** A fetcher behind a cache: a `set` of the pipeline succeeds exactly when
      the cache's own `set` does, and the fetcher's state is left alone by
      both `set` and `clear`. */
  lemma {:induction false} FetcherBehindCache<SA, SB(!new), K(!new), V(!new)>(a: Cache<SA, K, V>, get: (SB, K) -> GetReply<SB, V>, sa: SA, sb: SB, v: V, k: K)
    ensures Composition.Compose(a, FetcherCache(get)).Set((sa, sb), v, k) == SetReply((a.Set(sa, v, k).state, sb), a.Set(sa, v, k).result)
    ensures Composition.Compose(a, FetcherCache(get)).Clear((sa, sb)) == (a.Clear(sa), sb)
  {
    var f := FetcherCache(get);
    assert f.Set(sb, v, k) == SetReply(sb, Ok(()));
    assert f.Clear(sb) == sb;
    var w := a.Set(sa, v, k);
    assert Composition.Compose(a, f).Set((sa, sb), v, k) == Composition.ComposeSet(a, f, (sa, sb), v, k);
    if w.result.Ok? {
      var u: () := w.result.value;
      assert u == ();
    }
  }
}
