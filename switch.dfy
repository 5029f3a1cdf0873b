/** `switchCache(cacheA:cacheB:switchClosure:)` (Sources/Cache+Switch.swift):
    each `get` and `set` asks the selector with that call's key and goes
    entirely to the chosen side; `clear` clears both sides. */
module Switching {
  import opened Results
  import opened Caches

  datatype CacheSwitchResult = CacheA | CacheB

  function SwitchCache<SA, SB, K, V>(a: Cache<SA, K, V>, b: Cache<SB, K, V>, select: K -> CacheSwitchResult): (r: Cache<(SA, SB), K, V>)
    ensures r.CompositeCache?
  {
    CompositeCache(
      (s: (SA, SB), k: K) => match select(k)
                             case CacheA => var g := a.Get(s.0, k); GetReply((g.state, s.1), g.result)
                             case CacheB => var g := b.Get(s.1, k); GetReply((s.0, g.state), g.result),
      (s: (SA, SB), v: V, k: K) => match select(k)
                                   case CacheA => var w := a.Set(s.0, v, k); SetReply((w.state, s.1), w.result)
                                   case CacheB => var w := b.Set(s.1, v, k); SetReply((s.0, w.state), w.result),
      (s: (SA, SB)) => (a.Clear(s.0), b.Clear(s.1)))
  }

  /** Selector says A: get and set are A's and B is untouched; selector says
      B: the mirror image. `clear` clears both whatever the selector. */
  lemma SwitchOutcome<SA, SB, K, V>(a: Cache<SA, K, V>, b: Cache<SB, K, V>, select: K -> CacheSwitchResult, sa: SA, sb: SB, v: V, k: K)
    ensures select(k) == CacheA ==>
              && SwitchCache(a, b, select).Get((sa, sb), k) == GetReply((a.Get(sa, k).state, sb), a.Get(sa, k).result)
              && SwitchCache(a, b, select).Set((sa, sb), v, k) == SetReply((a.Set(sa, v, k).state, sb), a.Set(sa, v, k).result)
    ensures select(k) == CacheB ==>
              && SwitchCache(a, b, select).Get((sa, sb), k) == GetReply((sa, b.Get(sb, k).state), b.Get(sb, k).result)
              && SwitchCache(a, b, select).Set((sa, sb), v, k) == SetReply((sa, b.Set(sb, v, k).state), b.Set(sb, v, k).result)
    ensures SwitchCache(a, b, select).Clear((sa, sb)) == (a.Clear(sa), b.Clear(sb))
  {
  }

  /** Because `get` and `set` ask the selector with the same key, a switch
      between two caches that read their own writes reads its own writes. */
  lemma {:induction false} SwitchReadsOwnWrites<SA(!new), SB(!new), K(!new), V(!new)>(a: Cache<SA, K, V>, b: Cache<SB, K, V>, select: K -> CacheSwitchResult)
    requires ReadsOwnWrites(a) && ReadsOwnWrites(b)
    ensures ReadsOwnWrites(SwitchCache(a, b, select))
  {
    var c := SwitchCache(a, b, select);
    forall s: (SA, SB), v: V, k: K | c.Set(s, v, k).result.Ok?
      ensures c.Get(c.Set(s, v, k).state, k).result == Ok(Some(v))
    {
      if select(k) == CacheA {
        assert a.Get(a.Set(s.0, v, k).state, k).result == Ok(Some(v));
      } else {
        assert b.Get(b.Set(s.1, v, k).state, k).result == Ok(Some(v));
      }
    }
  }
}
