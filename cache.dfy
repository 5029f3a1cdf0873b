/** The `Cache` protocol (get / set / clear) and `CompositeCache`, the glue
    type every operator returns.

    Each operation is modelled as a total function over an explicit world
    state `S`: what a backend stores, what a fake has counted. A call yields
    the new state together with the call's outcome, so "the other cache was
    not consulted" reads as "its part of the state is unchanged". */
module Caches {
  import opened Results

  /** What `get` delivers: the new state and a value, an absence, or an error. */
  datatype GetReply<S, V> = GetReply(state: S, result: Result<Option<V>>)

  /** What `set` delivers: the new state and a unit, or an error. */
  datatype SetReply<S> = SetReply(state: S, result: Result<()>)

  /** A value conforming to the `Cache` protocol. `CompositeCache` is the
      library's own class, holding the three behaviours injected at
      construction; `Conforming` is any other conforming type (a store, a
      fetcher), described by its three operations. Both are immutable: no
      operation reassigns a behaviour. */
  datatype Cache<!S, !K, !V> =
    | CompositeCache(getFunc: (S, K) -> GetReply<S, V>,
                     setFunc: (S, V, K) -> SetReply<S>,
                     clearFunc: S -> S)
    | Conforming(getOp: (S, K) -> GetReply<S, V>,
                 setOp: (S, V, K) -> SetReply<S>,
                 clearOp: S -> S)
  {
    function Get(s: S, k: K): GetReply<S, V> {
      if CompositeCache? then getFunc(s, k) else getOp(s, k)
    }

    function Set(s: S, v: V, k: K): SetReply<S> {
      if CompositeCache? then setFunc(s, v, k) else setOp(s, v, k)
    }

    function Clear(s: S): S {
      if CompositeCache? then clearFunc(s) else clearOp(s)
    }
  }

  /** Two caches over the same state behave identically on every call. */
  ghost predicate Equivalent<S(!new), K(!new), V(!new)>(c: Cache<S, K, V>, d: Cache<S, K, V>) {
    && (forall s, k :: c.Get(s, k) == d.Get(s, k))
    && (forall s, v, k :: c.Set(s, v, k) == d.Set(s, v, k))
    && (forall s :: c.Clear(s) == d.Clear(s))
  }

  /** A successful `set(v, k)` is observed by the next `get(k)`. */
  ghost predicate ReadsOwnWrites<S(!new), K(!new), V(!new)>(c: Cache<S, K, V>) {
    forall s, v, k :: c.Set(s, v, k).result.Ok? ==> c.Get(c.Set(s, v, k).state, k).result == Ok(Some(v))
  }

  /** `get`, `set` and `clear` of a CompositeCache each make one call of the
      behaviour injected at construction, with the caller's arguments in the
      same order (value first, key second for `set`). */
  lemma DispatchIsInjected<S, K, V>(g: (S, K) -> GetReply<S, V>, st: (S, V, K) -> SetReply<S>, cl: S -> S, s: S, v: V, k: K)
    ensures CompositeCache(g, st, cl).Get(s, k) == g(s, k)
    ensures CompositeCache(g, st, cl).Set(s, v, k) == st(s, v, k)
    ensures CompositeCache(g, st, cl).Clear(s) == cl(s)
  {
  }

  lemma EquivalentIsTransitive<S(!new), K(!new), V(!new)>(a: Cache<S, K, V>, b: Cache<S, K, V>, c: Cache<S, K, V>)
    requires Equivalent(a, b) && Equivalent(b, c)
    ensures Equivalent(a, c)
  {
  }
}
