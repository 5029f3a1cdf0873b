/** `mapValues(f:fInv:)` and `mapKeys(fInv:)` (Sources/Cache+Map.swift):
    adapters with fallible transforms. `f` turns a stored value into the
    exposed one on `get`; `fInv` turns an exposed value (or key) back into
    the stored one before the underlying call. A transform failure is an
    error of that call, never an absence. */
module Mapping {
  import opened Results
  import opened Caches

  function MapValuesGet<S, K, V, W>(c: Cache<S, K, V>, f: V -> Result<W>, s: S, k: K): GetReply<S, W> {
    var g := c.Get(s, k);
    match g.result
    case Fail(e) => GetReply(g.state, Fail(e))
    case Ok(None) => GetReply(g.state, Ok(None))
    case Ok(Some(v)) =>
      match f(v)
      case Ok(w) => GetReply(g.state, Ok(Some(w)))
      case Fail(e) => GetReply(g.state, Fail(e))
  }

  function MapValuesSet<S, K, V, W>(c: Cache<S, K, V>, fInv: W -> Result<V>, s: S, w: W, k: K): SetReply<S> {
    match fInv(w)
    case Fail(e) => SetReply(s, Fail(e))
    case Ok(v) => c.Set(s, v, k)
  }

  function MapValues<S, K, V, W>(c: Cache<S, K, V>, f: V -> Result<W>, fInv: W -> Result<V>): (r: Cache<S, K, W>)
    ensures r.CompositeCache?
  {
    CompositeCache(
      (s: S, k: K) => MapValuesGet(c, f, s, k),
      (s: S, w: W, k: K) => MapValuesSet(c, fInv, s, w, k),
      (s: S) => c.Clear(s))
  }

  function MapKeys<S, K, K2, V>(c: Cache<S, K, V>, fInv: K2 -> Result<K>): (r: Cache<S, K2, V>)
    ensures r.CompositeCache?
  {
    CompositeCache(
      (s: S, k2: K2) => match fInv(k2)
                        case Fail(e) => GetReply(s, Fail(e))
                        case Ok(k) => c.Get(s, k),
      (s: S, v: V, k2: K2) => match fInv(k2)
                              case Fail(e) => SetReply(s, Fail(e))
                              case Ok(k) => c.Set(s, v, k),
      (s: S) => c.Clear(s))
  }

  /** `mapValues` get: an underlying absence or error passes through
      unchanged; an underlying value `v` becomes `f(v)`, and a failure of
      `f` becomes the get's error. */
  lemma MapValuesGetOutcome<S, K, V, W>(c: Cache<S, K, V>, f: V -> Result<W>, fInv: W -> Result<V>, s: S, k: K)
    ensures MapValues(c, f, fInv).Get(s, k).state == c.Get(s, k).state
    ensures c.Get(s, k).result == Ok(None) ==> MapValues(c, f, fInv).Get(s, k).result == Ok(None)
    ensures c.Get(s, k).result.Fail? ==> MapValues(c, f, fInv).Get(s, k).result == Fail(c.Get(s, k).result.error)
    ensures c.Get(s, k).result.Ok? && c.Get(s, k).result.value.Some? ==>
              MapValues(c, f, fInv).Get(s, k).result ==
                match f(c.Get(s, k).result.value.value)
                case Ok(w) => Ok(Some(w))
                case Fail(e) => Fail(e)
  {
  }

  /** `mapValues` set: the underlying set receives `fInv(w)` under the same
      key; when `fInv` fails the set fails with that error and the
      underlying cache is not called. `clear` is the underlying clear. */
  lemma MapValuesSetOutcome<S, K, V, W>(c: Cache<S, K, V>, f: V -> Result<W>, fInv: W -> Result<V>, s: S, w: W, k: K)
    ensures fInv(w).Ok? ==> MapValues(c, f, fInv).Set(s, w, k) == c.Set(s, fInv(w).value, k)
    ensures fInv(w).Fail? ==> MapValues(c, f, fInv).Set(s, w, k) == SetReply(s, Fail(fInv(w).error))
    ensures MapValues(c, f, fInv).Clear(s) == c.Clear(s)
  {
  }

  /** `mapKeys`: get and set call the underlying cache with `fInv(k)` and the
      value untouched; a failing `fInv` surfaces as the error and the
      underlying cache is not called. `clear` is the underlying clear. */
  lemma MapKeysOutcome<S, K, K2, V>(c: Cache<S, K, V>, fInv: K2 -> Result<K>, s: S, v: V, k2: K2)
    ensures fInv(k2).Ok? ==> MapKeys(c, fInv).Get(s, k2) == c.Get(s, fInv(k2).value)
    ensures fInv(k2).Ok? ==> MapKeys(c, fInv).Set(s, v, k2) == c.Set(s, v, fInv(k2).value)
    ensures fInv(k2).Fail? ==> MapKeys(c, fInv).Get(s, k2) == GetReply(s, Fail(fInv(k2).error))
    ensures fInv(k2).Fail? ==> MapKeys(c, fInv).Set(s, v, k2) == SetReply(s, Fail(fInv(k2).error))
    ensures MapKeys(c, fInv).Clear(s) == c.Clear(s)
  {
  }

  /** Round trip: when `f` undoes `fInv`, a value mapping of a cache that
      reads its own writes reads its own writes too. */
  lemma {:induction false} MapValuesReadsOwnWrites<S(!new), K(!new), V(!new), W(!new)>(c: Cache<S, K, V>, f: V -> Result<W>, fInv: W -> Result<V>)
    requires ReadsOwnWrites(c)
    requires forall w :: fInv(w).Ok? ==> f(fInv(w).value) == Ok(w)
    ensures ReadsOwnWrites(MapValues(c, f, fInv))
  {
    var m := MapValues(c, f, fInv);
    forall s: S, w: W, k: K | m.Set(s, w, k).result.Ok?
      ensures m.Get(m.Set(s, w, k).state, k).result == Ok(Some(w))
    {
      var v := fInv(w).value;
      assert m.Set(s, w, k) == c.Set(s, v, k);
      assert c.Get(c.Set(s, v, k).state, k).result == Ok(Some(v));
    }
  }

  /** A key mapping of a cache that reads its own writes reads its own
      writes too: both calls go through the same `fInv(k)`. */
  lemma {:induction false} MapKeysReadsOwnWrites<S(!new), K(!new), K2(!new), V(!new)>(c: Cache<S, K, V>, fInv: K2 -> Result<K>)
    requires ReadsOwnWrites(c)
    ensures ReadsOwnWrites(MapKeys(c, fInv))
  {
    var m := MapKeys(c, fInv);
    forall s: S, v: V, k2: K2 | m.Set(s, v, k2).result.Ok?
      ensures m.Get(m.Set(s, v, k2).state, k2).result == Ok(Some(v))
    {
      var k := fInv(k2).value;
      assert m.Set(s, v, k2) == c.Set(s, v, k);
      assert c.Get(c.Set(s, v, k).state, k).result == Ok(Some(v));
    }
  }

  /** Mapping values twice is mapping once by the chained transforms. */
  lemma {:induction false} MapValuesFuse<S(!new), K(!new), V(!new), W, X(!new)>(
    c: Cache<S, K, V>, f1: V -> Result<W>, i1: W -> Result<V>, f2: W -> Result<X>, i2: X -> Result<W>)
    ensures Equivalent(MapValues(MapValues(c, f1, i1), f2, i2),
                       MapValues(c, (v: V) => Then(f1(v), f2), (x: X) => Then(i2(x), i1)))
  {
    var twice := MapValues(MapValues(c, f1, i1), f2, i2);
    var once := MapValues(c, (v: V) => Then(f1(v), f2), (x: X) => Then(i2(x), i1));
    forall s: S, k: K ensures twice.Get(s, k) == once.Get(s, k) {
      var g := c.Get(s, k);
      if g.result.Ok? && g.result.value.Some? {
        assert once.Get(s, k).result == match Then(f1(g.result.value.value), f2)
                                        case Ok(x) => Ok(Some(x))
                                        case Fail(e) => Fail(e);
      }
    }
    forall s: S, x: X, k: K ensures twice.Set(s, x, k) == once.Set(s, x, k) {
      if i2(x).Ok? {
        assert twice.Set(s, x, k) == MapValues(c, f1, i1).Set(s, i2(x).value, k);
      }
    }
  }

  /** Mapping keys twice is mapping once by the chained key transforms. */
  lemma {:induction false} MapKeysFuse<S(!new), K, K2, K3(!new), V(!new)>(c: Cache<S, K, V>, g: K2 -> Result<K>, h: K3 -> Result<K2>)
    ensures Equivalent(MapKeys(MapKeys(c, g), h), MapKeys(c, (k3: K3) => Then(h(k3), g)))
  {
    var twice := MapKeys(MapKeys(c, g), h);
    var once := MapKeys(c, (k3: K3) => Then(h(k3), g));
    forall s: S, k3: K3 ensures twice.Get(s, k3) == once.Get(s, k3) {
      if h(k3).Ok? {
        assert twice.Get(s, k3) == MapKeys(c, g).Get(s, h(k3).value);
      }
    }
    forall s: S, v: V, k3: K3 ensures twice.Set(s, v, k3) == once.Set(s, v, k3) {
      if h(k3).Ok? {
        assert twice.Set(s, v, k3) == MapKeys(c, g).Set(s, v, h(k3).value);
      }
    }
  }

  /** A value mapping whose transforms always succeed and change nothing is
      the cache itself. */
  lemma MapValuesIdentity<S(!new), K(!new), V(!new)>(c: Cache<S, K, V>)
    ensures Equivalent(MapValues(c, (v: V) => Ok(v), (v: V) => Ok(v)), c)
  {
  }
}
