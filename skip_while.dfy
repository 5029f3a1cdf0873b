/** `skipWhile(_:)` (Sources/Cache+SkipWhile.swift): every `get` first asks
    the condition with that call's key; when it answers true the get yields
    absence without consulting the wrapped cache. `set` and `clear` always go
    to the wrapped cache. */
module Skipping {
  import opened Results
  import opened Caches

  function SkipWhile<S, K, V>(c: Cache<S, K, V>, condition: K -> Result<bool>): (r: Cache<S, K, V>)
    ensures r.CompositeCache?
  {
    CompositeCache(
      (s: S, k: K) => match condition(k)
                      case Fail(e) => GetReply(s, Fail(e))
                      case Ok(true) => GetReply(s, Ok(None))
                      case Ok(false) => c.Get(s, k),
      (s: S, v: V, k: K) => c.Set(s, v, k),
      (s: S) => c.Clear(s))
  }

  /** Condition true: absence, and the wrapped cache is untouched. Condition
      false: exactly the wrapped cache's get. A failing condition fails the
      get. `set` and `clear` delegate whatever the condition says. */
  lemma SkipWhileOutcome<S, K, V>(c: Cache<S, K, V>, condition: K -> Result<bool>, s: S, v: V, k: K)
    ensures condition(k) == Ok(true) ==> SkipWhile(c, condition).Get(s, k) == GetReply(s, Ok(None))
    ensures condition(k) == Ok(false) ==> SkipWhile(c, condition).Get(s, k) == c.Get(s, k)
    ensures condition(k).Fail? ==> SkipWhile(c, condition).Get(s, k) == GetReply(s, Fail(condition(k).error))
    ensures SkipWhile(c, condition).Set(s, v, k) == c.Set(s, v, k)
    ensures SkipWhile(c, condition).Clear(s) == c.Clear(s)
  {
  }

  /** Short-circuit disjunction of two conditions, asked in order. */
  function EitherHolds<K>(first: K -> Result<bool>, second: K -> Result<bool>): K -> Result<bool> {
    (k: K) => match first(k)
              case Fail(e) => Fail(e)
              case Ok(true) => Ok(true)
              case Ok(false) => second(k)
  }

  /** Skipping under `p` and then under `q` skips under "q, else p": the
      outer condition is asked first and the inner one only when the outer
      lets the call through. */
  lemma {:induction false} SkipWhileNests<S(!new), K(!new), V(!new)>(c: Cache<S, K, V>, p: K -> Result<bool>, q: K -> Result<bool>)
    ensures Equivalent(SkipWhile(SkipWhile(c, p), q), SkipWhile(c, EitherHolds(q, p)))
  {
    var nested := SkipWhile(SkipWhile(c, p), q);
    var merged := SkipWhile(c, EitherHolds(q, p));
    forall s: S, k: K ensures nested.Get(s, k) == merged.Get(s, k) {
      if q(k) == Ok(false) {
        assert nested.Get(s, k) == SkipWhile(c, p).Get(s, k);
        assert EitherHolds(q, p)(k) == p(k);
      }
    }
  }

  /** A condition that never holds leaves the cache's behaviour unchanged. */
  lemma SkipWhileNeverIsIdentity<S(!new), K(!new), V(!new)>(c: Cache<S, K, V>)
    ensures Equivalent(SkipWhile(c, (k: K) => Ok(false)), c)
  {
  }
}
