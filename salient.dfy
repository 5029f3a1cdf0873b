/** The non-optional `get` (Sources/DrosteSwift/Cache+Salient.swift): the
    same call as the optional `get`, with a present value delivered as is and
    an absence turned into the error `valueNotFound`. */
module Salience {
  import opened Results
  import opened Caches

  /** What the non-optional `get` delivers: the new state and a value or an error. */
  datatype ValueReply<S, V> = ValueReply(state: S, result: Result<V>)

  /** The `map` applied to each result of the optional `get`. */
  function Salient<V>(x: Result<Option<V>>): (r: Result<V>)
    ensures r.Ok? <==> x.Ok? && x.value.Some?
    ensures r.Ok? ==> x == Ok(Some(r.value))
    ensures x == Ok(None) ==> r == Fail(ValueNotFound)
    ensures x.Fail? ==> r == Fail(x.error)
  {
    match x
    case Fail(e) => Fail(e)
    case Ok(None) => Fail(ValueNotFound)
    case Ok(Some(v)) => Ok(v)
  }

  function GetValue<S, K, V>(c: Cache<S, K, V>, s: S, k: K): (r: ValueReply<S, V>)
    ensures r.state == c.Get(s, k).state
    ensures r.result == Salient(c.Get(s, k).result)
  {
    var g := c.Get(s, k);
    ValueReply(g.state, Salient(g.result))
  }

  /** The view the optional `get` would give of a non-optional result. */
  function Optional<V>(r: Result<V>): Result<Option<V>> {
    match r
    case Fail(e) => Fail(e)
    case Ok(v) => Ok(Some(v))
  }

  /** Turning absence into `valueNotFound` loses nothing else: every result
      except that very error comes back from the non-optional view, and
      every non-optional result survives the round trip. */
  lemma SalientRoundTrip<V>(x: Result<Option<V>>, r: Result<V>)
    ensures x != Ok(None) && x != Fail(ValueNotFound) ==> Optional(Salient(x)) == x
    ensures Salient(Optional(r)) == r
  {
  }

  /** Absence and the error `valueNotFound` look the same through the
      non-optional `get`: the one case the round trip cannot restore. */
  lemma AbsenceAndNotFoundCoincide<V>()
    ensures Salient<V>(Ok(None)) == Salient<V>(Fail(ValueNotFound))
  {
  }
}
