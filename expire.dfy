/** `expires(expiry:)` (Sources/Cache+Expire.swift): the expiry policy, the
    record that pairs a value with its expiry date, and that record's
    archived form.

    Time is an integer number of seconds since the reference date; `now` is
    the clock reading at the call, passed in. */
module Expiration {
  import opened Results
  import opened Caches
  import Mapping
  import LegacyRam

  type Time = int

  /** `Date.distantFuture`: the first instant of the year 4001. */
  const DistantFuture: Time := 63113904000

  datatype Expiry = Never | Seconds(seconds: int) | Date(date: Time)

  /** `date(for:)`: the expiry date a value stored now receives. */
  function DateFor(e: Expiry, now: Time): (d: Time)
    ensures e.Never? ==> d == DistantFuture
    ensures e.Seconds? ==> d - now == e.seconds
    ensures e.Date? ==> d == e.date
  {
    match e
    case Never => DistantFuture
    case Seconds(s) => now + s
    case Date(d) => d
  }

  /** `isInThePast`: the date lies strictly before the clock reading. */
  predicate IsInThePast(d: Time, now: Time) {
    d - now < 0
  }

  /** An object in an archive: the record's value slot holds any object,
      and its date slot should hold a date. */
  datatype Object<V> = ValueObject(v: V) | DateObject(d: Time)

  /** `CacheExpirableDTO`: an immutable pair of a value and an expiry date. */
  datatype ExpirableRecord<V> = ExpirableRecord(value: Object<V>, expiryDate: Time)

  predicate IsExpired<V>(r: ExpirableRecord<V>, now: Time) {
    IsInThePast(r.expiryDate, now)
  }

  /** A record is expired exactly when its expiry date is strictly before
      now; one stored for `.seconds(s)` at `t0` expires after `t0 + s`, one
      stored for `.never` only after the distant future. */
  lemma ExpiryDeadline<V>(v: Object<V>, e: Expiry, t0: Time, now: Time)
    ensures IsExpired(ExpirableRecord(v, DateFor(e, t0)), now) <==> DateFor(e, t0) < now
    ensures e.Seconds? ==> (IsExpired(ExpirableRecord(v, DateFor(e, t0)), now) <==> now > t0 + e.seconds)
    ensures e.Never? ==> (IsExpired(ExpirableRecord(v, DateFor(e, t0)), now) <==> now > DistantFuture)
    ensures e.Date? ==> (IsExpired(ExpirableRecord(v, DateFor(e, t0)), now) <==> now > e.date)
  {
  }

  /** An archive as the keyed coder sees it. */
  type Archive<V> = map<string, Object<V>>

  /** `encode(with:)`: the value under "value", the date under "expiryDate". */
  function Encode<V>(r: ExpirableRecord<V>): (a: Archive<V>)
    ensures "value" in a && a["value"] == r.value
    ensures "expiryDate" in a && a["expiryDate"] == DateObject(r.expiryDate)
  {
    map["value" := r.value, "expiryDate" := DateObject(r.expiryDate)]
  }

  /** `init?(coder:)`: fails when "value" is missing, or when "expiryDate" is
      missing or does not hold a date. */
  function Decode<V>(a: Archive<V>): (r: Option<ExpirableRecord<V>>)
    ensures r.None? <==> "value" !in a || "expiryDate" !in a || !a["expiryDate"].DateObject?
    ensures r.Some? ==> r.value.value == a["value"] && DateObject(r.value.expiryDate) == a["expiryDate"]
  {
    if "value" in a && "expiryDate" in a && a["expiryDate"].DateObject? then
      Some(ExpirableRecord(a["value"], a["expiryDate"].d))
    else
      None
  }

  /** Decoding what was encoded gives back the same value and expiry date. */
  lemma DecodeEncodeRoundTrip<V>(r: ExpirableRecord<V>)
    ensures Decode(Encode(r)) == Some(r)
  {
  }

  /** `as? Value`: an object that is not a value of the cache's type reads as
      absence. */
  function CastToValue<V>(o: Object<V>): (r: Option<V>)
    ensures r.Some? <==> o.ValueObject?
    ensures o.ValueObject? ==> r == Some(o.v)
  {
    match o
    case ValueObject(v) => Some(v)
    case DateObject(_) => None
  }

  /** `as! Value`: the same cast, which traps when it fails. */
  function ForceCastToValue<V>(o: Object<V>): (r: Result<V>)
    ensures r.Ok? <==> o.ValueObject?
    ensures o.ValueObject? ==> r == Ok(o.v)
  {
    match o
    case ValueObject(v) => Ok(v)
    case DateObject(_) => Fail(ForcedCastFailed)
  }

  /** The `internalCache` of `expires`: a value mapping of the cache itself
      whose `f` wraps a value in a record dated now and whose `fInv` unwraps
      the record again. */
  function InternalCache<S, K, V>(c: Cache<S, K, V>, e: Expiry, now: Time): Cache<S, K, ExpirableRecord<V>> {
    Mapping.MapValues(c, (v: V) => Ok(ExpirableRecord(ValueObject(v), DateFor(e, now))),
                         (r: ExpirableRecord<V>) => ForceCastToValue(r.value))
  }

  /** `expires(expiry:)` as written. */
  function Expires<S, K, V>(c: Cache<S, K, V>, e: Expiry, now: Time): (r: Cache<S, K, V>)
    ensures r.CompositeCache?
  {
    var internal := InternalCache(c, e, now);
    CompositeCache(
      (s: S, k: K) => var g := internal.Get(s, k);
                      GetReply(g.state, match g.result
                                        case Fail(err) => Fail(err)
                                        case Ok(None) => Ok(None)
                                        case Ok(Some(dto)) => Ok(CastToValue(dto.value))),
      (s: S, v: V, k: K) => internal.Set(s, ExpirableRecord(ValueObject(v), DateFor(e, now)), k),
      (s: S) => c.Clear(s))
  }

  /** As written, `expires` changes nothing: the record built by `set` is
      unwrapped again before it reaches the cache, so no expiry date is
      stored, and `get` returns the cache's value without ever asking
      whether it expired. */
  lemma {:induction false} ExpiresIsTransparent<S(!new), K(!new), V(!new)>(c: Cache<S, K, V>, e: Expiry, now: Time)
    ensures Equivalent(Expires(c, e, now), c)
  {
    var x := Expires(c, e, now);
    forall s: S, k: K ensures x.Get(s, k) == c.Get(s, k) {
      var g := c.Get(s, k);
      if g.result.Ok? && g.result.value.Some? {
        assert InternalCache(c, e, now).Get(s, k).result == Ok(Some(ExpirableRecord(ValueObject(g.result.value.value), DateFor(e, now))));
      }
    }
  }

  /** A value stored for one second into an in-memory store and read ten
      seconds later is still returned. */
  lemma ExpiredValueStillReturned<K, V>(m: map<K, V>, k: K, v: V, t0: Time)
    ensures var stored := Expires(LegacyRam.Store(), Seconds(1), t0).Set(m, v, k).state;
            Expires(LegacyRam.Store(), Seconds(1), t0 + 10).Get(stored, k).result == Ok(Some(v))
  {
  }

  /** The corrected operator: the cache stores records, `set` dates the
      record by the expiry policy, and `get` treats an expired record as
      absence. */
  function ExpiresLazily<S, K, V>(c: Cache<S, K, ExpirableRecord<V>>, e: Expiry, now: Time): (r: Cache<S, K, V>)
    ensures r.CompositeCache?
  {
    CompositeCache(
      (s: S, k: K) => var g := c.Get(s, k);
                      GetReply(g.state, match g.result
                                        case Fail(err) => Fail(err)
                                        case Ok(None) => Ok(None)
                                        case Ok(Some(dto)) => if IsExpired(dto, now) then Ok(None) else Ok(CastToValue(dto.value))),
      (s: S, v: V, k: K) => c.Set(s, ExpirableRecord(ValueObject(v), DateFor(e, now)), k),
      (s: S) => c.Clear(s))
  }

  /** Over any record cache that reads its own writes: a value stored at
      `t0` is returned at `t1` exactly while its expiry date is not in the
      past, and reads as absence afterwards. */
  lemma {:induction false} ExpiresLazilyHonoursExpiry<S(!new), K(!new), V(!new)>(c: Cache<S, K, ExpirableRecord<V>>, e: Expiry, t0: Time, t1: Time, s: S, v: V, k: K)
    requires ReadsOwnWrites(c)
    requires ExpiresLazily(c, e, t0).Set(s, v, k).result.Ok?
    ensures var stored := ExpiresLazily(c, e, t0).Set(s, v, k).state;
            ExpiresLazily(c, e, t1).Get(stored, k).result == if DateFor(e, t0) < t1 then Ok(None) else Ok(Some(v))
  {
    var rec := ExpirableRecord(ValueObject(v), DateFor(e, t0));
    assert ExpiresLazily(c, e, t0).Set(s, v, k) == c.Set(s, rec, k);
    assert c.Get(c.Set(s, rec, k).state, k).result == Ok(Some(rec));
  }

  /** The expectation of the expiry tests, met by the corrected operator on
      an in-memory store: one second after storage, ten seconds later, the
      value is gone; before its deadline it is still there. */
  lemma ExpiredValueHidden<K, V>(m: map<K, ExpirableRecord<V>>, k: K, v: V, t0: Time)
    ensures var stored := ExpiresLazily(LegacyRam.Store(), Seconds(1), t0).Set(m, v, k).state;
            && ExpiresLazily(LegacyRam.Store(), Seconds(1), t0 + 10).Get(stored, k).result == Ok(None)
            && ExpiresLazily(LegacyRam.Store(), Seconds(1), t0 + 1).Get(stored, k).result == Ok(Some(v))
  {
  }

  /** In both versions `clear` is the cache's own. */
  lemma ExpiresClearDelegates<S, K, V>(c: Cache<S, K, V>, d: Cache<S, K, ExpirableRecord<V>>, e: Expiry, now: Time, s: S)
    ensures Expires(c, e, now).Clear(s) == c.Clear(s)
    ensures ExpiresLazily(d, e, now).Clear(s) == d.Clear(s)
  {
  }
}
