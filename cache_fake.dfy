/** The counting test double of the test suite: a cache that answers `get`
    with a scripted result and counts every call it receives, so that a
    property such as "B was not consulted" becomes "B's get counter did not
    move". */
module Fakes {
  import opened Results
  import opened Caches

  /** What the fake has observed so far. */
  datatype FakeState<K, V> = FakeState(
    gets: nat,
    sets: nat,
    clears: nat,
    lastGetKey: Option<K>,
    lastSet: Option<(V, K)>)

  function Untouched<K, V>(): FakeState<K, V> {
    FakeState(0, 0, 0, None, None)
  }

  /** A fake whose `get(k)` emits `answer(k)`, and whose `set` always succeeds. */
  function CountingFake<K(!new), V(!new)>(answer: K -> Result<Option<V>>): (c: Cache<FakeState<K, V>, K, V>)
    ensures c.Conforming?
    ensures forall s, k :: c.Get(s, k).result == answer(k)
    ensures forall s, k :: c.Get(s, k).state.gets == s.gets + 1 && c.Get(s, k).state.lastGetKey == Some(k)
    ensures forall s, v, k :: c.Set(s, v, k).state.sets == s.sets + 1 && c.Set(s, v, k).state.lastSet == Some((v, k))
    ensures forall s :: c.Clear(s).clears == s.clears + 1
  {
    Conforming(
      (s: FakeState<K, V>, k: K) => GetReply(s.(gets := s.gets + 1, lastGetKey := Some(k)), answer(k)),
      (s: FakeState<K, V>, v: V, k: K) => SetReply(s.(sets := s.sets + 1, lastSet := Some((v, k))), Ok(())),
      (s: FakeState<K, V>) => s.(clears := s.clears + 1))
  }
}
