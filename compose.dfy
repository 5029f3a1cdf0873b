/** `compose(other:)` and `+` (Sources/Cache+Compose.swift): read-through with
    write-back. A composite of A and B asks A first; on A's absence it asks B,
    and on B's hit it writes the value back into A without waiting for that
    write. `set` goes to both, `clear` clears both. The composite's state is
    the pair of A's and B's states. */
module Composition {
  import opened Results
  import opened Caches
  import opened Fakes
  import LegacyRam

  function ComposeGet<SA, SB, K, V>(a: Cache<SA, K, V>, b: Cache<SB, K, V>, s: (SA, SB), k: K): GetReply<(SA, SB), V> {
    var ra := a.Get(s.0, k);
    match ra.result
    case Fail(e) => GetReply((ra.state, s.1), Fail(e))
    case Ok(Some(v)) => GetReply((ra.state, s.1), Ok(Some(v)))
    case Ok(None) =>
      var rb := b.Get(s.1, k);
      match rb.result
      case Ok(Some(v)) =>
        // fire-and-forget write-back: its outcome is dropped
        GetReply((a.Set(ra.state, v, k).state, rb.state), Ok(Some(v)))
      case _ => GetReply((ra.state, rb.state), rb.result)
  }

  /** Both writes are issued; the composite completes when both have, and
      fails if either fails (A's error first). */
  function ComposeSet<SA, SB, K, V>(a: Cache<SA, K, V>, b: Cache<SB, K, V>, s: (SA, SB), v: V, k: K): SetReply<(SA, SB)> {
    var ra := a.Set(s.0, v, k);
    var rb := b.Set(s.1, v, k);
    SetReply((ra.state, rb.state), if ra.result.Fail? then ra.result else rb.result)
  }

  function Compose<SA, SB, K, V>(a: Cache<SA, K, V>, b: Cache<SB, K, V>): (r: Cache<(SA, SB), K, V>)
    ensures r.CompositeCache?
  {
    CompositeCache(
      (s: (SA, SB), k: K) => ComposeGet(a, b, s, k),
      (s: (SA, SB), v: V, k: K) => ComposeSet(a, b, s, v, k),
      (s: (SA, SB)) => (a.Clear(s.0), b.Clear(s.1)))
  }

  /** `lhs + rhs` is exactly `lhs.compose(other: rhs)`. */
  function Plus<SA, SB, K, V>(lhs: Cache<SA, K, V>, rhs: Cache<SB, K, V>): (r: Cache<(SA, SB), K, V>)
    ensures r == Compose(lhs, rhs)
  {
    Compose(lhs, rhs)
  }

  /** A hit on A is returned as is and B is not consulted. */
  lemma HitOnFirstSkipsSecond<SA, SB, K, V>(a: Cache<SA, K, V>, b: Cache<SB, K, V>, sa: SA, sb: SB, k: K, v: V)
    requires a.Get(sa, k).result == Ok(Some(v))
    ensures Compose(a, b).Get((sa, sb), k) == GetReply((a.Get(sa, k).state, sb), Ok(Some(v)))
  {
  }

  /** An error from A propagates and B is not consulted. */
  lemma FailureOnFirstSkipsSecond<SA, SB, K, V>(a: Cache<SA, K, V>, b: Cache<SB, K, V>, sa: SA, sb: SB, k: K)
    requires a.Get(sa, k).result.Fail?
    ensures Compose(a, b).Get((sa, sb), k) == GetReply((a.Get(sa, k).state, sb), a.Get(sa, k).result)
  {
  }

  /** On A's absence B is asked once, with the same key, and A is not asked
      again; B's hit is returned and written back into A, whatever that
      write's own outcome. */
  lemma MissOnFirstHitOnSecond<SA, SB, K, V>(a: Cache<SA, K, V>, b: Cache<SB, K, V>, sa: SA, sb: SB, k: K, v: V)
    requires a.Get(sa, k).result == Ok(None)
    requires b.Get(sb, k).result == Ok(Some(v))
    ensures Compose(a, b).Get((sa, sb), k).result == Ok(Some(v))
    ensures Compose(a, b).Get((sa, sb), k).state == (a.Set(a.Get(sa, k).state, v, k).state, b.Get(sb, k).state)
  {
  }

  /** When B also misses (or fails), its outcome is the composite's and
      nothing is written to A. */
  lemma MissOnBothWritesNothing<SA, SB, K, V>(a: Cache<SA, K, V>, b: Cache<SB, K, V>, sa: SA, sb: SB, k: K)
    requires a.Get(sa, k).result == Ok(None)
    requires !b.Get(sb, k).result.Ok? || b.Get(sb, k).result.value.None?
    ensures Compose(a, b).Get((sa, sb), k) == GetReply((a.Get(sa, k).state, b.Get(sb, k).state), b.Get(sb, k).result)
  {
  }

  /** `set` writes to both caches, whatever either outcome, and succeeds
      exactly when both succeed. */
  lemma SetWritesBoth<SA, SB, K, V>(a: Cache<SA, K, V>, b: Cache<SB, K, V>, sa: SA, sb: SB, v: V, k: K)
    ensures Compose(a, b).Set((sa, sb), v, k).state == (a.Set(sa, v, k).state, b.Set(sb, v, k).state)
    ensures Compose(a, b).Set((sa, sb), v, k).result.Ok? <==> a.Set(sa, v, k).result.Ok? && b.Set(sb, v, k).result.Ok?
    ensures a.Set(sa, v, k).result.Fail? ==> Compose(a, b).Set((sa, sb), v, k).result == a.Set(sa, v, k).result
  {
  }

  /** `clear` clears A and B. */
  lemma ClearClearsBoth<SA, SB, K, V>(a: Cache<SA, K, V>, b: Cache<SB, K, V>, sa: SA, sb: SB)
    ensures Compose(a, b).Clear((sa, sb)) == (a.Clear(sa), b.Clear(sb))
  {
  }

  /** A composite reads its own writes as soon as its first cache does. */
  lemma {:induction false} ComposeReadsOwnWrites<SA(!new), SB(!new), K(!new), V(!new)>(a: Cache<SA, K, V>, b: Cache<SB, K, V>)
    requires ReadsOwnWrites(a)
    ensures ReadsOwnWrites(Compose(a, b))
  {
    var c := Compose(a, b);
    forall s: (SA, SB), v: V, k: K | c.Set(s, v, k).result.Ok?
      ensures c.Get(c.Set(s, v, k).state, k).result == Ok(Some(v))
    {
      assert a.Set(s.0, v, k).result.Ok?;
      assert a.Get(a.Set(s.0, v, k).state, k).result == Ok(Some(v));
    }
  }

  /** Composition is associative for `get`: `(a + b) + c` and `a + (b + c)`
      deliver the same outcome and leave each of the three caches in the
      same state, so a request flows left to right and a hit is written back
      into every stage to its left. */
  lemma {:induction false} ComposeGetIsAssociative<SA, SB, SC, K, V>(
    a: Cache<SA, K, V>, b: Cache<SB, K, V>, c: Cache<SC, K, V>, sa: SA, sb: SB, sc: SC, k: K)
    ensures var l := Compose(Compose(a, b), c).Get(((sa, sb), sc), k);
            var r := Compose(a, Compose(b, c)).Get((sa, (sb, sc)), k);
            l.result == r.result && l.state.0.0 == r.state.0 && l.state.0.1 == r.state.1.0 && l.state.1 == r.state.1.1
  {
    var ab, bc := Compose(a, b), Compose(b, c);
    var ra := a.Get(sa, k);
    if ra.result.Ok? && ra.result.value.None? {
      var rb := b.Get(sb, k);
      if rb.result.Ok? && rb.result.value.None? {
        var rc := c.Get(sc, k);
        assert ab.Get((sa, sb), k) == GetReply((ra.state, rb.state), Ok(None));
        if rc.result.Ok? && rc.result.value.Some? {
          var w := rc.result.value.value;
          assert ab.Set((ra.state, rb.state), w, k).state == (a.Set(ra.state, w, k).state, b.Set(rb.state, w, k).state);
        }
      }
    }
  }

  /** Composition is associative for `set`: the same three writes, the same
      outcome. */
  lemma ComposeSetIsAssociative<SA, SB, SC, K, V>(
    a: Cache<SA, K, V>, b: Cache<SB, K, V>, c: Cache<SC, K, V>, sa: SA, sb: SB, sc: SC, v: V, k: K)
    ensures var l := Compose(Compose(a, b), c).Set(((sa, sb), sc), v, k);
            var r := Compose(a, Compose(b, c)).Set((sa, (sb, sc)), v, k);
            l.result == r.result && l.state.0.0 == r.state.0 && l.state.0.1 == r.state.1.0 && l.state.1 == r.state.1.1
  {
  }

  /** Composition is associative for `clear`: each cache is cleared once. */
  lemma ComposeClearIsAssociative<SA, SB, SC, K, V>(
    a: Cache<SA, K, V>, b: Cache<SB, K, V>, c: Cache<SC, K, V>, sa: SA, sb: SB, sc: SC)
    ensures var l := Compose(Compose(a, b), c).Clear(((sa, sb), sc));
            var r := Compose(a, Compose(b, c)).Clear((sa, (sb, sc)));
            l.0.0 == r.0 && l.0.1 == r.1.0 && l.1 == r.1.1
  {
  }

  /** After a composite `get` was served by B, the value sits in an in-memory
      first store, so the next `get` for that key is served by it and B is
      not asked again. */
  lemma WriteBackServesNextRead<SB, K, V>(b: Cache<SB, K, V>, sa: map<K, V>, sb: SB, k: K, v: V)
    requires k !in sa
    requires b.Get(sb, k).result == Ok(Some(v))
    ensures var first := Compose(LegacyRam.Store(), b).Get((sa, sb), k);
            && first.result == Ok(Some(v))
            && first.state.0 == sa[k := v]
            && Compose(LegacyRam.Store(), b).Get(first.state, k) == GetReply(first.state, Ok(Some(v)))
  {
  }

  /** With counting fakes: when the first cache answers, the second one's
      `get` counter stays at zero; when the first misses, the second is asked
      exactly once with the same key and its value is set into the first. */
  lemma CountingFakesObserveComposition<K(!new), V(!new)>(k: K, v: V, w: V)
    ensures var c := Compose(CountingFake((x: K) => Ok(Some(v))), CountingFake((x: K) => Ok(Some(w))));
            var r := c.Get((Untouched(), Untouched()), k);
            r.result == Ok(Some(v)) && r.state.0.gets == 1 && r.state.1.gets == 0 && r.state.0.sets == 0
    ensures var c := Compose(CountingFake((x: K) => Ok(None)), CountingFake((x: K) => Ok(Some(w))));
            var r := c.Get((Untouched(), Untouched()), k);
            && r.result == Ok(Some(w)) && r.state.0.gets == 1 && r.state.1.gets == 1
            && r.state.1.lastGetKey == Some(k) && r.state.0.lastSet == Some((w, k))
  {
  }
}
