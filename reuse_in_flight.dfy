/** `reuseInFlight()` (Sources/Cache+ReuseInFlight.swift): a per-key
    registry of in-flight requests. A `get` for a key with an entry returns
    the shared request registered under it; otherwise it issues the wrapped
    cache's `get`, registers the shared request under the key and returns
    it. The entry is removed when that request emits a value, fails,
    completes or is disposed. `set` and `clear` go straight to the wrapped
    cache.

    A shared request is identified by its position in `started`, the list of
    the wrapped cache's `get`s issued so far (each one the key it asked
    for). The registry maps a key to that position. Requests run
    synchronously here; their terminal events arrive as separate calls. */
module InFlight {
  import opened Results
  import opened Caches

  /** The registry together with the requests issued so far. */
  datatype Flights<K> = Flights(registry: map<K, nat>, started: seq<K>)

  /** Every entry points at a request issued for that very key. */
  predicate WellFormed<K>(f: Flights<K>) {
    forall k :: k in f.registry ==> f.registry[k] < |f.started| && f.started[f.registry[k]] == k
  }

  /** `get(k)`: reuse the entry, or issue a request and register it. Yields
      the new registry state and the request the caller subscribes to. */
  function OnGet<K>(f: Flights<K>, k: K): (r: (Flights<K>, nat))
    ensures k in f.registry ==> r == (f, f.registry[k])
    ensures k !in f.registry ==>
              && r.0.started == f.started + [k]
              && r.1 == |f.started|
              && r.0.registry == f.registry[k := |f.started|]
    ensures WellFormed(f) ==> WellFormed(r.0) && r.1 < |r.0.started| && r.0.started[r.1] == k
  {
    if k in f.registry then (f, f.registry[k])
    else (Flights(f.registry[k := |f.started|], f.started + [k]), |f.started|)
  }

  /** The four ways a shared request ends; each one removes its key's entry. */
  datatype Terminal = Next | Error | Completed | Disposed

  function OnTerminal<K>(f: Flights<K>, k: K, how: Terminal): (r: Flights<K>)
    ensures k !in r.registry
    ensures r.started == f.started
    ensures forall j :: j in r.registry ==> j in f.registry
    ensures forall j :: j in f.registry && j != k ==> j in r.registry && r.registry[j] == f.registry[j]
    ensures WellFormed(f) ==> WellFormed(r)
  {
    Flights(f.registry - {k}, f.started)
  }

  /** What happens to the registry: a caller asks for a key, or the shared
      request of a key reaches a terminal event. */
  datatype Event<K> = Request(key: K) | Finish(key: K, how: Terminal)

  function Step<K>(f: Flights<K>, e: Event<K>): Flights<K> {
    match e
    case Request(k) => OnGet(f, k).0
    case Finish(k, how) => OnTerminal(f, k, how)
  }

  function Run<K>(f: Flights<K>, events: seq<Event<K>>): Flights<K>
    decreases |events|
  {
    if events == [] then f else Run(Step(f, events[0]), events[1..])
  }

  /** Every run keeps the registry well formed and only ever appends to the
      list of issued requests. */
  lemma {:induction false} RunKeepsWellFormed<K>(f: Flights<K>, events: seq<Event<K>>)
    requires WellFormed(f)
    ensures WellFormed(Run(f, events))
    ensures f.started <= Run(f, events).started
    decreases |events|
  {
    if events != [] {
      RunKeepsWellFormed(Step(f, events[0]), events[1..]);
    }
  }

  /** Requests and terminal events for one key leave every other key's
      entry as it was. */
  lemma OtherKeysUntouched<K>(f: Flights<K>, k: K, j: K, how: Terminal)
    requires j != k
    ensures (j in OnGet(f, k).0.registry <==> j in f.registry)
    ensures j in f.registry ==> OnGet(f, k).0.registry[j] == f.registry[j]
    ensures (j in OnTerminal(f, k, how).registry <==> j in f.registry)
    ensures j in f.registry ==> OnTerminal(f, k, how).registry[j] == f.registry[j]
  {
  }

  /** Until `k`'s shared request ends, the wrapped cache is asked for `k` at
      most once, however many callers ask and whatever happens to other
      keys; and an entry already present stays the one every caller gets. */
  lemma {:induction false} AtMostOneFlightPerKey<K>(f: Flights<K>, events: seq<Event<K>>, k: K)
    requires forall i :: 0 <= i < |events| ==> !(events[i].Finish? && events[i].key == k)
    ensures multiset(Run(f, events).started)[k] <= multiset(f.started)[k] + (if k in f.registry then 0 else 1)
    ensures k in f.registry ==> k in Run(f, events).registry && Run(f, events).registry[k] == f.registry[k]
    decreases |events|
  {
    if events != [] {
      var g := Step(f, events[0]);
      assert multiset(g.started)[k] <= multiset(f.started)[k] + (if k in f.registry then 0 else 1);
      assert k in f.registry ==> k in g.registry && g.registry[k] == f.registry[k];
      assert k !in f.registry && k in g.registry ==> multiset(g.started)[k] == multiset(f.started)[k] + 1;
      AtMostOneFlightPerKey(g, events[1..], k);
    }
  }

  /** Callers asking for `k` while its request is in flight all get the same
      shared request, and the wrapped cache is asked once. */
  lemma {:induction false} ConcurrentCallersShare<K>(f: Flights<K>, k: K)
    requires k !in f.registry
    ensures var (f1, h1) := OnGet(f, k);
            var (f2, h2) := OnGet(f1, k);
            h1 == h2 && f2 == f1 && |f2.started| == |f.started| + 1
  {
  }

  /** Once `k`'s shared request has ended, in any of the four ways, the next
      `get(k)` issues a fresh request to the wrapped cache with the same key. */
  lemma FreshRequestAfterTerminal<K>(f: Flights<K>, k: K, how: Terminal)
    requires WellFormed(f)
    ensures var (f1, h1) := OnGet(f, k);
            var (f2, h2) := OnGet(OnTerminal(f1, k, how), k);
            h2 == |f1.started| && f2.started == f1.started + [k] && h2 != h1
  {
  }

  /** The terminal hooks know only their key: when an earlier request for
      `k` is disposed after a newer one was registered, the newer entry is
      removed, and the next caller issues yet another request. */
  lemma StaleTerminalRemovesNewerEntry<K>(f: Flights<K>, k: K)
    requires k !in f.registry
    ensures var (f1, h1) := OnGet(f, k);
            var (f2, h2) := OnGet(OnTerminal(f1, k, Next), k);
            var f3 := OnTerminal(f2, k, Disposed);
            var (f4, h3) := OnGet(f3, k);
            h3 != h2 && |f4.started| == |f.started| + 3
  {
  }

  /** The operator as an object: the wrapped cache, its state, the registry
      and, for every issued request, the one outcome all its subscribers
      observe. */
  class ReuseInFlight<S, K(==), V> {
    const inner: Cache<S, K, V>
    var innerState: S
    var registry: map<K, nat>
    var started: seq<K>
    var outcomes: seq<Result<Option<V>>>

    predicate Valid()
      reads this
    {
      |outcomes| == |started| && WellFormed(Flights(registry, started))
    }

    function Current(): Flights<K>
      reads this
    {
      Flights(registry, started)
    }

    constructor (c: Cache<S, K, V>, s: S)
      ensures Valid()
      ensures inner == c && innerState == s
      ensures registry == map[] && started == [] && outcomes == []
    {
      inner := c;
      innerState := s;
      registry := map[];
      started := [];
      outcomes := [];
    }

    /** Subscribes to the shared request for `k`, issuing it first when no
        entry exists; `handle` names the request. */
    method Get(k: K) returns (r: Result<Option<V>>, handle: nat)
      requires Valid()
      modifies this
      ensures Valid()
      ensures (Current(), handle) == OnGet(old(Current()), k)
      ensures handle < |outcomes| && r == outcomes[handle]
      ensures k in old(registry) ==>
                && r == old(outcomes)[old(registry)[k]]
                && innerState == old(innerState) && outcomes == old(outcomes)
      ensures k !in old(registry) ==>
                && r == inner.Get(old(innerState), k).result
                && innerState == inner.Get(old(innerState), k).state
                && outcomes == old(outcomes) + [r]
    {
      if k in registry {
        handle := registry[k];
        r := outcomes[handle];
      } else {
        var g := inner.Get(innerState, k);
        innerState := g.state;
        handle := |started|;
        started := started + [k];
        outcomes := outcomes + [g.result];
        registry := registry[k := handle];
        r := g.result;
      }
    }

    /** The shared request for `k` reached a terminal event: its entry goes. */
    method Finish(k: K, how: Terminal)
      requires Valid()
      modifies this
      ensures Valid()
      ensures Current() == OnTerminal(old(Current()), k, how)
      ensures innerState == old(innerState) && outcomes == old(outcomes)
    {
      registry := registry - {k};
    }

    /** `set` is the wrapped cache's, and does not touch the registry. */
    method Set(v: V, k: K) returns (r: Result<()>)
      requires Valid()
      modifies this
      ensures Valid()
      ensures r == inner.Set(old(innerState), v, k).result
      ensures innerState == inner.Set(old(innerState), v, k).state
      ensures registry == old(registry) && started == old(started) && outcomes == old(outcomes)
    {
      var w := inner.Set(innerState, v, k);
      innerState := w.state;
      r := w.result;
    }

    /** `clear` is the wrapped cache's, and does not touch the registry. */
    method Clear()
      requires Valid()
      modifies this
      ensures Valid()
      ensures innerState == inner.Clear(old(innerState))
      ensures registry == old(registry) && started == old(started) && outcomes == old(outcomes)
    {
      innerState := inner.Clear(innerState);
    }
  }

  /** Two callers asking for the same key before its request ends observe
      the same outcome, and the wrapped cache is asked once; after the
      request ended, a third caller causes a new request for that key. */
  method SharedThenFresh<S, K(==), V>(c: Cache<S, K, V>, s: S, k: K)
    returns (first: Result<Option<V>>, second: Result<Option<V>>, third: Result<Option<V>>)
    ensures first == second == c.Get(s, k).result
    ensures third == c.Get(c.Get(s, k).state, k).result
  {
    var cache := new ReuseInFlight(c, s);
    var h1, h2, h3;
    first, h1 := cache.Get(k);
    second, h2 := cache.Get(k);
    assert |cache.started| == 1;
    cache.Finish(k, Next);
    third, h3 := cache.Get(k);
    assert |cache.started| == 2 && h3 == 1;
  }
}
