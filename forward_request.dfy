/** `forwardRequest()` (Sources/Cache+ForwardRequest.swift): the wrapped
    `get` stream is prefixed with an absence and passed through
    `distinctUntilChanged` with a comparer that equates two absences and
    nothing else. A cache so wrapped and placed first in a composition
    therefore always forwards the request to the next cache, while its own
    values still reach the caller.

    A `get` is modelled here by the finite sequence of its emissions. */
module Forwarding {
  import opened Results
  import opened Caches
  import Composition

  /** RxSwift's `distinctUntilChanged(_:)`: an element equal (by `same`) to
      the last element let through is dropped; `current` is that last
      element, if any. The first element always passes. */
  function DistinctUntilChanged<T>(current: Option<T>, xs: seq<T>, same: (T, T) -> bool): (r: seq<T>)
    ensures |r| <= |xs|
    ensures forall i :: 0 <= i < |r| ==> r[i] in xs
    ensures forall i :: 0 <= i < |r| - 1 ==> !same(r[i], r[i + 1])
    ensures current.Some? && |r| > 0 ==> !same(current.value, r[0])
    ensures |xs| > 0 && current.None? ==> |r| > 0 && r[0] == xs[0]
    decreases |xs|
  {
    if xs == [] then []
    else if current.Some? && same(current.value, xs[0]) then DistinctUntilChanged(current, xs[1..], same)
    else [xs[0]] + DistinctUntilChanged(Some(xs[0]), xs[1..], same)
  }

  /** The comparer of `forwardRequest`: two absences are "the same"; a
      present value is never the same as anything. */
  predicate BothAbsent<V>(previous: Option<V>, current: Option<V>) {
    previous.None? && current.None?
  }

  /** The present values of an emission sequence, in order. */
  function Present<V>(xs: seq<Option<V>>): seq<V> {
    if xs == [] then [] else (if xs[0].Some? then [xs[0].value] else []) + Present(xs[1..])
  }

  predicate NoAdjacentAbsences<V>(r: seq<Option<V>>) {
    forall i :: 0 <= i < |r| - 1 ==> !(r[i].None? && r[i + 1].None?)
  }

  /** The emissions of `get(k).startWith(nil).distinctUntilChanged(...)`
      when the wrapped `get` emits `items`. */
  function ForwardRequestStream<V>(items: seq<Option<V>>): (r: seq<Option<V>>)
    ensures |r| >= 1 && r[0] == None
    ensures NoAdjacentAbsences(r)
  {
    DistinctUntilChanged(None, [None] + items, BothAbsent)
  }

  /** Independent reference: an element is kept when it is present or when
      the element before it in the input was present. */
  function KeepAfterPresent<V>(previous: Option<V>, xs: seq<Option<V>>): seq<Option<V>>
    decreases |xs|
  {
    if xs == [] then []
    else (if xs[0].Some? || previous.Some? then [xs[0]] else []) + KeepAfterPresent(xs[0], xs[1..])
  }

  /** Because a suppressed absence follows an absence that was let through,
      the element last let through always equals the previous input. */
  lemma {:induction false} DistinctIsKeepAfterPresent<V>(previous: Option<V>, xs: seq<Option<V>>)
    ensures DistinctUntilChanged(Some(previous), xs, BothAbsent) == KeepAfterPresent(previous, xs)
    decreases |xs|
  {
    if xs != [] {
      DistinctIsKeepAfterPresent(xs[0], xs[1..]);
      if BothAbsent(previous, xs[0]) {
        assert previous == xs[0];
        assert DistinctUntilChanged(Some(previous), xs, BothAbsent) == DistinctUntilChanged(Some(xs[0]), xs[1..], BothAbsent);
      } else {
        assert DistinctUntilChanged(Some(previous), xs, BothAbsent) == [xs[0]] + DistinctUntilChanged(Some(xs[0]), xs[1..], BothAbsent);
      }
    }
  }

  lemma {:induction false} PresentOfConcat<V>(xs: seq<Option<V>>, ys: seq<Option<V>>)
    ensures Present(xs + ys) == Present(xs) + Present(ys)
    decreases |xs|
  {
    if xs != [] {
      assert (xs + ys)[0] == xs[0];
      assert (xs + ys)[1..] == xs[1..] + ys;
      PresentOfConcat(xs[1..], ys);
    } else {
      assert xs + ys == ys;
    }
  }

  lemma {:induction false} KeepAfterPresentKeepsValues<V>(previous: Option<V>, xs: seq<Option<V>>)
    ensures Present(KeepAfterPresent(previous, xs)) == Present(xs)
    decreases |xs|
  {
    if xs != [] {
      var head := if xs[0].Some? || previous.Some? then [xs[0]] else [];
      PresentOfConcat(head, KeepAfterPresent(xs[0], xs[1..]));
      KeepAfterPresentKeepsValues(xs[0], xs[1..]);
    }
  }

  /** The output is the leading absence followed by the reference filtering
      of the wrapped emissions, so every present value passes through,
      repeated equal values included, and in order. */
  lemma ForwardRequestKeepsEveryValue<V>(items: seq<Option<V>>)
    ensures ForwardRequestStream(items) == [None] + KeepAfterPresent(None, items)
    ensures Present(ForwardRequestStream(items)) == Present(items)
  {
    assert ([None] + items)[1..] == items;
    DistinctIsKeepAfterPresent(None, items);
    KeepAfterPresentKeepsValues(None, items);
    PresentOfConcat([None], KeepAfterPresent(None, items));
  }

  /** An underlying miss yields a single absence; an underlying hit yields
      an absence and then the value. */
  lemma ForwardRequestOnSingleResult<V>(v: V)
    ensures ForwardRequestStream<V>([None]) == [None]
    ensures ForwardRequestStream([Some(v)]) == [None, Some(v)]
  {
    ForwardRequestKeepsEveryValue<V>([None]);
    ForwardRequestKeepsEveryValue([Some(v)]);
  }

  /** What a stream-valued `get` delivers: the new state, the emitted
      elements and, if the stream ended in an error, that error. */
  datatype StreamReply<S, V> = StreamReply(state: S, emitted: seq<Option<V>>, error: Option<CacheError>)

  /** The cache `forwardRequest()` returns, its `get` over a single-result
      cache; `set` and `clear` are the wrapped cache's own. */
  function ForwardRequestGet<S, K, V>(c: Cache<S, K, V>, s: S, k: K): (r: StreamReply<S, V>)
    ensures r.state == c.Get(s, k).state
    ensures |r.emitted| >= 1 && r.emitted[0] == None
    ensures c.Get(s, k).result.Fail? ==> r.error == Some(c.Get(s, k).result.error) && r.emitted == [None]
    ensures c.Get(s, k).result.Ok? ==> r.error == None && Present(r.emitted) == Present([c.Get(s, k).result.value])
  {
    var g := c.Get(s, k);
    match g.result
    case Fail(e) => StreamReply(g.state, ForwardRequestStream([]), Some(e))
    case Ok(x) =>
      ForwardRequestKeepsEveryValue([x]);
      StreamReply(g.state, ForwardRequestStream([x]), None)
  }

  function ForwardRequestSet<S, K, V>(c: Cache<S, K, V>, s: S, v: V, k: K): (r: SetReply<S>)
    ensures r == c.Set(s, v, k)
  {
    c.Set(s, v, k)
  }

  function ForwardRequestClear<S, K, V>(c: Cache<S, K, V>, s: S): (r: S)
    ensures r == c.Clear(s)
  {
    c.Clear(s)
  }

  /** `compose`'s `get` over a first cache whose `get` emits `aEmits`: each
      present element is passed on, and each absence asks the second cache,
      whose emissions `bEmits` are passed on in its place. Only the emitted
      elements are followed here: the write-back into the first cache and
      the caches' states are those of `Composition.ComposeGet`, which this
      agrees with on single results (`ComposeOverSingleResults`). */
  function ComposeOverEmissions<V>(aEmits: seq<Option<V>>, bEmits: seq<Option<V>>): seq<Option<V>> {
    if aEmits == [] then []
    else (if aEmits[0].Some? then [aEmits[0]] else bEmits) + ComposeOverEmissions(aEmits[1..], bEmits)
  }

  /** On caches that each answer with one element, the emissions of the
      composite are exactly the one result `Composition.Compose` delivers. */
  lemma ComposeOverSingleResults<SA, SB, K, V>(a: Cache<SA, K, V>, b: Cache<SB, K, V>, sa: SA, sb: SB, k: K)
    requires a.Get(sa, k).result.Ok? && b.Get(sb, k).result.Ok?
    ensures var r := Composition.Compose(a, b).Get((sa, sb), k).result;
            r.Ok? && ComposeOverEmissions([a.Get(sa, k).result.value], [b.Get(sb, k).result.value]) == [r.value]
  {
    var x := a.Get(sa, k).result.value;
    assert [x][1..] == [];
  }

  /** How often the second cache is asked: once per absence of the first. */
  function Absences<V>(xs: seq<Option<V>>): nat {
    if xs == [] then 0 else (if xs[0].None? then 1 else 0) + Absences(xs[1..])
  }

  /** With `a.forwardRequest() + b`: when `a` misses the second cache is asked
      once and only its answer reaches the caller; when `a` hits with `v`,
      the second cache is still asked once and the caller receives both its
      answer and `v`. (Which of the two arrives first depends on timing and
      is not modelled; this model lists the forwarded answer first.) */
  lemma ForwardRequestFirstInComposition<V>(v: V, bEmits: seq<Option<V>>)
    ensures Absences(ForwardRequestStream<V>([None])) == 1
    ensures ComposeOverEmissions(ForwardRequestStream<V>([None]), bEmits) == bEmits
    ensures Absences(ForwardRequestStream([Some(v)])) == 1
    ensures ComposeOverEmissions(ForwardRequestStream([Some(v)]), bEmits) == bEmits + [Some(v)]
  {
    ForwardRequestOnSingleResult(v);
    var hit := [None, Some(v)];
    assert hit[1..] == [Some(v)] && hit[1..][1..] == [];
    assert Absences(hit[1..]) == 0;
    assert ComposeOverEmissions(hit[1..], bEmits) == [Some(v)] + ComposeOverEmissions(hit[1..][1..], bEmits);
    assert ComposeOverEmissions(hit, bEmits) == bEmits + ComposeOverEmissions(hit[1..], bEmits);
  }

  /** Whatever the first cache emits, a request through `forwardRequest` asks
      the second cache at least once, and exactly once when the first cache
      emits only values. */
  lemma {:induction false} ForwardedAtLeastOnce<V>(items: seq<Option<V>>)
    ensures Absences(ForwardRequestStream(items)) >= 1
    ensures (forall i :: 0 <= i < |items| ==> items[i].Some?) ==> Absences(ForwardRequestStream(items)) == 1
  {
    ForwardRequestKeepsEveryValue(items);
    var r := ForwardRequestStream(items);
    assert r[1..] == KeepAfterPresent(None, items);
    if forall i :: 0 <= i < |items| ==> items[i].Some? {
      AllPresentKept(None, items);
      NoAbsences(items);
    }
  }

  lemma {:induction false} AllPresentKept<V>(previous: Option<V>, xs: seq<Option<V>>)
    requires forall i :: 0 <= i < |xs| ==> xs[i].Some?
    ensures KeepAfterPresent(previous, xs) == xs
    decreases |xs|
  {
    if xs != [] {
      AllPresentKept(xs[0], xs[1..]);
    }
  }

  lemma {:induction false} NoAbsences<V>(xs: seq<Option<V>>)
    requires forall i :: 0 <= i < |xs| ==> xs[i].Some?
    ensures Absences(xs) == 0
    decreases |xs|
  {
    if xs != [] {
      NoAbsences(xs[1..]);
    }
  }
}
