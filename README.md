# Droste cache combinators in Dafny

Droste is a Swift library for building caches by composition. Every
component implements one protocol. `get(key)` yields an optional value,
`set(value, key)` stores one, and `clear()` empties the component.
Operators wrap caches into new ones and return the glue type
`CompositeCache`. These operators are `compose`/`+` (read-through with
write-back), `reuseInFlight`, `mapValues`/`mapKeys`, `expires`,
`skipWhile`, `switchCache`, `forwardRequest`, the non-optional `get`,
`normalize` and the `Fetcher` defaults. The stores are two in-memory
`RamCache`s and a `DiskCache` with capacity eviction. The network fetcher
decides which events a finished request produces.

This project models that core and proves its properties.

- **A cache is a value** (`Caches.Cache`). It holds three total functions
  over an explicit world state `S`: what a store holds, or what a counting
  fake has observed. Each call yields the new state with its outcome: a
  value, an absence or an error (`Results`). "B was not consulted" is
  stated as "B's part of the state is unchanged". The counting fake
  (`Fakes.CountingFake`) makes that concrete: B's `get` counter stays put.
- **Operators are functions from caches to caches.** Their laws are lemmas
  for all caches, all states and all keys. `Caches.Equivalent` says two
  caches behave identically on every call. `Caches.ReadsOwnWrites` says a
  successful `set` is seen by the next `get`.
- **Operators that keep state are classes** with methods proved against a
  functional specification. `reuseInFlight` is one: its registry is a map
  field, specified by a registry state machine over "request k" and
  "k's request ended" events. The in-memory stores are classes over a
  dictionary field. `DiskCache` is a class over a directory table with a
  running `size`, and its loops carry invariants.
- **`forwardRequest` works on emission sequences.** It is a transform on
  the finite sequence a `get` emits, and its interplay with `compose` is a
  function over those emissions.
- **Time is an integer clock.** In `expires` it counts seconds since the
  reference date, and a cache value is built for one clock reading
  (`Expires(c, e, now)`). The disk store keeps its own logical clock.
  Every file is dated before the clock's current reading, so the file
  just written or read is the newest.

## Model

| member | source | states |
|---|---|---|
| `Caches.DispatchIsInjected` | Sources/DrosteSwift/CompositeCache.swift:21-43 | get, set and clear of a CompositeCache are exactly the behaviours injected at construction, applied to the caller's arguments, value before key |
| `Fakes.CountingFake` | Tests/CacheFake.swift:53-72 | the test double answers `get` with its scripted result, counts every get/set/clear and records the last key and value |
| `Composition.Compose` | Sources/Cache+Compose.swift:14-38 | `compose` returns a CompositeCache; its behaviour is stated by the lemmas below |
| `Composition.Plus` | Sources/Cache+Compose.swift:41-43 | `lhs + rhs` is exactly `lhs.compose(other: rhs)` |
| `Composition.HitOnFirstSkipsSecond` | Sources/Cache+Compose.swift:18-21 | a hit on A is returned and B's state is untouched (B not consulted) |
| `Composition.FailureOnFirstSkipsSecond` | Sources/Cache+Compose.swift:17-19 | an error from A propagates and B is not consulted |
| `Composition.MissOnFirstHitOnSecond` | Sources/Cache+Compose.swift:23-27 | on A's absence B is asked once with the same key, its value is returned, and it is written back into A whatever that write's outcome |
| `Composition.MissOnBothWritesNothing` | Sources/Cache+Compose.swift:23-27 | when B also misses or fails its outcome is the composite's and A receives no write |
| `Composition.SetWritesBoth` | Sources/Cache+Compose.swift:31-32 | set writes to both caches and succeeds exactly when both succeed |
| `Composition.ClearClearsBoth` | Sources/Cache+Compose.swift:33-36 | clear clears A and B |
| `Composition.ComposeReadsOwnWrites` | Sources/Cache+Compose.swift:17-32 | a composite whose first cache reads its own writes reads its own writes |
| `Composition.ComposeGetIsAssociative` | Sources/Cache+Compose.swift:14-43 | `(a + b) + c` and `a + (b + c)` give the same get outcome and leave every cache in the same state, write-backs included |
| `Composition.ComposeSetIsAssociative` | Sources/Cache+Compose.swift:31-32 | both groupings perform the same three writes with the same outcome |
| `Composition.ComposeClearIsAssociative` | Sources/Cache+Compose.swift:33-36 | both groupings clear each of the three caches |
| `Composition.WriteBackServesNextRead` | Sources/Cache+Compose.swift:23-27 | after B served a get through an in-memory first store, the next get is served by that store without asking B |
| `Composition.CountingFakesObserveComposition` | Sources/Cache+Compose.swift:18-27 | with counting fakes: A's hit leaves B's get counter at 0; A's miss asks B once with the same key and sets B's value into A |
| `LegacyRam.StoreReadsOwnWrites` | Sources/Caches/RamCache.swift:21-33 | after `set(v, k)`, `get(k)` yields `v` |
| `LegacyRam.StoreGet` | Sources/Caches/RamCache.swift:21-23 | get reads the dictionary at the call, does not change it, and an unset key reads as absence |
| `LegacyRam.StoreSet` | Sources/Caches/RamCache.swift:25-33 | set always succeeds, overwrites its key and leaves every other key as it was |
| `LegacyRam.StoreClear` | Sources/Caches/RamCache.swift:36-38 | after clear every key reads as absence |
| `LegacyRam.RamCache.constructor` | Sources/Caches/RamCache.swift:17-19 | a new store is empty |
| `LegacyRam.RamCache.Get` | Sources/Caches/RamCache.swift:21-23 | yields the entry for the key at the call, or absence |
| `LegacyRam.RamCache.Set` | Sources/Caches/RamCache.swift:25-33 | the dictionary becomes the old one with the key overwritten; one unit is emitted |
| `LegacyRam.RamCache.Clear` | Sources/Caches/RamCache.swift:36-38 | the dictionary becomes empty |
| `Mapping.MapValues` | Sources/Cache+Map.swift:15-32 | `mapValues` returns a CompositeCache; its behaviour is stated by the lemmas below |
| `Mapping.MapKeys` | Sources/Cache+Map.swift:34-45 | `mapKeys` returns a CompositeCache; its behaviour is stated by the lemmas below |
| `Mapping.MapValuesGetOutcome` | Sources/Cache+Map.swift:18-25 | underlying absence and errors pass through; an underlying value `v` becomes `f(v)`, and a failure of `f` is the get's error |
| `Mapping.MapValuesSetOutcome` | Sources/Cache+Map.swift:27-30 | the underlying set receives `fInv(w)` under the same key; if `fInv` fails the set fails and the underlying cache is not called; clear delegates |
| `Mapping.MapKeysOutcome` | Sources/Cache+Map.swift:36-44 | get and set use `fInv(k)` with the value untouched; a failing `fInv` is the error and the cache is not called; clear delegates |
| `Mapping.MapValuesReadsOwnWrites` | Sources/Cache+Map.swift:15-31 | when `f` undoes `fInv`, mapping values keeps read-your-writes |
| `Mapping.MapKeysReadsOwnWrites` | Sources/Cache+Map.swift:34-45 | mapping keys keeps read-your-writes |
| `Mapping.MapValuesFuse` | Sources/Cache+Map.swift:15-31 | mapping values twice behaves as mapping once by the chained transforms |
| `Mapping.MapKeysFuse` | Sources/Cache+Map.swift:34-45 | mapping keys twice behaves as mapping once by the chained key transforms |
| `Mapping.MapValuesIdentity` | Sources/Cache+Map.swift:15-31 | mapping by the identity transforms changes no behaviour |
| `Skipping.SkipWhile` | Sources/Cache+SkipWhile.swift:16-29 | `skipWhile` returns a CompositeCache; its behaviour is stated by the lemmas below |
| `Skipping.SkipWhileOutcome` | Sources/Cache+SkipWhile.swift:17-27 | the condition is asked with the call's key: true gives absence with the cache untouched, false gives exactly the cache's get, a failing condition fails the get; set and clear always delegate |
| `Skipping.SkipWhileNests` | Sources/Cache+SkipWhile.swift:16-28 | skipping under `p` then under `q` behaves as skipping under "q, else p" |
| `Skipping.SkipWhileNeverIsIdentity` | Sources/Cache+SkipWhile.swift:18-23 | a condition that never holds changes no behaviour |
| `Switching.SwitchCache` | Sources/Cache+Switch.swift:18-44 | `switchCache` returns a CompositeCache; its behaviour is stated by the lemmas below |
| `Switching.SwitchOutcome` | Sources/Cache+Switch.swift:22-42 | get and set go to the side the selector picks for that key and leave the other side untouched; clear clears both |
| `Switching.SwitchReadsOwnWrites` | Sources/Cache+Switch.swift:23-38 | a switch between caches that read their own writes reads its own writes, since get and set select with the same key |
| `Salience.Salient` | Sources/DrosteSwift/Cache+Salient.swift:15-23 | a value is delivered as is, absence becomes `valueNotFound`, errors propagate, and the result never carries absence |
| `Salience.GetValue` | Sources/DrosteSwift/Cache+Salient.swift:15-23 | the non-optional get is the optional get's call with that mapping applied |
| `Salience.SalientRoundTrip` | Sources/DrosteSwift/Cache+Salient.swift:17-21 | every optional result except absence and `valueNotFound` is recovered from the non-optional view, and every non-optional result survives the round trip |
| `Salience.AbsenceAndNotFoundCoincide` | Sources/DrosteSwift/Cache+Salient.swift:17-21 | absence and the error `valueNotFound` are indistinguishable through the non-optional get |
| `Normalization.Normalize` | Sources/Normalize.swift:12-21 | the result is a CompositeCache, is the input itself when that is one, and behaves like the input on every call |
| `Normalization.NormalizeIsIdempotent` | Sources/Normalize.swift:12-21 | normalizing twice is normalizing once |
| `Fetchers.FetcherCache` | Sources/Fetchers/Fetcher.swift:14-20 | a fetcher's get is its own; set emits one unit for every value and key and changes no state; clear changes nothing |
| `Fetchers.FetcherBehindCache` | Sources/Fetchers/Fetcher.swift:15-19 | behind a cache, a fetcher leaves a set's outcome to that cache and its own state untouched by set and clear |
| `Forwarding.DistinctUntilChanged` | Sources/Cache+ForwardRequest.swift:17-19 | the output is drawn from the input, no two consecutive outputs are "the same", nothing repeats the last element let through, and the first element always passes |
| `Forwarding.ForwardRequestStream` | Sources/Cache+ForwardRequest.swift:16-19 | the output begins with absence and never has two absences in a row |
| `Forwarding.DistinctIsKeepAfterPresent` | Sources/Cache+ForwardRequest.swift:17-19 | with the nil/nil comparer the filter keeps an element exactly when it or the input element before it is present |
| `Forwarding.KeepAfterPresentKeepsValues` | Sources/Cache+ForwardRequest.swift:17-19 | the nil/nil comparer drops only absences: the present values of the output are those of the input, in order |
| `Forwarding.AllPresentKept` | Sources/Cache+ForwardRequest.swift:17-19 | when the wrapped cache emits only values, every one of them passes the filter |
| `Forwarding.ForwardRequestKeepsEveryValue` | Sources/Cache+ForwardRequest.swift:16-19 | the output is the leading absence plus the reference filtering, so every present value passes, repeats included, in order |
| `Forwarding.ForwardRequestOnSingleResult` | Sources/Cache+ForwardRequest.swift:16-19 | an underlying miss yields one absence; a hit yields absence then the value |
| `Forwarding.ForwardRequestGet` | Sources/Cache+ForwardRequest.swift:15-20 | over a single-result cache: the cache's state change, a leading absence, the cache's present value if any, and its error if any |
| `Forwarding.ForwardRequestSet` | Sources/Cache+ForwardRequest.swift:21 | set is the wrapped cache's |
| `Forwarding.ForwardRequestClear` | Sources/Cache+ForwardRequest.swift:22 | clear is the wrapped cache's |
| `Forwarding.ComposeOverSingleResults` | Sources/Cache+Compose.swift:17-29 | on single results the emission-level composition delivers exactly the outcome of `Composition.Compose` |
| `Forwarding.ForwardRequestFirstInComposition` | Sources/Cache+ForwardRequest.swift:14-23 | as the first cache of a composition: a miss asks B once and only B's answer reaches the caller; a hit asks B once and the caller receives B's answer and the value |
| `Forwarding.ForwardedAtLeastOnce` | Sources/Cache+ForwardRequest.swift:16-19 | the next cache is always asked, and exactly once when the wrapped cache emits only values |
| `Expiration.DateFor` | Sources/Cache+Expire.swift:39-48 | `.never` gives the distant future, `.seconds(s)` gives now + s, `.date(d)` gives d |
| `Expiration.ExpiryDeadline` | Sources/Cache+Expire.swift:62-86 | a record is expired exactly when its date is strictly before now; for `.seconds(s)` stored at t0 that is after t0 + s |
| `Expiration.Encode` | Sources/Cache+Expire.swift:77-80 | the archive holds the value under "value" and the date under "expiryDate" |
| `Expiration.Decode` | Sources/Cache+Expire.swift:66-75 | decoding fails exactly when "value" is missing or "expiryDate" is missing or not a date, and otherwise yields the archived pair |
| `Expiration.DecodeEncodeRoundTrip` | Sources/Cache+Expire.swift:66-80 | decoding an encoded record gives back the same value and expiry date |
| `Expiration.CastToValue` | Sources/Cache+Expire.swift:29 | `as? Value` succeeds exactly on a value of the cache's type |
| `Expiration.ForceCastToValue` | Sources/Cache+Expire.swift:23 | `as! Value` succeeds exactly on a value of the cache's type, and otherwise traps |
| `Expiration.Expires` | Sources/Cache+Expire.swift:19-37 | `expires` as written returns a CompositeCache built over the value mapping |
| `Expiration.ExpiresIsTransparent` | Sources/Cache+Expire.swift:19-37 | as written, `expires` behaves exactly like the cache it wraps: no date is stored and expiry is never checked |
| `Expiration.ExpiredValueStillReturned` | Sources/Cache+Expire.swift:27-35 | as written, a value stored for one second is still returned ten seconds later |
| `Expiration.ExpiresLazily` | Sources/Cache+Expire.swift:19-37 | corrected operator: stores the dated record and reads an expired one as absence |
| `Expiration.ExpiresLazilyHonoursExpiry` | Sources/Cache+Expire.swift:62-64 | corrected: over a cache that reads its own writes, a value is returned exactly until its expiry date is in the past |
| `Expiration.ExpiredValueHidden` | Sources/Cache+Expire.swift:27-35 | corrected: the value stored for one second is present after one second and absent after ten |
| `Expiration.ExpiresClearDelegates` | Sources/Cache+Expire.swift:36 | clear is the wrapped cache's |
| `InFlight.OnGet` | Sources/Cache+ReuseInFlight.swift:20-65 | an existing entry is reused unchanged; otherwise exactly one request is issued for the key and registered under it; the registry stays well formed |
| `InFlight.OnTerminal` | Sources/Cache+ReuseInFlight.swift:27-55 | each of value, error, completion and disposal removes the key's entry and keeps every other entry |
| `InFlight.RunKeepsWellFormed` | Sources/Cache+ReuseInFlight.swift:19-65 | over any sequence of events each entry points at a request issued for its key, and issued requests are only appended |
| `InFlight.OtherKeysUntouched` | Sources/Cache+ReuseInFlight.swift:27-64 | insert and removal for one key leave every other key's entry as it was |
| `InFlight.AtMostOneFlightPerKey` | Sources/Cache+ReuseInFlight.swift:22-64 | until the key's request ends the wrapped cache is asked for that key at most once, and an existing entry stays the one every caller gets |
| `InFlight.ConcurrentCallersShare` | Sources/Cache+ReuseInFlight.swift:22-24 | two callers in a row get the same shared request and one underlying get is issued |
| `InFlight.FreshRequestAfterTerminal` | Sources/Cache+ReuseInFlight.swift:27-55 | after the request ends, the next get issues a fresh request for the same key |
| `InFlight.StaleTerminalRemovesNewerEntry` | Sources/Cache+ReuseInFlight.swift:48-55 | a late disposal of an earlier request removes a newer entry for the same key, so the next caller issues another request |
| `InFlight.ReuseInFlight.constructor` | Sources/Cache+ReuseInFlight.swift:15-16 | the registry starts empty |
| `InFlight.ReuseInFlight.Get` | Sources/Cache+ReuseInFlight.swift:19-65 | follows `OnGet`; a registered request's outcome is returned without calling the wrapped cache; otherwise the wrapped get runs once and its outcome is shared |
| `InFlight.ReuseInFlight.Finish` | Sources/Cache+ReuseInFlight.swift:27-55 | follows `OnTerminal`; the wrapped cache is untouched |
| `InFlight.ReuseInFlight.Set` | Sources/Cache+ReuseInFlight.swift:67 | set is the wrapped cache's and leaves the registry alone |
| `InFlight.ReuseInFlight.Clear` | Sources/Cache+ReuseInFlight.swift:68 | clear is the wrapped cache's and leaves the registry alone |
| `InFlight.SharedThenFresh` | Sources/Cache+ReuseInFlight.swift:19-65 | two callers before the request ends observe the same outcome; after it ends a third one gets a new request's outcome |
| `DrosteRam.RamCache.constructor` | Sources/DrosteSwift/Caches/RamCache.swift:20-36 | a new store is empty |
| `DrosteRam.RamCache.Clear` | Sources/DrosteSwift/Caches/RamCache.swift:38-42 | the dictionary becomes empty |
| `DrosteRam.RamCache.GetData` | Sources/DrosteSwift/Caches/RamCache.swift:45-57 | yields the entry for the key when it has the requested type, else absence; the dictionary is not changed |
| `DrosteRam.RamCache.SetData` | Sources/DrosteSwift/Caches/RamCache.swift:59-67 | stores under the key, replacing any previous entry, and emits one unit |
| `DrosteRam.ReadYourWrites` | Sources/DrosteSwift/Caches/RamCache.swift:38-67 | a set value is read back, a second set overwrites it, another key stays absent, and after clear nothing is found |
| `DrosteRam.MismatchedTypeReadsAsAbsent` | Sources/DrosteSwift/Caches/RamCache.swift:47-52 | a stored value of another type than the one asked for reads as absence |
| `DiskStorage.TotalSizeRemove` | Sources/DrosteSwift/Caches/DiskCache.swift:145-149 | the directory's total size is independent of the order files are counted in |
| `DiskStorage.TotalSizeUpdate` | Sources/DrosteSwift/Caches/DiskCache.swift:89-100 | writing a file changes the total by its new length minus its previous one |
| `DiskStorage.TotalSizeDrop` | Sources/DrosteSwift/Caches/DiskCache.swift:164-171 | deleting a file lowers the total by its length |
| `DiskStorage.InsertByDate` | Sources/DrosteSwift/Caches/DiskCache.swift:191-211 | inserting into a list sorted by modification date keeps it sorted and adds exactly that file |
| `DiskStorage.SortByModification` | Sources/DrosteSwift/Caches/DiskCache.swift:191-211 | the listing sorted by ascending modification date, a permutation of it |
| `DiskStorage.EvictsOldestFirst` | Sources/DrosteSwift/Caches/DiskCache.swift:151-219 | every evicted file is at least as old as every kept file; afterwards the count is within capacity or the directory is empty; and the count was over capacity before each deletion |
| `DiskStorage.DiskCache.constructor` | Sources/DrosteSwift/Caches/DiskCache.swift:42-67 | the existing files, all dated before the given clock reading, are counted exactly; capacity control leaves the count within capacity; the clock starts at that reading |
| `DiskStorage.DiskCache.PathForKey` | Sources/DrosteSwift/Caches/DiskCache.swift:160-162 | the file for a key is the directory path, a separator, and the key's digest |
| `DiskStorage.DiskCache.SameFileIffSameDigest` | Sources/DrosteSwift/Caches/DiskCache.swift:160-162 | two keys share a file exactly when their digests coincide |
| `DiskStorage.DiskCache.ItemsInDirectory` | Sources/DrosteSwift/Caches/DiskCache.swift:173-183 | lists every file of the directory exactly once |
| `DiskStorage.DiskCache.RemoveFileAtPath` | Sources/DrosteSwift/Caches/DiskCache.swift:164-171 | deletes the file and lowers the count by exactly its length; no underflow |
| `DiskStorage.DiskCache.CalculateSize` | Sources/DrosteSwift/Caches/DiskCache.swift:145-149 | the count becomes exactly the sum of the files' lengths |
| `DiskStorage.DiskCache.ControlCapacity` | Sources/DrosteSwift/Caches/DiskCache.swift:151-158 | nothing happens within capacity; otherwise files go in ascending modification order, stopping at the first deletion that brings the count within capacity |
| `DiskStorage.DiskCache.EvictAlong` | Sources/DrosteSwift/Caches/DiskCache.swift:213-219 | the stop-flag loop deletes a prefix of the sorted listing, each deletion lowering the count by that file's length, and stops as soon as the count is within capacity |
| `DiskStorage.DiskCache.Set` | Sources/DrosteSwift/Caches/DiskCache.swift:86-110 | on success the file is dated now, the clock ticks, the count moves by exactly the new minus the previous length, and capacity control runs only if the file grew, deleting the file just written only when it deletes every file; an exact count stays exact; an archive failure is `diskSaveFailed` with nothing changed |
| `DiskStorage.DiskCache.GrowFile` | Sources/DrosteSwift/Caches/DiskCache.swift:91-97 | a write that grows the file is followed by capacity control over the grown directory, which keeps the file just written unless it empties the directory; an exact count stays exact |
| `DiskStorage.NewestEvictedLast` | Sources/DrosteSwift/Caches/DiskCache.swift:151-219 | a file strictly newer than every other is evicted only when every file is |
| `DiskStorage.DiskCache.WriteFile` | Sources/DrosteSwift/Caches/DiskCache.swift:89-100 | the key's file holds the new archive dated now, the clock ticks, and the count moves by exactly its new length minus its previous one, so an exact count stays exact |
| `DiskStorage.DiskCache.GetAsWritten` | Sources/DrosteSwift/Caches/DiskCache.swift:69-84 | as written: always absence, the key's file is deleted and the count is not lowered |
| `DiskStorage.DiskCache.Get` | Sources/DrosteSwift/Caches/DiskCache.swift:69-84 | corrected: a file holding the requested type is returned and re-dated now, ticking the clock; otherwise it is deleted with the count lowered and the clock unchanged, so an exact count stays exact |
| `DiskStorage.DiskCache.Clear` | Sources/DrosteSwift/Caches/DiskCache.swift:112-119 | every file is deleted and the recount gives 0 |
| `DiskStorage.DiskCache.SetCapacity` | Sources/DrosteSwift/Caches/DiskCache.swift:34-40 | assigning the capacity runs capacity control and leaves the clock unchanged; an exact count stays exact and ends within the new capacity |
| `DiskStorage.StoredValueNeverRead` | Sources/DrosteSwift/Caches/DiskCache.swift:224-228 | as written, a value just stored reads back as absence |
| `DiskStorage.StoredValueIsRead` | Sources/DrosteSwift/Caches/DiskCache.swift:69-75 | corrected: a value just stored is read back |
| `DiskStorage.SizeDriftAfterGet` | Sources/DrosteSwift/Caches/DiskCache.swift:76-80 | as written, after storing 10 bytes and reading them the count says 10 while the directory is empty |
| `DiskStorage.NoDriftAfterCorrectedGet` | Sources/DrosteSwift/Caches/DiskCache.swift:164-171 | corrected: after the same steps the count is 0 for an empty directory |
| `Network.ValidateMeaning` | Sources/DrosteSwift/Fetchers/NetworkFetcher.swift:33-40 | a response is valid exactly when its expected length is unknown (negative) or the data is at least that long |
| `Network.Classify` | Sources/DrosteSwift/Fetchers/NetworkFetcher.swift:45-64 | a value is delivered exactly for no error, an HTTP 2xx response and valid data; cancellation completes empty; no event exactly when there is no error and no HTTP response |
| `Network.ClassifyErrors` | Sources/DrosteSwift/Fetchers/NetworkFetcher.swift:46-63 | a non-cancellation error is passed on; a non-2xx status is `statusCodeNotOk` before any length check; short data is `invalidNetworkResponse`; a 2xx without data is `noDataRetrieved` |
| `Network.SilentOnlyWithoutHttpResponse` | Sources/DrosteSwift/Fetchers/NetworkFetcher.swift:53-64 | with no error and a non-HTTP response, or no response, the stream gets no event at all |

## Left out

- Rx scheduling is not modelled. This covers `subscribeOn`, the serial
  scheduler and the dispatch queues of both stores. Every operation runs
  synchronously and to completion.
- `share()`, subscription and disposal are not modelled as such. In
  `reuseInFlight` a shared request's end is an explicit call
  (`InFlight.ReuseInFlight.Finish`). The registry's check at line 22 and
  its insert at line 59 are not atomic. Two concurrent first callers could
  both issue a request. This race is not modelled.
- The lock wrappers are not modelled; the registry is a plain map field.
  This covers Sources/Helpers/ConcurrentDictionary.swift (whose
  `dictionary` getter reads itself) and both ProtectedResource.swift
  files.
- Object lifetimes (`weak self`, retain cycles) are not expressible in
  this model.
- A `get` yields one outcome here: a value, an absence or an error. A
  stream that completes without any element is not represented. The same
  goes for one that emits several elements, except where `forwardRequest`
  is modelled over emission sequences.
- `Forwarding.ForwardRequestFirstInComposition` does not fix the arrival
  order of B's answer and the first cache's value. In the source that
  order depends on timing; the model lists B's answer first.
- `Composition.SetWritesBoth` reports A's error when both writes fail. In
  the source, `zip` reports whichever error arrives first.
- Disk internals are not modelled: the file system, NSKeyedArchiver and
  NSKeyedUnarchiver, file attributes and MD5. The directory is a table.
  The digest and the archive length are functions given at construction.
  The modification date is a logical clock, ticked once by each write or
  touch. Failing attribute reads are not modelled, so every file has a
  date; neither are the comparator's fallbacks for a missing date.
  Failures of `removeItem` and of the modification-date write that
  re-dates a file on read are not modelled either: each deletion and
  each touch succeeds.
- `appendingPathComponent` is not modelled beyond inserting a separator.
  A directory path that ends in a separator is not normalised.
- `DiskStorage.DiskCache.Set` does not model the UInt64 bound of `size`:
  a UInt64 overflow or underflow traps in Swift, and `size` is an
  unbounded natural number here. `Valid()` shows that no subtraction in
  `Set` or in `RemoveFileAtPath` can underflow. An overflow above 2^64 - 1
  is not modelled.
- Keys of the disk store are their string form (`toString()` is the
  identity here).
- The network fetcher's I/O is not modelled: URLSession task creation,
  `resume` and `cancel`. Only the completion handler's decision is.
  Sources/Fetchers/NetworkFetcher.swift is not part of this model.
- Floating-point time is not modelled. `Date` and `TimeInterval` are
  integer seconds.
- The `Caches.swift` factories are not modelled. They use
  JSONSerialization and UIImage, and they call an `expires(at:)` API that
  is not among the shown sources.
- The skipWhile condition and each backend call deliver a single result.
  An observable condition that emits several booleans is not modelled.

## Findings

| source | as written | input that shows it | evidently intended | confidence | as-written member | corrected member |
|---|---|---|---|---|---|---|
| Sources/Cache+Expire.swift:19-37 | `get` never calls `isExpired`, and `set`'s dated record is unwrapped by `fInv` before it reaches the cache, so no expiry date is stored | store `v` with `.seconds(1)` at time t0, then `get` at t0 + 10: `v` is returned | an expired value reads as absence, as the expiry tests expect | high; not executed | `Expiration.ExpiredValueStillReturned` | `Expiration.ExpiresLazilyHonoursExpiry` |
| Sources/DrosteSwift/Caches/DiskCache.swift:224-228 | the unarchiving stub always returns nil, so every read misses and deletes the key's file | `set(v, k)` then `get(k)`: absence | the stored object is unarchived and returned (the real call is commented out beside the stub) | high; not executed | `DiskStorage.StoredValueNeverRead` | `DiskStorage.StoredValueIsRead` |
| Sources/DrosteSwift/Caches/DiskCache.swift:76-80 | a miss deletes the file with `removeItem` directly, so `size` keeps counting the deleted bytes until the next recount | store 10 bytes, then read them back: `size` is 10 while the directory is empty | the deletion goes through `removeFileAtPath`, which lowers `size` | medium; not executed | `DiskStorage.SizeDriftAfterGet` | `DiskStorage.NoDriftAfterCorrectedGet` |
