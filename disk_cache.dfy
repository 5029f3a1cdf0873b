/** The disk store (Sources/DrosteSwift/Caches/DiskCache.swift), reduced to
    what it decides: the file a key is stored in, the running `size` it keeps
    of the directory's contents, and eviction of the least recently touched
    files once `size` exceeds `capacity`.

    The directory is a table from file path to the file's length, its
    modification date on a logical clock, and the archived object it holds.
    Archiving and the key digest are functions given at construction. */
module DiskStorage {
  import opened Results

  type Path = string

  /** `100 * 1024 * 1024`, the capacity used when none is given. */
  const DefaultCapacity: nat := 100 * 1024 * 1024

  datatype FileEntry<A> = FileEntry(length: nat, modified: nat, payload: A)

  type Directory<A> = map<Path, FileEntry<A>>

  /** The sum of the lengths of all files in the directory. */
  ghost function TotalSize<A>(files: Directory<A>): nat
    decreases |files|
  {
    if files == map[] then 0
    else
      var p :| p in files;
      assert |files - {p}| < |files| by {
        assert (files - {p}).Keys < files.Keys;
      }
      files[p].length + TotalSize(files - {p})
  }

  /** `TotalSize` does not depend on which file is counted first. */
  lemma {:induction false} TotalSizeRemove<A>(files: Directory<A>, p: Path)
    requires p in files
    ensures TotalSize(files) == files[p].length + TotalSize(files - {p})
    decreases |files|
  {
    var q :| q in files && TotalSize(files) == files[q].length + TotalSize(files - {q});
    if q != p {
      assert (files - {q}).Keys < files.Keys;
      assert (files - {p}).Keys < files.Keys;
      TotalSizeRemove(files - {q}, p);
      TotalSizeRemove(files - {p}, q);
      assert files - {q} - {p} == files - {p} - {q};
    }
  }

  /** Writing an entry changes the total by the new length minus the old one. */
  lemma TotalSizeUpdate<A>(files: Directory<A>, p: Path, e: FileEntry<A>)
    ensures TotalSize(files[p := e]) + SizeOf(files, p) == TotalSize(files) + e.length
  {
    TotalSizeRemove(files[p := e], p);
    assert files[p := e] - {p} == files - {p};
    if p in files {
      TotalSizeRemove(files, p);
    } else {
      assert files - {p} == files;
    }
  }

  /** Deleting a file lowers the total by that file's length. */
  lemma TotalSizeDrop<A>(files: Directory<A>, p: Path)
    ensures TotalSize(files - {p}) + SizeOf(files, p) == TotalSize(files)
  {
    if p in files {
      TotalSizeRemove(files, p);
    } else {
      assert files - {p} == files;
    }
  }

  /** `sizeForFileAtPath`: a file's length, or 0 when there is no such file. */
  function SizeOf<A>(files: Directory<A>, p: Path): nat {
    if p in files then files[p].length else 0
  }

  /** The modification date used by the eviction order (0 for no file). */
  function ModDate<A>(files: Directory<A>, p: Path): nat {
    if p in files then files[p].modified else 0
  }

  function Elems(s: seq<Path>): set<Path> {
    set p | p in s
  }

  /** The lengths of the listed files, summed in listing order. */
  function SumSizes<A>(ps: seq<Path>, files: Directory<A>): nat {
    if ps == [] then 0 else SumSizes(ps[..|ps| - 1], files) + SizeOf(files, ps[|ps| - 1])
  }

  /** A listing of the directory: every file exactly once. */
  ghost predicate IsListing<A>(items: seq<Path>, files: Directory<A>) {
    && (forall p :: p in items <==> p in files)
    && (forall p :: multiset(items)[p] <= 1)
  }

  lemma NotListedBefore(s: seq<Path>, i: int)
    requires forall p :: multiset(s)[p] <= 1
    requires 0 <= i < |s|
    ensures s[i] !in s[..i]
  {
    assert s == s[..i] + s[i..];
    assert multiset(s) == multiset(s[..i]) + multiset(s[i..]);
    assert s[i..][0] == s[i];
    assert s[i] in multiset(s[i..]);
    assert multiset(s)[s[i]] <= 1;
    assert multiset(s[i..])[s[i]] >= 1;
    assert multiset(s[..i])[s[i]] == 0;
  }

  /** Sorting a listing yields a listing. */
  lemma SortedListing<A>(items: seq<Path>, files: Directory<A>)
    requires IsListing(items, files)
    ensures IsListing(SortByModification(items, files), files)
  {
    var order := SortByModification(items, files);
    assert forall p :: p in order <==> p in multiset(items);
  }

  /** One step of eviction along a listing: the next listed file is still
      in the directory, and deleting it extends the deleted prefix. */
  lemma EvictionStep<A>(f0: Directory<A>, order: seq<Path>, i: int, files: Directory<A>)
    requires IsListing(order, f0)
    requires 0 <= i < |order|
    requires files == f0 - Elems(order[..i])
    ensures order[i] in files && files[order[i]] == f0[order[i]]
    ensures files - {order[i]} == f0 - Elems(order[..i + 1])
    ensures SumSizes(order[..i + 1], f0) == SumSizes(order[..i], f0) + SizeOf(f0, order[i])
  {
    NotListedBefore(order, i);
    assert order[..i + 1] == order[..i] + [order[i]];
    assert Elems(order[..i + 1]) == Elems(order[..i]) + {order[i]};
    assert order[..i + 1][..i] == order[..i];
  }

  /** Deleting every listed file empties the directory. */
  lemma ListingExhausted<A>(files: Directory<A>, order: seq<Path>)
    requires IsListing(order, files)
    ensures files - Elems(order) == map[]
  {
    assert Elems(order) == files.Keys;
  }

  predicate SortedByDate<A>(s: seq<Path>, files: Directory<A>) {
    forall i, j :: 0 <= i < j < |s| ==> ModDate(files, s[i]) <= ModDate(files, s[j])
  }

  function InsertByDate<A>(p: Path, s: seq<Path>, files: Directory<A>): (r: seq<Path>)
    requires SortedByDate(s, files)
    ensures SortedByDate(r, files)
    ensures multiset(r) == multiset(s) + multiset{p}
    ensures r[0] == p || (s != [] && r[0] == s[0])
  {
    if s == [] then [p]
    else if ModDate(files, p) <= ModDate(files, s[0]) then
      ConsSorted(p, s, files);
      [p] + s
    else
      var rest := InsertByDate(p, s[1..], files);
      assert s == [s[0]] + s[1..];
      ConsSorted(s[0], rest, files);
      [s[0]] + rest
  }

  /** A file no newer than the head of a sorted listing may go before it. */
  lemma ConsSorted<A>(p: Path, s: seq<Path>, files: Directory<A>)
    requires SortedByDate(s, files)
    requires s != [] ==> ModDate(files, p) <= ModDate(files, s[0])
    ensures SortedByDate([p] + s, files)
  {
    var r := [p] + s;
    forall i, j | 0 <= i < j < |r| ensures ModDate(files, r[i]) <= ModDate(files, r[j]) {
      if i > 0 {
        assert r[i] == s[i - 1] && r[j] == s[j - 1];
      } else {
        assert r[j] == s[j - 1];
      }
    }
  }

  /** The `sorted(by:)` of the eviction enumeration: ascending modification
      date, files with equal dates in no particular order. */
  function SortByModification<A>(items: seq<Path>, files: Directory<A>): (r: seq<Path>)
    ensures SortedByDate(r, files)
    ensures multiset(r) == multiset(items)
  {
    if items == [] then []
    else
      assert items == [items[0]] + items[1..];
      InsertByDate(items[0], SortByModification(items[1..], files), files)
  }

  /** What `controlCapacity` does to a directory `f0` holding `s0` bytes by
      its own count, given the sorted listing `order`: nothing when within
      capacity; otherwise it deletes the first `n` listed files, each one
      lowering the count by its length, and stops after the first deletion
      that brings the count within capacity (before its last deletion the
      count was still over), or when the listing ends. */
  ghost predicate EvictionOutcome<A>(f0: Directory<A>, s0: nat, capacity: nat, order: seq<Path>, n: nat, f: Directory<A>, s: nat) {
    if s0 <= capacity then n == 0 && f == f0 && s == s0
    else
      && n <= |order|
      && f == f0 - Elems(order[..n])
      && s + SumSizes(order[..n], f0) == s0
      && (n == |order| || s <= capacity)
      && (n > 0 ==> SumSizes(order[..n - 1], f0) + capacity < s0)
  }

  /** The listed lengths of a prefix never exceed those of the whole. */
  lemma {:induction false} SumSizesOfPrefix<A>(ps: seq<Path>, m: nat, files: Directory<A>)
    requires m <= |ps|
    ensures SumSizes(ps[..m], files) <= SumSizes(ps, files)
    decreases |ps|
  {
    if m < |ps| {
      var front := ps[..|ps| - 1];
      assert ps[..m] == front[..m];
      SumSizesOfPrefix(front, m, files);
    } else {
      assert ps[..m] == ps;
    }
  }

  ghost predicate Evicted<A>(f0: Directory<A>, s0: nat, capacity: nat, f: Directory<A>, s: nat) {
    exists order, n :: EvictionOutcome(f0, s0, capacity, order, n, f, s)
                       && (s0 > capacity ==> IsListing(order, f0) && SortedByDate(order, f0))
  }

  /** Eviction removes the least recently modified files first: every file
      it deleted is at least as old as every file it kept; either the count
      is back within capacity or the directory is empty; and no deletion was
      spare, since the count was over capacity before each one. */
  lemma {:induction false} EvictsOldestFirst<A>(f0: Directory<A>, s0: nat, capacity: nat, order: seq<Path>, n: nat, f: Directory<A>, s: nat)
    requires s0 > capacity
    requires IsListing(order, f0) && SortedByDate(order, f0)
    requires EvictionOutcome(f0, s0, capacity, order, n, f, s)
    ensures forall p, q :: p in f0 && p !in f && q in f ==> f0[p].modified <= f0[q].modified
    ensures s <= capacity || f == map[]
    ensures forall m :: 0 <= m < n ==> SumSizes(order[..m], f0) + capacity < s0
  {
    forall m | 0 <= m < n ensures SumSizes(order[..m], f0) + capacity < s0 {
      assert order[..m] == order[..n - 1][..m];
      SumSizesOfPrefix(order[..n - 1], m, f0);
    }
    forall p, q | p in f0 && p !in f && q in f
      ensures f0[p].modified <= f0[q].modified
    {
      assert p in order[..n];
      var i :| 0 <= i < n && order[i] == p;
      assert q in order && q !in order[..n];
      var j :| 0 <= j < |order| && order[j] == q;
      assert forall t :: 0 <= t < n ==> order[..n][t] == order[t];
      assert j >= n;
      assert ModDate(f0, order[i]) <= ModDate(f0, order[j]);
    }
    if s > capacity {
      assert n == |order|;
      assert order[..n] == order;
      assert Elems(order) == f0.Keys;
      assert f.Keys == {};
    }
  }

  /** Eviction reaches the newest file last: when one file is strictly newer
      than every other, it is deleted only if every file is. */
  lemma NewestEvictedLast<A>(f0: Directory<A>, s0: nat, capacity: nat, f: Directory<A>, s: nat, p: Path)
    requires Evicted(f0, s0, capacity, f, s)
    requires p in f0
    requires forall q :: q in f0 && q != p ==> f0[q].modified < f0[p].modified
    ensures p !in f ==> f == map[]
  {
    var order, n :| EvictionOutcome(f0, s0, capacity, order, n, f, s)
                    && (s0 > capacity ==> IsListing(order, f0) && SortedByDate(order, f0));
    if s0 > capacity && p !in f {
      EvictsOldestFirst(f0, s0, capacity, order, n, f, s);
      assert forall q :: q in f ==> q in f0 && q != p;
      assert f.Keys == {};
    }
  }

  class DiskCache<A> {
    const directory: Path
    /** The key digest, `MD5String` of the key's string form. */
    const digest: string -> string
    /** The length of an object's archive, or no archive when archiving fails. */
    const archivedLength: A -> Option<nat>
    var files: Directory<A>
    var size: nat
    var capacity: nat
    /** The logical clock that dates file modifications. */
    var clock: nat

    /** Every file was dated before the clock's current reading: the clock
        only moves forward, so a file written or read now is the newest. */
    ghost predicate DatedBeforeNow()
      reads this
    {
      forall p :: p in files ==> files[p].modified < clock
    }

    /** The running count never undercounts the directory, so no decrement
        of it can go below zero; and no file is dated in the future. */
    ghost predicate Valid()
      reads this
    {
      size >= TotalSize(files) && DatedBeforeNow()
    }

    /** The running count is exact. */
    ghost predicate Consistent()
      reads this
    {
      size == TotalSize(files)
    }

    /** `init`: the directory may already hold files, all dated before
        `clock`, the reading at construction; their sizes are counted and
        capacity control runs. */
    constructor (directory: Path, capacity: nat, digest: string -> string, archivedLength: A -> Option<nat>, existing: Directory<A>, clock: nat)
      requires forall p :: p in existing ==> existing[p].modified < clock
      ensures Valid() && Consistent()
      ensures this.clock == clock
      ensures size <= this.capacity
      ensures this.directory == directory && this.capacity == capacity && this.digest == digest && this.archivedLength == archivedLength
      ensures Evicted(existing, TotalSize(existing), capacity, files, size)
    {
      this.directory := directory;
      this.digest := digest;
      this.archivedLength := archivedLength;
      this.capacity := capacity;
      this.clock := clock;
      this.files := existing;
      this.size := 0;
      new;
      CalculateSize();
      var order, n := ControlCapacity();
    }

    /** `pathForKey`: the directory path joined with the digest of the key. */
    function PathForKey(key: string): (p: Path)
      ensures |p| == |directory| + 1 + |digest(key)|
      ensures p[..|directory|] == directory && p[|directory|] == '/'
      ensures p[|directory| + 1..] == digest(key)
    {
      directory + "/" + digest(key)
    }

    /** Two keys share a file exactly when their digests coincide. */
    lemma SameFileIffSameDigest(k1: string, k2: string)
      ensures PathForKey(k1) == PathForKey(k2) <==> digest(k1) == digest(k2)
    {
      if PathForKey(k1) == PathForKey(k2) {
        assert PathForKey(k1)[|directory| + 1..] == PathForKey(k2)[|directory| + 1..];
      }
    }

    /** `itemsInDirectory`: the paths of all files, in the order the file
        system lists them (unspecified). */
    method ItemsInDirectory() returns (items: seq<Path>)
      ensures IsListing(items, files)
    {
      items := [];
      var rest := files.Keys;
      while rest != {}
        invariant rest <= files.Keys
        invariant forall p :: p in items <==> p in files && p !in rest
        invariant forall p :: multiset(items)[p] <= 1
        decreases |rest|
      {
        var p :| p in rest;
        items := items + [p];
        rest := rest - {p};
      }
    }

    /** `removeFileAtPath`: deletes the file, if any, and lowers the count
        by its length. */
    method RemoveFileAtPath(p: Path)
      requires Valid()
      modifies this
      ensures Valid()
      ensures old(Consistent()) ==> Consistent()
      ensures files == old(files) - {p}
      ensures size == old(size) - SizeOf(old(files), p)
      ensures capacity == old(capacity) && clock == old(clock)
    {
      TotalSizeDrop(files, p);
      if p in files {
        size := size - files[p].length;
        files := files - {p};
      } else {
        assert files - {p} == files;
      }
    }

    /** `calculateSize`: the count becomes the sum of the listed files'
        lengths. */
    method CalculateSize()
      requires DatedBeforeNow()
      modifies this
      ensures Valid() && Consistent()
      ensures files == old(files) && capacity == old(capacity) && clock == old(clock)
    {
      var items := ItemsInDirectory();
      var total := 0;
      var i := 0;
      assert files - Elems(items[..0]) == files;
      while i < |items|
        invariant 0 <= i <= |items|
        invariant files == old(files) && capacity == old(capacity) && clock == old(clock)
        invariant total + TotalSize(files - Elems(items[..i])) == TotalSize(files)
      {
        var p := items[i];
        var rest := files - Elems(items[..i]);
        EvictionStep(files, items, i, rest);
        TotalSizeRemove(rest, p);
        total := total + SizeOf(files, p);
        i := i + 1;
      }
      assert items[..i] == items;
      assert Elems(items) == files.Keys;
      assert (files - Elems(items)).Keys == {};
      size := total;
    }

    /** `controlCapacity`: when the count exceeds capacity, deletes files in
        ascending modification order until it no longer does. Yields the
        order used and how many files were deleted. */
    method ControlCapacity() returns (order: seq<Path>, evicted: nat)
      requires Valid()
      modifies this
      ensures Valid()
      ensures old(Consistent()) ==> Consistent() && size <= capacity
      ensures capacity == old(capacity) && clock == old(clock)
      ensures EvictionOutcome(old(files), old(size), capacity, order, evicted, files, size)
      ensures old(size) > capacity ==> IsListing(order, old(files)) && SortedByDate(order, old(files))
    {
      order := [];
      evicted := 0;
      if size > capacity {
        var items := ItemsInDirectory();
        order := SortByModification(items, files);
        SortedListing(items, files);
        evicted := EvictAlong(order);
      }
    }

    /** The loop of `controlCapacity` over the sorted listing: delete the next
        file, then stop once the count is within capacity. */
    method EvictAlong(order: seq<Path>) returns (evicted: nat)
      requires Valid()
      requires size > capacity
      requires IsListing(order, files)
      modifies this
      ensures Valid()
      ensures old(Consistent()) ==> Consistent() && size <= capacity
      ensures capacity == old(capacity) && clock == old(clock)
      ensures EvictionOutcome(old(files), old(size), capacity, order, evicted, files, size)
    {
      ghost var f0 := files;
      ghost var s0 := size;
      ghost var consistent := Consistent();
      var stop := false;
      var i := 0;
      while i < |order| && !stop
        invariant 0 <= i <= |order|
        invariant Valid()
        invariant consistent ==> Consistent()
        invariant capacity == old(capacity) && clock == old(clock)
        invariant files == f0 - Elems(order[..i])
        invariant size + SumSizes(order[..i], f0) == s0
        invariant stop ==> size <= capacity
        invariant !stop ==> size > capacity
        invariant i > 0 ==> SumSizes(order[..i - 1], f0) + capacity < s0
      {
        assert SumSizes(order[..i], f0) + capacity < s0;
        EvictionStep(f0, order, i, files);
        RemoveFileAtPath(order[i]);
        i := i + 1;
        stop := size <= capacity;
      }
      if !stop {
        ListingExhausted(f0, order);
        assert order[..i] == order;
      }
      evicted := i;
      assert EvictionOutcome(f0, s0, capacity, order, evicted, files, size);
    }

    /** `_setData`: archives the value into the key's file. On success the
        file is dated now, the count moves by exactly the new length minus
        the previous one, and capacity control runs only when the file grew;
        on failure the result is `diskSaveFailed` and nothing changes. */
    method Set(a: A, key: string) returns (r: Result<()>)
      requires Valid()
      modifies this
      ensures Valid()
      ensures capacity == old(capacity)
      ensures archivedLength(a).None? ==>
                r == Fail(DiskSaveFailed) && files == old(files) && size == old(size) && clock == old(clock)
      ensures archivedLength(a).Some? ==> r == Ok(()) && clock == old(clock) + 1
      ensures archivedLength(a).Some? && PathForKey(key) !in files ==> files == map[]
      ensures old(Consistent()) ==> Consistent()
      ensures var p := PathForKey(key);
              var previous := SizeOf(old(files), p);
              archivedLength(a).Some? && archivedLength(a).value <= previous ==>
                && files == old(files)[p := FileEntry(archivedLength(a).value, old(clock), a)]
                && size + (previous - archivedLength(a).value) == old(size)
      ensures var p := PathForKey(key);
              var previous := SizeOf(old(files), p);
              archivedLength(a).Some? && archivedLength(a).value > previous ==>
                Evicted(old(files)[p := FileEntry(archivedLength(a).value, old(clock), a)],
                        old(size) + (archivedLength(a).value - previous), capacity, files, size)
    {
      var p := PathForKey(key);
      var previous := SizeOf(files, p);
      match archivedLength(a)
      case None =>
        r := Fail(DiskSaveFailed);
      case Some(n) =>
        if n > previous {
          GrowFile(p, n, a);
        } else {
          WriteFile(p, n, a);
        }
        r := Ok(());
    }

    /** A write that makes the file at `p` longer: the write, then capacity
        control over the grown directory, in which the file just written is
        the newest and so is deleted only after every other file. */
    method GrowFile(p: Path, length: nat, payload: A)
      requires Valid()
      requires length > SizeOf(files, p)
      modifies this
      ensures Valid()
      ensures capacity == old(capacity) && clock == old(clock) + 1
      ensures Evicted(old(files)[p := FileEntry(length, old(clock), payload)],
                      old(size) + (length - SizeOf(old(files), p)), capacity, files, size)
      ensures p !in files ==> files == map[]
      ensures old(Consistent()) ==> Consistent() && size <= capacity
    {
      WriteFile(p, length, payload);
      ghost var grown, grownSize := files, size;
      assert forall q :: q in grown && q != p ==> grown[q].modified < grown[p].modified;
      var order, evicted := ControlCapacity();
      assert EvictionOutcome(grown, grownSize, capacity, order, evicted, files, size);
      NewestEvictedLast(grown, grownSize, capacity, files, size, p);
    }

    /** The archive write of `_setData`: the file at `p` now holds `payload`
        in `length` bytes and is dated now, the clock ticks, and the count
        moves by the new length minus the previous one. */
    method WriteFile(p: Path, length: nat, payload: A)
      requires Valid()
      modifies this
      ensures Valid()
      ensures files == old(files)[p := FileEntry(length, old(clock), payload)]
      ensures size + SizeOf(old(files), p) == old(size) + length
      ensures capacity == old(capacity) && clock == old(clock) + 1
      ensures old(Consistent()) ==> Consistent()
    {
      var entry := FileEntry(length, clock, payload);
      var previous := SizeOf(files, p);
      TotalSizeUpdate(files, p, entry);
      files := files[p := entry];
      clock := clock + 1;
      if entry.length > previous {
        size := size + (entry.length - previous);
      } else {
        size := size - (previous - entry.length);
      }
    }

    /** `_getData` as written: the unarchiving stub yields nothing, so the
        read misses and the key's file is deleted directly, without lowering
        the count. */
    method GetAsWritten<T>(key: string, cast: A -> Option<T>) returns (r: Option<T>)
      requires Valid()
      modifies this
      ensures Valid()
      ensures r == None
      ensures files == old(files) - {PathForKey(key)}
      ensures size == old(size) && capacity == old(capacity) && clock == old(clock)
    {
      var p := PathForKey(key);
      TotalSizeDrop(files, p);
      r := None;
      files := files - {p};
    }

    /** `_getData` with a working unarchiver: a file holding an object of
        the expected type is returned and re-dated now; otherwise the read
        misses and the file is deleted through `removeFileAtPath`, so the
        count stays exact. */
    method Get<T>(key: string, cast: A -> Option<T>) returns (r: Option<T>)
      requires Valid()
      modifies this
      ensures Valid()
      ensures old(Consistent()) ==> Consistent()
      ensures capacity == old(capacity)
      ensures r.Some? ==> clock == old(clock) + 1
      ensures r.None? ==> clock == old(clock)
      ensures var p := PathForKey(key);
              r.Some? <==> p in old(files) && cast(old(files)[p].payload).Some?
      ensures var p := PathForKey(key);
              r.Some? ==> && r == cast(old(files)[p].payload)
                          && files == old(files)[p := old(files)[p].(modified := old(clock))]
                          && size == old(size)
      ensures var p := PathForKey(key);
              r.None? ==> files == old(files) - {p} && size == old(size) - SizeOf(old(files), p)
    {
      var p := PathForKey(key);
      if p in files && cast(files[p].payload).Some? {
        r := cast(files[p].payload);
        var touched := files[p].(modified := clock);
        TotalSizeUpdate(files, p, touched);
        files := files[p := touched];
        clock := clock + 1;
      } else {
        r := None;
        RemoveFileAtPath(p);
      }
    }

    /** `clear`: deletes every listed file, then recounts. */
    method Clear()
      requires Valid()
      modifies this
      ensures Valid() && Consistent()
      ensures files == map[] && size == 0
      ensures capacity == old(capacity) && clock == old(clock)
    {
      var items := ItemsInDirectory();
      ghost var f0 := files;
      var i := 0;
      while i < |items|
        invariant 0 <= i <= |items|
        invariant files == f0 - Elems(items[..i])
        invariant capacity == old(capacity) && clock == old(clock)
      {
        assert items[..i + 1] == items[..i] + [items[i]];
        assert Elems(items[..i + 1]) == Elems(items[..i]) + {items[i]};
        files := files - {items[i]};
        i := i + 1;
      }
      assert items[..i] == items;
      assert files == map[];
      CalculateSize();
    }

    /** Assigning `capacity` runs capacity control. */
    method SetCapacity(c: nat)
      requires Valid()
      modifies this
      ensures Valid()
      ensures capacity == c && clock == old(clock)
      ensures old(Consistent()) ==> Consistent() && size <= capacity
      ensures Evicted(old(files), old(size), c, files, size)
    {
      capacity := c;
      var order, evicted := ControlCapacity();
    }
  }

  /** With the shown unarchiving stub a value just stored is never read
      back, however well it was archived. */
  method StoredValueNeverRead<A, T>(key: string, a: A, cast: A -> Option<T>) returns (r: Option<T>)
    requires cast(a).Some?
    ensures r == None
  {
    var cache := new DiskCache<A>("/cache", DefaultCapacity, (s: string) => s, (x: A) => Some(10), map[], 0);
    var _ := cache.Set(a, key);
    r := cache.GetAsWritten(key, cast);
  }

  /** With a working unarchiver the value just stored is read back. */
  method StoredValueIsRead<A, T>(key: string, a: A, cast: A -> Option<T>) returns (r: Option<T>)
    ensures r == cast(a)
  {
    var cache := new DiskCache<A>("/cache", DefaultCapacity, (s: string) => s, (x: A) => Some(10), map[], 0);
    var _ := cache.Set(a, key);
    r := cache.Get(key, cast);
  }

  /** As written, a read of a stored ten-byte value deletes its file but
      keeps counting its ten bytes: the count no longer matches the empty
      directory. */
  method SizeDriftAfterGet<A, T>(key: string, a: A, cast: A -> Option<T>) returns (counted: nat, remaining: Directory<A>)
    ensures counted == 10 && remaining == map[]
  {
    var cache := new DiskCache<A>("/cache", DefaultCapacity, (s: string) => s, (x: A) => Some(10), map[], 0);
    var _ := cache.Set(a, key);
    var _ := cache.GetAsWritten(key, cast);
    counted := cache.size;
    remaining := cache.files;
  }

  /** With the corrected read the count stays exact after the same steps. */
  method NoDriftAfterCorrectedGet<A, T>(key: string, a: A, cast: A -> Option<T>) returns (counted: nat, remaining: Directory<A>)
    requires cast(a).None?
    ensures counted == 0 && remaining == map[]
  {
    var cache := new DiskCache<A>("/cache", DefaultCapacity, (s: string) => s, (x: A) => Some(10), map[], 0);
    var _ := cache.Set(a, key);
    var _ := cache.Get(key, cast);
    counted := cache.size;
    remaining := cache.files;
  }
}
