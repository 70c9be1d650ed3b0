/**
 The usage counters of request-body storage: what the four global counters say
 about the bodies that are open, with the background file cleanup interleaved.
 Each counter update, with its clamp, is one atomic step.
 */
module DiskCache {
  datatype Counters = Counters(activeDisk: int, diskBytes: int, activeMemory: int, memoryBytes: int)

  const ZERO := Counters(0, 0, 0, 0)

  function Clamp(n: int): int { if n < 0 then 0 else n }

  function DiskUp(c: Counters, size: int): Counters {
    c.(activeDisk := c.activeDisk + 1, diskBytes := c.diskBytes + size)
  }

  function DiskDown(c: Counters, size: int): Counters {
    c.(activeDisk := Clamp(c.activeDisk - 1), diskBytes := Clamp(c.diskBytes - size))
  }

  function MemoryUp(c: Counters, size: int): Counters {
    c.(activeMemory := c.activeMemory + 1, memoryBytes := c.memoryBytes + size)
  }

  function MemoryDown(c: Counters, size: int): Counters {
    c.(activeMemory := c.activeMemory - 1, memoryBytes := c.memoryBytes - size)
  }

  /** The global diskCacheStats. */
  class Stats {
    var activeDiskFiles: int
    var currentDiskUsageBytes: int
    var activeMemoryBuffers: int
    var currentMemoryUsageBytes: int

    function View(): Counters
      reads this
    {
      Counters(activeDiskFiles, currentDiskUsageBytes, activeMemoryBuffers, currentMemoryUsageBytes)
    }

    constructor ()
      ensures View() == ZERO
    {
      activeDiskFiles, currentDiskUsageBytes, activeMemoryBuffers, currentMemoryUsageBytes := 0, 0, 0, 0;
    }

    method IncrementDiskFiles(size: int)
      modifies this
      ensures View() == DiskUp(old(View()), size)
    {
      activeDiskFiles := activeDiskFiles + 1;
      currentDiskUsageBytes := currentDiskUsageBytes + size;
    }

    method DecrementDiskFiles(size: int)
      modifies this
      ensures View() == DiskDown(old(View()), size)
    {
      activeDiskFiles := activeDiskFiles - 1;
      if activeDiskFiles < 0 { activeDiskFiles := 0; }
      currentDiskUsageBytes := currentDiskUsageBytes - size;
      if currentDiskUsageBytes < 0 { currentDiskUsageBytes := 0; }
    }

    method IncrementMemoryBuffers(size: int)
      modifies this
      ensures View() == MemoryUp(old(View()), size)
    {
      activeMemoryBuffers := activeMemoryBuffers + 1;
      currentMemoryUsageBytes := currentMemoryUsageBytes + size;
    }

    method DecrementMemoryBuffers(size: int)
      modifies this
      ensures View() == MemoryDown(old(View()), size)
    {
      activeMemoryBuffers := activeMemoryBuffers - 1;
      currentMemoryUsageBytes := currentMemoryUsageBytes - size;
    }
  }

  // ---- where a body goes -------------------------------------------------------------

  datatype Config = Config(enabled: bool, thresholdMB: int, maxSizeMB: int)

  const MB := 0x10_0000

  predicate IsAvailable(config: Config, c: Counters, size: int) {
    config.enabled && c.diskBytes + size <= config.maxSizeMB * MB
  }

  /** How creating a storage for a stream ends.  The size is that of the stored body. */
  datatype Created = TooLarge | DiskFailed | Memory(size: nat) | Disk(size: nat)

  /** What an io.LimitReader of `limit` bytes lets through of a stream. */
  function Limited(length: nat, limit: int): nat {
    if limit <= 0 then 0 else if length < limit then length else limit
  }

  /** CreateBodyStorage. */
  function CreateFromBytes(config: Config, c: Counters, size: nat, diskOk: bool): Created {
    if config.enabled && size >= config.thresholdMB * MB && IsAvailable(config, c, size) && diskOk
    then Disk(size) else Memory(size)
  }

  /** CreateBodyStorageFromReader on a stream of `length` bytes. */
  function CreateFromReader(config: Config, c: Counters, length: nat, contentLength: int, maxBytes: int,
                            diskOk: bool): Created
  {
    var taken := Limited(length, maxBytes + 1);
    if config.enabled && contentLength > 0 && contentLength >= config.thresholdMB * MB
       && IsAvailable(config, c, contentLength)
    then
      if !diskOk then DiskFailed else if taken > maxBytes then TooLarge else Disk(taken)
    else if taken > maxBytes then TooLarge
    else CreateFromBytes(config, c, taken, diskOk)
  }

  /** With no disk error, creation succeeds exactly when the stream fits
      maxBytes, and then stores the whole stream. */
  lemma CreatedExactlyWhenFits(config: Config, c: Counters, length: nat, contentLength: int, maxBytes: int)
    ensures var r := CreateFromReader(config, c, length, contentLength, maxBytes, true);
      && (r.TooLarge? <==> length > maxBytes)
      && (!r.TooLarge? ==> (r.Memory? || r.Disk?) && r.size == length)
  {
  }

  // ---- runs --------------------------------------------------------------------------

  type Id = nat

  /** `memory` and `disk` hold the sizes of the open bodies; `files` the sizes of
      the files in the cache directory, those of open bodies under their own id. */
  datatype World = World(counters: Counters, memory: map<Id, nat>, disk: map<Id, nat>, files: map<Id, nat>)

  datatype Event =
    | Create(id: Id, length: nat, contentLength: int, maxBytes: int, diskOk: bool)
    | Close(id: Id)
    | Cleanup(aged: seq<Id>)    // the files found older than the maximum age, in directory order

  function Cleaned(w: World, aged: seq<Id>): World
    decreases |aged|
  {
    if aged == [] then w
    else
      var r := Cleaned(w, aged[..|aged| - 1]);
      var id := aged[|aged| - 1];
      if id in r.files then r.(files := r.files - {id}, counters := DiskDown(r.counters, r.files[id])) else r
  }

  /** A directory entry as os.ReadDir lists it; `readable` is whether Info succeeds. */
  datatype Entry = Entry(id: Id, isDir: bool, readable: bool, modTime: int)

  predicate IsAged(entry: Entry, maxAge: int, now: int) {
    !entry.isDir && entry.readable && now - entry.modTime > maxAge
  }

  function Aged(entries: seq<Entry>, maxAge: int, now: int): seq<Id> {
    if entries == [] then []
    else
      var last := entries[|entries| - 1];
      Aged(entries[..|entries| - 1], maxAge, now) + (if IsAged(last, maxAge, now) then [last.id] else [])
  }

  lemma CleanedStep(w: World, entries: seq<Entry>, i: nat, maxAge: int, now: int)
    requires i < |entries|
    ensures var r := Cleaned(w, Aged(entries[..i], maxAge, now));
      var id := entries[i].id;
      Cleaned(w, Aged(entries[..i + 1], maxAge, now)) ==
        if IsAged(entries[i], maxAge, now) && id in r.files
        then r.(files := r.files - {id}, counters := DiskDown(r.counters, r.files[id])) else r
  {
    assert entries[..i + 1][..i] == entries[..i];
    var aged := Aged(entries[..i], maxAge, now);
    assert (aged + [entries[i].id])[..|aged|] == aged;
    assert aged + [] == aged;
  }

  lemma NothingAged(w: World, entries: seq<Entry>, maxAge: int, now: int)
    ensures Cleaned(w, Aged(entries[..0], maxAge, now)) == w
  {
  }

  /** The cache directory. */
  class Directory {
    var files: map<Id, nat>
    const stats: Stats

    constructor (files: map<Id, nat>, stats: Stats)
      ensures this.files == files && this.stats == stats
    {
      this.files, this.stats := files, stats;
    }

    /** The loop of CleanupOldDiskCacheFiles: old files go, those of open bodies
        included, and each removal that succeeds is discounted by its file size;
        which bodies are open does not change. */
    method CleanupOldFiles(entries: seq<Entry>, maxAge: int, now: int,
                           ghost memory: map<Id, nat>, ghost disk: map<Id, nat>)
      modifies this, stats
      ensures World(stats.View(), memory, disk, files)
              == Cleaned(World(old(stats.View()), memory, disk, old(files)), Aged(entries, maxAge, now))
    {
      hide Cleaned, Aged;
      ghost var w := World(stats.View(), memory, disk, files);
      NothingAged(w, entries, maxAge, now);
      for i := 0 to |entries|
        invariant World(stats.View(), memory, disk, files) == Cleaned(w, Aged(entries[..i], maxAge, now))
      {
        var entry := entries[i];
        CleanedStep(w, entries, i, maxAge, now);
        if entry.isDir { continue; }
        if !entry.readable { continue; }
        if now - entry.modTime > maxAge {
          if entry.id in files {                     // os.Remove succeeds
            var size := files[entry.id];
            files := files - {entry.id};
            stats.DecrementDiskFiles(size);
          }
        }
      }
      assert entries[..|entries|] == entries;
    }
  }

  function Step(config: Config, w: World, e: Event): World {
    match e
    case Create(id, length, contentLength, maxBytes, diskOk) =>
      if id in w.memory || id in w.disk || id in w.files then w
      else (
        match CreateFromReader(config, w.counters, length, contentLength, maxBytes, diskOk)
        case Memory(size) => w.(memory := w.memory[id := size], counters := MemoryUp(w.counters, size))
        case Disk(size) => w.(disk := w.disk[id := size], files := w.files[id := size],
                              counters := DiskUp(w.counters, size))
        case _ => w)
    case Close(id) =>
      // closing again finds the closed flag set
      if id in w.memory then w.(memory := w.memory - {id}, counters := MemoryDown(w.counters, w.memory[id]))
      else if id in w.disk then w.(disk := w.disk - {id}, files := w.files - {id},
                                   counters := DiskDown(w.counters, w.disk[id]))
      else w
    case Cleanup(aged) => Cleaned(w, aged)
  }

  function Exec(config: Config, files: map<Id, nat>, events: seq<Event>): World
    decreases |events|
  {
    if events == [] then World(ZERO, map[], map[], files)
    else Step(config, Exec(config, files, events[..|events| - 1]), events[|events| - 1])
  }

  ghost function Sum(m: map<Id, nat>): nat
    decreases |m|
  {
    if m == map[] then 0
    else
      var k :| k in m;
      assert |m - {k}| < |m| by { assert (m - {k}).Keys == m.Keys - {k}; }
      m[k] + Sum(m - {k})
  }

  lemma {:induction false} SumRemove(m: map<Id, nat>, k: Id)
    requires k in m
    ensures Sum(m) == m[k] + Sum(m - {k})
    decreases |m|
  {
    var j :| j in m && Sum(m) == m[j] + Sum(m - {j});
    if j != k {
      assert (m - {j}).Keys == m.Keys - {j} && (m - {k}).Keys == m.Keys - {k};
      SumRemove(m - {j}, k);
      SumRemove(m - {k}, j);
      assert m - {j} - {k} == m - {k} - {j};
    }
  }

  lemma SumInsert(m: map<Id, nat>, k: Id, n: nat)
    requires k !in m
    ensures Sum(m[k := n]) == Sum(m) + n && |m[k := n]| == |m| + 1
  {
    hide Sum;
    var m' := m[k := n];
    assert m' - {k} == m && m'.Keys == m.Keys + {k};
    SumRemove(m', k);
  }

  lemma SumDelete(m: map<Id, nat>, k: Id)
    requires k in m
    ensures Sum(m - {k}) == Sum(m) - m[k] && |m - {k}| == |m| - 1
  {
    SumRemove(m, k);
    assert (m - {k}).Keys == m.Keys - {k};
  }

  /** Memory counters are exact; disk counters are natural and bounded by the
      open bodies, and exact until a cleanup has happened. */
  ghost predicate Inv(w: World, exact: bool) {
    && w.memory.Keys !! w.disk.Keys
    && w.counters.activeMemory == |w.memory| && w.counters.memoryBytes == Sum(w.memory)
    && 0 <= w.counters.activeDisk <= |w.disk| && 0 <= w.counters.diskBytes <= Sum(w.disk)
    && (exact ==> w.counters.activeDisk == |w.disk| && w.counters.diskBytes == Sum(w.disk))
  }

  lemma {:induction false} CleanedOnlyDecrements(w: World, aged: seq<Id>)
    requires 0 <= w.counters.activeDisk && 0 <= w.counters.diskBytes
    ensures var r := Cleaned(w, aged);
      && r.memory == w.memory && r.disk == w.disk
      && r.counters.activeMemory == w.counters.activeMemory && r.counters.memoryBytes == w.counters.memoryBytes
      && 0 <= r.counters.activeDisk <= w.counters.activeDisk && 0 <= r.counters.diskBytes <= w.counters.diskBytes
    decreases |aged|
  {
    if aged != [] { CleanedOnlyDecrements(w, aged[..|aged| - 1]); }
  }

  lemma CreateKeepsInv(w: World, w': World, id: Id, size: nat, exact: bool)
    requires Inv(w, exact) && id !in w.memory && id !in w.disk
    requires || w' == w.(memory := w.memory[id := size], counters := MemoryUp(w.counters, size))
             || w' == w.(disk := w.disk[id := size], files := w'.files, counters := DiskUp(w.counters, size))
    ensures Inv(w', exact)
  {
    hide Sum;
    SumInsert(w.memory, id, size);
    SumInsert(w.disk, id, size);
  }

  lemma CloseKeepsInv(config: Config, w: World, id: Id, exact: bool)
    requires Inv(w, exact)
    ensures Inv(Step(config, w, Close(id)), exact)
  {
    hide Sum;
    if id in w.memory {
      SumDelete(w.memory, id);
    } else if id in w.disk {
      SumDelete(w.disk, id);
    }
  }

  lemma StepKeepsInv(config: Config, w: World, e: Event, exact: bool)
    requires Inv(w, exact)
    ensures Inv(Step(config, w, e), exact && !e.Cleanup?)
  {
    hide Sum, CreateFromReader;
    match e
    case Create(id, length, contentLength, maxBytes, diskOk) =>
      var r := CreateFromReader(config, w.counters, length, contentLength, maxBytes, diskOk);
      if id !in w.memory && id !in w.disk && id !in w.files && (r.Memory? || r.Disk?) {
        CreateKeepsInv(w, Step(config, w, e), id, r.size, exact);
      }
    case Close(id) => CloseKeepsInv(config, w, id, exact);
    case Cleanup(aged) => CleanedOnlyDecrements(w, aged);
  }

  ghost predicate NoCleanup(events: seq<Event>) {
    forall i :: 0 <= i < |events| ==> !events[i].Cleanup?
  }

  /** Over every run: memory counters equal the number and byte sum of the open
      memory bodies however often Close is called; disk counters never go
      negative and never exceed the open disk bodies, and equal them in runs
      without cleanup. */
  lemma {:induction false} CountersFollowOpenBodies(config: Config, files: map<Id, nat>, events: seq<Event>)
    ensures Inv(Exec(config, files, events), NoCleanup(events))
    decreases |events|
  {
    if events != [] {
      var init, e := events[..|events| - 1], events[|events| - 1];
      CountersFollowOpenBodies(config, files, init);
      StepKeepsInv(config, Exec(config, files, init), e, NoCleanup(init));
    }
  }

  /** The declared length of every created body covers what is read. */
  ghost predicate Declared(events: seq<Event>) {
    forall i :: 0 <= i < |events| && events[i].Create? && events[i].contentLength > 0 ==>
      events[i].contentLength >= events[i].length
  }

  /** The configured maximum in bytes; a negative one admits nothing. */
  function Maximum(config: Config): nat {
    if config.maxSizeMB <= 0 then 0 else config.maxSizeMB * MB
  }

  /** With a fixed configuration and honest lengths the disk usage counter never
      exceeds the configured maximum. */
  lemma {:induction false} UsageStaysWithinMaximum(config: Config, files: map<Id, nat>, events: seq<Event>)
    requires Declared(events)
    ensures Exec(config, files, events).counters.diskBytes <= Maximum(config)
    decreases |events|
  {
    if events != [] {
      var init, e := events[..|events| - 1], events[|events| - 1];
      UsageStaysWithinMaximum(config, files, init);
      CountersFollowOpenBodies(config, files, init);
      if e.Cleanup? { CleanedOnlyDecrements(Exec(config, files, init), e.aged); }
    }
  }

  /** In runs without cleanup the open disk bodies themselves stay within the maximum. */
  lemma OpenBodiesStayWithinMaximum(config: Config, files: map<Id, nat>, events: seq<Event>)
    requires Declared(events) && NoCleanup(events)
    ensures Sum(Exec(config, files, events).disk) <= Maximum(config)
  {
    UsageStaysWithinMaximum(config, files, events);
    CountersFollowOpenBodies(config, files, events);
  }

  // ---- the maximum with cleanup at work -------------------------------------------------

  /** A body of non-zero size can go to disk. */
  predicate AdmitsBodies(config: Config) {
    config.enabled && config.maxSizeMB >= 1 && config.thresholdMB <= config.maxSizeMB
  }

  ghost predicate WithinAfter(config: Config, files: map<Id, nat>, events: seq<Event>) {
    Declared(events) ==> Sum(Exec(config, files, events).disk) <= Maximum(config)
  }

  /** The open disk bodies stay within the maximum in every run, cleanup included,
      if and only if the configuration lets no body of non-zero size go to disk. */
  lemma WithinMaximumExactly(config: Config)
    ensures (forall files, events :: WithinAfter(config, files, events)) <==> !AdmitsBodies(config)
  {
    if AdmitsBodies(config) {
      CleanupLetsUsageExceed(config);
      assert !WithinAfter(config, map[], ExceedingRun(Maximum(config)));
    } else {
      forall files, events ensures WithinAfter(config, files, events) {
        if Declared(events) {
          OnlyEmptyBodies(config, files, events);
          SumOfEmpty(Exec(config, files, events).disk);
        }
      }
    }
  }

  ghost predicate AllEmpty(m: map<Id, nat>) {
    forall id :: id in m ==> m[id] == 0
  }

  lemma {:induction false} OnlyEmptyBodies(config: Config, files: map<Id, nat>, events: seq<Event>)
    requires Declared(events) && !AdmitsBodies(config)
    ensures AllEmpty(Exec(config, files, events).disk)
    decreases |events|
  {
    hide Sum;
    if events != [] {
      var init, e := events[..|events| - 1], events[|events| - 1];
      OnlyEmptyBodies(config, files, init);
      CountersFollowOpenBodies(config, files, init);
      var w := Exec(config, files, init);
      if e.Cleanup? {
        CleanedOnlyDecrements(w, e.aged);
      } else if e.Create? {
        OnlyEmptyBodiesCreated(config, w.counters, e.length, e.contentLength, e.maxBytes, e.diskOk);
      }
    }
  }

  lemma OnlyEmptyBodiesCreated(config: Config, c: Counters, length: nat, contentLength: int, maxBytes: int, diskOk: bool)
    requires !AdmitsBodies(config) && c.diskBytes >= 0 && (contentLength > 0 ==> contentLength >= length)
    ensures var r := CreateFromReader(config, c, length, contentLength, maxBytes, diskOk); r.Disk? ==> r.size == 0
  {
  }

  lemma {:induction false} SumOfEmpty(m: map<Id, nat>)
    requires AllEmpty(m)
    ensures Sum(m) == 0
    decreases |m|
  {
    if m != map[] {
      var k :| k in m;
      SumDelete(m, k);
      SumOfEmpty(m - {k});
    }
  }

  lemma ExecAppend(config: Config, files: map<Id, nat>, events: seq<Event>, e: Event)
    ensures Exec(config, files, events + [e]) == Step(config, Exec(config, files, events), e)
  {
    assert (events + [e])[..|events + [e]| - 1] == events;
  }

  lemma CleanOne(w: World, id: Id)
    requires id in w.files
    ensures Cleaned(w, [id]) == w.(files := w.files - {id}, counters := DiskDown(w.counters, w.files[id]))
  {
    assert [id][..|[id]| - 1] == [];
  }

  function Largest(id: Id, size: nat): Event { Create(id, size, size, size, true) }

  /** A body of the maximum size, a cleanup that removes its file, and another. */
  function ExceedingRun(size: nat): seq<Event> {
    [Largest(0, size)] + [Cleanup([0])] + [Largest(1, size)]
  }

  /** The cleanup discounts the file of an open body, and a second body of full
      size is admitted beside it: twice the maximum is open. */
  lemma CleanupLetsUsageExceed(config: Config)
    requires AdmitsBodies(config)
    ensures var size := Maximum(config);
      && Declared(ExceedingRun(size)) && size > 0
      && Exec(config, map[], ExceedingRun(size)).disk == map[0 := size, 1 := size]
      && Sum(Exec(config, map[], ExceedingRun(size)).disk) == 2 * size
      && Exec(config, map[], ExceedingRun(size)).counters.diskBytes == size
  {
    hide Exec, Sum, Cleaned;
    var size := Maximum(config);
    var first, second := Largest(0, size), Largest(1, size);
    ExecAppend(config, map[], [first] + [Cleanup([0])], second);
    ExecAppend(config, map[], [first], Cleanup([0]));
    ExecAppend(config, map[], [], first);
    EmptyRun(config);
    assert [] + [first] == [first];
    assert CreateFromReader(config, ZERO, size, size, size, true) == Disk(size);
    var w1 := Exec(config, map[], [first]);
    assert w1 == World(Counters(1, size, 0, 0), map[], map[0 := size], map[0 := size]);
    CleanOne(w1, 0);
    var w2 := Exec(config, map[], [first] + [Cleanup([0])]);
    assert w2 == World(ZERO, map[], map[0 := size], map[]);
    SumInsert(map[], 0, size);
    SumInsert(map[0 := size], 1, size);
    SumOfEmpty(map[]);
  }

  lemma EmptyRun(config: Config)
    ensures Exec(config, map[], []) == World(ZERO, map[], map[], map[])
  {
  }

  // ---- where a body goes and what a cleanup removes, spelled out ----------------------------

  /** A stream that fits goes to disk exactly when caching is on and its declared
      length, if any, or else its actual length reaches the threshold and fits beside
      what is stored; it goes to memory otherwise.  A disk error fails the creation
      on the declared length and falls back to memory on the actual one. */
  lemma DiskExactly(config: Config, c: Counters, length: nat, contentLength: int, maxBytes: int, diskOk: bool)
    requires length <= maxBytes
    ensures var r := CreateFromReader(config, c, length, contentLength, maxBytes, diskOk);
      var fits := (n: int) => n >= config.thresholdMB * 1048576 && c.diskBytes + n <= config.maxSizeMB * 1048576;
      if config.enabled && contentLength > 0 && fits(contentLength) then r == if diskOk then Disk(length) else DiskFailed
      else if config.enabled && fits(length) && diskOk then r == Disk(length)
      else r == Memory(length)
  {
  }

  /** Closing a body takes it and its file away and nothing else; closing it again
      does nothing. */
  lemma CloseExactly(config: Config, w: World, id: Id)
    requires w.memory.Keys !! w.disk.Keys
    ensures var after := Step(config, w, Close(id));
      && after.memory == w.memory - {id} && after.disk == w.disk - {id}
      && after.files == (if id in w.disk then w.files - {id} else w.files)
      && Step(config, after, Close(id)) == after
  {
  }

  /** A cleanup removes exactly the files listed as older than the maximum age. */
  lemma {:induction false} CleanupRemovesExactly(w: World, entries: seq<Entry>, maxAge: int, now: int, id: Id)
    ensures var after := Cleaned(w, Aged(entries, maxAge, now));
      && (id in after.files <==> id in w.files && !exists i ::
            0 <= i < |entries| && entries[i].id == id && !entries[i].isDir && entries[i].readable
            && now - entries[i].modTime > maxAge)
      && (id in after.files ==> after.files[id] == w.files[id])
    decreases |entries|
  {
    if entries == [] {
      NothingAged(w, entries, maxAge, now);
    } else {
      var n := |entries| - 1;
      var init := entries[..n];
      CleanupRemovesExactly(w, init, maxAge, now, id);
      CleanedStep(w, entries, n, maxAge, now);
      assert entries[..n + 1] == entries;
      assert forall i :: 0 <= i < n ==> init[i] == entries[i];
    }
  }

  /** A cleanup of one file of a body that is counted takes one file and its bytes
      off the counters. */
  lemma CleanupDiscounts(w: World, id: Id)
    requires id in w.files && w.counters.activeDisk >= 1 && w.counters.diskBytes >= w.files[id]
    ensures var after := Cleaned(w, [id]).counters;
      && after.activeDisk == w.counters.activeDisk - 1 && after.diskBytes == w.counters.diskBytes - w.files[id]
      && after.activeMemory == w.counters.activeMemory && after.memoryBytes == w.counters.memoryBytes
  {
    CleanOne(w, id);
  }
}
