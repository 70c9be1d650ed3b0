/**
 Request bodies kept in memory or on disk behind one interface.  Both storages
 are proved against one abstract body, so a sequence of calls can tell them apart
 only by a read into an empty buffer at the end of the data.  I/O errors are not
 modelled; an open file keeps its content even when its directory entry is removed.
 */
module BodyStorage {
  import opened Common
  import opened DiskCache

  /** An open or closed body with its read position. */
  datatype Body = Body(data: seq<Byte>, pos: nat, closed: bool)

  datatype Op = Read(n: nat) | Seek(offset: int, whence: int) | GetBytes | CloseBody

  datatype Result = Data(bytes: seq<Byte>) | EndOfFile | Position(at: int) | BadSeek | StorageClosed | Success

  const SEEK_START := 0
  const SEEK_CURRENT := 1
  const SEEK_END := 2

  const SEEK_DATA := 3
  const SEEK_HOLE := 4

  /** The position sought; negative when the origin is unknown. */
  function Target(pos: nat, size: nat, offset: int, whence: int): int {
    if whence == SEEK_START then offset
    else if whence == SEEK_CURRENT then pos + offset
    else if whence == SEEK_END then size + offset
    else -1
  }

  function Chunk(data: seq<Byte>, pos: nat, n: nat): seq<Byte> {
    if pos >= |data| then [] else if pos + n <= |data| then data[pos..pos + n] else data[pos..]
  }

  /** What a call answers.  A file reads nothing into an empty buffer without
      looking for the end of the data; a bytes.Reader looks first. */
  function Answer(b: Body, op: Op, onDisk: bool): Result {
    if op.CloseBody? then Success
    else if b.closed then StorageClosed
    else
      match op
      case Read(n) =>
        if onDisk && n == 0 then Data([])
        else if b.pos >= |b.data| then EndOfFile else Data(Chunk(b.data, b.pos, n))
      case Seek(offset, whence) =>
        var at := Target(b.pos, |b.data|, offset, whence);
        if at < 0 then BadSeek else Position(at)
      case GetBytes => Data(b.data)
      case CloseBody => Success
  }

  /** The body after the call. */
  function After(b: Body, op: Op): Body {
    if op.CloseBody? then b.(closed := true)
    else if b.closed then b
    else
      match op
      case Read(n) => b.(pos := b.pos + |Chunk(b.data, b.pos, n)|)
      case Seek(offset, whence) =>
        var at := Target(b.pos, |b.data|, offset, whence);
        if at < 0 then b else b.(pos := at)
      case GetBytes => b
      case CloseBody => b
  }

  /** Not a seek for data or holes, which depends on the file system. */
  predicate Portable(op: Op) {
    op.Seek? ==> op.whence != SEEK_DATA && op.whence != SEEK_HOLE
  }

  // ---- the two readers underneath ------------------------------------------------------

  /** bytes.Reader. */
  class BytesReader {
    const s: seq<Byte>
    var i: nat

    constructor (s: seq<Byte>)
      ensures this.s == s && i == 0
    {
      this.s := s;
      i := 0;
    }

    method Read(n: nat) returns (r: Result)
      modifies this
      ensures i == old(i) + |Chunk(s, old(i), n)|
      ensures r == if old(i) >= |s| then EndOfFile else Data(Chunk(s, old(i), n))
    {
      if i >= |s| { return EndOfFile; }
      var count := if n < |s| - i then n else |s| - i;
      r := Data(s[i..i + count]);
      i := i + count;
    }

    method Seek(offset: int, whence: int) returns (r: Result)
      modifies this
      ensures var at := Target(old(i), |s|, offset, whence);
        if at < 0 then r == BadSeek && i == old(i) else r == Position(at) && i == at
    {
      var abs;
      if whence == SEEK_START { abs := offset; }
      else if whence == SEEK_CURRENT { abs := i + offset; }
      else if whence == SEEK_END { abs := |s| + offset; }
      else { return BadSeek; }
      if abs < 0 { return BadSeek; }
      i := abs;
      return Position(abs);
    }
  }

  /** An open regular file: reads advance the offset, seeks set it. */
  class File {
    const content: seq<Byte>
    var offset: nat

    constructor (content: seq<Byte>)
      ensures this.content == content && offset == 0
    {
      this.content := content;
      offset := 0;
    }

    method Read(n: nat) returns (r: Result)
      modifies this
      ensures offset == old(offset) + |Chunk(content, old(offset), n)|
      ensures r == if n == 0 then Data([])
                   else if old(offset) >= |content| then EndOfFile else Data(Chunk(content, old(offset), n))
    {
      if n == 0 { return Data([]); }
      if offset >= |content| { return EndOfFile; }
      var end := if offset + n < |content| then offset + n else |content|;
      r := Data(content[offset..end]);
      offset := end;
    }

    method Seek(off: int, whence: int) returns (r: Result)
      requires Portable(Op.Seek(off, whence))
      modifies this
      ensures var at := Target(old(offset), |content|, off, whence);
        if at < 0 then r == BadSeek && offset == old(offset) else r == Position(at) && offset == at
    {
      var at := Target(offset, |content|, off, whence);
      if at < 0 { return BadSeek; }
      offset := at;
      return Position(at);
    }

    /** io.ReadFull on this file. */
    method ReadFull(size: nat) returns (data: seq<Byte>)
      modifies this
      ensures data == Chunk(content, old(offset), size)
    {
      data := [];
      while |data| < size
        invariant data == Chunk(content, old(offset), |data|)
        invariant |data| <= size && offset == old(offset) + |data|
        decreases size - |data|
      {
        var r := Read(size - |data|);
        if r.EndOfFile? { break; }
        data := data + r.bytes;
      }
    }
  }

  // ---- the two storages ------------------------------------------------------------------

  class MemoryStorage {
    const data: seq<Byte>
    const reader: BytesReader
    const size: int
    const stats: Stats
    var closed: bool

    ghost predicate Valid() {
      reader.s == data && size == |data|
    }

    ghost function View(): Body
      reads this, reader
    {
      Body(data, reader.i, closed)
    }

    /** newMemoryStorage. */
    constructor (data: seq<Byte>, stats: Stats)
      modifies stats
      ensures Valid() && fresh(reader) && this.stats == stats && View() == Body(data, 0, false)
      ensures stats.View() == MemoryUp(old(stats.View()), |data|)
    {
      stats.IncrementMemoryBuffers(|data|);
      this.data := data;
      this.reader := new BytesReader(data);
      this.size := |data|;
      this.stats := stats;
      this.closed := false;
    }

    method Perform(op: Op) returns (r: Result)
      requires Valid()
      modifies this, reader, stats
      ensures Valid() && r == Answer(old(View()), op, false) && View() == After(old(View()), op)
      ensures stats.View() == if op.CloseBody? && !old(closed) then MemoryDown(old(stats.View()), |data|)
                              else old(stats.View())
    {
      match op
      case Read(n) =>
        if closed { return StorageClosed; }
        r := reader.Read(n);
      case Seek(offset, whence) =>
        if closed { return StorageClosed; }
        r := reader.Seek(offset, whence);
      case GetBytes =>
        if closed { return StorageClosed; }
        r := Data(data);
      case CloseBody =>
        if !closed {
          closed := true;
          stats.DecrementMemoryBuffers(size);
        }
        r := Success;
    }
  }

  class DiskStorage {
    const file: File
    const size: nat
    const stats: Stats
    var closed: bool

    ghost predicate Valid() {
      size == |file.content|
    }

    ghost function View(): Body
      reads this, file
    {
      Body(file.content, file.offset, closed)
    }

    /** newDiskStorage: write the data, rewind, count the file. */
    constructor (data: seq<Byte>, stats: Stats)
      modifies stats
      ensures Valid() && fresh(file) && this.stats == stats && View() == Body(data, 0, false)
      ensures stats.View() == DiskUp(old(stats.View()), |data|)
    {
      stats.IncrementDiskFiles(|data|);
      this.file := new File(data);
      this.size := |data|;
      this.stats := stats;
      this.closed := false;
    }

    /** Remember the position, rewind, read everything, come back. */
    method Bytes() returns (r: Result)
      requires Valid()
      modifies file
      ensures r == if closed then StorageClosed else Data(file.content)
      ensures View() == old(View())
    {
      if closed { return StorageClosed; }
      var current := file.Seek(0, SEEK_CURRENT);
      var start := file.Seek(0, SEEK_START);
      var data := file.ReadFull(size);
      var back := file.Seek(current.at, SEEK_START);
      r := Data(data);
    }

    method Perform(op: Op) returns (r: Result)
      requires Valid() && Portable(op)
      modifies this, file, stats
      ensures Valid() && r == Answer(old(View()), op, true) && View() == After(old(View()), op)
      ensures stats.View() == if op.CloseBody? && !old(closed) then DiskDown(old(stats.View()), size)
                              else old(stats.View())
    {
      match op
      case Read(n) =>
        if closed { return StorageClosed; }
        r := file.Read(n);
      case Seek(offset, whence) =>
        if closed { return StorageClosed; }
        r := file.Seek(offset, whence);
      case GetBytes =>
        r := Bytes();
      case CloseBody =>
        if !closed {
          closed := true;
          stats.DecrementDiskFiles(size);
        }
        r := Success;
    }
  }

  // ---- creation ------------------------------------------------------------------------------

  datatype Storage = InMemory(memory: MemoryStorage) | OnDisk(disk: DiskStorage)

  datatype Creation = Refused | Broken | Stored(storage: Storage)

  ghost predicate Holds(storage: Storage, data: seq<Byte>)
    reads if storage.InMemory? then {storage.memory, storage.memory.reader} else {storage.disk, storage.disk.file}
  {
    match storage
    case InMemory(m) => m.Valid() && m.View() == Body(data, 0, false)
    case OnDisk(d) => d.Valid() && d.View() == Body(data, 0, false)
  }

  /** io.LimitReader. */
  function Take(stream: seq<Byte>, limit: int): seq<Byte> {
    if limit <= 0 then [] else if |stream| < limit then stream else stream[..limit]
  }

  /** CreateBodyStorageFromReader: the storage holds the whole stream at position
      zero, or nothing is stored and nothing counted. */
  method CreateFromStream(stream: seq<Byte>, contentLength: int, maxBytes: int, config: Config, stats: Stats,
                          diskOk: bool) returns (r: Creation)
    modifies stats
    ensures var c := CreateFromReader(config, old(stats.View()), |stream|, contentLength, maxBytes, diskOk);
      && (r.Refused? <==> c.TooLarge?) && (r.Broken? <==> c.DiskFailed?)
      && (r.Stored? ==> (r.storage.InMemory? <==> c.Memory?) && Holds(r.storage, stream))
      && stats.View() == (if c.Memory? then MemoryUp(old(stats.View()), |stream|)
                          else if c.Disk? then DiskUp(old(stats.View()), |stream|) else old(stats.View()))
  {
    var threshold := config.thresholdMB * MB;
    if config.enabled && contentLength > 0 && contentLength >= threshold
       && IsAvailable(config, stats.View(), contentLength) {
      if !diskOk { return Broken; }
      var written := Take(stream, maxBytes + 1);
      if |written| > maxBytes { return Refused; }
      var d := new DiskStorage(written, stats);
      return Stored(OnDisk(d));
    }
    var data := Take(stream, maxBytes + 1);
    if |data| > maxBytes { return Refused; }
    if config.enabled && |data| >= threshold && IsAvailable(config, stats.View(), |data|) {
      if diskOk {
        var d := new DiskStorage(data, stats);
        return Stored(OnDisk(d));
      }
      // the failed disk storage falls back to memory
    }
    var m := new MemoryStorage(data, stats);
    return Stored(InMemory(m));
  }

  // ---- what callers can observe -------------------------------------------------------------

  function AfterAll(b: Body, ops: seq<Op>): Body {
    if ops == [] then b else After(AfterAll(b, ops[..|ops| - 1]), ops[|ops| - 1])
  }

  function Answers(b: Body, ops: seq<Op>, onDisk: bool): seq<Result> {
    if ops == [] then []
    else Answers(b, ops[..|ops| - 1], onDisk) + [Answer(AfterAll(b, ops[..|ops| - 1]), ops[|ops| - 1], onDisk)]
  }

  /** Any sequence of calls on a memory body and a disk body that hold the same
      data at the same position leaves them alike, and each answers as its kind
      does; AgreeExactly says when that is the same. */
  method ObserveBoth(memory: MemoryStorage, disk: DiskStorage, ops: seq<Op>)
      returns (fromMemory: seq<Result>, fromDisk: seq<Result>)
    requires memory.Valid() && disk.Valid() && memory.View() == disk.View()
    requires forall i :: 0 <= i < |ops| ==> Portable(ops[i])
    modifies memory, memory.reader, memory.stats, disk, disk.file, disk.stats
    ensures fromMemory == Answers(old(memory.View()), ops, false)
    ensures fromDisk == Answers(old(memory.View()), ops, true)
    ensures memory.View() == disk.View() == AfterAll(old(memory.View()), ops)
  {
    fromMemory, fromDisk := [], [];
    ghost var b := memory.View();
    for n := 0 to |ops|
      invariant memory.Valid() && disk.Valid()
      invariant memory.View() == disk.View() == AfterAll(b, ops[..n])
      invariant fromMemory == Answers(b, ops[..n], false) && fromDisk == Answers(b, ops[..n], true)
    {
      assert ops[..n + 1][..n] == ops[..n];
      var r := memory.Perform(ops[n]);
      fromMemory := fromMemory + [r];
      r := disk.Perform(ops[n]);
      fromDisk := fromDisk + [r];
    }
    assert ops[..|ops|] == ops;
  }

  /** The storages answer one call alike, except an open body at its end reading
      into an empty buffer. */
  predicate TellsApart(b: Body, op: Op) {
    op == Read(0) && !b.closed && b.pos >= |b.data|
  }

  ghost predicate NeverApart(b: Body, ops: seq<Op>) {
    forall i :: 0 <= i < |ops| ==> !TellsApart(AfterAll(b, ops[..i]), ops[i])
  }

  lemma NeverApartExtends(b: Body, ops: seq<Op>)
    requires ops != []
    ensures var init := ops[..|ops| - 1];
      NeverApart(b, ops) <==> NeverApart(b, init) && !TellsApart(AfterAll(b, init), ops[|ops| - 1])
  {
    hide TellsApart, AfterAll;
    var init := ops[..|ops| - 1];
    assert forall i :: 0 <= i < |init| ==> init[..i] == ops[..i] && init[i] == ops[i];
  }

  /** A sequence of calls gives the same answers on both storages if and only if
      it never reads into an empty buffer at or past the end of an open body. */
  lemma {:induction false} AgreeExactly(b: Body, ops: seq<Op>)
    ensures Answers(b, ops, false) == Answers(b, ops, true) <==> NeverApart(b, ops)
    decreases |ops|
  {
    if ops != [] {
      hide Answer, AfterAll, TellsApart, NeverApart;
      var init, op := ops[..|ops| - 1], ops[|ops| - 1];
      var mid := AfterAll(b, init);
      AgreeExactly(b, init);
      NeverApartExtends(b, ops);
      OneCall(mid, op);
      SameLength(b, init);
      AppendAgrees(Answers(b, init, false), Answers(b, init, true), Answer(mid, op, false), Answer(mid, op, true));
    }
  }

  lemma OneCall(b: Body, op: Op)
    ensures Answer(b, op, false) == Answer(b, op, true) <==> !TellsApart(b, op)
  {
  }

  lemma AppendAgrees(xs: seq<Result>, ys: seq<Result>, x: Result, y: Result)
    requires |xs| == |ys|
    ensures xs + [x] == ys + [y] <==> xs == ys && x == y
  {
    if xs + [x] == ys + [y] {
      assert xs == (xs + [x])[..|xs|] && ys == (ys + [y])[..|ys|];
      assert (xs + [x])[|xs|] == x && (ys + [y])[|ys|] == y;
    }
  }

  lemma {:induction false} SameLength(b: Body, ops: seq<Op>)
    ensures |Answers(b, ops, false)| == |Answers(b, ops, true)| == |ops|
  {
    if ops != [] { SameLength(b, ops[..|ops| - 1]); }
  }

  lemma {:induction false} AnswersPrefix(b: Body, ops: seq<Op>, onDisk: bool, i: nat)
    requires i < |ops|
    ensures |Answers(b, ops, onDisk)| == |ops|
    ensures Answers(b, ops, onDisk)[i] == Answer(AfterAll(b, ops[..i]), ops[i], onDisk)
    decreases |ops|
  {
    var init := ops[..|ops| - 1];
    if i == |ops| - 1 {
      if init != [] { AnswersPrefix(b, init, onDisk, 0); }
    } else {
      AnswersPrefix(b, init, onDisk, i);
      assert init[..i] == ops[..i];
    }
  }

  lemma {:induction false} DataNeverChanges(b: Body, ops: seq<Op>)
    ensures AfterAll(b, ops).data == b.data
  {
    if ops != [] { DataNeverChanges(b, ops[..|ops| - 1]); }
  }

  /** GetBytes answers the whole body wherever the cursor is, and leaves it there. */
  lemma BytesIsWholeBody(b: Body, ops: seq<Op>, onDisk: bool, i: nat)
    requires i < |ops| && ops[i].GetBytes? && !AfterAll(b, ops[..i]).closed
    ensures |Answers(b, ops, onDisk)| == |ops| && Answers(b, ops, onDisk)[i] == Data(b.data)
    ensures AfterAll(b, ops[..i + 1]) == AfterAll(b, ops[..i])
  {
    AnswersPrefix(b, ops, onDisk, i);
    DataNeverChanges(b, ops[..i]);
    assert ops[..i + 1][..i] == ops[..i];
  }

  lemma {:induction false} ClosedStaysClosed(b: Body, ops: seq<Op>)
    requires b.closed || exists i :: 0 <= i < |ops| && ops[i].CloseBody?
    ensures AfterAll(b, ops).closed
  {
    if ops != [] {
      var init := ops[..|ops| - 1];
      if b.closed || exists i :: 0 <= i < |init| && init[i].CloseBody? { ClosedStaysClosed(b, init); }
    }
  }

  /** After a close every later read, seek or bytes call reports closed, and
      closing again succeeds. */
  lemma NothingAfterClose(b: Body, ops: seq<Op>, onDisk: bool, i: nat, j: nat)
    requires i < j < |ops| && ops[i].CloseBody?
    ensures |Answers(b, ops, onDisk)| == |ops|
    ensures Answers(b, ops, onDisk)[j] == if ops[j].CloseBody? then Success else StorageClosed
  {
    AnswersPrefix(b, ops, onDisk, j);
    assert ops[..j][i] == ops[i];
    ClosedStaysClosed(b, ops[..j]);
  }

  function Joined(results: seq<Result>): seq<Byte> {
    if results == [] then []
    else Joined(results[..|results| - 1])
         + (if results[|results| - 1].Data? then results[|results| - 1].bytes else [])
  }

  lemma ReadStep(b: Body, op: Op, onDisk: bool)
    requires op.Read? && !b.closed && b.pos <= |b.data|
    ensures var end := After(b, op);
      && !end.closed && end.data == b.data && b.pos <= end.pos <= |b.data|
      && (if Answer(b, op, onDisk).Data? then Answer(b, op, onDisk).bytes else []) == b.data[b.pos..end.pos]
  {
  }

  lemma JoinedAppend(results: seq<Result>, r: Result)
    ensures Joined(results + [r]) == Joined(results) + (if r.Data? then r.bytes else [])
  {
    assert (results + [r])[..|results + [r]| - 1] == results;
  }

  /** Reading in chunks of any sizes yields the body from the cursor on, without
      gaps or repetition. */
  lemma {:induction false} ReadsYieldTheBody(b: Body, ops: seq<Op>, onDisk: bool)
    requires !b.closed && b.pos <= |b.data|
    requires forall i :: 0 <= i < |ops| ==> ops[i].Read?
    ensures var end := AfterAll(b, ops);
      && !end.closed && end.data == b.data && b.pos <= end.pos <= |b.data|
      && Joined(Answers(b, ops, onDisk)) == b.data[b.pos..end.pos]
  {
    hide Answer, After, Joined;
    if ops != [] {
      var init, op := ops[..|ops| - 1], ops[|ops| - 1];
      ReadsYieldTheBody(b, init, onDisk);
      var mid := AfterAll(b, init);
      ReadStep(mid, op, onDisk);
      JoinedAppend(Answers(b, init, onDisk), Answer(mid, op, onDisk));
      assert b.data[b.pos..mid.pos] + b.data[mid.pos..After(mid, op).pos] == b.data[b.pos..After(mid, op).pos];
    } else {
      assert Joined([]) == [] by { JoinedEmpty(); }
    }
  }

  lemma JoinedEmpty()
    ensures Joined([]) == []
  {
  }

  // ---- reads and seeks, spelled out ------------------------------------------------------

  /** A seek to an offset from the start, the position or the end, then a read: the
      bytes from exactly there, as many as asked for or left. */
  lemma SeekThenRead(b: Body, offset: int, whence: int, n: nat, onDisk: bool)
    requires !b.closed && n > 0 && 0 <= whence <= 2
    ensures var at := (if whence == 0 then 0 else if whence == 1 then b.pos else |b.data|) + offset;
      var moved := After(b, Seek(offset, whence));
      && Answer(b, Seek(offset, whence), onDisk) == (if at < 0 then BadSeek else Position(at))
      && moved == Body(b.data, if at < 0 then b.pos else at, false)
      && if moved.pos >= |b.data| then Answer(moved, Read(n), onDisk) == EndOfFile && After(moved, Read(n)) == moved
         else
           var end := if moved.pos + n < |b.data| then moved.pos + n else |b.data|;
           Answer(moved, Read(n), onDisk) == Data(b.data[moved.pos..end]) && After(moved, Read(n)) == Body(b.data, end, false)
  {
  }

  /** When reads from the start have met the end of the file, they have yielded the
      whole body. */
  lemma {:induction false} EndMeansWholeBody(b: Body, ops: seq<Op>, onDisk: bool, i: nat)
    requires !b.closed && b.pos == 0 && i < |ops|
    requires forall k :: 0 <= k < |ops| ==> ops[k].Read? && ops[k].n > 0
    requires i < |Answers(b, ops, onDisk)| && Answers(b, ops, onDisk)[i] == EndOfFile
    ensures Joined(Answers(b, ops, onDisk)) == b.data
  {
    AnswersPrefix(b, ops, onDisk, i);
    ReadsYieldTheBody(b, ops[..i], onDisk);
    ReadsYieldTheBody(b, ops, onDisk);
    ReadsOnlyAdvance(b, ops, i);
    assert AfterAll(b, ops).pos == |b.data|;
    assert b.data[0..|b.data|] == b.data;
  }

  lemma {:induction false} ReadsOnlyAdvance(b: Body, ops: seq<Op>, i: nat)
    requires i <= |ops| && forall k :: 0 <= k < |ops| ==> ops[k].Read?
    ensures AfterAll(b, ops[..i]).pos <= AfterAll(b, ops).pos
    decreases |ops|
  {
    if i == |ops| {
      assert ops[..i] == ops;
    } else {
      ReadsOnlyAdvance(b, ops[..|ops| - 1], i);
      assert ops[..|ops| - 1][..i] == ops[..i];
    }
  }
}
