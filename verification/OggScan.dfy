/**
 The length of an Opus file, from a scan over the pages of its Ogg container
 (section 6 of RFC 3533): the largest granule position, at 48 kHz.
 */
module OggScan {

  import opened Common

  const HEADER: nat := 27
  const CAPTURE: seq<Byte> := [0x4F, 0x67, 0x67, 0x53]  // "OggS"

  // ---- numbers in the header ---------------------------------------------------------------

  function LittleEndian(count: nat, value: nat): (s: seq<Byte>)
    ensures |s| == count
  {
    if count == 0 then [] else [value % 256] + LittleEndian(count - 1, value / 256)
  }

  function Unsigned(s: seq<Byte>): nat {
    if s == [] then 0 else s[0] + 256 * Unsigned(s[1..])
  }

  function Pow256(count: nat): nat {
    if count == 0 then 1 else 256 * Pow256(count - 1)
  }

  const TWO64: nat := 0x1_0000_0000_0000_0000

  /** The conversion from uint64 to int64. */
  function Signed(u: nat): int {
    if u < TWO64 / 2 then u else u - TWO64
  }

  predicate IsInt64(g: int) { -(TWO64 / 2) <= g < TWO64 / 2 }

  lemma {:induction false} UnsignedOfLittleEndian(count: nat, value: nat)
    requires value < Pow256(count)
    ensures Unsigned(LittleEndian(count, value)) == value
  {
    if count > 0 {
      UnsignedOfLittleEndian(count - 1, value / 256);
      assert LittleEndian(count, value)[1..] == LittleEndian(count - 1, value / 256);
    }
  }

  /** Eight little-endian bytes carry every int64, negative ones included. */
  lemma GranuleRoundTrip(g: int)
    requires IsInt64(g)
    ensures Signed(Unsigned(LittleEndian(8, g % TWO64))) == g
  {
    assert Pow256(8) == TWO64;
    UnsignedOfLittleEndian(8, g % TWO64);
    assert g % TWO64 == if g >= 0 then g else g + TWO64;
  }

  // ---- the positions a scan visits ------------------------------------------------------------

  function Sum(table: seq<Byte>): nat {
    if table == [] then 0 else Sum(table[..|table| - 1]) + table[|table| - 1]
  }

  predicate HeaderFits(data: seq<Byte>, pos: nat) { pos + HEADER <= |data| }

  predicate Captured(data: seq<Byte>, pos: nat)
    requires HeaderFits(data, pos)
  {
    data[pos..pos + 4] == CAPTURE
  }

  function GranuleAt(data: seq<Byte>, pos: nat): int
    requires HeaderFits(data, pos)
  {
    Signed(Unsigned(data[pos + 6..pos + 14]))
  }

  /** Where the reader stands after the header at pos: one byte further without
      the capture pattern, at the end of the page with it (possibly past the end
      of the data), and at the end of the data when the segment table is cut. */
  function Next(data: seq<Byte>, pos: nat): (n: nat)
    requires HeaderFits(data, pos)
    ensures n > pos
  {
    if !Captured(data, pos) then pos + 1
    else
      var table := pos + HEADER;
      var segments := data[pos + 26];
      if table + segments > |data| then |data|
      else table + segments + Sum(data[table..table + segments])
  }

  /** The positions at which a header is read, from pos on. */
  function Visited(data: seq<Byte>, pos: nat): seq<nat>
    decreases |data| - pos
  {
    if HeaderFits(data, pos) then [pos] + Visited(data, Next(data, pos)) else []
  }

  /** The larger of 0 and the granule positions of the pages among the visited. */
  function Peak(data: seq<Byte>, visited: seq<nat>): int {
    if visited == [] then 0
    else
      var before, pos := Peak(data, visited[..|visited| - 1]), visited[|visited| - 1];
      if HeaderFits(data, pos) && Captured(data, pos) && GranuleAt(data, pos) > before
      then GranuleAt(data, pos) else before
  }

  // ---- the code -----------------------------------------------------------------------------

  /** getOpusDuration over a seekable reader on data: ends on every byte string. */
  method GetOpusDuration(data: seq<Byte>) returns (seconds: real)
    ensures seconds == Peak(data, Visited(data, 0)) as real / 48000.0
  {
    hide Visited, Peak, Sum, Unsigned, Signed;
    var pos, totalGranulePos := 0, 0;
    ghost var seen: seq<nat> := [];
    EmptyPeak(data);
    assert Visited(data, 0) == seen + Visited(data, 0);
    while true
      invariant Visited(data, 0) == seen + Visited(data, pos)
      invariant totalGranulePos == Peak(data, seen)
      decreases |data| - pos
    {
      VisitStep(data, seen, pos);
      if pos >= |data| { break; }                        // end of file
      var n := if |data| - pos < HEADER then |data| - pos else HEADER;
      var buf := data[pos..pos + n];
      if n < HEADER { break; }
      assert buf[..4] == data[pos..pos + 4] && buf[6..14] == data[pos + 6..pos + 14];
      seen := seen + [pos];
      pos := pos + n;
      if buf[..4] != CAPTURE {
        pos := pos - 26;
        continue;
      }
      var granulePos := Signed(Unsigned(buf[6..14]));
      if granulePos > totalGranulePos { totalGranulePos := granulePos; }
      var numSegments := buf[26];
      if pos + numSegments > |data| {                    // short segment table
        VisitStep(data, seen, |data|);
        break;
      }
      var segmentTable := data[pos..pos + numSegments];
      pos := pos + numSegments;
      var pageSize := SumTable(segmentTable);
      pos := pos + pageSize;
    }
    seconds := totalGranulePos as real / 48000.0;
  }

  lemma EmptyPeak(data: seq<Byte>)
    ensures Peak(data, []) == 0
  {
  }

  /** One header read moves its position from the pending visits to the seen ones. */
  lemma VisitStep(data: seq<Byte>, seen: seq<nat>, pos: nat)
    ensures !HeaderFits(data, pos) ==> seen + Visited(data, pos) == seen
    ensures HeaderFits(data, pos) ==>
      && seen + Visited(data, pos) == (seen + [pos]) + Visited(data, Next(data, pos))
      && Peak(data, seen + [pos]) ==
         if Captured(data, pos) && GranuleAt(data, pos) > Peak(data, seen) then GranuleAt(data, pos) else Peak(data, seen)
  {
    hide Next, GranuleAt, Captured, Peak;
    PeakAppends(data, seen, pos);
    if HeaderFits(data, pos) {
      assert seen + ([pos] + Visited(data, Next(data, pos))) == (seen + [pos]) + Visited(data, Next(data, pos));
    }
  }

  lemma PeakAppends(data: seq<Byte>, seen: seq<nat>, pos: nat)
    ensures HeaderFits(data, pos) ==>
      Peak(data, seen + [pos]) ==
        if Captured(data, pos) && GranuleAt(data, pos) > Peak(data, seen) then GranuleAt(data, pos) else Peak(data, seen)
  {
    hide GranuleAt, Captured;
    var all := seen + [pos];
    assert all[..|all| - 1] == seen && all[|all| - 1] == pos;
  }

  method SumTable(table: seq<Byte>) returns (size: nat)
    ensures size == Sum(table)
  {
    size := 0;
    for i := 0 to |table|
      invariant size == Sum(table[..i])
    {
      assert table[..i + 1][..i] == table[..i];
      size := size + table[i];
    }
    assert table[..|table|] == table;
  }

  // ---- what Peak and Visited mean ------------------------------------------------------------

  /** Peak is the least upper bound of 0 and the granule positions seen. */
  lemma {:induction false} PeakIsLargest(data: seq<Byte>, visited: seq<nat>)
    requires forall i :: 0 <= i < |visited| ==> HeaderFits(data, visited[i])
    ensures var peak := Peak(data, visited);
      && peak >= 0
      && (forall i :: 0 <= i < |visited| && Captured(data, visited[i]) ==> GranuleAt(data, visited[i]) <= peak)
      && (peak == 0 || exists i :: 0 <= i < |visited| && Captured(data, visited[i]) && GranuleAt(data, visited[i]) == peak)
  {
    hide GranuleAt;
    if visited != [] {
      var before := visited[..|visited| - 1];
      PeakIsLargest(data, before);
      assert forall i :: 0 <= i < |before| ==> before[i] == visited[i];
    }
  }

  /** The scan only moves forward: at most one header read per byte. */
  lemma {:induction false} VisitedIncreases(data: seq<Byte>, pos: nat)
    ensures forall p <- Visited(data, pos) :: pos <= p && HeaderFits(data, p)
    ensures forall i, j :: 0 <= i < j < |Visited(data, pos)| ==> Visited(data, pos)[i] < Visited(data, pos)[j]
    decreases |data| - pos
  {
    if HeaderFits(data, pos) {
      var next := Next(data, pos);
      VisitedIncreases(data, next);
      var v, w := Visited(data, pos), Visited(data, next);
      assert v == [pos] + w;
      hide Visited;
      forall i, j | 0 <= i < j < |v|
        ensures v[i] < v[j]
      {
        assert v[j] == w[j - 1] && w[j - 1] in w;
        if i > 0 { assert v[i] == w[i - 1]; }
      }
    }
  }

  // ---- well-formed streams --------------------------------------------------------------------

  /** A page: header fields, lacing values and payload. */
  datatype Page = Page(version: Byte, flags: Byte, granule: int, serial: seq<Byte>, number: seq<Byte>,
                       checksum: seq<Byte>, table: seq<Byte>, payload: seq<Byte>)

  ghost predicate WellFormed(p: Page) {
    IsInt64(p.granule) && |p.serial| == 4 && |p.number| == 4 && |p.checksum| == 4 &&
    |p.table| <= 255 && |p.payload| == Sum(p.table)
  }

  ghost function Header(p: Page): (h: seq<Byte>)
    requires WellFormed(p)
    ensures |h| == HEADER
  {
    CAPTURE + [p.version, p.flags] + LittleEndian(8, p.granule % TWO64) +
    p.serial + p.number + p.checksum + [|p.table|]
  }

  ghost function Encoded(p: Page): seq<Byte>
    requires WellFormed(p)
  {
    Header(p) + p.table + p.payload
  }

  ghost predicate AllWellFormed(pages: seq<Page>) {
    forall i :: 0 <= i < |pages| ==> WellFormed(pages[i])
  }

  ghost function Stream(pages: seq<Page>): seq<Byte>
    requires AllWellFormed(pages)
  {
    if pages == [] then [] else Encoded(pages[0]) + Stream(pages[1..])
  }

  /** Where each page of a stream starts, when the first one starts at `at`. */
  ghost function Boundaries(pages: seq<Page>, at: nat): (s: seq<nat>)
    requires AllWellFormed(pages)
    ensures |s| == |pages|
  {
    if pages == [] then [] else [at] + Boundaries(pages[1..], at + |Encoded(pages[0])|)
  }

  /** No capture pattern starts inside the first `end` bytes. */
  ghost predicate NoCaptureBefore(data: seq<Byte>, end: nat) {
    forall p: nat :: p < end && HeaderFits(data, p) ==> !Captured(data, p)
  }

  /** A header is recognised and its granule position and table size are read. */
  lemma HeaderRead(before: seq<Byte>, p: Page, rest: seq<Byte>)
    requires WellFormed(p)
    ensures var data, pos := before + Header(p) + rest, |before|;
      && HeaderFits(data, pos) && Captured(data, pos)
      && GranuleAt(data, pos) == p.granule && data[pos + 26] == |p.table|
  {
    var data, pos := before + Header(p) + rest, |before|;
    var h := Header(p);
    assert data[pos..pos + HEADER] == h;
    assert forall i, j {:trigger h[i..j]} :: 0 <= i <= j <= HEADER ==> data[pos + i..pos + j] == h[i..j];
    assert h[0..4] == CAPTURE;
    assert data[pos + 0..pos + 4] == CAPTURE;
    assert h[6..14] == LittleEndian(8, p.granule % TWO64);
    GranuleRoundTrip(p.granule);
    assert h[26] == |p.table|;
  }

  /** Reading one page: its header is recognised, its granule position decoded,
      and the scan lands just behind its payload. */
  lemma PageStep(before: seq<Byte>, p: Page, rest: seq<Byte>)
    requires WellFormed(p)
    ensures var data, pos := before + Encoded(p) + rest, |before|;
      && HeaderFits(data, pos) && Captured(data, pos)
      && GranuleAt(data, pos) == p.granule
      && Next(data, pos) == pos + |Encoded(p)|
  {
    hide Captured, GranuleAt, Header, Sum;
    var data, pos := before + Encoded(p) + rest, |before|;
    HeaderRead(before, p, p.table + p.payload + rest);
    assert data == before + Header(p) + (p.table + p.payload + rest);
    assert data[pos + HEADER..pos + HEADER + |p.table|] == p.table;
    assert |p.payload| == Sum(p.table);
  }

  /** Over a stream of pages the scan visits exactly the page boundaries and meets
      there exactly the pages' granule positions, whatever precedes and follows. */
  lemma {:induction false} VisitsPages(before: seq<Byte>, pages: seq<Page>, tail: seq<Byte>)
    requires AllWellFormed(pages)
    ensures var data, v := before + Stream(pages) + tail, Boundaries(pages, |before|);
      && Visited(data, |before|) == v + Visited(data, |before + Stream(pages)|)
      && forall i :: 0 <= i < |pages| ==>
           HeaderFits(data, v[i]) && Captured(data, v[i]) && GranuleAt(data, v[i]) == pages[i].granule
    decreases |pages|
  {
    hide GranuleAt, Captured, Next, Encoded, Sum;
    var data := before + Stream(pages) + tail;
    if pages != [] {
      var e, rest := Encoded(pages[0]), Stream(pages[1..]) + tail;
      PageStep(before, pages[0], rest);
      assert data == before + e + rest;
      VisitsPages(before + e, pages[1..], tail);
      assert data == (before + e) + Stream(pages[1..]) + tail;
      assert before + Stream(pages) == (before + e) + Stream(pages[1..]);
      assert Visited(data, |before|) == [|before|] + Visited(data, |before + e|);
      var v := Boundaries(pages, |before|);
      assert v[1..] == Boundaries(pages[1..], |before + e|);
      forall i | 0 <= i < |pages|
        ensures HeaderFits(data, v[i]) && Captured(data, v[i]) && GranuleAt(data, v[i]) == pages[i].granule
      {
        if i > 0 { assert v[i] == v[1..][i - 1] && pages[i] == pages[1..][i - 1]; }
      }
    }
  }

  /** Leading bytes without a capture pattern are passed one by one. */
  lemma {:induction false} SkipsJunk(data: seq<Byte>, pos: nat, end: nat) returns (skipped: seq<nat>)
    requires pos <= end && NoCaptureBefore(data, end)
    ensures Visited(data, pos) == skipped + Visited(data, end)
    ensures forall i :: 0 <= i < |skipped| ==> HeaderFits(data, skipped[i]) && !Captured(data, skipped[i])
    decreases end - pos
  {
    hide Captured, Visited;
    VisitStep(data, [], pos);
    if pos == end {
      skipped := [];
    } else if !HeaderFits(data, pos) {
      VisitStep(data, [], end);
      skipped := [];
    } else {
      var more := SkipsJunk(data, pos + 1, end);
      assert Next(data, pos) == pos + 1;
      skipped := [pos] + more;
      assert [] + Visited(data, pos) == Visited(data, pos);
    }
  }

  /** The duration of a stream of pages, also behind junk that holds no capture
      pattern: the larger of 0 and the maximum signed granule position, over 48000. */
  lemma DurationOfPages(junk: seq<Byte>, pages: seq<Page>, tail: seq<Byte>)
    requires AllWellFormed(pages) && |tail| < HEADER
    requires NoCaptureBefore(junk + Stream(pages) + tail, |junk|)
    ensures var data := junk + Stream(pages) + tail;
      var peak := Peak(data, Visited(data, 0));
      && peak >= 0
      && (forall i :: 0 <= i < |pages| ==> pages[i].granule <= peak)
      && (peak == 0 || exists i :: 0 <= i < |pages| && pages[i].granule == peak)
  {
    hide GranuleAt, Captured, Next, Stream, Peak, Visited, Boundaries;
    var data := junk + Stream(pages) + tail;
    var skipped := SkipsJunk(data, 0, |junk|);
    var all, v := Visited(data, 0), Boundaries(pages, |junk|);
    VisitsPages(junk, pages, tail);
    assert Visited(data, |junk + Stream(pages)|) == [] by { NothingVisited(data, |junk + Stream(pages)|); }
    assert forall i :: 0 <= i < |pages| ==> all[|skipped| + i] == v[i];
    PeakIsLargest(data, all);
    var peak := Peak(data, all);
    forall i | 0 <= i < |pages|
      ensures pages[i].granule <= peak
    {
      assert Captured(data, all[|skipped| + i]);
    }
    if peak != 0 {
      var k :| 0 <= k < |all| && Captured(data, all[k]) && GranuleAt(data, all[k]) == peak;
      assert k >= |skipped|;
      assert pages[k - |skipped|].granule == peak;
    }
  }

  /** Eight bytes read lowest first. */
  lemma EightBytesLowestFirst(s: seq<Byte>)
    requires |s| == 8
    ensures Unsigned(s) == (s[0] as int) + 0x100 * (s[1] as int) + 0x1_0000 * (s[2] as int)
      + 0x100_0000 * (s[3] as int) + 0x1_0000_0000 * (s[4] as int) + 0x100_0000_0000 * (s[5] as int)
      + 0x1_0000_0000_0000 * (s[6] as int) + 0x100_0000_0000_0000 * (s[7] as int)
  {
    assert Unsigned(s[8..]) == 0;
    assert s[7..][1..] == s[8..] && s[6..][1..] == s[7..] && s[5..][1..] == s[6..] && s[4..][1..] == s[5..];
    assert s[3..][1..] == s[4..] && s[2..][1..] == s[3..] && s[1..][1..] == s[2..];
    assert Unsigned(s[7..]) == s[7];
    assert Unsigned(s[6..]) == s[6] + 256 * Unsigned(s[7..]);
    assert Unsigned(s[5..]) == s[5] + 256 * Unsigned(s[6..]);
    assert Unsigned(s[4..]) == s[4] + 256 * Unsigned(s[5..]);
    assert Unsigned(s[3..]) == s[3] + 256 * Unsigned(s[4..]);
    assert Unsigned(s[2..]) == s[2] + 256 * Unsigned(s[3..]);
    assert Unsigned(s[1..]) == s[1] + 256 * Unsigned(s[2..]);
  }

  lemma NothingVisited(data: seq<Byte>, pos: nat)
    ensures !HeaderFits(data, pos) ==> Visited(data, pos) == []
  {
  }

  /** `peak` is the larger of 0 and the largest granule position of the pages. */
  ghost predicate IsPeakOf(peak: int, pages: seq<Page>) {
    && peak >= 0
    && (forall i :: 0 <= i < |pages| ==> pages[i].granule <= peak)
    && (peak == 0 || exists i :: 0 <= i < |pages| && pages[i].granule == peak)
  }

  lemma PeakOfPages(data: seq<Byte>, v: seq<nat>, pages: seq<Page>)
    requires |v| == |pages|
    requires forall i :: 0 <= i < |v| ==>
      HeaderFits(data, v[i]) && Captured(data, v[i]) && GranuleAt(data, v[i]) == pages[i].granule
    ensures IsPeakOf(Peak(data, v), pages)
  {
    hide GranuleAt, Captured, Peak;
    PeakIsLargest(data, v);
  }

  /** A last page that is cut anywhere behind its header still counts: the scan
      visits it, and its granule position is part of the maximum. */
  lemma CutPageCounts(pages: seq<Page>, p: Page, n: nat)
    requires AllWellFormed(pages) && WellFormed(p) && HEADER <= n <= |Encoded(p)|
    ensures var data := Stream(pages) + Encoded(p)[..n];
      && Visited(data, 0) == Boundaries(pages, 0) + [|Stream(pages)|]
      && IsPeakOf(Peak(data, Visited(data, 0)), pages + [p])
  {
    hide GranuleAt, Captured, Next, Stream, Peak, Encoded, Boundaries, WellFormed, IsPeakOf;
    var cut := Encoded(p)[..n];
    var data, pos := Stream(pages) + cut, |Stream(pages)|;
    CutPageStep(Stream(pages), p, n);
    assert [] + Stream(pages) + cut == data && [] + Stream(pages) == Stream(pages);
    VisitsPages([], pages, cut);
    NothingVisited(data, Next(data, pos));
    assert Visited(data, pos) == [pos] + Visited(data, Next(data, pos));
    hide Visited;
    var v := Boundaries(pages, 0);
    PeakOfPages(data, v + [pos], pages + [p]);
  }

  lemma CutPageStep(before: seq<Byte>, p: Page, n: nat)
    requires WellFormed(p) && HEADER <= n <= |Encoded(p)|
    ensures var data, pos := before + Encoded(p)[..n], |before|;
      && HeaderFits(data, pos) && Captured(data, pos) && GranuleAt(data, pos) == p.granule
      && !HeaderFits(data, Next(data, pos))
  {
    hide Captured, GranuleAt, Header, Sum;
    var data, pos := before + Encoded(p)[..n], |before|;
    var rest := (p.table + p.payload)[..n - HEADER];
    assert Encoded(p) == Header(p) + (p.table + p.payload);
    assert Encoded(p)[..n] == Header(p) + rest;
    assert data == before + Header(p) + rest;
    HeaderRead(before, p, rest);
    if pos + HEADER + |p.table| <= |data| {
      assert data[pos + HEADER..pos + HEADER + |p.table|] == p.table;
      assert |p.payload| == Sum(p.table);
    }
  }
}
