/** The read-only get_key_status action: status list, filter, counts and pages. */
module MultiKeyView {
  import opened Common
  import opened MultiKey

  const DEFAULT_PAGE_SIZE := 50

  datatype KeyStatus = KeyStatus(index: nat, status: int, disabledTime: int, reason: string, keyPreview: string)

  datatype Response = Response(
    keys: seq<KeyStatus>, total: nat, page: int, pageSize: int, totalPages: int,
    enabledCount: nat, manualDisabledCount: nat, autoDisabledCount: nat)

  function Preview(key: string): string {
    if |key| > 10 then key[..10] + "..." else key
  }

  /** How one record is shown: time and reason only for keys that are not enabled. */
  function Show(r: Record, index: nat): KeyStatus {
    KeyStatus(index, r.status,
              if r.status != ENABLED && r.time.Some? then r.time.value else 0,
              if r.status != ENABLED && r.reason.Some? then r.reason.value else "",
              Preview(r.key))
  }

  /** The shown records with the wanted status (all of them without a filter),
      in key order and under their own indices. */
  function Shown(rs: seq<Record>, wanted: Option<int>): seq<KeyStatus> {
    if rs == [] then []
    else
      var last := rs[|rs| - 1];
      Shown(rs[..|rs| - 1], wanted)
      + (if wanted.None? || last.status == wanted.value then [Show(last, |rs| - 1)] else [])
  }

  function Min(a: int, b: int): int { if a < b then a else b }

  /** Page number `page`, counted from 1. */
  function PageOf(xs: seq<KeyStatus>, page: int, size: int): seq<KeyStatus>
    requires page >= 1 && size >= 1
  {
    var start := (page - 1) * size;
    if start < |xs| then xs[start..Min(start + size, |xs|)] else []
  }

  method GetKeyStatus(info: Info, pageIn: int, pageSizeIn: int, wanted: Option<int>) returns (r: Response)
    ensures r.pageSize == (if pageSizeIn <= 0 then DEFAULT_PAGE_SIZE else pageSizeIn)
    ensures 1 <= r.page <= r.totalPages
    ensures r.page == if pageIn <= 0 then 1 else if pageIn > r.totalPages then r.totalPages else pageIn
    ensures r.totalPages * r.pageSize >= r.total
    ensures (r.totalPages - 1) * r.pageSize < r.total || r.totalPages == 1
    ensures r.total == |Shown(Records(info), wanted)|
    ensures r.keys == PageOf(Shown(Records(info), wanted), r.page, r.pageSize)
    ensures r.enabledCount == Count(Records(info), ENABLED)
    ensures r.manualDisabledCount == Count(Records(info), MANUALLY_DISABLED)
    ensures r.autoDisabledCount == Count(Records(info), AUTO_DISABLED)
  {
    var page := if pageIn <= 0 then 1 else pageIn;
    var pageSize := if pageSizeIn <= 0 then DEFAULT_PAGE_SIZE else pageSizeIn;
    var enabled, manual, auto, all := CollectAll(info);
    var filtered := all;
    if wanted.Some? {
      filtered := Select(Records(info), all, wanted.value);
    }
    var items, totalPages;
    items, page, totalPages := Paginate(filtered, page, pageSize);
    r := Response(items, |filtered|, page, pageSize, totalPages, enabled, manual, auto);
  }

  method Paginate(filtered: seq<KeyStatus>, pageIn: int, pageSize: int)
      returns (items: seq<KeyStatus>, page: int, totalPages: int)
    requires pageIn >= 1 && pageSize >= 1
    ensures 1 <= page <= totalPages && page == Min(pageIn, totalPages)
    ensures totalPages * pageSize >= |filtered|
    ensures (totalPages - 1) * pageSize < |filtered| || totalPages == 1
    ensures items == PageOf(filtered, page, pageSize)
  {
    page := pageIn;
    totalPages := (|filtered| + pageSize - 1) / pageSize;
    CeilingDivision(|filtered|, pageSize);
    if totalPages == 0 { totalPages := 1; }
    if page > totalPages { page := totalPages; }
    StartIsNatural(page, pageSize);
    var start := (page - 1) * pageSize;
    var end := start + pageSize;
    if end > |filtered| { end := |filtered|; }
    items := [];
    if start < |filtered| { items := filtered[start..end]; }
  }

  method CollectAll(info: Info) returns (enabled: nat, manual: nat, auto: nat, all: seq<KeyStatus>)
    ensures all == Shown(Records(info), None)
    ensures enabled == Count(Records(info), ENABLED)
    ensures manual == Count(Records(info), MANUALLY_DISABLED)
    ensures auto == Count(Records(info), AUTO_DISABLED)
  {
    enabled, manual, auto, all := 0, 0, 0, [];
    ghost var rs := Records(info);
    for i := 0 to |info.keys|
      invariant all == Shown(rs[..i], None)
      invariant enabled == Count(rs[..i], ENABLED)
      invariant manual == Count(rs[..i], MANUALLY_DISABLED)
      invariant auto == Count(rs[..i], AUTO_DISABLED)
    {
      assert rs[..i + 1][..i] == rs[..i];
      var status, disabledTime, reason := ENABLED, 0, "";
      if i in info.status { status := info.status[i]; }
      if status == ENABLED { enabled := enabled + 1; }
      else if status == MANUALLY_DISABLED { manual := manual + 1; }
      else if status == AUTO_DISABLED { auto := auto + 1; }
      if status != ENABLED {
        if i in info.time { disabledTime := info.time[i]; }
        if i in info.reason { reason := info.reason[i]; }
      }
      var keyPreview := if |info.keys[i]| > 10 then info.keys[i][..10] + "..." else info.keys[i];
      all := all + [KeyStatus(i, status, disabledTime, reason, keyPreview)];
    }
    assert rs[..|rs|] == rs;
  }

  /** The filter loop. */
  method Select(ghost rs: seq<Record>, all: seq<KeyStatus>, status: int) returns (filtered: seq<KeyStatus>)
    requires all == Shown(rs, None)
    ensures filtered == Shown(rs, Some(status))
  {
    ShownAll(rs);
    filtered := [];
    for i := 0 to |all|
      invariant filtered == Shown(rs[..i], Some(status))
    {
      assert rs[..i + 1][..i] == rs[..i];
      if all[i].status == status {
        filtered := filtered + [all[i]];
      }
    }
    assert rs[..|rs|] == rs;
  }

  lemma {:induction false} ShownAll(rs: seq<Record>)
    ensures |Shown(rs, None)| == |rs|
    ensures forall i :: 0 <= i < |rs| ==> Shown(rs, None)[i] == Show(rs[i], i)
  {
    if rs != [] { ShownAll(rs[..|rs| - 1]); }
  }

  lemma CeilingDivision(n: nat, size: int)
    requires size >= 1
    ensures var pages := (n + size - 1) / size;
      pages >= 0 && pages * size >= n && (pages == 0 || (pages - 1) * size < n)
  {
    var pages := (n + size - 1) / size;
    assert n + size - 1 == pages * size + (n + size - 1) % size;
    assert (pages - 1) * size == pages * size - size;
  }

  lemma StartIsNatural(page: int, size: int)
    requires page >= 1 && size >= 1
    ensures (page - 1) * size >= 0
    ensures page * size == (page - 1) * size + size
  {
  }

  /** Pages 1 to n, one after the other. */
  function Pages(xs: seq<KeyStatus>, size: int, n: nat): seq<KeyStatus>
    requires size >= 1
  {
    if n == 0 then [] else Pages(xs, size, n - 1) + PageOf(xs, n, size)
  }

  lemma {:induction false} PagesArePrefix(xs: seq<KeyStatus>, size: int, n: nat)
    requires size >= 1
    ensures 0 <= n * size && Pages(xs, size, n) == xs[..Min(n * size, |xs|)]
  {
    if n > 0 {
      PagesArePrefix(xs, size, n - 1);
      StartIsNatural(n, size);
      PageAppends(xs, (n - 1) * size, size);
    }
  }

  lemma PageAppends(xs: seq<KeyStatus>, start: int, size: int)
    requires start >= 0 && size >= 1
    ensures xs[..Min(start, |xs|)] + (if start < |xs| then xs[start..Min(start + size, |xs|)] else [])
            == xs[..Min(start + size, |xs|)]
  {
  }

  /** Reading pages 1 to totalPages yields every selected key exactly once and
      in order. */
  lemma PagesCoverEverything(rs: seq<Record>, wanted: Option<int>, size: int, totalPages: nat)
    requires size >= 1 && totalPages * size >= |Shown(rs, wanted)|
    ensures Pages(Shown(rs, wanted), size, totalPages) == Shown(rs, wanted)
  {
    var xs := Shown(rs, wanted);
    PagesArePrefix(xs, size, totalPages);
    assert xs[..|xs|] == xs;
  }

  /** The filter keeps exactly the keys of the wanted status. */
  lemma {:induction false} ShownExactly(rs: seq<Record>, wanted: Option<int>, x: KeyStatus)
    ensures x in Shown(rs, wanted) <==>
              x.index < |rs| && x == Show(rs[x.index], x.index) && (wanted.None? || x.status == wanted.value)
  {
    if rs != [] { ShownExactly(rs[..|rs| - 1], wanted, x); }
  }

  /** What a status line reveals of a key: at most its first ten characters, marked
      as cut; time and reason only of keys that are not enabled. */
  lemma ShowReveals(r: Record, index: nat)
    ensures var x := Show(r, index);
      && x.index == index && x.status == r.status
      && (if |r.key| > 10 then x.keyPreview == r.key[..10] + "..." else x.keyPreview == r.key)
      && (r.status == 1 ==> x.disabledTime == 0 && x.reason == "")
      && (r.status != 1 && r.time.Some? ==> x.disabledTime == r.time.value)
      && (r.status != 1 && r.reason.Some? ==> x.reason == r.reason.value)
      && (r.time.None? ==> x.disabledTime == 0) && (r.reason.None? ==> x.reason == "")
  {
  }

  ghost predicate ByIndex(xs: seq<KeyStatus>) {
    forall i, j :: 0 <= i < j < |xs| ==> xs[i].index < xs[j].index
  }

  /** Lines are listed by increasing key index. */
  lemma {:induction false} ShownInOrder(rs: seq<Record>, wanted: Option<int>)
    ensures forall x :: x in Shown(rs, wanted) ==> x.index < |rs|
    ensures ByIndex(Shown(rs, wanted))
  {
    if rs != [] {
      var init := rs[..|rs| - 1];
      ShownInOrder(init, wanted);
      var xs, ys := Shown(init, wanted), Shown(rs, wanted);
      assert forall i :: 0 <= i < |xs| ==> xs[i] in xs;
      assert forall i :: 0 <= i < |xs| ==> ys[i] == xs[i];
      assert |ys| > |xs| ==> |ys| == |xs| + 1 && ys[|xs|].index == |rs| - 1;
      hide Shown;
    }
  }
}
