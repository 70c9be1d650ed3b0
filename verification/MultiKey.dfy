/**
 Multi-key channels: a list of keys and three sparse maps from key index to
 status, disabling time and reason, edited in place and re-indexed on deletion.
 The actions of ManageMultiKeys are proved against the obvious operations on a
 list of records.
 */
module MultiKey {
  import opened Common

  const ENABLED := 1
  const MANUALLY_DISABLED := 2
  const AUTO_DISABLED := 3

  /** The key list and the sparse maps of a channel row. */
  datatype Info = Info(keys: seq<string>, status: map<int, int>, time: map<int, int>, reason: map<int, string>)

  /** One key with everything known about it. */
  datatype Record = Record(key: string, status: int, time: Option<int>, reason: Option<string>)

  function Lookup<V>(m: map<int, V>, i: int): Option<V> {
    if i in m then Some(m[i]) else None
  }

  function StatusAt(status: map<int, int>, i: int): int {
    if i in status then status[i] else ENABLED
  }

  function RecordAt(info: Info, i: nat): Record
    requires i < |info.keys|
  {
    Record(info.keys[i], StatusAt(info.status, i), Lookup(info.time, i), Lookup(info.reason, i))
  }

  /** The list of records that keys and maps stand for. */
  function Records(info: Info): (r: seq<Record>)
    ensures |r| == |info.keys|
  {
    seq(|info.keys|, i requires 0 <= i < |info.keys| => RecordAt(info, i))
  }

  predicate InRange<V>(m: map<int, V>, n: nat) {
    forall i :: i in m ==> 0 <= i < n
  }

  /** Map indices are key indices, and only keys that are not enabled carry a
      disabling time or reason. */
  predicate Consistent(info: Info) {
    && InRange(info.status, |info.keys|) && InRange(info.time, |info.keys|) && InRange(info.reason, |info.keys|)
    && (forall i :: i in info.time ==> StatusAt(info.status, i) != ENABLED)
    && (forall i :: i in info.reason ==> StatusAt(info.status, i) != ENABLED)
  }

  // ---- the operations on records ---------------------------------------------------

  datatype Action =
    | Disable(index: Option<int>)
    | Enable(index: Option<int>)
    | EnableAll
    | DisableAll
    | Delete(index: Option<int>)
    | DeleteAutoDisabled

  datatype Outcome = Done | MissingIndex | IndexOutOfRange | NothingToDo | LastKey | DatabaseError

  predicate IsAuto(r: Record) { r.status == AUTO_DISABLED }

  function Enabled(r: Record): Record { Record(r.key, ENABLED, None, None) }

  function DisableIfEnabled(r: Record): Record {
    if r.status == ENABLED then r.(status := MANUALLY_DISABLED) else r
  }

  function EnableEach(rs: seq<Record>): seq<Record> {
    seq(|rs|, i requires 0 <= i < |rs| => Enabled(rs[i]))
  }

  function DisableEach(rs: seq<Record>): seq<Record> {
    seq(|rs|, i requires 0 <= i < |rs| => DisableIfEnabled(rs[i]))
  }

  function Count(rs: seq<Record>, status: int): nat {
    if rs == [] then 0
    else Count(rs[..|rs| - 1], status) + (if rs[|rs| - 1].status == status then 1 else 0)
  }

  /** The records that are not auto-disabled, in order. */
  function Kept(rs: seq<Record>): seq<Record> {
    if rs == [] then []
    else if IsAuto(rs[|rs| - 1]) then Kept(rs[..|rs| - 1])
    else Kept(rs[..|rs| - 1]) + [rs[|rs| - 1]]
  }

  function Without(rs: seq<Record>, i: nat): seq<Record> {
    if i < |rs| then rs[..i] + rs[i + 1..] else rs
  }

  function IndexCheck(rs: seq<Record>, index: Option<int>): Outcome {
    if index.None? then MissingIndex
    else if index.value < 0 || index.value >= |rs| then IndexOutOfRange
    else Done
  }

  /** The answer of an action, given that the database accepts the update. */
  function Answer(rs: seq<Record>, a: Action): Outcome {
    match a
    case Disable(index) => IndexCheck(rs, index)
    case Enable(index) => IndexCheck(rs, index)
    case EnableAll => Done
    case DisableAll => if Count(rs, ENABLED) == 0 then NothingToDo else Done
    case Delete(index) =>
      if IndexCheck(rs, index) != Done then IndexCheck(rs, index) else if |rs| == 1 then LastKey else Done
    case DeleteAutoDisabled => if Count(rs, AUTO_DISABLED) == 0 then NothingToDo else Done
  }

  /** The obvious operation on records. */
  function Ideal(rs: seq<Record>, a: Action): seq<Record>
    requires Answer(rs, a) == Done
  {
    match a
    case Disable(index) => rs[index.value := rs[index.value].(status := MANUALLY_DISABLED)]
    case Enable(index) => rs[index.value := Enabled(rs[index.value])]
    case EnableAll => EnableEach(rs)
    case DisableAll => DisableEach(rs)
    case Delete(index) => Without(rs, index.value)
    case DeleteAutoDisabled => Kept(rs)
  }

  /** What the code does.  Deleting the auto-disabled keys of a channel that has
      no other key empties the key text; Channel.Update takes an empty text as
      "key not provided" and keeps the stored keys, while the maps are cleared,
      so every key comes back enabled. */
  function Actual(rs: seq<Record>, a: Action): seq<Record>
    requires Answer(rs, a) == Done
  {
    if a.DeleteAutoDisabled? && Kept(rs) == [] then EnableEach(rs) else Ideal(rs, a)
  }

  // ---- the channel row -------------------------------------------------------------

  /** Appending key `r.key` with entries only at the new last index. */
  lemma RecordsExtend(info: Info, info': Info, r: Record)
    requires Consistent(info) && info'.keys == info.keys + [r.key]
    requires info'.status - {|info.keys|} == info.status && StatusAt(info'.status, |info.keys|) == r.status
    requires info'.time - {|info.keys|} == info.time && Lookup(info'.time, |info.keys|) == r.time
    requires info'.reason - {|info.keys|} == info.reason && Lookup(info'.reason, |info.keys|) == r.reason
    ensures Records(info') == Records(info) + [r]
    ensures r.status == ENABLED ==> r.time.None? && r.reason.None? ==> Consistent(info')
    ensures r.status != ENABLED ==> Consistent(info')
  {
    var n := |info.keys|;
    forall i | i != n ensures
      && (i in info'.status <==> i in info.status) && (i in info.status ==> info'.status[i] == info.status[i])
      && (i in info'.time <==> i in info.time) && (i in info.time ==> info'.time[i] == info.time[i])
      && (i in info'.reason <==> i in info.reason) && (i in info.reason ==> info'.reason[i] == info.reason[i])
    {
      assert i in info'.status <==> i in info'.status - {n};
      assert i in info'.time <==> i in info'.time - {n};
      assert i in info'.reason <==> i in info'.reason - {n};
    }
  }

  /** Body of the loop of delete_key: append key `i` with its entries at the
      running index. */
  method CopyKey(info: Info, i: nat, before: Info, newIndex: nat) returns (next: Info)
    requires Consistent(info) && i < |info.keys| && Consistent(before) && newIndex == |before.keys|
    ensures Consistent(next) && Records(next) == Records(before) + [RecordAt(info, i)]
  {
    next := before.(keys := before.keys + [info.keys[i]]);
    if i in info.status && info.status[i] != ENABLED {
      next := next.(status := next.status[newIndex := info.status[i]]);
    }
    if i in info.time {
      next := next.(time := next.time[newIndex := info.time[i]]);
    }
    if i in info.reason {
      next := next.(reason := next.reason[newIndex := info.reason[i]]);
    }
    RecordsExtend(before, next, RecordAt(info, i));
  }

  /** Body of the loop of delete_disabled_keys for a key that stays. */
  method CopyRemainingKey(info: Info, i: nat, status: int, before: Info, newIndex: nat) returns (next: Info)
    requires Consistent(info) && i < |info.keys| && Consistent(before) && newIndex == |before.keys|
    requires status == StatusAt(info.status, i)
    ensures Consistent(next) && Records(next) == Records(before) + [RecordAt(info, i)]
  {
    next := before.(keys := before.keys + [info.keys[i]]);
    if status != ENABLED {
      next := next.(status := next.status[newIndex := status]);
      if i in info.time {
        next := next.(time := next.time[newIndex := info.time[i]]);
      }
      if i in info.reason {
        next := next.(reason := next.reason[newIndex := info.reason[i]]);
      }
    }
    RecordsExtend(before, next, RecordAt(info, i));
  }

  lemma WithoutExtend(rs: seq<Record>, i: nat, k: nat)
    requires i < |rs|
    ensures i == k ==> Without(rs[..i + 1], k) == Without(rs[..i], k)
    ensures i != k ==> Without(rs[..i + 1], k) == Without(rs[..i], k) + [rs[i]]
  {
    assert rs[..i + 1] == rs[..i] + [rs[i]];
  }

  /** The loop of delete_key: copy every other key with its entries, re-indexed. */
  method CopyAllBut(info: Info, keyIndex: nat) returns (next: Info)
    requires Consistent(info)
    ensures Consistent(next) && Records(next) == Without(Records(info), keyIndex)
  {
    next := Info([], map[], map[], map[]);
    var newIndex := 0;
    ghost var rs := Records(info);
    for i := 0 to |info.keys|
      invariant newIndex == |next.keys| && Consistent(next)
      invariant Records(next) == Without(rs[..i], keyIndex)
    {
      WithoutExtend(rs, i, keyIndex);
      if i == keyIndex {
        continue;
      }
      next := CopyKey(info, i, next, newIndex);
      assert |Records(next)| == |next.keys|;
      newIndex := newIndex + 1;
    }
    assert rs[..|rs|] == rs;
  }

  /** The loop of delete_disabled_keys: drop the auto-disabled keys and copy the
      others with their entries, re-indexed. */
  method CopyNotAutoDisabled(info: Info) returns (next: Info, deletedCount: nat)
    requires Consistent(info)
    ensures Consistent(next) && Records(next) == Kept(Records(info))
    ensures deletedCount == Count(Records(info), AUTO_DISABLED)
  {
    next := Info([], map[], map[], map[]);
    deletedCount := 0;
    var newIndex := 0;
    ghost var rs := Records(info);
    for i := 0 to |info.keys|
      invariant newIndex == |next.keys| && Consistent(next)
      invariant Records(next) == Kept(rs[..i])
      invariant deletedCount == Count(rs[..i], AUTO_DISABLED)
    {
      assert rs[..i + 1][..i] == rs[..i];
      var status := if i in info.status then info.status[i] else ENABLED;
      if status == AUTO_DISABLED {
        deletedCount := deletedCount + 1;
      } else {
        next := CopyRemainingKey(info, i, status, next, newIndex);
        assert |Records(next)| == |next.keys|;
        newIndex := newIndex + 1;
      }
    }
    assert rs[..|rs|] == rs;
  }

  /** The loop of disable_all_keys on the status map. */
  method MarkAllDisabled(info: Info) returns (status: map<int, int>, disabledCount: nat)
    requires Consistent(info)
    ensures InRange(status, |info.keys|)
    ensures forall i :: 0 <= i < |info.keys| ==>
              StatusAt(status, i) == DisableIfEnabled(Records(info)[i]).status
    ensures disabledCount == Count(Records(info), ENABLED)
  {
    status := info.status;
    disabledCount := 0;
    ghost var rs := Records(info);
    for i := 0 to |info.keys|
      invariant InRange(status, |info.keys|)
      invariant forall j :: 0 <= j < |info.keys| ==>
        StatusAt(status, j) == if j < i then DisableIfEnabled(rs[j]).status else rs[j].status
      invariant disabledCount == Count(rs[..i], ENABLED)
    {
      assert rs[..i + 1][..i] == rs[..i];
      var s := if i in status then status[i] else ENABLED;
      if s == ENABLED {
        status := status[i := MANUALLY_DISABLED];
        disabledCount := disabledCount + 1;
      }
    }
    assert rs[..|rs|] == rs;
  }

  class Channel {
    var keys: seq<string>          // GetKeys()
    var multiKeySize: int
    var statusList: map<int, int>
    var disabledTime: map<int, int>
    var disabledReason: map<int, string>

    ghost predicate Valid()
      reads this
    {
      multiKeySize == |keys| && Consistent(View())
    }

    function View(): Info
      reads this
    {
      Info(keys, statusList, disabledTime, disabledReason)
    }

    constructor (keys: seq<string>)
      ensures Valid() && Records(View()) == Records(Info(keys, map[], map[], map[]))
    {
      this.keys := keys;
      multiKeySize := |keys|;
      statusList, disabledTime, disabledReason := map[], map[], map[];
    }

    /** Channel.Update: an empty key list is "not provided", the size is
        recomputed and statuses beyond it are dropped; times and reasons are not. */
    method Update(info: Info, dbOk: bool) returns (outcome: Outcome)
      modifies this
      ensures outcome == if dbOk then Done else DatabaseError
      ensures !dbOk ==> View() == old(View()) && multiKeySize == old(multiKeySize)
      ensures dbOk ==>
        && keys == (if info.keys == [] then old(keys) else info.keys) && multiKeySize == |keys|
        && statusList == (map i | i in info.status && i < |keys| :: info.status[i])
        && disabledTime == info.time && disabledReason == info.reason
      ensures dbOk && Consistent(info.(keys := keys)) ==> Valid() && View() == info.(keys := keys)
    {
      var stored := if info.keys == [] then keys else info.keys;
      var size := |stored|;
      var status := map i | i in info.status && i < size :: info.status[i];
      if !dbOk {
        return DatabaseError;
      }
      keys, multiKeySize, statusList := stored, size, status;
      disabledTime, disabledReason := info.time, info.reason;
      if Consistent(info.(keys := keys)) { assert status == info.status; }
      return Done;
    }

    method DisableKey(index: Option<int>, dbOk: bool) returns (outcome: Outcome)
      requires Valid()
      modifies this
      ensures Valid()
      ensures Refines(old(Records(View())), Records(View()), Disable(index), dbOk, outcome)
    {
      if index.None? { return MissingIndex; }
      var keyIndex := index.value;
      if keyIndex < 0 || keyIndex >= multiKeySize { return IndexOutOfRange; }
      outcome := Update(View().(status := statusList[keyIndex := MANUALLY_DISABLED]), dbOk);
    }

    method EnableKey(index: Option<int>, dbOk: bool) returns (outcome: Outcome)
      requires Valid()
      modifies this
      ensures Valid()
      ensures Refines(old(Records(View())), Records(View()), Enable(index), dbOk, outcome)
    {
      if index.None? { return MissingIndex; }
      var keyIndex := index.value;
      if keyIndex < 0 || keyIndex >= multiKeySize { return IndexOutOfRange; }
      outcome := Update(Info(keys, statusList - {keyIndex}, disabledTime - {keyIndex},
                             disabledReason - {keyIndex}), dbOk);
    }

    method EnableAllKeys(dbOk: bool) returns (outcome: Outcome, enabledCount: int)
      requires Valid()
      modifies this
      ensures Valid()
      ensures Refines(old(Records(View())), Records(View()), EnableAll, dbOk, outcome)
      ensures enabledCount == |old(statusList)|
    {
      enabledCount := |statusList|;
      EnabledRecords(View());
      outcome := Update(Info(keys, map[], map[], map[]), dbOk);
    }

    method DisableAllKeys(dbOk: bool) returns (outcome: Outcome, disabledCount: nat)
      requires Valid()
      modifies this
      ensures Valid()
      ensures Refines(old(Records(View())), Records(View()), DisableAll, dbOk, outcome)
      ensures disabledCount == Count(old(Records(View())), ENABLED)
    {
      var status;
      status, disabledCount := MarkAllDisabled(View());
      if disabledCount == 0 { return NothingToDo, disabledCount; }
      assert Records(View().(status := status)) == DisableEach(Records(View()));
      outcome := Update(View().(status := status), dbOk);
    }

    method DeleteKey(index: Option<int>, dbOk: bool) returns (outcome: Outcome)
      requires Valid()
      modifies this
      ensures Valid()
      ensures Refines(old(Records(View())), Records(View()), Delete(index), dbOk, outcome)
    {
      if index.None? { return MissingIndex; }
      var keyIndex := index.value;
      if keyIndex < 0 || keyIndex >= multiKeySize { return IndexOutOfRange; }
      var next := CopyAllBut(View(), keyIndex);
      assert |Records(next)| == |keys| - 1;
      if |next.keys| == 0 { return LastKey; }
      outcome := Update(next, dbOk);
    }

    method DeleteDisabledKeys(dbOk: bool) returns (outcome: Outcome, deletedCount: nat)
      requires Valid()
      modifies this
      ensures Valid()
      ensures Refines(old(Records(View())), Records(View()), DeleteAutoDisabled, dbOk, outcome)
      ensures deletedCount == Count(old(Records(View())), AUTO_DISABLED)
    {
      var next;
      next, deletedCount := CopyNotAutoDisabled(View());
      if deletedCount == 0 { return NothingToDo, deletedCount; }
      if next.keys == [] { EmptyInfo(next); }
      EnabledRecords(View());
      assert |Records(next)| == |next.keys|;
      outcome := Update(next, dbOk);
    }
  }

  lemma EmptyInfo(info: Info)
    requires Consistent(info) && info.keys == []
    ensures info == Info([], map[], map[], map[])
  {
    assert forall i :: i !in info.status && i !in info.time && i !in info.reason;
  }

  lemma EnabledRecords(info: Info)
    ensures Records(Info(info.keys, map[], map[], map[])) == EnableEach(Records(info))
  {
    var cleared := Info(info.keys, map[], map[], map[]);
    assert forall i :: 0 <= i < |info.keys| ==> Records(cleared)[i] == Enabled(Records(info)[i]);
  }

  /** One action took records `rs` to `rs'` and answered `outcome`. */
  predicate Refines(rs: seq<Record>, rs': seq<Record>, a: Action, dbOk: bool, outcome: Outcome) {
    if Answer(rs, a) != Done then outcome == Answer(rs, a) && rs' == rs
    else if !dbOk then outcome == DatabaseError && rs' == rs
    else outcome == Done && rs' == Actual(rs, a)
  }

  // ---- what the actions promise ------------------------------------------------------

  /** The code performs the obvious operation, except exactly when it is asked to
      delete the auto-disabled keys of a channel whose every key is auto-disabled. */
  lemma ActualIsIdealExactly(rs: seq<Record>, a: Action)
    requires Answer(rs, a) == Done
    ensures Actual(rs, a) == Ideal(rs, a) <==>
              !(a.DeleteAutoDisabled? && forall i :: 0 <= i < |rs| ==> rs[i].status == AUTO_DISABLED)
  {
    KeptEmptyExactly(rs);
    if a.DeleteAutoDisabled? && Kept(rs) == [] {
      CountEmpty(rs, AUTO_DISABLED);
      assert |EnableEach(rs)| > 0;
    }
  }

  lemma {:induction false} KeptEmptyExactly(rs: seq<Record>)
    ensures Kept(rs) == [] <==> forall i :: 0 <= i < |rs| ==> rs[i].status == AUTO_DISABLED
  {
    if rs != [] {
      KeptEmptyExactly(rs[..|rs| - 1]);
      if Kept(rs) == [] {
        assert forall i :: 0 <= i < |rs| - 1 ==> rs[i] == rs[..|rs| - 1][i];
      }
    }
  }

  lemma CountEmpty(rs: seq<Record>, status: int)
    ensures rs == [] ==> Count(rs, status) == 0
  {
  }

  /** A concrete channel where deletion re-enables instead: one auto-disabled key. */
  lemma DeletingEveryKeyEnablesThem()
    ensures var rs := [Record("sk-a", AUTO_DISABLED, Some(7), Some("quota"))];
      && Answer(rs, DeleteAutoDisabled) == Done
      && Actual(rs, DeleteAutoDisabled) == [Record("sk-a", ENABLED, None, None)]
      && Ideal(rs, DeleteAutoDisabled) == []
  {
    var r := Record("sk-a", AUTO_DISABLED, Some(7), Some("quota"));
    var rs := [r];
    assert rs[..|rs| - 1] == [];
    assert Kept(rs[..|rs| - 1]) == [] && Count(rs[..|rs| - 1], AUTO_DISABLED) == 0;
    assert EnableEach(rs) == [Enabled(r)];
  }

  /** `picks` lists, in increasing order, where the survivors came from. */
  ghost predicate Survive(rs: seq<Record>, picks: seq<int>, rs': seq<Record>) {
    && |picks| == |rs'|
    && (forall i, j :: 0 <= i < j < |picks| ==> picks[i] < picks[j])
    && (forall i :: 0 <= i < |picks| ==> 0 <= picks[i] < |rs| && rs'[i] == rs[picks[i]])
  }

  /** The positions of the records that are not auto-disabled. */
  function NotAuto(rs: seq<Record>): seq<int> {
    if rs == [] then []
    else if IsAuto(rs[|rs| - 1]) then NotAuto(rs[..|rs| - 1])
    else NotAuto(rs[..|rs| - 1]) + [|rs| - 1]
  }

  /** Survivors of a deletion keep their order, status, time and reason. */
  lemma {:induction false} KeptSurvive(rs: seq<Record>)
    ensures Survive(rs, NotAuto(rs), Kept(rs))
    ensures |Kept(rs)| == |rs| - Count(rs, AUTO_DISABLED)
  {
    if rs != [] { KeptSurvive(rs[..|rs| - 1]); }
  }

  /** Exactly the records that are not auto-disabled survive. */
  lemma {:induction false} NotAutoExactly(rs: seq<Record>, i: int)
    ensures i in NotAuto(rs) <==> 0 <= i < |rs| && rs[i].status != AUTO_DISABLED
  {
    if rs != [] {
      NotAutoExactly(rs[..|rs| - 1], i);
      assert i in NotAuto(rs) <==> i in NotAuto(rs[..|rs| - 1]) || (!IsAuto(rs[|rs| - 1]) && i == |rs| - 1);
    }
  }

  lemma WithoutSurvive(rs: seq<Record>, k: nat) returns (picks: seq<int>)
    requires k < |rs|
    ensures Survive(rs, picks, Without(rs, k))
    ensures |picks| == |rs| - 1 && k !in picks
  {
    picks := seq(|rs| - 1, i => if i < k then i else i + 1);
    var kept := Without(rs, k);
    assert |kept| == |rs| - 1;
    assert forall i :: 0 <= i < k ==> kept[i] == rs[i];
    assert forall i :: k <= i < |kept| ==> kept[i] == rs[i + 1];
  }

  /** An action together with the database's answer. */
  datatype Call = Call(action: Action, dbOk: bool)

  function Run(rs: seq<Record>, calls: seq<Call>): seq<Record>
    decreases |calls|
  {
    if calls == [] then rs
    else
      var mid := Run(rs, calls[..|calls| - 1]);
      var c := calls[|calls| - 1];
      if Answer(mid, c.action) == Done && c.dbOk then Actual(mid, c.action) else mid
  }

  /** Any sequence of requests on a channel goes through the records of Run. */
  method RunAll(channel: Channel, calls: seq<Call>)
    requires channel.Valid()
    modifies channel
    ensures channel.Valid()
    ensures Records(channel.View()) == Run(old(Records(channel.View())), calls)
  {
    ghost var rs := Records(channel.View());
    for n := 0 to |calls|
      invariant channel.Valid()
      invariant Records(channel.View()) == Run(rs, calls[..n])
    {
      assert calls[..n + 1][..n] == calls[..n];
      var c := calls[n];
      var outcome, count;
      match c.action
      case Disable(index) => outcome := channel.DisableKey(index, c.dbOk);
      case Enable(index) => outcome := channel.EnableKey(index, c.dbOk);
      case EnableAll => outcome, count := channel.EnableAllKeys(c.dbOk);
      case DisableAll => outcome, count := channel.DisableAllKeys(c.dbOk);
      case Delete(index) => outcome := channel.DeleteKey(index, c.dbOk);
      case DeleteAutoDisabled => outcome, count := channel.DeleteDisabledKeys(c.dbOk);
    }
    assert calls[..|calls|] == calls;
  }

  /** A key position of the initial list for every key left after a run. */
  ghost predicate KeysFrom(rs: seq<Record>, picks: seq<int>, rs': seq<Record>) {
    && |picks| == |rs'|
    && (forall i, j :: 0 <= i < j < |picks| ==> picks[i] < picks[j])
    && (forall i :: 0 <= i < |picks| ==> 0 <= picks[i] < |rs| && rs'[i].key == rs[picks[i]].key)
  }

  lemma SameKeys(rs: seq<Record>, rs': seq<Record>) returns (picks: seq<int>)
    requires |rs| == |rs'| && forall i :: 0 <= i < |rs| ==> rs'[i].key == rs[i].key
    ensures KeysFrom(rs, picks, rs')
  {
    picks := seq(|rs|, i => i);
  }

  lemma ActualKeys(rs: seq<Record>, a: Action) returns (picks: seq<int>)
    requires Answer(rs, a) == Done
    ensures KeysFrom(rs, picks, Actual(rs, a))
  {
    if a.DeleteAutoDisabled? && Kept(rs) != [] {
      KeptSurvive(rs);
      picks := NotAuto(rs);
    } else if a.Delete? {
      picks := WithoutSurvive(rs, a.index.value);
    } else {
      picks := SameKeys(rs, Actual(rs, a));
    }
  }

  lemma ComposeKeys(rs: seq<Record>, first: seq<int>, mid: seq<Record>, last: seq<int>, rs': seq<Record>)
      returns (picks: seq<int>)
    requires KeysFrom(rs, first, mid) && KeysFrom(mid, last, rs')
    ensures KeysFrom(rs, picks, rs')
  {
    picks := seq(|last|, i requires 0 <= i < |last| => first[last[i]]);
  }

  /** Over any run the surviving keys are a subsequence of the initial keys. */
  lemma {:induction false} RunKeepsKeyOrder(rs: seq<Record>, calls: seq<Call>) returns (picks: seq<int>)
    ensures KeysFrom(rs, picks, Run(rs, calls))
    decreases |calls|
  {
    if calls == [] {
      picks := SameKeys(rs, rs);
    } else {
      var init, c := calls[..|calls| - 1], calls[|calls| - 1];
      var mid := Run(rs, init);
      picks := RunKeepsKeyOrder(rs, init);
      if Answer(mid, c.action) == Done && c.dbOk {
        var last := ActualKeys(mid, c.action);
        picks := ComposeKeys(rs, picks, mid, last, Actual(mid, c.action));
      }
    }
  }

  /** No run takes a channel's last key away. */
  lemma {:induction false} RunLeavesAKey(rs: seq<Record>, calls: seq<Call>)
    requires rs != []
    ensures Run(rs, calls) != []
    decreases |calls|
  {
    if calls != [] {
      RunLeavesAKey(rs, calls[..|calls| - 1]);
    }
  }

  // ---- the actions, spelled out ------------------------------------------------------

  /** A record shows what keys and maps hold at its index: status 1 unless another is
      stored, and a time or reason exactly when one is stored. */
  lemma RecordsShow(info: Info, i: nat)
    requires i < |info.keys|
    ensures var r := Records(info)[i];
      && r.key == info.keys[i]
      && (if i in info.status then r.status == info.status[i] else r.status == 1)
      && (r.time.Some? <==> i in info.time) && (i in info.time ==> r.time.value == info.time[i])
      && (r.reason.Some? <==> i in info.reason) && (i in info.reason ==> r.reason.value == info.reason[i])
  {
  }

  /** The abstraction loses nothing: channels with the same records have the same
      keys, times and reasons, and the same status for every key. */
  lemma RecordsDetermine(a: Info, b: Info)
    requires Consistent(a) && Consistent(b) && Records(a) == Records(b)
    ensures a.keys == b.keys && a.time == b.time && a.reason == b.reason
    ensures forall i :: 0 <= i < |a.keys| ==> StatusAt(a.status, i) == StatusAt(b.status, i)
  {
    assert |Records(a)| == |Records(b)|;
    forall i | 0 <= i < |a.keys|
      ensures a.keys[i] == b.keys[i] && StatusAt(a.status, i) == StatusAt(b.status, i)
      ensures Lookup(a.time, i) == Lookup(b.time, i) && Lookup(a.reason, i) == Lookup(b.reason, i)
    {
      assert Records(a)[i] == Records(b)[i];
    }
    SameLookups(a.time, b.time, |a.keys|);
    SameLookups(a.reason, b.reason, |a.keys|);
  }

  lemma SameLookups<V>(a: map<int, V>, b: map<int, V>, n: nat)
    requires InRange(a, n) && InRange(b, n) && forall i :: 0 <= i < n ==> Lookup(a, i) == Lookup(b, i)
    ensures a == b
  {
    forall i | i in a || i in b ensures i in a && i in b && a[i] == b[i] {
      assert Lookup(a, i) == Lookup(b, i);
    }
  }

  /** What each accepted action makes of every record (NotAutoExactly says which
      records survive the last one). */
  lemma ActionsExactly(rs: seq<Record>, a: Action)
    requires Answer(rs, a) == Done
    ensures var rs' := Actual(rs, a);
      match a
      case Disable(index) =>
        |rs'| == |rs| && forall i :: 0 <= i < |rs| ==>
          rs'[i] == if i == index.value then Record(rs[i].key, 2, rs[i].time, rs[i].reason) else rs[i]
      case Enable(index) =>
        |rs'| == |rs| && forall i :: 0 <= i < |rs| ==>
          rs'[i] == if i == index.value then Record(rs[i].key, 1, None, None) else rs[i]
      case EnableAll =>
        |rs'| == |rs| && forall i :: 0 <= i < |rs| ==> rs'[i] == Record(rs[i].key, 1, None, None)
      case DisableAll =>
        |rs'| == |rs| && forall i :: 0 <= i < |rs| ==>
          rs'[i] == Record(rs[i].key, if rs[i].status == 1 then 2 else rs[i].status, rs[i].time, rs[i].reason)
      case Delete(index) =>
        |rs'| == |rs| - 1 && forall i :: 0 <= i < |rs'| ==> rs'[i] == rs[if i < index.value then i else i + 1]
      case DeleteAutoDisabled =>
        if forall i :: 0 <= i < |rs| ==> rs[i].status == 3
        then |rs'| == |rs| && forall i :: 0 <= i < |rs| ==> rs'[i] == Record(rs[i].key, 1, None, None)
        else Survive(rs, NotAuto(rs), rs')
  {
    KeptEmptyExactly(rs);
    KeptSurvive(rs);
    hide Kept, NotAuto, Survive;
  }

  /** Some record has the status. */
  ghost predicate HasStatus(rs: seq<Record>, status: int) {
    exists i :: 0 <= i < |rs| && rs[i].status == status
  }

  /** Which requests are refused, and how. */
  lemma AnswersExactly(rs: seq<Record>, a: Action)
    ensures a.Disable? || a.Enable? || a.Delete? ==>
      && (Answer(rs, a) == MissingIndex <==> a.index.None?)
      && (Answer(rs, a) == IndexOutOfRange <==> a.index.Some? && !(0 <= a.index.value < |rs|))
      && (Answer(rs, a) == LastKey <==> a.Delete? && |rs| == 1 && a.index == Some(0))
      && Answer(rs, a) in {MissingIndex, IndexOutOfRange, LastKey, Done}
    ensures a.EnableAll? ==> Answer(rs, a) == Done
    ensures a.DisableAll? ==> Answer(rs, a) == if HasStatus(rs, 1) then Done else NothingToDo
    ensures a.DeleteAutoDisabled? ==> Answer(rs, a) == if HasStatus(rs, 3) then Done else NothingToDo
  {
    CountIsSome(rs, 1);
    CountIsSome(rs, 3);
  }

  lemma {:induction false} CountIsSome(rs: seq<Record>, status: int)
    ensures Count(rs, status) > 0 <==> HasStatus(rs, status)
  {
    if rs != [] {
      var init := rs[..|rs| - 1];
      CountIsSome(init, status);
      assert forall i :: 0 <= i < |init| ==> init[i] == rs[i];
      if HasStatus(init, status) {
        var i :| 0 <= i < |init| && init[i].status == status;
        assert rs[i].status == status;
      }
    }
  }

  /** The count of a status is the number of positions that have it. */
  lemma {:induction false} CountIsNumber(rs: seq<Record>, status: int)
    ensures Count(rs, status) == |set i | 0 <= i < |rs| && rs[i].status == status|
  {
    if rs != [] {
      var n := |rs| - 1;
      var init := rs[..n];
      CountIsNumber(init, status);
      var before := set i | 0 <= i < |init| && init[i].status == status;
      var after := set i | 0 <= i < |rs| && rs[i].status == status;
      assert after == if rs[n].status == status then before + {n} else before;
    }
  }
}
