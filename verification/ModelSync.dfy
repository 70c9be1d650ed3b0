/**
 Upstream model synchronisation of a channel: detect what the upstream list adds
 and lacks, stage it, apply a selection.  Detection and application are pure
 functions of the channel row; the class updates the row as the code does.
 */
module ModelSync {
  import opened Common
  import opened ModelNames

  /** regexp.MatchString, with an invalid pattern matching nothing. */
  type Regex = (string, string) -> bool

  const REGEX_PREFIX := "regex:"

  /** The part of a channel row that synchronisation reads and writes. */
  datatype Row = Row(
    models: string,
    mapping: map<string, string>,
    detected: seq<string>,
    removed: seq<string>,
    ignored: seq<string>,
    lastCheck: int,
    autoSync: bool)

  function Local(row: Row): seq<string> { Normalize(GetModels(row.models)) }

  // ---- detection -------------------------------------------------------------------

  predicate IgnoredBy(entry: string, name: string, re: Regex) {
    if REGEX_PREFIX <= entry then re(Trim(entry[|REGEX_PREFIX|..]), name) else entry == name
  }

  predicate Ignored(ignored: seq<string>, name: string, re: Regex) {
    exists i :: 0 <= i < |ignored| && IgnoredBy(ignored[i], name, re)
  }

  predicate Covered(local: seq<string>, mapping: map<string, string>, name: string) {
    name in local || name in mapping.Values
  }

  function PendingAdd(local: seq<string>, upstream: seq<string>, ignored: seq<string>,
                      mapping: map<string, string>, re: Regex): seq<string>
  {
    Filter(upstream, name => !Covered(local, mapping, name) && !Ignored(ignored, name, re))
  }

  function PendingRemove(local: seq<string>, upstream: seq<string>, mapping: map<string, string>): seq<string> {
    Filter(local, name => name !in mapping && name !in upstream)
  }

  /** What the row lacks of the upstream list, and what it has beyond it. */
  function AddsOf(row: Row, upstream: seq<string>, re: Regex): seq<string> {
    PendingAdd(Local(row), Normalize(upstream), Normalize(row.ignored), row.mapping, re)
  }

  function RemovesOf(row: Row, upstream: seq<string>): seq<string> {
    PendingRemove(Local(row), Normalize(upstream), row.mapping)
  }

  /** collectPendingUpstreamModelChangesFromModels: sets filled in loops, then
      two filters. */
  method CollectPending(localModels: seq<string>, upstreamModels: seq<string>, ignoredModels: seq<string>,
                        mapping: map<string, string>, re: Regex)
      returns (add: seq<string>, remove: seq<string>)
    ensures add == PendingAdd(Normalize(localModels), Normalize(upstreamModels), Normalize(ignoredModels), mapping, re)
    ensures remove == PendingRemove(Normalize(localModels), Normalize(upstreamModels), mapping)
  {
    var local, upstream, ignored := Normalize(localModels), Normalize(upstreamModels), Normalize(ignoredModels);
    var localSet := CollectNames(local);
    var upstreamSet := CollectNames(upstream);
    var sources, targets := {}, {};
    var todo := mapping.Keys;
    while todo != {}
      invariant todo <= mapping.Keys && sources == mapping.Keys - todo
      invariant targets == set source | source in mapping.Keys - todo :: mapping[source]
      decreases todo
    {
      var source :| source in todo;
      sources, targets, todo := sources + {source}, targets + {mapping[source]}, todo - {source};
    }
    var covered := localSet + targets;
    assert forall name :: name in covered <==> Covered(local, mapping, name);
    add := Filter(upstream, name => name !in covered && !Ignored(ignored, name, re));
    FilterSame(upstream, name => name !in covered && !Ignored(ignored, name, re),
               name => !Covered(local, mapping, name) && !Ignored(ignored, name, re));
    remove := Filter(local, name => name !in sources && name !in upstreamSet);
    FilterSame(local, name => name !in sources && name !in upstreamSet, name => name !in mapping && name !in upstream);
    NormalizeIsNormal(upstreamModels);
    NormalizeIsNormal(localModels);
    PendingNormal(local, upstream, ignored, mapping, re);
    NormalizeIsNormal(add);
    NormalizeIsNormal(remove);
    add, remove := Normalize(add), Normalize(remove);
  }

  lemma PendingNormal(local: seq<string>, upstream: seq<string>, ignored: seq<string>,
                      mapping: map<string, string>, re: Regex)
    requires Normal(local) && Normal(upstream)
    ensures Normal(PendingAdd(local, upstream, ignored, mapping, re))
    ensures Normal(PendingRemove(local, upstream, mapping))
  {
    FilterNormal(upstream, name => !Covered(local, mapping, name) && !Ignored(ignored, name, re));
    FilterNormal(local, name => name !in mapping && name !in upstream);
  }

  lemma PendingContains(row: Row, upstream: seq<string>, re: Regex)
    ensures forall x :: x in AddsOf(row, upstream, re) <==>
              x in Normalize(upstream) && !Covered(Local(row), row.mapping, x)
              && !Ignored(Normalize(row.ignored), x, re)
    ensures forall x :: x in RemovesOf(row, upstream) <==>
              x in Local(row) && x !in row.mapping && x !in Normalize(upstream)
    ensures Normal(AddsOf(row, upstream, re)) && Normal(RemovesOf(row, upstream)) && Normal(Local(row))
  {
    var local, up, ignored := Local(row), Normalize(upstream), Normalize(row.ignored);
    NormalizeIsNormal(GetModels(row.models));
    NormalizeIsNormal(upstream);
    PendingNormal(local, up, ignored, row.mapping, re);
    FilterContains(up, name => !Covered(local, row.mapping, name) && !Ignored(ignored, name, re));
    FilterContains(local, name => name !in row.mapping && name !in up);
  }

  /** The row after checkAndPersist: staged, or added at once by auto-sync. */
  function Detected(row: Row, upstream: seq<string>, re: Regex, allowAuto: bool, now: int): Row {
    var add := AddsOf(row, upstream, re);
    var checked := row.(lastCheck := now, removed := RemovesOf(row, upstream));
    if allowAuto && row.autoSync && |add| > 0
    then checked.(detected := [],
                  models := if |Merged(Local(row), add)| > |Local(row)| then Join(Merged(Local(row), add))
                            else row.models)
    else checked.(detected := add)
  }

  // ---- application -----------------------------------------------------------------

  /** The selected changes: only staged models, and an add wins over a remove. */
  datatype Selection = Selection(
    added: seq<string>, ignored: seq<string>, removed: seq<string>,
    remaining: seq<string>, remainingRemoved: seq<string>, next: seq<string>)

  function Chosen(origin: seq<string>, add: seq<string>, remove: seq<string>): seq<string> {
    var normalizedAdd := Normalize(add);
    var normalizedRemove := Subtracted(Normalize(remove), normalizedAdd);
    Subtracted(Merged(origin, normalizedAdd), normalizedRemove)
  }

  function Selected(row: Row, add: seq<string>, ignore: seq<string>, remove: seq<string>): Selection {
    var pendingAdd := Normalize(row.detected);
    var pendingRemove := Normalize(row.removed);
    var added := Intersected(add, pendingAdd);
    var ignored := Intersected(ignore, pendingAdd);
    var removed := Subtracted(Intersected(remove, pendingRemove), added);
    Selection(added, ignored, removed,
              Subtracted(pendingAdd, added + ignored),
              Subtracted(pendingRemove, removed),
              Chosen(Local(row), added, removed))
  }

  function Applied(row: Row, add: seq<string>, ignore: seq<string>, remove: seq<string>, now: int): Row {
    var sel := Selected(row, add, ignore, remove);
    var ignored := Merged(row.ignored, sel.ignored);
    row.(models := if Local(row) != sel.next then Join(sel.next) else row.models,
         ignored := if |sel.added| > 0 then Subtracted(ignored, sel.added) else ignored,
         detected := sel.remaining, removed := sel.remainingRemoved, lastCheck := now)
  }

  /** ApplyAll: everything staged, nothing ignored. */
  function AppliedAll(row: Row, now: int): Row {
    Applied(row, Normalize(row.detected), [], Normalize(row.removed), now)
  }

  // ---- the channel object ------------------------------------------------------------

  datatype CheckResult = Skipped | FetchFailed | DatabaseError | Checked(modelsChanged: bool, autoAdded: int)

  class Channel {
    var row: Row

    constructor (row: Row)
      ensures this.row == row
    {
      this.row := row;
    }

    /** checkAndPersistChannelUpstreamModelUpdates; `upstream` is the fetched list. */
    method Check(upstream: Option<seq<string>>, re: Regex, force: bool, allowAuto: bool,
                 minInterval: int, now: int, dbOk: bool) returns (r: CheckResult)
      modifies this
      ensures r.Skipped? <==> !force && old(row).lastCheck > 0 && now - old(row).lastCheck < minInterval
      ensures row == if r.Skipped? || !dbOk then old(row)
                     else if upstream.None? then old(row).(lastCheck := now)
                     else Detected(old(row), upstream.value, re, allowAuto, now)
      ensures r.Checked? ==> dbOk && upstream.Some?
      ensures r.Checked? ==> r.modelsChanged == (r.autoAdded > 0)
      ensures r.Checked? ==> r.autoAdded == if allowAuto && old(row).autoSync
                                            then |AddsOf(old(row), upstream.value, re)| else 0
      ensures !r.Skipped? && dbOk ==> (r.FetchFailed? <==> upstream.None?) && !r.DatabaseError?
    {
      if !force {
        if row.lastCheck > 0 && now - row.lastCheck < minInterval { return Skipped; }
      }
      var settings := row.(lastCheck := now);
      if upstream.None? {
        if !dbOk { return DatabaseError; }
        row := settings;
        return FetchFailed;
      }
      var add, remove := CollectPending(GetModels(row.models), upstream.value, row.ignored, row.mapping, re);
      var autoAdded, modelsChanged := 0, false;
      if allowAuto && settings.autoSync && |add| > 0 {
        var origin := Normalize(GetModels(row.models));
        var merged := MergeModelNames(origin, add);
        AddsAreFresh(row, upstream.value, re);
        if |merged| > |origin| {
          settings := settings.(models := Join(merged));
          autoAdded := |merged| - |origin|;
          modelsChanged := true;
        }
        settings := settings.(detected := []);
      } else {
        settings := settings.(detected := add);
      }
      settings := settings.(removed := remove);
      if !dbOk { return DatabaseError; }
      row := settings;
      return Checked(modelsChanged, autoAdded);
    }

    /** applyChannelUpstreamModelUpdates. */
    method Apply(addInput: seq<string>, ignoreInput: seq<string>, removeInput: seq<string>, now: int, dbOk: bool)
        returns (sel: Selection, modelsChanged: bool)
      modifies this
      ensures sel == Selected(old(row), addInput, ignoreInput, removeInput)
      ensures modelsChanged == (Local(old(row)) != sel.next)
      ensures row == if dbOk then Applied(old(row), addInput, ignoreInput, removeInput, now) else old(row)
    {
      var settings := row;
      var pendingAdd, pendingRemove := Normalize(settings.detected), Normalize(settings.removed);
      var add := IntersectModelNames(addInput, pendingAdd);
      var ignore := IntersectModelNames(ignoreInput, pendingAdd);
      var remove := IntersectModelNames(removeInput, pendingRemove);
      remove := SubtractModelNames(remove, add);
      var origin := Normalize(GetModels(row.models));
      var next := ApplySelected(origin, add, remove);
      modelsChanged := origin != next;
      if modelsChanged { settings := settings.(models := Join(next)); }
      var ignored := MergeModelNames(settings.ignored, ignore);
      if |add| > 0 { ignored := SubtractModelNames(ignored, add); }
      var remaining := SubtractModelNames(pendingAdd, add + ignore);
      var remainingRemove := SubtractModelNames(pendingRemove, remove);
      settings := settings.(ignored := ignored, detected := remaining, removed := remainingRemove, lastCheck := now);
      sel := Selection(add, ignore, remove, remaining, remainingRemove, next);
      if dbOk { row := settings; }
    }
  }

  /** applySelectedModelChanges. */
  method ApplySelected(origin: seq<string>, add: seq<string>, remove: seq<string>) returns (next: seq<string>)
    ensures next == Chosen(origin, add, remove)
  {
    var normalizedAdd := Normalize(add);
    var normalizedRemove := SubtractModelNames(Normalize(remove), normalizedAdd);
    var merged := MergeModelNames(origin, normalizedAdd);
    next := SubtractModelNames(merged, normalizedRemove);
  }

  // ---- what synchronisation promises ---------------------------------------------------

  lemma MergeFresh(xs: seq<string>, ys: seq<string>)
    requires Normal(xs) && Normal(ys) && forall y :: y in ys ==> y !in xs
    ensures Merged(xs, ys) == xs + ys
  {
    NormalizeIsNormal(xs);
    NormalizeIsNormal(ys);
    FilterAll(ys, y => y !in xs);
  }

  lemma AddsAreFresh(row: Row, upstream: seq<string>, re: Regex)
    ensures var add := AddsOf(row, upstream, re); Merged(Local(row), add) == Local(row) + add
  {
    PendingContains(row, upstream, re);
    MergeFresh(Local(row), AddsOf(row, upstream, re));
  }

  /** Everything `Selected` computes, element by element. */
  lemma SelectionElements(row: Row, add: seq<string>, ignore: seq<string>, remove: seq<string>)
    ensures var sel := Selected(row, add, ignore, remove);
      && Normal(sel.added) && Normal(sel.ignored) && Normal(sel.removed)
      && (forall x :: x in sel.added <==> x in Normalize(add) && x in Normalize(row.detected))
      && (forall x :: x in sel.ignored <==> x in Normalize(ignore) && x in Normalize(row.detected))
      && (forall x :: x in sel.removed <==> x in Normalize(remove) && x in Normalize(row.removed) && x !in sel.added)
  {
    var sel := Selected(row, add, ignore, remove);
    var pendingAdd, pendingRemove := Normalize(row.detected), Normalize(row.removed);
    NormalizeIsNormal(row.detected);
    NormalizeIsNormal(row.removed);
    NormalizeIsNormal(pendingAdd);
    NormalizeIsNormal(pendingRemove);
    NormalizeIsNormal(add);
    NormalizeIsNormal(ignore);
    NormalizeIsNormal(remove);
    InsideFacts(Normalize(add), pendingAdd);
    InsideFacts(Normalize(ignore), pendingAdd);
    InsideFacts(Normalize(remove), pendingRemove);
    var wanted := Intersected(remove, pendingRemove);
    NormalizeIsNormal(wanted);
    NormalizeIsNormal(sel.added);
    OutsideFacts(wanted, sel.added);
  }

  /** For every request: the staged adds are exactly the added, the ignored and
      the remaining ones, and the remaining ones are neither of the others. */
  lemma ApplyPartitionsAdds(row: Row, add: seq<string>, ignore: seq<string>, remove: seq<string>)
    ensures var sel := Selected(row, add, ignore, remove);
      && Elements(Normalize(row.detected)) == Elements(sel.added) + Elements(sel.ignored) + Elements(sel.remaining)
      && Elements(sel.remaining) !! Elements(sel.added) + Elements(sel.ignored)
  {
    hide Normalize, Subtracted, Intersected, Chosen, Local, Normal, Elements;
    SelectionElements(row, add, ignore, remove);
    var sel := Selected(row, add, ignore, remove);
    NormalizeIsNormal(row.detected);
    StagedSplit(Normalize(row.detected), sel.added, sel.ignored);
  }

  /** The staged removes split into the removed and the remaining ones. */
  lemma ApplyPartitionsRemoves(row: Row, add: seq<string>, ignore: seq<string>, remove: seq<string>)
    ensures var sel := Selected(row, add, ignore, remove);
      && Elements(Normalize(row.removed)) == Elements(sel.removed) + Elements(sel.remainingRemoved)
      && Elements(sel.remainingRemoved) !! Elements(sel.removed)
  {
    hide Normalize, Subtracted, Intersected, Chosen, Local, Normal;
    SelectionElements(row, add, ignore, remove);
    var sel := Selected(row, add, ignore, remove);
    NormalizeIsNormal(row.removed);
    StagedSplit(Normalize(row.removed), sel.removed, []);
    assert sel.removed + [] == sel.removed;
  }

  lemma StagedSplit(staged: seq<string>, taken: seq<string>, dismissed: seq<string>)
    requires Normal(staged) && Normal(taken) && Normal(dismissed)
    requires forall x :: x in taken || x in dismissed ==> x in staged
    ensures var rest := Subtracted(staged, taken + dismissed);
      && Elements(staged) == Elements(taken) + Elements(dismissed) + Elements(rest)
      && Elements(rest) !! Elements(taken) + Elements(dismissed)
  {
    SubtractedElements(staged, taken + dismissed);
  }

  /** Subtracting names from a normalised list removes exactly those. */
  lemma SubtractedElements(xs: seq<string>, ys: seq<string>)
    requires forall y :: y in ys ==> Name(y)
    ensures forall x :: x in Subtracted(xs, ys) <==> x in Normalize(xs) && x !in ys
    ensures Normal(xs) ==> Normalize(xs) == xs
    ensures Normal(Subtracted(xs, ys))
  {
    NormalizeIsNormal(xs);
    OutsideFacts(Normalize(xs), Normalize(ys));
    CleanedNames(ys);
    UniqFacts(Cleaned(ys));
  }

  /** No model that was added stays on the ignore list. */
  lemma AddedNotIgnored(row: Row, add: seq<string>, ignore: seq<string>, remove: seq<string>, now: int, x: string)
    requires x in Selected(row, add, ignore, remove).added
    ensures x !in Applied(row, add, ignore, remove, now).ignored
  {
    SelectionElements(row, add, ignore, remove);
    var sel := Selected(row, add, ignore, remove);
    SubtractedElements(Merged(row.ignored, sel.ignored), sel.added);
  }

  /** The new list: surviving originals in their order, then the additions. */
  lemma NextList(row: Row, add: seq<string>, ignore: seq<string>, remove: seq<string>)
    ensures var sel := Selected(row, add, ignore, remove);
      && Normal(sel.next)
      && sel.next == Outside(Local(row), sel.removed) + Outside(sel.added, Local(row))
      && (forall x :: x in sel.next <==>
            (x in Local(row) || x in sel.added)
            && !(x in Normalize(remove) && x in Normalize(row.removed) && x !in sel.added))
  {
    SelectionElements(row, add, ignore, remove);
    var sel := Selected(row, add, ignore, remove);
    NormalizeIsNormal(GetModels(row.models));
    ChosenShape(Local(row), sel.added, sel.removed);
    OutsideFacts(Local(row), sel.removed);
    OutsideFacts(sel.added, Local(row));
  }

  lemma ChosenShape(origin: seq<string>, add: seq<string>, remove: seq<string>)
    requires Normal(origin) && Normal(add) && Normal(remove) && forall x :: x in remove ==> x !in add
    ensures Chosen(origin, add, remove) == Outside(origin, remove) + Outside(add, origin)
    ensures Normal(Chosen(origin, add, remove))
  {
    NormalizeIsNormal(origin);
    NormalizeIsNormal(add);
    NormalizeIsNormal(remove);
    FilterAll(remove, x => x !in add);
    OutsideFacts(add, origin);
    MergedFacts(origin, add);
    NormalizeIsNormal(Merged(origin, add));
    FilterConcat(origin, Outside(add, origin), x => x !in remove);
    FilterAll(Outside(add, origin), x => x !in remove);
    OutsideFacts(Merged(origin, add), remove);
  }

  // ---- convergence ---------------------------------------------------------------------

  /** A second detection finds nothing after detecting and applying all. */
  ghost predicate Converges(row: Row, upstream: seq<string>, re: Regex, now: int) {
    var after := AppliedAll(Detected(row, upstream, re, false, now), now);
    AddsOf(after, upstream, re) == [] && RemovesOf(after, upstream) == []
  }

  /** Every uncovered upstream name on the ignore list stays ignored when the
      added names are struck off that list. */
  ghost predicate IgnoreSurvives(row: Row, upstream: seq<string>, re: Regex) {
    forall x :: x in Normalize(upstream) && !Covered(Local(row), row.mapping, x)
                && Ignored(Normalize(row.ignored), x, re) ==>
      Ignored(Outside(Normalize(row.ignored), AddsOf(row, upstream, re)), x, re)
  }

  ghost predicate AddsCommaFree(row: Row, upstream: seq<string>, re: Regex) {
    forall x :: x in AddsOf(row, upstream, re) ==> CommaFree(x)
  }

  /** The row after applying everything: the staged adds and removes, nothing else. */
  lemma AppliedAllFacts(row: Row, upstream: seq<string>, re: Regex, now: int)
    ensures var add := AddsOf(row, upstream, re);
      var remove := RemovesOf(row, upstream);
      var staged := Detected(row, upstream, re, false, now);
      var after := AppliedAll(staged, now);
      && Selected(staged, Normalize(staged.detected), [], Normalize(staged.removed)).next
           == Outside(Local(row), remove) + Outside(add, Local(row))
      && after.mapping == row.mapping
      && Normalize(after.ignored) == Outside(Normalize(row.ignored), add)
  {
    var add, remove := AddsOf(row, upstream, re), RemovesOf(row, upstream);
    var staged := Detected(row, upstream, re, false, now);
    PendingContains(row, upstream, re);
    NormalizeIsNormal(add);
    NormalizeIsNormal(remove);
    assert forall x :: x in remove ==> x !in add;
    FilterAll(add, x => x in add);
    FilterAll(remove, x => x in remove);
    FilterAll(remove, x => x !in add);
    var sel := Selected(staged, add, [], remove);
    assert sel.added == add && sel.removed == remove && sel.ignored == [];
    NextList(staged, add, [], remove);
    IgnoreListAfter(row.ignored, add);
  }

  lemma IgnoreListAfter(ignored: seq<string>, add: seq<string>)
    requires Normal(add)
    ensures Normalize(if |add| > 0 then Subtracted(Merged(ignored, []), add) else Merged(ignored, []))
              == Outside(Normalize(ignored), add)
  {
    NormalizeIsNormal(ignored);
    NormalizeIsNormal(add);
    MergedFacts(ignored, []);
    assert Merged(ignored, []) == Normalize(ignored);
    NormalizeIsNormal(Normalize(ignored));
    OutsideFacts(Normalize(ignored), add);
    NormalizeIsNormal(Outside(Normalize(ignored), add));
    if add == [] { FilterAll(Normalize(ignored), x => x !in add); }
  }

  /** What the second detection sees as local: the computed list when its names
      survive the comma-joined text, and never a name with a comma. */
  lemma LocalAfter(row: Row, next: seq<string>, models: string)
    requires Normal(next) && models == if Local(row) != next then Join(next) else row.models
    ensures (forall x :: x in next ==> CommaFree(x)) ==> Local(row.(models := models)) == next
    ensures forall x :: x in Local(row.(models := models)) ==> CommaFree(x)
  {
    LocalIsCommaFree(row.(models := models));
    if Local(row) != next && forall x :: x in next ==> CommaFree(x) {
      StoredTextRoundTrip(next);
      NormalizeIsNormal(next);
    }
  }

  lemma LocalIsCommaFree(row: Row)
    ensures forall x :: x in Local(row) ==> CommaFree(x)
  {
    var models := GetModels(row.models);
    GetModelsIsCommaFree(row.models);
    forall x | x in Local(row) ensures CommaFree(x) {
      NormalizeContains(models, x);
      var i :| 0 <= i < |models| && Trim(models[i]) == x;
      assert models[i] in models;
      TrimKeepsCommaFree(models[i]);
    }
  }

  lemma TrimKeepsCommaFree(s: string)
    requires CommaFree(s)
    ensures CommaFree(Trim(s))
  {
    DropLeadingIsSuffix(s);
    DropTrailingStops(DropLeading(s));
  }

  lemma {:induction false} DropLeadingIsSuffix(s: string)
    ensures |DropLeading(s)| <= |s| && DropLeading(s) == s[|s| - |DropLeading(s)|..]
  {
    if s != "" && IsSpace(s[0]) { DropLeadingIsSuffix(s[1..]); }
  }

  /** Detecting and applying everything converges if and only if no added name
      contains a comma and no ignored name loses its protection. */
  lemma ConvergesExactly(row: Row, upstream: seq<string>, re: Regex, now: int)
    ensures Converges(row, upstream, re, now) <==>
              AddsCommaFree(row, upstream, re) && IgnoreSurvives(row, upstream, re)
  {
    var add, remove := AddsOf(row, upstream, re), RemovesOf(row, upstream);
    var staged := Detected(row, upstream, re, false, now);
    var after := AppliedAll(staged, now);
    var next := Outside(Local(row), remove) + Outside(add, Local(row));
    AppliedAllFacts(row, upstream, re, now);
    PendingContains(row, upstream, re);
    PendingContains(after, upstream, re);
    OutsideFacts(Local(row), remove);
    OutsideFacts(add, Local(row));
    LocalIsCommaFree(row);
    NextList(staged, Normalize(staged.detected), [], Normalize(staged.removed));
    LocalAfter(staged, next, after.models);
    assert Local(after) == Local(staged.(models := after.models));
    if AddsCommaFree(row, upstream, re) {
      assert Local(after) == next;
      ConvergesWithoutCommas(row, after, upstream, re);
    } else {
      var x :| x in add && !CommaFree(x);
      CommaNameComesBack(row, after, upstream, re, x);
    }
  }

  lemma ConvergesWithoutCommas(row: Row, after: Row, upstream: seq<string>, re: Regex)
    requires after.mapping == row.mapping
    requires Normalize(after.ignored) == Outside(Normalize(row.ignored), AddsOf(row, upstream, re))
    requires forall x :: x in Local(after) <==>
               (x in Local(row) && x !in RemovesOf(row, upstream)) || x in AddsOf(row, upstream, re)
    ensures RemovesOf(after, upstream) == []
    ensures AddsOf(after, upstream, re) == [] <==> IgnoreSurvives(row, upstream, re)
  {
    PendingContains(row, upstream, re);
    PendingContains(after, upstream, re);
    var again := RemovesOf(after, upstream);
    EmptyOrMember(again);
    var adds := AddsOf(after, upstream, re);
    EmptyOrMember(adds);
    assert adds == [] ==> forall x :: x in Normalize(upstream) ==> x !in adds;
  }

  lemma CommaNameComesBack(row: Row, after: Row, upstream: seq<string>, re: Regex, x: string)
    requires x in AddsOf(row, upstream, re) && !CommaFree(x) && after.mapping == row.mapping
    requires Normalize(after.ignored) == Outside(Normalize(row.ignored), AddsOf(row, upstream, re))
    requires forall y :: y in Local(after) ==> CommaFree(y)
    ensures x in AddsOf(after, upstream, re)
  {
    hide Normalize, Local, Outside, IgnoredBy, CommaFree, Normal;
    PendingContains(row, upstream, re);
    PendingContains(after, upstream, re);
    hide AddsOf;
    OutsideFacts(Normalize(row.ignored), AddsOf(row, upstream, re));
    var kept := Normalize(after.ignored);
    forall i | 0 <= i < |kept| ensures !IgnoredBy(kept[i], x, re) {
      assert kept[i] in kept;
      var j :| 0 <= j < |Normalize(row.ignored)| && Normalize(row.ignored)[j] == kept[i];
    }
  }

  /** With no comma in the names and no upstream name that looks like a pattern,
      one round of detect and apply-all reaches a fixed point. */
  lemma DetectApplyConverges(row: Row, upstream: seq<string>, re: Regex, now: int)
    requires forall x :: x in Normalize(upstream) ==> CommaFree(x) && !(REGEX_PREFIX <= x)
    ensures Converges(row, upstream, re, now)
  {
    ConvergesExactly(row, upstream, re, now);
    PendingContains(row, upstream, re);
    var ignored, add := Normalize(row.ignored), AddsOf(row, upstream, re);
    forall x | x in Normalize(upstream) && !Covered(Local(row), row.mapping, x) && Ignored(ignored, x, re)
      ensures Ignored(Outside(ignored, add), x, re)
    {
      StaysIgnored(ignored, add, x, re);
    }
  }

  /** Striking plain names off the ignore list exposes only those names. */
  lemma StaysIgnored(ignored: seq<string>, add: seq<string>, x: string, re: Regex)
    requires Ignored(ignored, x, re) && x !in add
    requires forall y :: y in add ==> !(REGEX_PREFIX <= y)
    ensures Ignored(Outside(ignored, add), x, re)
  {
    OutsideFacts(ignored, add);
    var i :| 0 <= i < |ignored| && IgnoredBy(ignored[i], x, re);
    var kept := Outside(ignored, add);
    assert ignored[i] !in add && ignored[i] in kept;
    var j :| 0 <= j < |kept| && kept[j] == ignored[i];
    assert IgnoredBy(kept[j], x, re);
  }

  /** Auto-sync leaves nothing to add and the same models to remove, if and only
      if no added name contains a comma. */
  lemma AutoSyncSettlesExactly(row: Row, upstream: seq<string>, re: Regex, now: int)
    requires row.autoSync
    ensures var after := Detected(row, upstream, re, true, now);
      AddsOf(after, upstream, re) == [] && RemovesOf(after, upstream) == RemovesOf(row, upstream)
      <==> AddsCommaFree(row, upstream, re)
  {
    var add := AddsOf(row, upstream, re);
    var after := Detected(row, upstream, re, true, now);
    PendingContains(row, upstream, re);
    PendingContains(after, upstream, re);
    AddsAreFresh(row, upstream, re);
    LocalIsCommaFree(row);
    LocalIsCommaFree(after);
    if AddsCommaFree(row, upstream, re) {
      if add != [] {
        MergedFacts(Local(row), add);
        LocalAfter(row, Local(row) + add, after.models);
        assert Local(after) == Local(row.(models := after.models));
        AutoSyncedLists(row, after, upstream, re);
      }
    } else {
      var x :| x in add && !CommaFree(x);
      assert x in AddsOf(after, upstream, re);
    }
  }

  lemma AutoSyncedLists(row: Row, after: Row, upstream: seq<string>, re: Regex)
    requires after.mapping == row.mapping && after.ignored == row.ignored
    requires Local(after) == Local(row) + AddsOf(row, upstream, re)
    ensures AddsOf(after, upstream, re) == [] && RemovesOf(after, upstream) == RemovesOf(row, upstream)
  {
    var add := AddsOf(row, upstream, re);
    PendingContains(row, upstream, re);
    PendingContains(after, upstream, re);
    var adds := AddsOf(after, upstream, re);
    EmptyOrMember(adds);
    var stale := (name: string) => name !in row.mapping && name !in Normalize(upstream);
    FilterConcat(Local(row), add, stale);
    FilterSame(add, stale, name => false);
    NothingKept(add);
    FilterSame(Local(after), name => name !in after.mapping && name !in Normalize(upstream), stale);
    FilterSame(Local(row), name => name !in row.mapping && name !in Normalize(upstream), stale);
  }

  lemma {:induction false} NothingKept(xs: seq<string>)
    ensures Filter(xs, name => false) == []
  {
    if xs != [] { NothingKept(xs[..|xs| - 1]); }
  }

  /** Without the comma hypothesis: an empty channel whose upstream offers a
      single name with a comma is offered that name again after applying it. */
  lemma CommaNeverConverges(row: Row, name: string, re: Regex, now: int)
    requires row.models == "" && row.mapping == map[] && row.ignored == []
    requires Name(name) && ',' in name
    ensures !Converges(row, [name], re, now)
  {
    OnlyNameIsAdded(row, name, re);
    ConvergesExactly(row, [name], re, now);
    assert !CommaFree(name);
  }

  lemma OnlyNameIsAdded(row: Row, name: string, re: Regex)
    requires row.models == "" && row.mapping == map[] && row.ignored == [] && Name(name)
    ensures name in AddsOf(row, [name], re)
  {
    PendingContains(row, [name], re);
    NormalizeIsNormal([name]);
    assert [name][0] in Normalize([name]);
    assert Local(row) == [] && Normalize(row.ignored) == [];
  }

  /** Without the second condition: upstream offers a name that reads like the
      ignored pattern.  Adding it strikes the pattern off the ignore list, and the
      name the pattern kept out is offered next. */
  lemma StruckPatternNeverConverges(row: Row, pattern: string, name: string, re: Regex, now: int)
    requires row.models == "" && row.mapping == map[] && row.ignored == [REGEX_PREFIX + pattern]
    requires Name(name) && Name(pattern) && re(pattern, name) && !re(pattern, REGEX_PREFIX + pattern)
    ensures !Converges(row, [name, REGEX_PREFIX + pattern], re, now)
  {
    hide Normalize, Converges, IgnoreSurvives, GetModels, Name;
    var entry := REGEX_PREFIX + pattern;
    var upstream := [name, entry];
    PrefixedName(pattern);
    assert IgnoredBy(entry, name, re) && !IgnoredBy(entry, entry, re);
    hide IgnoredBy;
    NormalPair(entry, entry);
    NormalPair(name, entry);
    NothingLocal(row);
    assert upstream[0] in upstream && upstream[1] in upstream;
    PatternIsStruck(row, upstream, entry, name, re);
    ConvergesExactly(row, upstream, re, now);
  }

  lemma NormalPair(x: string, y: string)
    requires Name(x) && Name(y)
    ensures Normalize([x]) == [x] && (x != y ==> Normalize([x, y]) == [x, y])
  {
    hide Normalize, Name;
    NormalizeIsNormal([x]);
    NormalizeIsNormal([x, y]);
  }

  lemma NothingLocal(row: Row)
    requires row.models == ""
    ensures Local(row) == []
  {
    assert GetModels("") == [] && Cleaned([]) == [];
  }

  lemma PatternIsStruck(row: Row, upstream: seq<string>, entry: string, name: string, re: Regex)
    requires Local(row) == [] && row.mapping == map[] && Normalize(row.ignored) == [entry]
    requires name in Normalize(upstream) && entry in Normalize(upstream)
    requires IgnoredBy(entry, name, re) && !IgnoredBy(entry, entry, re)
    ensures !IgnoreSurvives(row, upstream, re)
  {
    hide Normalize, Local, IgnoredBy, Outside;
    PendingContains(row, upstream, re);
    hide AddsOf;
    var add := AddsOf(row, upstream, re);
    assert [entry][0] == entry;
    assert entry in add;
    OutsideFacts([entry], add);
    EmptyOrMember(Outside([entry], add));
    assert Outside([entry], add) == [];
    assert !Ignored(Outside([entry], add), name, re) && Ignored([entry], name, re);
  }

  lemma PrefixedName(pattern: string)
    requires Name(pattern)
    ensures Name(REGEX_PREFIX + pattern) && REGEX_PREFIX <= REGEX_PREFIX + pattern
    ensures Trim((REGEX_PREFIX + pattern)[|REGEX_PREFIX|..]) == pattern
  {
    TrimTrims(pattern);
    var entry := REGEX_PREFIX + pattern;
    assert entry[0] == 'r' && entry[|entry| - 1] == pattern[|pattern| - 1];
    assert entry[|REGEX_PREFIX|..] == pattern;
  }

  // ---- what detection offers, name by name ----------------------------------------------

  /** A name is offered exactly when upstream lists it, it is not local, no mapping
      leads to it, and the ignore list neither holds it nor has a pattern for it. */
  lemma OfferedExactly(row: Row, upstream: seq<string>, re: Regex, x: string)
    ensures x in AddsOf(row, upstream, re) <==>
      && x in Normalize(upstream) && x !in Local(row)
      && (forall source :: source in row.mapping ==> row.mapping[source] != x)
      && (forall entry :: entry in Normalize(row.ignored) ==>
            if "regex:" <= entry then !re(Trim(entry[6..]), x) else entry != x)
  {
    hide Normalize, Local, Trim;
    PendingContains(row, upstream, re);
    hide AddsOf;
    var ignored := Normalize(row.ignored);
    assert Covered(Local(row), row.mapping, x) <==>
      x in Local(row) || !(forall source :: source in row.mapping ==> row.mapping[source] != x);
    if Ignored(ignored, x, re) {
      var i :| 0 <= i < |ignored| && IgnoredBy(ignored[i], x, re);
      assert ignored[i] in ignored;
    } else {
      forall entry | entry in ignored ensures !IgnoredBy(entry, x, re) {
        var i :| 0 <= i < |ignored| && ignored[i] == entry;
      }
    }
    assert forall entry :: IgnoredBy(entry, x, re) <==>
      !(if "regex:" <= entry then !re(Trim(entry[6..]), x) else entry != x);
  }

  /** As an entry of the ignore list the name covers itself: it is plain, or a
      pattern that matches itself. */
  ghost predicate IgnoresItself(x: string, re: Regex) {
    "regex:" <= x ==> re(Trim(x[6..]), x)
  }

  /** A name on the ignore list that covers itself there, and a name some mapping
      leads to, is never offered, whatever upstream says. */
  lemma NeverOffered(row: Row, upstream: seq<string>, re: Regex, x: string)
    requires || (x in Normalize(row.ignored) && IgnoresItself(x, re))
             || (exists source :: source in row.mapping && row.mapping[source] == x)
    ensures x !in AddsOf(row, upstream, re)
  {
    hide Normalize, Local, AddsOf, Trim;
    OfferedExactly(row, upstream, re, x);
  }

  /** A later operation on the channel. */
  datatype Op =
    | DetectOp(upstream: seq<string>, allowAuto: bool, now: int)
    | ApplyOp(add: seq<string>, ignore: seq<string>, remove: seq<string>, now: int)

  function Perform(row: Row, op: Op, re: Regex): Row {
    match op
    case DetectOp(upstream, allowAuto, now) => Detected(row, upstream, re, allowAuto, now)
    case ApplyOp(add, ignore, remove, now) => Applied(row, add, ignore, remove, now)
  }

  function PerformAll(row: Row, ops: seq<Op>, re: Regex): Row
    decreases |ops|
  {
    if ops == [] then row else Perform(PerformAll(row, ops[..|ops| - 1], re), ops[|ops| - 1], re)
  }

  /** Dismissed: on the ignore list and not staged. */
  ghost predicate Dismissed(row: Row, x: string) {
    x in Normalize(row.ignored) && x !in Normalize(row.detected)
  }

  lemma DetectKeepsDismissed(row: Row, upstream: seq<string>, re: Regex, allowAuto: bool, now: int, x: string)
    requires Dismissed(row, x) && IgnoresItself(x, re)
    ensures Dismissed(Detected(row, upstream, re, allowAuto, now), x)
  {
    NeverOffered(row, upstream, re, x);
    PendingContains(row, upstream, re);
    hide Local, RemovesOf, Merged, Join;
    var add := AddsOf(row, upstream, re);
    NormalizeIsNormal(add);
    hide AddsOf;
    assert Normalize([]) == [];
  }

  lemma ApplyKeepsDismissed(row: Row, add: seq<string>, ignore: seq<string>, remove: seq<string>, now: int, x: string)
    requires Dismissed(row, x) || IsDismissedBy(row, add, ignore, x)
    ensures Dismissed(Applied(row, add, ignore, remove, now), x)
  {
    var sel := Selected(row, add, ignore, remove);
    var after := Applied(row, add, ignore, remove, now);
    SelectionElements(row, add, ignore, remove);
    MergedFacts(row.ignored, sel.ignored);
    NormalizeIsNormal(sel.ignored);
    NormalizeIsNormal(Merged(row.ignored, sel.ignored));
    SubtractedElements(Merged(row.ignored, sel.ignored), sel.added);
    NormalizeIsNormal(Subtracted(Merged(row.ignored, sel.ignored), sel.added));
    NormalizeIsNormal(row.detected);
    SubtractedElements(Normalize(row.detected), sel.added + sel.ignored);
    NormalizeIsNormal(sel.remaining);
    hide Normalize, Merged, Subtracted, Local, Normal;
    assert x !in sel.added;
    assert x in Normalize(after.ignored);
    assert x !in Normalize(after.detected);
  }

  /** A request ignores a staged name and does not add it. */
  ghost predicate IsDismissedBy(row: Row, add: seq<string>, ignore: seq<string>, x: string) {
    x in Normalize(ignore) && x in Normalize(row.detected) && x !in Normalize(add)
  }

  /** A name that was staged and then ignored, and that covers itself on the ignore
      list, is not offered by any later detection, after any further operations. */
  lemma {:induction false} IgnoredForGood(row: Row, add: seq<string>, ignore: seq<string>, remove: seq<string>, now: int,
                                          ops: seq<Op>, upstream: seq<string>, re: Regex, x: string)
    requires IsDismissedBy(row, add, ignore, x) && IgnoresItself(x, re)
    ensures var later := PerformAll(Applied(row, add, ignore, remove, now), ops, re);
      Dismissed(later, x) && x !in AddsOf(later, upstream, re)
    decreases |ops|
  {
    hide Applied, Detected, AddsOf, Normalize, IsDismissedBy, IgnoresItself;
    var first := Applied(row, add, ignore, remove, now);
    if ops == [] {
      ApplyKeepsDismissed(row, add, ignore, remove, now, x);
      assert PerformAll(first, ops, re) == first;
    } else {
      var init, op := ops[..|ops| - 1], ops[|ops| - 1];
      IgnoredForGood(row, add, ignore, remove, now, init, upstream, re, x);
      var mid := PerformAll(first, init, re);
      match op
      case DetectOp(up, allowAuto, at) => DetectKeepsDismissed(mid, up, re, allowAuto, at, x);
      case ApplyOp(more, other, gone, at) => ApplyKeepsDismissed(mid, more, other, gone, at, x);
    }
    NeverOffered(PerformAll(first, ops, re), upstream, re, x);
  }

  /** The name `x`, staged and then ignored, is offered again after some further
      operations on some channel. */
  ghost predicate ComesBack(x: string, re: Regex) {
    exists row, add, ignore, remove, now, ops, upstream :: ComesBackAfter(row, add, ignore, remove, now, ops, upstream, re, x)
  }

  ghost predicate ComesBackAfter(row: Row, add: seq<string>, ignore: seq<string>, remove: seq<string>, now: int,
                                 ops: seq<Op>, upstream: seq<string>, re: Regex, x: string) {
    && IsDismissedBy(row, add, ignore, x)
    && x in AddsOf(PerformAll(Applied(row, add, ignore, remove, now), ops, re), upstream, re)
  }

  /** An ignored name stays away for good, on every channel and in every run, if and
      only if it covers itself on the ignore list: a name that reads like a pattern
      becomes that pattern when it is ignored. */
  lemma IgnoredForGoodExactly(x: string, re: Regex)
    requires Name(x)
    ensures !ComesBack(x, re) <==> IgnoresItself(x, re)
  {
    hide IsDismissedBy, AddsOf, Applied;
    if IgnoresItself(x, re) {
      forall row, add, ignore, remove, now, ops, upstream
        ensures !ComesBackAfter(row, add, ignore, remove, now, ops, upstream, re, x)
      {
        if IsDismissedBy(row, add, ignore, x) { IgnoredForGood(row, add, ignore, remove, now, ops, upstream, re, x); }
      }
    } else {
      var row := Row("", map[], [x], [], [], 0, false);
      PatternNameReturns(row, x, re);
      assert PerformAll(Applied(row, [], [x], [], 0), [], re) == Applied(row, [], [x], [], 0);
      assert ComesBackAfter(row, [], [x], [], 0, [], [x], re, x);
    }
  }

  lemma PatternNameReturns(row: Row, x: string, re: Regex)
    requires Name(x) && !IgnoresItself(x, re) && row == Row("", map[], [x], [], [], 0, false)
    ensures IsDismissedBy(row, [], [x], x) && x in AddsOf(Applied(row, [], [x], [], 0), [x], re)
  {
    NormalPair(x, x);
    NormalizeIsNormal([]);
    var after := Applied(row, [], [x], [], 0);
    AppliedRecords(row, [], [x], [], 0);
    SelectionElements(row, [], [x], []);
    NextList(row, [], [x], []);
    NothingLocal(row);
    hide Normalize, AddsOf, Normal, Name;
    assert x in [x];
    var sel := Selected(row, [], [x], []);
    EmptyOrMember(sel.next);
    assert Local(after) == [];
    OfferedExactly(after, [x], re, x);
  }

  /** What a check records besides the models: the lists found, the time, and the
      ignore list as it was; with auto-sync the adds are not staged. */
  lemma DetectedRecords(row: Row, upstream: seq<string>, re: Regex, allowAuto: bool, now: int)
    ensures var after := Detected(row, upstream, re, allowAuto, now);
      && after.lastCheck == now && after.ignored == row.ignored && after.mapping == row.mapping
      && after.autoSync == row.autoSync
      && (forall x :: x in after.removed <==> x in Local(row) && x !in row.mapping && x !in Normalize(upstream))
      && (if allowAuto && row.autoSync then after.detected == []
          else after.models == row.models && (forall x :: x in after.detected <==> x in AddsOf(row, upstream, re)))
  {
    PendingContains(row, upstream, re);
  }

  /** What an application records besides the models: nothing handled stays staged,
      the ignore list gains what was ignored and loses what was added, and the time. */
  lemma AppliedRecords(row: Row, add: seq<string>, ignore: seq<string>, remove: seq<string>, now: int)
    ensures var after := Applied(row, add, ignore, remove, now);
      var sel := Selected(row, add, ignore, remove);
      && after.lastCheck == now && after.mapping == row.mapping && after.autoSync == row.autoSync
      && (forall x :: x in after.detected <==> x in Normalize(row.detected) && x !in Normalize(add) && x !in Normalize(ignore))
      && (forall x :: x in after.removed <==> x in Normalize(row.removed) && (x !in Normalize(remove) || x in sel.added))
      && (forall x :: x in Normalize(after.ignored) <==>
            (x in Normalize(row.ignored) || x in sel.ignored) && x !in sel.added)
  {
    var sel := Selected(row, add, ignore, remove);
    SelectionElements(row, add, ignore, remove);
    MergedFacts(row.ignored, sel.ignored);
    NormalizeIsNormal(sel.ignored);
    NormalizeIsNormal(Merged(row.ignored, sel.ignored));
    SubtractedElements(Merged(row.ignored, sel.ignored), sel.added);
    NormalizeIsNormal(Subtracted(Merged(row.ignored, sel.ignored), sel.added));
    NormalizeIsNormal(row.detected);
    NormalizeIsNormal(row.removed);
    SubtractedElements(Normalize(row.detected), sel.added + sel.ignored);
    SubtractedElements(Normalize(row.removed), sel.removed);
    hide Normalize, Merged, Subtracted, Local, Normal;
    assert sel.added == [] ==> forall x: string :: x !in sel.added;
  }
}
