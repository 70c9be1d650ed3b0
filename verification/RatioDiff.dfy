/**
 The price comparison of buildDifferences: collect every model, compare every
 pricing field with every upstream channel, then prune channels and items that
 show no real difference.
 */
module RatioDiff {

  /** Go's nil, float64 and string.  Every numeric JSON form is a Num. */
  datatype Value = Null | Num(n: real) | Str(s: string)

  const EPSILON: real := 0.000000001
  const SAME := Str("same")

  predicate NearlyEqual(a: real, b: real) {
    if a > b then a - b < EPSILON else b - a < EPSILON
  }

  predicate ValuesEqual(a: Value, b: Value) {
    if a.Num? && b.Num? then NearlyEqual(a.n, b.n) else a == b
  }

  const PRICING_FIELDS: seq<string> := [
    "model_ratio", "completion_ratio", "cache_ratio", "create_cache_ratio", "image_ratio",
    "audio_ratio", "audio_completion_ratio", "model_price", "billing_mode", "billing_expr"]

  type Table = map<string, Value>     // model -> value
  type Data = map<string, Table>      // field -> table

  datatype Channel = Channel(name: string, data: Data)
  datatype Item = Item(current: Value, upstreams: map<string, Value>, confidence: map<string, bool>)

  type Row = map<string, Item>        // field -> item
  type Differences = map<string, Row> // model -> row

  /** valueMap(data[field]). */
  function TableOf(data: Data, field: string): Table {
    if field in data then data[field] else map[]
  }

  function ValueOf(data: Data, field: string, model: string): Value {
    if model in TableOf(data, field) then TableOf(data, field)[model] else Null
  }

  // ---- the passes, as functions ------------------------------------------------------

  ghost function ModelsIn(data: Data): set<string> {
    set f, m | f in PRICING_FIELDS && m in TableOf(data, f) :: m
  }

  ghost function AllModels(local: Data, channels: seq<Channel>): set<string> {
    ModelsIn(local) + set i, m | 0 <= i < |channels| && m in ModelsIn(channels[i].data) :: m
  }

  /** Placeholder prices (ratio 37.5 with completion 1) are not trusted. */
  predicate Trusted(data: Data, model: string) {
    var ratios, completions := TableOf(data, "model_ratio"), TableOf(data, "completion_ratio");
    !(model in ratios && model in completions && ratios[model].Num? && completions[model].Num?
      && NearlyEqual(ratios[model].n, 37.5) && NearlyEqual(completions[model].n, 1.0))
  }

  type Confidence = map<string, map<string, bool>>  // channel name -> model -> trusted

  /** A later channel of the same name replaces an earlier one. */
  ghost function Confidences(channels: seq<Channel>, models: set<string>): Confidence {
    if channels == [] then map[]
    else
      var c := channels[|channels| - 1];
      Confidences(channels[..|channels| - 1], models)[c.name := map m | m in models :: Trusted(c.data, m)]
  }

  predicate Offers(c: Channel, field: string, model: string) {
    model in TableOf(c.data, field)
  }

  /** What the comparison shows for a channel: its value, "same", or nothing. */
  function Mark(local: Data, c: Channel, field: string, model: string): Value {
    var here, there := ValueOf(local, field, model), ValueOf(c.data, field, model);
    if Offers(c, field, model) then (if ValuesEqual(here, there) then SAME else there)
    else if here == Null then SAME else Null
  }

  function Marks(local: Data, channels: seq<Channel>, field: string, model: string): map<string, Value> {
    if channels == [] then map[]
    else
      var c := channels[|channels| - 1];
      Marks(local, channels[..|channels| - 1], field, model)[c.name := Mark(local, c, field, model)]
  }

  function Trusts(conf: Confidence, channels: seq<Channel>, model: string): map<string, bool> {
    if channels == [] then map[]
    else
      var c := channels[|channels| - 1];
      Trusts(conf, channels[..|channels| - 1], model)
        [c.name := c.name in conf && model in conf[c.name] && conf[c.name][model]]
  }

  /** Some channel offers a value that differs from a local one, or any value
      where there is no local one. */
  predicate Includes(local: Data, channels: seq<Channel>, field: string, model: string) {
    var here := ValueOf(local, field, model);
    exists i :: 0 <= i < |channels| && Offers(channels[i], field, model)
                && (here == Null || !ValuesEqual(here, ValueOf(channels[i].data, field, model)))
  }

  function ItemOf(local: Data, channels: seq<Channel>, conf: Confidence, field: string, model: string): Item {
    Item(ValueOf(local, field, model), Marks(local, channels, field, model), Trusts(conf, channels, model))
  }

  ghost function RawRow(local: Data, channels: seq<Channel>, conf: Confidence, model: string): Row {
    map f | f in PRICING_FIELDS && Includes(local, channels, f, model) :: ItemOf(local, channels, conf, f, model)
  }

  ghost function RawRows(local: Data, channels: seq<Channel>, conf: Confidence, models: set<string>): Differences {
    map m | m in models :: RawRow(local, channels, conf, m)
  }

  predicate NonEmpty(row: Row) { |row| > 0 }

  function NonEmptyRows(d: Differences): Differences {
    map m | m in d && NonEmpty(d[m]) :: d[m]
  }

  predicate Shows(item: Item, name: string) {
    name in item.upstreams && item.upstreams[name] != Null && item.upstreams[name] != SAME
  }

  ghost function Flagged(d: Differences): set<string> {
    set m, f, name | m in d && f in d[m] && name in d[m][f].upstreams && Shows(d[m][f], name) :: name
  }

  function PrunedItem(item: Item, flagged: set<string>): Item {
    var gone := item.upstreams.Keys - flagged;
    item.(upstreams := item.upstreams - gone, confidence := item.confidence - gone)
  }

  predicate AllSame(item: Item) {
    forall name :: name in item.upstreams ==> item.upstreams[name] == SAME
  }

  predicate Keeps(item: Item) {
    item.upstreams != map[] && !AllSame(item)
  }

  function PrunedRow(row: Row, flagged: set<string>): Row {
    map f | f in row && Keeps(PrunedItem(row[f], flagged)) :: PrunedItem(row[f], flagged)
  }

  function PrunedRows(d: Differences, flagged: set<string>): Differences {
    map m | m in d :: PrunedRow(d[m], flagged)
  }

  ghost function Raw(local: Data, channels: seq<Channel>): Differences {
    var models := AllModels(local, channels);
    NonEmptyRows(RawRows(local, channels, Confidences(channels, models), models))
  }

  ghost function Final(local: Data, channels: seq<Channel>): Differences {
    NonEmptyRows(PrunedRows(Raw(local, channels), Flagged(Raw(local, channels))))
  }

  // ---- the code ------------------------------------------------------------------------

  method BuildDifferences(local: Data, channels: seq<Channel>) returns (d: Differences)
    ensures d == Final(local, channels)
  {
    var models := CollectModels(local, channels);
    var conf := CheckConfidence(channels, models);
    d := CompareAll(local, channels, conf, models);
    var flagged := FlagChannels(d);
    d := Prune(d, flagged);
  }

  method CollectFrom(data: Data) returns (models: set<string>)
    ensures models == ModelsIn(data)
  {
    models := {};
    for i := 0 to |PRICING_FIELDS|
      invariant models == set f, m | f in PRICING_FIELDS[..i] && m in TableOf(data, f) :: m
    {
      models := models + TableOf(data, PRICING_FIELDS[i]).Keys;
    }
    assert PRICING_FIELDS[..|PRICING_FIELDS|] == PRICING_FIELDS;
  }

  method CollectModels(local: Data, channels: seq<Channel>) returns (models: set<string>)
    ensures models == AllModels(local, channels)
  {
    models := CollectFrom(local);
    for n := 0 to |channels|
      invariant models == ModelsIn(local) + set i, m | 0 <= i < n && m in ModelsIn(channels[i].data) :: m
    {
      var more := CollectFrom(channels[n].data);
      models := models + more;
    }
  }

  method CheckConfidence(channels: seq<Channel>, models: set<string>) returns (conf: Confidence)
    ensures conf == Confidences(channels, models)
  {
    conf := map[];
    for n := 0 to |channels|
      invariant conf == Confidences(channels[..n], models)
    {
      assert channels[..n + 1][..n] == channels[..n];
      var trust := CheckChannel(channels[n].data, models);
      conf := conf[channels[n].name := trust];
    }
    assert channels[..|channels|] == channels;
  }

  method CheckChannel(data: Data, models: set<string>) returns (trust: map<string, bool>)
    ensures trust == map m | m in models :: Trusted(data, m)
  {
    var modelRatios, completionRatios := TableOf(data, "model_ratio"), TableOf(data, "completion_ratio");
    trust := map[];
    var todo := models;
    if |modelRatios| > 0 && |completionRatios| > 0 {
      while todo != {}
        invariant todo <= models
        invariant trust == map m | m in models - todo :: Trusted(data, m)
        decreases todo
      {
        var m :| m in todo;
        var ok := true;
        if m in modelRatios {
          if m in completionRatios {
            if modelRatios[m].Num? && completionRatios[m].Num?
               && NearlyEqual(modelRatios[m].n, 37.5) && NearlyEqual(completionRatios[m].n, 1.0) {
              ok := false;
            }
          }
        }
        trust, todo := trust[m := ok], todo - {m};
      }
    } else {
      while todo != {}
        invariant todo <= models
        invariant trust == map m | m in models - todo :: true
        decreases todo
      {
        var m :| m in todo;
        trust, todo := trust[m := true], todo - {m};
      }
    }
  }

  /** The loop over channels for one model and field. */
  method CompareField(local: Data, channels: seq<Channel>, conf: Confidence, field: string, model: string)
      returns (listed: bool, item: Item)
    ensures listed == Includes(local, channels, field, model)
    ensures item == ItemOf(local, channels, conf, field, model)
  {
    var localValue := Null;
    if model in TableOf(local, field) { localValue := TableOf(local, field)[model]; }
    var upstreams: map<string, Value>, confidence: map<string, bool> := map[], map[];
    var hasUpstreamValue, hasDifference := false, false;
    for n := 0 to |channels|
      invariant upstreams == Marks(local, channels[..n], field, model)
      invariant confidence == Trusts(conf, channels[..n], model)
      invariant (if localValue != Null then hasDifference else hasUpstreamValue)
                == Includes(local, channels[..n], field, model)
    {
      assert channels[..n + 1][..n] == channels[..n];
      IncludesExtends(local, channels, n, field, model);
      var c := channels[n];
      var upstreamValue := Null;
      if model in TableOf(c.data, field) {
        upstreamValue := TableOf(c.data, field)[model];
        hasUpstreamValue := true;
        if localValue != Null && !ValuesEqual(localValue, upstreamValue) {
          hasDifference := true;
        } else if ValuesEqual(localValue, upstreamValue) {
          upstreamValue := SAME;
        }
      }
      if upstreamValue == Null && localValue == Null { upstreamValue := SAME; }
      if localValue == Null && upstreamValue != Null && upstreamValue != SAME { hasDifference := true; }
      upstreams := upstreams[c.name := upstreamValue];
      confidence := confidence[c.name := c.name in conf && model in conf[c.name] && conf[c.name][model]];
    }
    assert channels[..|channels|] == channels;
    listed := if localValue != Null then hasDifference else hasUpstreamValue;
    item := Item(localValue, upstreams, confidence);
  }

  lemma IncludesExtends(local: Data, channels: seq<Channel>, n: nat, f: string, m: string)
    requires n < |channels|
    ensures Includes(local, channels[..n + 1], f, m) <==>
      || Includes(local, channels[..n], f, m)
      || (Offers(channels[n], f, m)
          && (ValueOf(local, f, m) == Null || !ValuesEqual(ValueOf(local, f, m), ValueOf(channels[n].data, f, m))))
  {
    var before, after := channels[..n], channels[..n + 1];
    assert after == before + [channels[n]];
    assert forall i :: 0 <= i < n ==> after[i] == before[i];
    assert after[n] == channels[n];
  }

  method CompareModel(local: Data, channels: seq<Channel>, conf: Confidence, model: string) returns (row: Row)
    ensures row == RawRow(local, channels, conf, model)
  {
    hide ItemOf, Includes;
    row := map[];
    for i := 0 to |PRICING_FIELDS|
      invariant row == map f | f in PRICING_FIELDS[..i] && Includes(local, channels, f, model)
                       :: ItemOf(local, channels, conf, f, model)
    {
      var field := PRICING_FIELDS[i];
      var listed, item := CompareField(local, channels, conf, field, model);
      assert forall f :: f in PRICING_FIELDS[..i + 1] <==> f in PRICING_FIELDS[..i] || f == field;
      if listed { row := row[field := item]; }
    }
    assert PRICING_FIELDS[..|PRICING_FIELDS|] == PRICING_FIELDS;
  }

  method CompareAll(local: Data, channels: seq<Channel>, conf: Confidence, models: set<string>) returns (d: Differences)
    ensures d == NonEmptyRows(RawRows(local, channels, conf, models))
  {
    d := map[];
    ghost var rows := RawRows(local, channels, conf, models);
    var todo := models;
    while todo != {}
      invariant todo <= models && d.Keys <= models - todo
      invariant forall m :: m in models - todo ==> (m in d <==> NonEmpty(rows[m])) && (m in d ==> d[m] == rows[m])
      decreases todo
    {
      var m :| m in todo;
      var row := CompareModel(local, channels, conf, m);
      assert row == rows[m];
      if NonEmpty(row) { d := d[m := row]; }
      todo := todo - {m};
    }
    FilledRows(rows, d);
  }

  lemma FilledRows(rows: Differences, d: Differences)
    requires d.Keys <= rows.Keys
    requires forall m :: m in rows ==> (m in d <==> NonEmpty(rows[m])) && (m in d ==> d[m] == rows[m])
    ensures d == NonEmptyRows(rows)
  {
  }

  method FlagRow(row: Row) returns (flagged: set<string>)
    ensures flagged == set f, name | f in row && name in row[f].upstreams && Shows(row[f], name) :: name
  {
    flagged := {};
    var todo := row.Keys;
    while todo != {}
      invariant todo <= row.Keys
      invariant flagged == set f, name | f in row && f !in todo && name in row[f].upstreams && Shows(row[f], name) :: name
      decreases todo
    {
      var f :| f in todo;
      flagged := flagged + set name | name in row[f].upstreams && Shows(row[f], name);
      todo := todo - {f};
    }
  }

  method FlagChannels(d: Differences) returns (flagged: set<string>)
    ensures flagged == Flagged(d)
  {
    flagged := {};
    var todo := d.Keys;
    while todo != {}
      invariant todo <= d.Keys
      invariant flagged == set m, f, name | m in d && m !in todo && f in d[m] && name in d[m][f].upstreams
                                            && Shows(d[m][f], name) :: name
      decreases todo
    {
      var m :| m in todo;
      var more := FlagRow(d[m]);
      flagged := flagged + more;
      todo := todo - {m};
    }
  }

  method PruneItem(item: Item, flagged: set<string>) returns (pruned: Item)
    ensures pruned == PrunedItem(item, flagged)
  {
    pruned := item;
    var todo := item.upstreams.Keys;
    while todo != {}
      invariant todo <= item.upstreams.Keys
      invariant pruned == item.(upstreams := item.upstreams - (item.upstreams.Keys - todo - flagged),
                                confidence := item.confidence - (item.upstreams.Keys - todo - flagged))
      decreases todo
    {
      var name :| name in todo;
      if name !in flagged {
        pruned := pruned.(upstreams := pruned.upstreams - {name}, confidence := pruned.confidence - {name});
        assert item.upstreams.Keys - (todo - {name}) - flagged == item.upstreams.Keys - todo - flagged + {name};
      } else {
        assert item.upstreams.Keys - (todo - {name}) - flagged == item.upstreams.Keys - todo - flagged;
      }
      todo := todo - {name};
    }
    assert item.upstreams.Keys - todo - flagged == item.upstreams.Keys - flagged;
  }

  method PruneRow(row: Row, flagged: set<string>) returns (pruned: Row)
    ensures pruned == PrunedRow(row, flagged)
  {
    pruned := row;
    var todo := row.Keys;
    while todo != {}
      invariant todo <= row.Keys && pruned.Keys <= row.Keys
      invariant forall f :: f in row && f in todo ==> f in pruned && pruned[f] == row[f]
      invariant forall f :: f in row && f !in todo ==>
        (f in pruned <==> Keeps(PrunedItem(row[f], flagged))) && (f in pruned ==> pruned[f] == PrunedItem(row[f], flagged))
      decreases todo
    {
      var f :| f in todo;
      var item := PruneItem(row[f], flagged);
      if |item.upstreams| == 0 || AllSame(item) {
        pruned := pruned - {f};
      } else {
        pruned := pruned[f := item];
      }
      todo := todo - {f};
    }
  }

  /** The models outside `todo` have been pruned in place. */
  ghost predicate Progress(d: Differences, rows: Differences, pruned: Differences, todo: set<string>) {
    && rows.Keys == d.Keys && todo <= d.Keys && pruned.Keys <= d.Keys
    && (forall m :: m in todo ==> m in pruned && pruned[m] == d[m])
    && (forall m :: m in d.Keys - todo ==>
          (m in pruned <==> NonEmpty(rows[m])) && (m in pruned ==> pruned[m] == rows[m]))
  }

  lemma ProgressStep(d: Differences, rows: Differences, pruned: Differences, todo: set<string>, m: string)
    requires Progress(d, rows, pruned, todo) && m in todo
    ensures Progress(d, rows, if NonEmpty(rows[m]) then pruned[m := rows[m]] else pruned - {m}, todo - {m})
  {
    hide NonEmpty;
  }

  method Prune(d: Differences, flagged: set<string>) returns (pruned: Differences)
    ensures pruned == NonEmptyRows(PrunedRows(d, flagged))
  {
    pruned := d;
    ghost var rows := PrunedRows(d, flagged);
    var todo := d.Keys;
    while todo != {}
      invariant Progress(d, rows, pruned, todo)
      decreases todo
    {
      var m :| m in todo;
      var row := PruneRow(d[m], flagged);
      ProgressStep(d, rows, pruned, todo, m);
      if !NonEmpty(row) {
        pruned := pruned - {m};
      } else {
        pruned := pruned[m := row];
      }
      todo := todo - {m};
    }
    FilledRows(rows, pruned);
  }

  // ---- soundness and completeness ------------------------------------------------------

  /** Different values: numbers at least 1e-9 apart, or not the same otherwise. */
  ghost predicate Apart(a: Value, b: Value) {
    if a.Num? && b.Num? then a.n - b.n >= 0.000000001 || b.n - a.n >= 0.000000001 else a != b
  }

  /** The data has a value for the model and field. */
  ghost predicate Has(data: Data, field: string, model: string) {
    field in data && model in data[field] && data[field][model] != Null
  }

  /** A channel lists a value that differs from the local one, or a value where
      there is no local one. */
  ghost predicate RealDiff(local: Data, c: Channel, field: string, model: string) {
    && field in PRICING_FIELDS && field in c.data && model in c.data[field]
    && (Has(local, field, model) ==> Apart(local[field][model], c.data[field][model]))
  }

  lemma RealDiffIs(local: Data, c: Channel, field: string, model: string)
    ensures RealDiff(local, c, field, model) <==>
      && field in PRICING_FIELDS && Offers(c, field, model)
      && (ValueOf(local, field, model) == Null
          || !ValuesEqual(ValueOf(local, field, model), ValueOf(c.data, field, model)))
  {
  }

  /** Within 1e-9 of x. */
  ghost predicate Near(v: Value, x: real) {
    v.Num? && v.n - x < 0.000000001 && x - v.n < 0.000000001
  }

  /** The placeholder prices: ratio 37.5 with completion 1. */
  ghost predicate Placeholder(data: Data, model: string) {
    && Has(data, "model_ratio", model) && Near(data["model_ratio"][model], 37.5)
    && Has(data, "completion_ratio", model) && Near(data["completion_ratio"][model], 1.0)
  }

  lemma TrustedIs(data: Data, model: string)
    ensures Trusted(data, model) <==> !Placeholder(data, model)
  {
  }

  ghost predicate DiffersSomewhere(local: Data, c: Channel) {
    exists f, m :: RealDiff(local, c, f, m)
  }

  /** Distinct channel names; upstream values are numbers or strings other than "same". */
  ghost predicate CleanInput(channels: seq<Channel>) {
    && DistinctNames(channels)
    && (forall i, f, m :: 0 <= i < |channels| && f in PRICING_FIELDS && Offers(channels[i], f, m) ==>
          ValueOf(channels[i].data, f, m) != Null && ValueOf(channels[i].data, f, m) != SAME)
  }

  ghost predicate DistinctNames(channels: seq<Channel>) {
    forall i, j :: 0 <= i < j < |channels| ==> channels[i].name != channels[j].name
  }

  lemma {:induction false} MarkOf(local: Data, channels: seq<Channel>, f: string, m: string, i: nat)
    requires DistinctNames(channels) && i < |channels|
    ensures channels[i].name in Marks(local, channels, f, m)
    ensures Marks(local, channels, f, m)[channels[i].name] == Mark(local, channels[i], f, m)
  {
    if i < |channels| - 1 {
      assert channels[..|channels| - 1][i] == channels[i];
      MarkOf(local, channels[..|channels| - 1], f, m, i);
    }
  }

  lemma {:induction false} TrustOf(conf: Confidence, channels: seq<Channel>, m: string, i: nat)
    requires DistinctNames(channels) && i < |channels|
    ensures channels[i].name in Trusts(conf, channels, m)
    ensures Trusts(conf, channels, m)[channels[i].name] ==
              (channels[i].name in conf && m in conf[channels[i].name] && conf[channels[i].name][m])
  {
    if i < |channels| - 1 {
      assert channels[..|channels| - 1][i] == channels[i];
      TrustOf(conf, channels[..|channels| - 1], m, i);
    }
  }

  lemma {:induction false} MarkedNames(local: Data, conf: Confidence, channels: seq<Channel>, f: string, m: string)
    ensures Marks(local, channels, f, m).Keys == Trusts(conf, channels, m).Keys
    ensures forall name :: name in Marks(local, channels, f, m) ==> NamedIn(channels, name)
  {
    if channels != [] {
      var init := channels[..|channels| - 1];
      MarkedNames(local, conf, init, f, m);
      forall name | name in Marks(local, channels, f, m) ensures NamedIn(channels, name) {
        if name == channels[|channels| - 1].name {
        } else {
          var i :| 0 <= i < |init| && init[i].name == name;
          assert channels[i].name == name;
        }
      }
    }
  }

  ghost predicate NamedIn(channels: seq<Channel>, name: string) {
    exists i :: 0 <= i < |channels| && channels[i].name == name
  }

  lemma {:induction false} ConfidenceOf(channels: seq<Channel>, models: set<string>, i: nat, m: string)
    requires DistinctNames(channels) && i < |channels| && m in models
    ensures var conf := Confidences(channels, models);
      && channels[i].name in conf && m in conf[channels[i].name]
      && conf[channels[i].name][m] == Trusted(channels[i].data, m)
  {
    assert channels[..|channels| - 1] <= channels;
    if i < |channels| - 1 { ConfidenceOf(channels[..|channels| - 1], models, i, m); }
  }

  /** A mark shows a value exactly when the difference is real. */
  lemma MarkShowsRealDiff(local: Data, c: Channel, f: string, m: string)
    requires f in PRICING_FIELDS
    requires Offers(c, f, m) ==> ValueOf(c.data, f, m) != Null && ValueOf(c.data, f, m) != SAME
    ensures RealDiff(local, c, f, m) <==> Mark(local, c, f, m) != Null && Mark(local, c, f, m) != SAME
  {
    RealDiffIs(local, c, f, m);
  }

  lemma OfferedIsCollected(local: Data, channels: seq<Channel>, i: nat, f: string, m: string)
    requires i < |channels| && f in PRICING_FIELDS && Offers(channels[i], f, m)
    ensures m in AllModels(local, channels)
  {
    assert m in ModelsIn(channels[i].data);
  }

  /** The unpruned result has an item exactly where some channel really differs. */
  lemma RawExactly(local: Data, channels: seq<Channel>, f: string, m: string)
    ensures var raw := Raw(local, channels);
      (m in raw && f in raw[m]) <==> exists i :: 0 <= i < |channels| && RealDiff(local, channels[i], f, m)
  {
    var models := AllModels(local, channels);
    var conf := Confidences(channels, models);
    forall i | 0 <= i < |channels|
      ensures RealDiff(local, channels[i], f, m) <==>
        && f in PRICING_FIELDS && Offers(channels[i], f, m)
        && (ValueOf(local, f, m) == Null || !ValuesEqual(ValueOf(local, f, m), ValueOf(channels[i].data, f, m)))
    {
      RealDiffIs(local, channels[i], f, m);
    }
    hide RealDiff, Offers, ValueOf, ValuesEqual, Confidences, ItemOf;
    if i :| 0 <= i < |channels| && RealDiff(local, channels[i], f, m) {
      OfferedIsCollected(local, channels, i, f, m);
      assert Includes(local, channels, f, m);
      assert f in RawRow(local, channels, conf, m);
    }
  }

  /** A channel is flagged exactly when it differs somewhere. */
  lemma FlaggedExactly(local: Data, channels: seq<Channel>, i: nat)
    requires CleanInput(channels) && i < |channels|
    ensures channels[i].name in Flagged(Raw(local, channels)) <==> DiffersSomewhere(local, channels[i])
  {
    var raw := Raw(local, channels);
    var name := channels[i].name;
    if name in Flagged(raw) {
      var m, f :| m in raw && f in raw[m] && name in raw[m][f].upstreams && Shows(raw[m][f], name);
      MarkOf(local, channels, f, m, i);
      MarkShowsRealDiff(local, channels[i], f, m);
    }
    if f, m :| RealDiff(local, channels[i], f, m) {
      RawExactly(local, channels, f, m);
      MarkOf(local, channels, f, m, i);
      MarkShowsRealDiff(local, channels[i], f, m);
      assert Shows(raw[m][f], name);
    }
  }

  /** What is left of an item after pruning. */
  lemma PrunedItems(d: Differences, flagged: set<string>, f: string, m: string)
    ensures var p := NonEmptyRows(PrunedRows(d, flagged));
      && ((m in p && f in p[m]) <==> (m in d && f in d[m] && Keeps(PrunedItem(d[m][f], flagged))))
      && (m in p && f in p[m] ==> p[m][f] == PrunedItem(d[m][f], flagged))
  {
    if m in d && f in d[m] && Keeps(PrunedItem(d[m][f], flagged)) {
      assert f in PrunedRow(d[m], flagged);
    }
  }

  lemma RawItems(local: Data, channels: seq<Channel>, f: string, m: string)
    requires m in Raw(local, channels) && f in Raw(local, channels)[m]
    ensures m in AllModels(local, channels)
    ensures Raw(local, channels)[m][f] ==
              ItemOf(local, channels, Confidences(channels, AllModels(local, channels)), f, m)
  {
  }

  /** Sound and complete: after all pruning an item is listed exactly where some
      channel has a value that differs from the local one or has no local
      counterpart. */
  lemma DifferencesExactly(local: Data, channels: seq<Channel>, f: string, m: string)
    requires CleanInput(channels)
    ensures var d := Final(local, channels);
      (m in d && f in d[m]) <==> exists i :: 0 <= i < |channels| && RealDiff(local, channels[i], f, m)
  {
    hide Raw, Flagged, NonEmptyRows, PrunedRows;
    RawExactly(local, channels, f, m);
    PrunedItems(Raw(local, channels), Flagged(Raw(local, channels)), f, m);
    if i :| 0 <= i < |channels| && RealDiff(local, channels[i], f, m) {
      RealDiffIsKept(local, channels, i, f, m);
    }
  }

  lemma RealDiffIsKept(local: Data, channels: seq<Channel>, i: nat, f: string, m: string)
    requires CleanInput(channels) && i < |channels| && RealDiff(local, channels[i], f, m)
    requires m in Raw(local, channels) && f in Raw(local, channels)[m]
    ensures Keeps(PrunedItem(Raw(local, channels)[m][f], Flagged(Raw(local, channels))))
  {
    RawItems(local, channels, f, m);
    FlaggedExactly(local, channels, i);
    MarkOf(local, channels, f, m, i);
    MarkShowsRealDiff(local, channels[i], f, m);
    var item := PrunedItem(Raw(local, channels)[m][f], Flagged(Raw(local, channels)));
    assert channels[i].name in item.upstreams && item.upstreams[channels[i].name] != SAME;
  }

  /** What a listed channel is shown with: its own value where it really differs,
      "same" where it offers a nearly equal one or neither side has any, and nothing
      where only the local side has one. */
  ghost predicate ShownAs(v: Value, local: Data, c: Channel, f: string, m: string) {
    if RealDiff(local, c, f, m) then v == c.data[f][m]
    else if Has(c.data, f, m) || !Has(local, f, m) then v == Str("same")
    else v == Null
  }

  lemma MarkIsShown(local: Data, c: Channel, f: string, m: string)
    requires f in PRICING_FIELDS
    requires Offers(c, f, m) ==> ValueOf(c.data, f, m) != Null
    ensures ShownAs(Mark(local, c, f, m), local, c, f, m)
  {
    RealDiffIs(local, c, f, m);
  }

  /** Every listed item shows the local value and names exactly the channels that
      differ somewhere, the same ones in Confidence; each is shown as its own value,
      "same" or missing, and trusted unless it has the placeholder prices. */
  lemma ItemExactly(local: Data, channels: seq<Channel>, f: string, m: string)
    requires CleanInput(channels) && m in Final(local, channels) && f in Final(local, channels)[m]
    ensures var item := Final(local, channels)[m][f];
      && item.current == (if Has(local, f, m) then local[f][m] else Null)
      && item.upstreams.Keys == item.confidence.Keys
      && (forall name :: name in item.upstreams ==> NamedIn(channels, name))
      && (forall i :: 0 <= i < |channels| ==>
            (channels[i].name in item.upstreams <==> DiffersSomewhere(local, channels[i])))
      && (forall i :: 0 <= i < |channels| && channels[i].name in item.upstreams ==>
            && ShownAs(item.upstreams[channels[i].name], local, channels[i], f, m)
            && (item.confidence[channels[i].name] <==> !Placeholder(channels[i].data, m)))
  {
    ListedFieldIsPriced(local, channels, f, m);
    hide Raw, Flagged, NonEmptyRows, PrunedRows, Marks, Trusts, Confidences, DiffersSomewhere, Trusted, Mark, ShownAs;
    var models := AllModels(local, channels);
    var conf := Confidences(channels, models);
    PrunedItems(Raw(local, channels), Flagged(Raw(local, channels)), f, m);
    RawItems(local, channels, f, m);
    MarkedNames(local, conf, channels, f, m);
    forall i | 0 <= i < |channels|
      ensures channels[i].name in Flagged(Raw(local, channels)) <==> DiffersSomewhere(local, channels[i])
      ensures channels[i].name in Marks(local, channels, f, m) && channels[i].name in Trusts(conf, channels, m)
      ensures ShownAs(Marks(local, channels, f, m)[channels[i].name], local, channels[i], f, m)
      ensures Trusts(conf, channels, m)[channels[i].name] <==> !Placeholder(channels[i].data, m)
    {
      FlaggedExactly(local, channels, i);
      MarkOf(local, channels, f, m, i);
      MarkIsShown(local, channels[i], f, m);
      TrustOf(conf, channels, m, i);
      ConfidenceOf(channels, models, i, m);
      TrustedIs(channels[i].data, m);
    }
    hide Placeholder;
  }

  lemma ListedFieldIsPriced(local: Data, channels: seq<Channel>, f: string, m: string)
    requires CleanInput(channels) && m in Final(local, channels) && f in Final(local, channels)[m]
    ensures f in PRICING_FIELDS
  {
    hide Final, CleanInput;
    DifferencesExactly(local, channels, f, m);
  }

  /** The price a channel really offers is the price shown for it. */
  lemma DifferenceIsShown(local: Data, channels: seq<Channel>, f: string, m: string, i: nat)
    requires CleanInput(channels) && i < |channels| && RealDiff(local, channels[i], f, m)
    ensures var d := Final(local, channels);
      && m in d && f in d[m] && channels[i].name in d[m][f].upstreams
      && d[m][f].upstreams[channels[i].name] == channels[i].data[f][m]
  {
    hide Final;
    DifferencesExactly(local, channels, f, m);
    ItemExactly(local, channels, f, m);
    assert DiffersSomewhere(local, channels[i]);
    assert ShownAs(Final(local, channels)[m][f].upstreams[channels[i].name], local, channels[i], f, m);
  }
}
