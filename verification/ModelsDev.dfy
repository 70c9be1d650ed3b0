/**
 Candidate selection for models.dev prices: providers are visited in sorted
 order and, per model, a candidate replaces the current one when it is cheaper
 by at least an epsilon.
 */
module ModelsDev {
  import opened Common
  import opened RatioDiff

  datatype Cost = Cost(input: Option<real>, output: Option<real>, cacheRead: Option<real>)
  datatype Candidate = Candidate(provider: string, input: real, output: Option<real>, cacheRead: Option<real>)

  /** provider -> model -> cost */
  type Document = map<string, map<string, Cost>>

  /** buildModelsDevCandidate: an input cost is needed, costs are not negative,
      and a free input with a paid output cannot be expressed. */
  function BuildCandidate(provider: string, cost: Cost): (r: Option<Candidate>)
    ensures r.Some? <==> cost.input.Some? && cost.input.value >= 0.0 && (cost.output.Some? ==>
              cost.output.value >= 0.0 && (cost.input.value == 0.0 ==> cost.output.value == 0.0))
    ensures r.Some? ==> r.value.provider == provider && cost.input == Some(r.value.input) && r.value.output == cost.output
    ensures r.Some? ==> r.value.cacheRead == cost.cacheRead || (r.value.cacheRead.None? && cost.cacheRead.value < 0.0)
    ensures r.Some? && r.value.cacheRead.Some? ==> r.value.cacheRead.value >= 0.0
  {
    if cost.input.None? || cost.input.value < 0.0 then None
    else if cost.output.Some? && cost.output.value < 0.0 then None
    else if cost.input.value == 0.0 && cost.output.Some? && cost.output.value > 0.0 then None
    else
      var cacheRead := if cost.cacheRead.Some? && cost.cacheRead.value >= 0.0 then cost.cacheRead else None;
      Some(Candidate(provider, cost.input.value, cost.output, cacheRead))
  }

  /** Go's string order. */
  predicate Less(a: string, b: string) {
    b != "" && (a == "" || a[0] < b[0] || (a[0] == b[0] && Less(a[1..], b[1..])))
  }

  predicate ShouldReplace(current: Candidate, next: Candidate) {
    var currentNonZero, nextNonZero := current.input > 0.0, next.input > 0.0;
    if currentNonZero != nextNonZero then nextNonZero
    else if nextNonZero && !NearlyEqual(next.input, current.input) then next.input < current.input
    else Less(next.provider, current.provider)
  }

  /** The candidate a provider offers for a model, if any. */
  function Offer(doc: Document, provider: string, model: string): Option<Candidate> {
    if provider in doc && model in doc[provider] then BuildCandidate(provider, doc[provider][model]) else None
  }

  /** The candidate kept for one model after visiting `providers` in order. */
  function Select(doc: Document, providers: seq<string>, model: string): Option<Candidate> {
    if providers == [] then None
    else
      var current := Select(doc, providers[..|providers| - 1], model);
      var offer := Offer(doc, providers[|providers| - 1], model);
      if offer.Some? && (current.None? || ShouldReplace(current.value, offer.value)) then offer else current
  }

  ghost predicate StrictlySorted(xs: seq<string>) {
    forall i, j :: 0 <= i < j < |xs| ==> Less(xs[i], xs[j])
  }

  // ---- the code --------------------------------------------------------------------

  /** The selection loops of convertModelsDevToRatioData. */
  method SelectCandidates(doc: Document) returns (providers: seq<string>, selected: map<string, Candidate>)
    ensures StrictlySorted(providers) && forall p :: p in providers <==> p in doc
    ensures forall model :: model in selected <==> Select(doc, providers, model).Some?
    ensures forall model :: model in selected ==> Select(doc, providers, model) == Some(selected[model])
  {
    providers := SortStrings(doc.Keys);
    selected := map[];
    for n := 0 to |providers|
      invariant Holds(doc, providers[..n], selected)
    {
      selected := VisitProvider(doc, providers, n, selected);
    }
    assert providers[..|providers|] == providers;
  }

  /** `selected` is the outcome for every model after visiting `providers`. */
  ghost predicate Holds(doc: Document, providers: seq<string>, selected: map<string, Candidate>) {
    forall model :: Entry(selected, model) == Select(doc, providers, model)
  }

  function Entry(selected: map<string, Candidate>, model: string): Option<Candidate> {
    if model in selected then Some(selected[model]) else None
  }

  method VisitProvider(doc: Document, providers: seq<string>, n: nat, before: map<string, Candidate>)
      returns (selected: map<string, Candidate>)
    requires n < |providers| && providers[n] in doc && Holds(doc, providers[..n], before)
    ensures Holds(doc, providers[..n + 1], selected)
  {
    var provider := providers[n];
    selected := before;
    var models := SortStrings(doc[provider].Keys);
    SortedDistinct(models);
    for i := 0 to |models|
      invariant forall m :: m in models[..i] ==> Entry(selected, m) == Select(doc, providers[..n + 1], m)
      invariant forall m :: m !in models[..i] ==> Entry(selected, m) == Entry(before, m)
    {
      var model := models[i];
      VisitModel(doc, providers, n, model);
      assert models[i] !in models[..i] && models[i] in models;
      assert Entry(selected, model) == Entry(before, model) == Select(doc, providers[..n], model);
      assert forall m :: m in models[..i + 1] <==> m in models[..i] || m == model;
      var candidate := BuildCandidate(provider, doc[provider][model]);
      assert candidate == Offer(doc, provider, model);
      ghost var prev := selected;
      if candidate.Some? && (model !in selected || ShouldReplace(selected[model], candidate.value)) {
        selected := selected[model := candidate.value];
      }
      assert Entry(selected, model) == Select(doc, providers[..n + 1], model);
      forall m | m in models[..i + 1] ensures Entry(selected, m) == Select(doc, providers[..n + 1], m) {
        if m != model { assert Entry(selected, m) == Entry(prev, m); }
      }
    }
    assert models[..|models|] == models;
    forall m | m !in models ensures Entry(selected, m) == Select(doc, providers[..n + 1], m) {
      VisitModel(doc, providers, n, m);
    }
  }

  lemma VisitModel(doc: Document, providers: seq<string>, n: nat, model: string)
    requires n < |providers|
    ensures var current, offer := Select(doc, providers[..n], model), Offer(doc, providers[n], model);
      Select(doc, providers[..n + 1], model) ==
        if offer.Some? && (current.None? || ShouldReplace(current.value, offer.value)) then offer else current
  {
    assert providers[..n + 1][..n] == providers[..n];
  }

  /** sort.Strings on the keys of a map. */
  method SortStrings(keys: set<string>) returns (sorted: seq<string>)
    ensures StrictlySorted(sorted) && forall k :: k in sorted <==> k in keys
  {
    sorted := [];
    var todo := keys;
    while todo != {}
      invariant todo <= keys && StrictlySorted(sorted)
      invariant forall k :: k in sorted <==> k in keys && k !in todo
      decreases todo
    {
      var k :| k in todo;
      InsertSorts(sorted, k);
      sorted := Insert(sorted, k);
      todo := todo - {k};
    }
  }

  function Insert(xs: seq<string>, x: string): seq<string> {
    if xs == [] || Less(x, xs[0]) then [x] + xs else [xs[0]] + Insert(xs[1..], x)
  }

  lemma {:induction false} InsertSorts(xs: seq<string>, x: string)
    requires StrictlySorted(xs) && x !in xs
    ensures StrictlySorted(Insert(xs, x))
    ensures forall y :: y in Insert(xs, x) <==> y in xs || y == x
  {
    if xs == [] {
    } else if Less(x, xs[0]) {
      forall j | 1 <= j < |xs| ensures Less(x, xs[j]) { LessTransitive(x, xs[0], xs[j]); }
    } else {
      assert xs[0] in xs;
      LessTotal(x, xs[0]);
      InsertSorts(xs[1..], x);
      var rest := Insert(xs[1..], x);
      forall j | 0 <= j < |rest| ensures Less(xs[0], rest[j]) {
        assert rest[j] in rest;
      }
    }
  }

  lemma SortedDistinct(xs: seq<string>)
    requires StrictlySorted(xs)
    ensures forall i, j :: 0 <= i < j < |xs| ==> xs[i] != xs[j]
  {
    forall i, j | 0 <= i < j < |xs| ensures xs[i] != xs[j] { LessIrreflexive(xs[i]); }
  }

  lemma {:induction false} LessIrreflexive(a: string)
    ensures !Less(a, a)
  {
    if a != "" { LessIrreflexive(a[1..]); }
  }

  lemma {:induction false} LessTransitive(a: string, b: string, c: string)
    requires Less(a, b) && Less(b, c)
    ensures Less(a, c)
  {
    if a != "" && b != "" && c != "" && a[0] == b[0] == c[0] { LessTransitive(a[1..], b[1..], c[1..]); }
  }

  lemma {:induction false} LessTotal(a: string, b: string)
    ensures Less(a, b) || a == b || Less(b, a)
  {
    if a != "" && b != "" && a[0] == b[0] {
      LessTotal(a[1..], b[1..]);
      assert a == [a[0]] + a[1..] && b == [b[0]] + b[1..];
    }
  }

  lemma LessAsymmetric(a: string, b: string)
    requires Less(a, b)
    ensures !Less(b, a)
  {
    if Less(b, a) {
      LessTransitive(a, b, a);
      LessIrreflexive(a);
    }
  }

  // ---- what the selection promises -----------------------------------------------------

  /** Some visited provider offers `c` for the model. */
  ghost predicate Offered(doc: Document, providers: seq<string>, model: string, c: Candidate) {
    exists i :: 0 <= i < |providers| && Offer(doc, providers[i], model) == Some(c)
  }

  ghost predicate Best(doc: Document, providers: seq<string>, model: string, s: Candidate) {
    && Offered(doc, providers, model, s)
    && (forall c :: Offered(doc, providers, model, c) ==> WithinEpsilon(s, c))
  }

  /** `s` is as good as `c`: a non-zero `c` costs more than `s` less an epsilon,
      and `s` is free only when `c` is free too and does not come earlier. */
  predicate WithinEpsilon(s: Candidate, c: Candidate) {
    && (c.input > 0.0 ==> s.input > 0.0 && s.input < c.input + EPSILON)
    && (s.input == 0.0 ==> c.input == 0.0 && (s.provider == c.provider || Less(s.provider, c.provider)))
  }

  lemma OfferedExtends(doc: Document, providers: seq<string>, n: nat, model: string, c: Candidate)
    requires n < |providers|
    ensures Offered(doc, providers[..n + 1], model, c) <==>
              Offered(doc, providers[..n], model, c) || Offer(doc, providers[n], model) == Some(c)
  {
    var before, after := providers[..n], providers[..n + 1];
    assert after[n] == providers[n] && forall i :: 0 <= i < n ==> after[i] == before[i];
  }

  /** The replacement rule keeps the better of two candidates within an epsilon,
      and never takes a later one on a tie. */
  lemma ReplaceKeepsBest(s: Candidate, next: Candidate, c: Candidate)
    requires s.input >= 0.0 && next.input >= 0.0 && c.input >= 0.0
    requires Less(s.provider, next.provider) && (c == next || WithinEpsilon(s, c))
    requires c != next ==> Less(c.provider, next.provider)
    ensures WithinEpsilon(if ShouldReplace(s, next) then next else s, c)
  {
    LessAsymmetric(s.provider, next.provider);
  }

  /** For every document and every model: a candidate is selected exactly when
      one is offered; it is non-zero whenever a non-zero one is offered, and then
      costs less than any non-zero candidate plus 1e-9; when all are zero it is
      the first provider's in sorted order. */
  lemma {:induction false} SelectedIsBest(doc: Document, providers: seq<string>, model: string)
    requires StrictlySorted(providers)
    ensures var s := Select(doc, providers, model);
      && (s.None? ==> forall c :: !Offered(doc, providers, model, c))
      && (s.Some? ==> Best(doc, providers, model, s.value))
    decreases |providers|
  {
    if providers != [] {
      var n := |providers| - 1;
      var init := providers[..n];
      SelectedIsBest(doc, init, model);
      assert providers[..n + 1] == providers;
      var s, offer := Select(doc, init, model), Offer(doc, providers[n], model);
      forall c | Offered(doc, providers, model, c) || offer == Some(c)
        ensures Offered(doc, init, model, c) || offer == Some(c)
        ensures Select(doc, providers, model).Some? && WithinEpsilon(Select(doc, providers, model).value, c)
      {
        OfferedExtends(doc, providers, n, model, c);
        if s.Some? && offer.Some? {
          OffersPrecede(doc, providers, n, model, s.value);
          if c != offer.value { OffersPrecede(doc, providers, n, model, c); }
          ReplaceKeepsBest(s.value, offer.value, c);
        } else if offer.Some? && s.None? {
          assert c == offer.value;
        }
      }
      if Select(doc, providers, model).Some? {
        OfferedExtends(doc, providers, n, model, Select(doc, providers, model).value);
      }
    }
  }

  lemma OffersPrecede(doc: Document, providers: seq<string>, n: nat, model: string, c: Candidate)
    requires StrictlySorted(providers) && n < |providers| && Offered(doc, providers[..n], model, c)
    ensures Less(c.provider, providers[n]) && c.input >= 0.0
  {
    var i :| 0 <= i < n && Offer(doc, providers[..n][i], model) == Some(c);
    assert providers[..n][i] == providers[i];
  }

  /** `c` is a cheapest non-zero candidate for the model. */
  ghost predicate Cheapest(doc: Document, providers: seq<string>, model: string, c: Candidate) {
    && c.input > 0.0
    && forall d :: Offered(doc, providers, model, d) && d.input > 0.0 ==> c.input <= d.input
  }

  /** Above the cost of `c`, but nearly equal to it. */
  predicate NearlyAbove(current: Option<Candidate>, c: Candidate) {
    current.Some? && c.input < current.value.input < c.input + EPSILON
  }

  /** Once the candidate kept costs no less than the cheapest and less than that
      plus an epsilon, no later provider changes its cost. */
  lemma {:induction false} NearCheapestStays(doc: Document, providers: seq<string>, model: string, i: nat, c: Candidate)
    requires StrictlySorted(providers) && i <= |providers| && Cheapest(doc, providers, model, c)
    requires var s := Select(doc, providers[..i], model);
      s.Some? && c.input <= s.value.input < c.input + EPSILON
    ensures Select(doc, providers, model) == Select(doc, providers[..i], model)
    decreases |providers| - i
  {
    if i == |providers| {
      assert providers[..i] == providers;
    } else {
      var s, offer := Select(doc, providers[..i], model), Offer(doc, providers[i], model);
      VisitModel(doc, providers, i, model);
      SelectedIsBest(doc, providers[..i], model);
      if offer.Some? {
        assert Offered(doc, providers, model, offer.value);
        OffersPrecede(doc, providers, i, model, s.value);
        LessAsymmetric(s.value.provider, providers[i]);
      }
      NearCheapestStays(doc, providers, model, i + 1, c);
    }
  }

  /** The candidate kept before `i` was offered before `i`. */
  lemma KeptIsOffered(doc: Document, providers: seq<string>, model: string, i: nat)
    requires StrictlySorted(providers) && i <= |providers|
    ensures var s := Select(doc, providers[..i], model);
      s.Some? ==> Offered(doc, providers, model, s.value) && s.value.input >= 0.0
  {
    SelectedIsBest(doc, providers[..i], model);
    var s := Select(doc, providers[..i], model);
    if s.Some? {
      var j :| 0 <= j < i && Offer(doc, providers[..i][j], model) == Some(s.value);
      assert Offer(doc, providers[j], model) == Some(s.value);
    }
  }

  /** The cheapest cost is selected if and only if, when a cheapest candidate is
      visited, the one kept so far is not nearly equal to it from above. */
  lemma CheapestExactly(doc: Document, providers: seq<string>, model: string, i: nat, c: Candidate)
    requires StrictlySorted(providers) && i < |providers| && Offer(doc, providers[i], model) == Some(c)
    requires Cheapest(doc, providers, model, c)
    ensures var s := Select(doc, providers, model);
      s.Some? && (s.value.input == c.input <==> !NearlyAbove(Select(doc, providers[..i], model), c))
  {
    var before := Select(doc, providers[..i], model);
    VisitModel(doc, providers, i, model);
    KeptIsOffered(doc, providers, model, i);
    if NearlyAbove(before, c) {
      NearCheapestStays(doc, providers, model, i, c);
    } else {
      NearCheapestStays(doc, providers, model, i + 1, c);
    }
  }

  /** In particular where no candidate costs less than an epsilon more than the cheapest. */
  lemma CheapestWhenCostsAreApart(doc: Document, providers: seq<string>, model: string, c: Candidate)
    requires StrictlySorted(providers) && Offered(doc, providers, model, c) && Cheapest(doc, providers, model, c)
    requires forall d :: Offered(doc, providers, model, d) ==> !NearlyAbove(Some(d), c)
    ensures Select(doc, providers, model).Some? && Select(doc, providers, model).value.input == c.input
  {
    var i :| 0 <= i < |providers| && Offer(doc, providers[i], model) == Some(c);
    KeptIsOffered(doc, providers, model, i);
    CheapestExactly(doc, providers, model, i, c);
  }

  /** The equality used is not transitive, and the selection can miss the
      cheapest by less than an epsilon: the earlier provider stays. */
  lemma NearTieKeepsTheEarlier(doc: Document, model: string)
    requires "a" in doc && "b" in doc && model in doc["a"] && model in doc["b"]
    requires doc["a"][model] == Cost(Some(1.0), None, None)
    requires doc["b"][model] == Cost(Some(1.0 - EPSILON / 2.0), None, None)
    ensures Select(doc, ["a", "b"], model) == Some(Candidate("a", 1.0, None, None))
    ensures NearlyEqual(1.0, 1.0 - EPSILON / 2.0) && NearlyEqual(1.0 - EPSILON / 2.0, 1.0 - EPSILON)
            && !NearlyEqual(1.0, 1.0 - EPSILON)
  {
    assert ["a", "b"][..1] == ["a"] && ["a"][..0] == [];
    assert Select(doc, [], model) == None;
    assert Select(doc, ["a"], model) == Some(Candidate("a", 1.0, None, None));
    assert !Less("b", "a");
  }

  // ---- the order of providers --------------------------------------------------------

  /** Lexicographic: the first difference decides, and a prefix comes first. */
  lemma {:induction false} LessIsLexicographic(common: string, a: string, b: string)
    ensures Less(common + a, common + b) <==>
      b != "" && (a == "" || a[0] < b[0] || (a[0] == b[0] && Less(a[1..], b[1..])))
    ensures Less(common, common + b) <==> b != ""
  {
    if common != "" {
      LessIsLexicographic(common[1..], a, b);
      assert (common + a)[1..] == common[1..] + a && (common + b)[1..] == common[1..] + b;
    } else {
      assert common + a == a && common + b == b;
    }
  }
}
