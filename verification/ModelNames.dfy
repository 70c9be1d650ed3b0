/**
 Ordered, duplicate-free lists of model names: trimming, normalisation, merge,
 subtraction and intersection, and the comma-joined text they are stored as.
 */
module ModelNames {

  // ---- names -----------------------------------------------------------------------

  /** unicode.IsSpace. */
  predicate IsSpace(c: char) {
    || '\t' <= c <= '\r' || c == ' '
    || c == '\U{85}' || c == '\U{A0}' || c == '\U{1680}' || '\U{2000}' <= c <= '\U{200A}'
    || c == '\U{2028}' || c == '\U{2029}' || c == '\U{202F}' || c == '\U{205F}' || c == '\U{3000}'
  }

  function DropLeading(s: string): string {
    if s != "" && IsSpace(s[0]) then DropLeading(s[1..]) else s
  }

  function DropTrailing(s: string): string {
    if s != "" && IsSpace(s[|s| - 1]) then DropTrailing(s[..|s| - 1]) else s
  }

  /** strings.TrimSpace. */
  function Trim(s: string): string {
    DropTrailing(DropLeading(s))
  }

  predicate Trimmed(s: string) {
    s == "" || (!IsSpace(s[0]) && !IsSpace(s[|s| - 1]))
  }

  lemma {:induction false} DropLeadingStops(s: string)
    ensures var t := DropLeading(s); t == "" || !IsSpace(t[0])
  {
    if s != "" && IsSpace(s[0]) { DropLeadingStops(s[1..]); }
  }

  lemma {:induction false} DropTrailingStops(s: string)
    ensures var t := DropTrailing(s); t <= s && (t == "" || !IsSpace(t[|t| - 1]))
  {
    if s != "" && IsSpace(s[|s| - 1]) { DropTrailingStops(s[..|s| - 1]); }
  }

  lemma TrimTrims(s: string)
    ensures Trimmed(Trim(s))
    ensures Trimmed(s) ==> Trim(s) == s
  {
    DropLeadingStops(s);
    DropTrailingStops(DropLeading(s));
  }

  // ---- lists -----------------------------------------------------------------------

  /** Non-empty trimmed names, as FilterMap keeps them. */
  function Cleaned(models: seq<string>): seq<string> {
    if models == [] then []
    else
      var name := Trim(models[|models| - 1]);
      Cleaned(models[..|models| - 1]) + (if name != "" then [name] else [])
  }

  /** The first occurrence of every element, in order. */
  function Uniq(xs: seq<string>): seq<string> {
    if xs == [] then []
    else
      var front := Uniq(xs[..|xs| - 1]);
      if xs[|xs| - 1] in front then front else front + [xs[|xs| - 1]]
  }

  /** normalizeModelNames. */
  function Normalize(models: seq<string>): seq<string> {
    Uniq(Cleaned(models))
  }

  predicate Distinct(xs: seq<string>) {
    forall i, j :: 0 <= i < j < |xs| ==> xs[i] != xs[j]
  }

  lemma EmptyOrMember(xs: seq<string>)
    ensures xs == [] || exists x :: x in xs
  {
    if xs != [] { assert xs[0] in xs; }
  }

  predicate Name(s: string) { s != "" && Trimmed(s) }

  predicate Normal(xs: seq<string>) {
    Distinct(xs) && forall x :: x in xs ==> Name(x)
  }

  lemma {:induction false} UniqFacts(xs: seq<string>)
    ensures Distinct(Uniq(xs))
    ensures forall x :: x in Uniq(xs) <==> x in xs
    ensures Distinct(xs) ==> Uniq(xs) == xs
  {
    if xs != [] {
      UniqFacts(xs[..|xs| - 1]);
      assert forall x :: x in xs <==> x in xs[..|xs| - 1] || x == xs[|xs| - 1];
    }
  }

  lemma {:induction false} CleanedNames(models: seq<string>)
    ensures forall x :: x in Cleaned(models) ==> Name(x)
    ensures (forall x :: x in models ==> Name(x)) ==> Cleaned(models) == models
  {
    if models != [] {
      CleanedNames(models[..|models| - 1]);
      TrimTrims(models[|models| - 1]);
      assert models[|models| - 1] in models && models == models[..|models| - 1] + [models[|models| - 1]];
    }
  }

  lemma {:induction false} CleanedContains(models: seq<string>, x: string)
    ensures x in Cleaned(models) <==> x != "" && exists i :: 0 <= i < |models| && Trim(models[i]) == x
  {
    if models != [] {
      var init := models[..|models| - 1];
      CleanedContains(init, x);
      if i :| 0 <= i < |init| && Trim(init[i]) == x { assert Trim(models[i]) == x; }
      assert forall i :: 0 <= i < |init| ==> init[i] == models[i];
    }
  }

  /** Normalising gives a duplicate-free list of trimmed non-empty names, and
      changes nothing on such a list. */
  lemma NormalizeIsNormal(models: seq<string>)
    ensures Normal(Normalize(models))
    ensures Normal(models) ==> Normalize(models) == models
  {
    UniqFacts(Cleaned(models));
    CleanedNames(models);
  }

  /** The names in a normalised list are exactly the trimmed non-empty inputs. */
  lemma NormalizeContains(models: seq<string>, x: string)
    ensures x in Normalize(models) <==> x != "" && exists i :: 0 <= i < |models| && Trim(models[i]) == x
  {
    UniqFacts(Cleaned(models));
    CleanedContains(models, x);
  }

  /** lo.Filter. */
  function Filter(xs: seq<string>, keep: string -> bool): seq<string> {
    if xs == [] then []
    else Filter(xs[..|xs| - 1], keep) + (if keep(xs[|xs| - 1]) then [xs[|xs| - 1]] else [])
  }

  lemma {:induction false} FilterContains(xs: seq<string>, keep: string -> bool)
    ensures forall x :: x in Filter(xs, keep) <==> x in xs && keep(x)
  {
    if xs != [] {
      FilterContains(xs[..|xs| - 1], keep);
      assert forall x :: x in xs <==> x in xs[..|xs| - 1] || x == xs[|xs| - 1];
    }
  }

  lemma {:induction false} FilterNormal(xs: seq<string>, keep: string -> bool)
    requires Normal(xs)
    ensures Normal(Filter(xs, keep))
  {
    if xs != [] {
      FilterNormal(xs[..|xs| - 1], keep);
      FilterContains(xs[..|xs| - 1], keep);
    }
  }

  lemma {:induction false} FilterSame(xs: seq<string>, p: string -> bool, q: string -> bool)
    requires forall x :: x in xs ==> p(x) == q(x)
    ensures Filter(xs, p) == Filter(xs, q)
  {
    if xs != [] { FilterSame(xs[..|xs| - 1], p, q); }
  }

  lemma {:induction false} FilterAll(xs: seq<string>, keep: string -> bool)
    requires forall x :: x in xs ==> keep(x)
    ensures Filter(xs, keep) == xs
  {
    if xs != [] {
      var init, last := xs[..|xs| - 1], xs[|xs| - 1];
      assert last in xs && forall x :: x in init ==> x in xs;
      FilterAll(init, keep);
      assert xs == init + [last];
    }
  }

  lemma {:induction false} FilterConcat(xs: seq<string>, ys: seq<string>, keep: string -> bool)
    ensures Filter(xs + ys, keep) == Filter(xs, keep) + Filter(ys, keep)
  {
    if ys == [] {
      assert xs + ys == xs;
    } else {
      FilterConcat(xs, ys[..|ys| - 1], keep);
      assert (xs + ys)[..|xs + ys| - 1] == xs + ys[..|ys| - 1];
    }
  }

  // ---- the list algebra ------------------------------------------------------------

  /** The elements of xs outside ys, and those inside. */
  function Outside(xs: seq<string>, ys: seq<string>): seq<string> { Filter(xs, x => x !in ys) }
  function Inside(xs: seq<string>, ys: seq<string>): seq<string> { Filter(xs, x => x in ys) }

  function Merged(base: seq<string>, appended: seq<string>): seq<string> {
    Normalize(base) + Outside(Normalize(appended), Normalize(base))
  }

  function Subtracted(base: seq<string>, removed: seq<string>): seq<string> {
    Outside(Normalize(base), Normalize(removed))
  }

  function Intersected(base: seq<string>, allowed: seq<string>): seq<string> {
    Inside(Normalize(base), Normalize(allowed))
  }

  lemma OutsideFacts(xs: seq<string>, ys: seq<string>)
    ensures forall x :: x in Outside(xs, ys) <==> x in xs && x !in ys
    ensures Normal(xs) ==> Normal(Outside(xs, ys))
  {
    FilterContains(xs, x => x !in ys);
    if Normal(xs) { FilterNormal(xs, x => x !in ys); }
  }

  lemma InsideFacts(xs: seq<string>, ys: seq<string>)
    ensures forall x :: x in Inside(xs, ys) <==> x in xs && x in ys
    ensures Normal(xs) ==> Normal(Inside(xs, ys))
  {
    FilterContains(xs, x => x in ys);
    if Normal(xs) { FilterNormal(xs, x => x in ys); }
  }

  lemma MergedFacts(base: seq<string>, appended: seq<string>)
    ensures Normal(Merged(base, appended))
    ensures forall x :: x in Merged(base, appended) <==> x in Normalize(base) || x in Normalize(appended)
  {
    NormalizeIsNormal(base);
    NormalizeIsNormal(appended);
    OutsideFacts(Normalize(appended), Normalize(base));
    DistinctConcat(Normalize(base), Outside(Normalize(appended), Normalize(base)));
  }

  lemma DistinctConcat(xs: seq<string>, ys: seq<string>)
    requires Distinct(xs) && Distinct(ys) && forall y :: y in ys ==> y !in xs
    ensures Distinct(xs + ys)
  {
    forall i, j | 0 <= i < j < |xs + ys| ensures (xs + ys)[i] != (xs + ys)[j] {
      if i < |xs| <= j { assert ys[j - |xs|] in ys; }
    }
  }

  function Elements(xs: seq<string>): set<string> { set x | x in xs }

  lemma OutsideExtend(xs: seq<string>, i: nat, ys: seq<string>)
    requires i < |xs| && Distinct(xs)
    ensures Outside(xs[..i + 1], ys) == Outside(xs[..i], ys) + (if xs[i] in ys then [] else [xs[i]])
    ensures xs[i] !in xs[..i]
    ensures forall x :: x in xs[..i + 1] <==> x in xs[..i] || x == xs[i]
  {
    assert xs[..i + 1][..i] == xs[..i];
  }

  /** mergeModelNames: a set of seen names and an append loop. */
  method MergeModelNames(base: seq<string>, appended: seq<string>) returns (merged: seq<string>)
    ensures merged == Merged(base, appended)
  {
    merged := Normalize(base);
    var seen := Elements(merged);
    var more := Normalize(appended);
    NormalizeIsNormal(appended);
    ghost var known := merged;
    for i := 0 to |more|
      invariant merged == known + Outside(more[..i], known)
      invariant forall x :: x in seen <==> x in known || x in more[..i]
    {
      OutsideExtend(more, i, known);
      if more[i] in seen {
        continue;
      }
      seen := seen + {more[i]};
      merged := merged + [more[i]];
    }
    assert more[..|more|] == more;
  }

  /** subtractModelNames. */
  method SubtractModelNames(base: seq<string>, removed: seq<string>) returns (kept: seq<string>)
    ensures kept == Subtracted(base, removed)
  {
    var removeSet := CollectNames(Normalize(removed));
    kept := Filter(Normalize(base), x => x !in removeSet);
    FilterSame(Normalize(base), x => x !in removeSet, x => x !in Normalize(removed));
  }

  /** intersectModelNames. */
  method IntersectModelNames(base: seq<string>, allowed: seq<string>) returns (kept: seq<string>)
    ensures kept == Intersected(base, allowed)
  {
    var allowedSet := CollectNames(Normalize(allowed));
    kept := Filter(Normalize(base), x => x in allowedSet);
    FilterSame(Normalize(base), x => x in allowedSet, x => x in Normalize(allowed));
  }

  method CollectNames(names: seq<string>) returns (s: set<string>)
    ensures forall x :: x in s <==> x in names
  {
    s := {};
    for i := 0 to |names|
      invariant forall x :: x in s <==> x in names[..i]
    {
      s := s + {names[i]};
    }
    assert names[..|names|] == names;
  }

  // ---- the stored text -------------------------------------------------------------

  /** strings.Join(names, ","). */
  function Join(names: seq<string>): string {
    if names == [] then "" else if |names| == 1 then names[0] else names[0] + "," + Join(names[1..])
  }

  /** strings.Split(s, ","). */
  function Split(s: string): (parts: seq<string>)
    ensures parts != []
  {
    if s == "" then [""]
    else
      var rest := Split(s[1..]);
      if s[0] == ',' then [""] + rest else [[s[0]] + rest[0]] + rest[1..]
  }

  function DropLeadingCommas(s: string): string {
    if s != "" && s[0] == ',' then DropLeadingCommas(s[1..]) else s
  }

  function DropTrailingCommas(s: string): string {
    if s != "" && s[|s| - 1] == ',' then DropTrailingCommas(s[..|s| - 1]) else s
  }

  /** Channel.GetModels on the stored text. */
  function GetModels(models: string): seq<string> {
    if models == "" then [] else Split(DropTrailingCommas(DropLeadingCommas(models)))
  }

  predicate CommaFree(s: string) { ',' !in s }

  lemma {:induction false} SplitIsCommaFree(s: string)
    ensures forall x :: x in Split(s) ==> CommaFree(x)
  {
    if s != "" {
      SplitIsCommaFree(s[1..]);
      var rest := Split(s[1..]);
      assert rest[0] in rest && forall x :: x in rest[1..] ==> x in rest;
    }
  }

  lemma {:induction false} SplitName(name: string)
    requires CommaFree(name)
    ensures Split(name) == [name]
  {
    if name != "" {
      SplitName(name[1..]);
      assert name[0] in name && [name[0]] + name[1..] == name;
    }
  }

  lemma {:induction false} SplitFirst(name: string, rest: string)
    requires CommaFree(name)
    ensures Split(name + "," + rest) == [name] + Split(rest)
  {
    var s := name + "," + rest;
    if name == "" {
      assert s[1..] == rest;
    } else {
      SplitFirst(name[1..], rest);
      assert s[1..] == name[1..] + "," + rest;
      assert s[0] == name[0] && name[0] in name && [name[0]] + name[1..] == name;
    }
  }

  lemma {:induction false} SplitJoin(names: seq<string>)
    requires names != [] && forall x :: x in names ==> CommaFree(x)
    ensures Split(Join(names)) == names
  {
    if |names| == 1 {
      SplitName(names[0]);
    } else {
      SplitJoin(names[1..]);
      SplitFirst(names[0], Join(names[1..]));
    }
  }

  lemma {:induction false} JoinEnds(names: seq<string>)
    requires names != [] && forall i :: 0 <= i < |names| ==> names[i] != "" && CommaFree(names[i])
    ensures var s := Join(names); s != "" && s[0] != ',' && s[|s| - 1] != ','
  {
    if |names| == 1 {
      assert names[0][0] in names[0] && names[0][|names[0]| - 1] in names[0];
    } else {
      JoinEnds(names[1..]);
      assert names[0][0] in names[0] && Join(names)[0] == names[0][0];
    }
  }

  /** Joining and splitting again returns the list, for non-empty names without
      commas. */
  lemma StoredTextRoundTrip(names: seq<string>)
    requires forall x :: x in names ==> x != "" && CommaFree(x)
    ensures GetModels(Join(names)) == names
  {
    if names != [] {
      assert forall i :: 0 <= i < |names| ==> names[i] in names;
      JoinEnds(names);
      SplitJoin(names);
    }
  }

  /** No list read back from the stored text holds a name with a comma. */
  lemma GetModelsIsCommaFree(models: string)
    ensures forall x :: x in GetModels(models) ==> CommaFree(x)
  {
    if models != "" { SplitIsCommaFree(DropTrailingCommas(DropLeadingCommas(models))); }
  }

  // ---- what trimming, normalising and joining keep -----------------------------------

  predicate AllSpace(s: string) { forall i :: 0 <= i < |s| ==> IsSpace(s[i]) }

  lemma {:induction false} DropLeadingSplits(s: string)
    ensures |DropLeading(s)| <= |s|
    ensures var n := |s| - |DropLeading(s)|; DropLeading(s) == s[n..] && AllSpace(s[..n])
  {
    if s != "" && IsSpace(s[0]) {
      DropLeadingSplits(s[1..]);
      var n := |s| - |DropLeading(s)|;
      assert s[n..] == s[1..][n - 1..];
      assert forall i :: 1 <= i < n ==> s[..n][i] == s[1..][..n - 1][i - 1];
    }
  }

  lemma {:induction false} DropTrailingSplits(s: string)
    ensures |DropTrailing(s)| <= |s|
    ensures var n := |DropTrailing(s)|; DropTrailing(s) == s[..n] && AllSpace(s[n..])
  {
    if s != "" && IsSpace(s[|s| - 1]) {
      var init := s[..|s| - 1];
      DropTrailingSplits(init);
      var n := |DropTrailing(s)|;
      assert s[..n] == init[..n];
      assert forall i :: 0 <= i < |s| - n - 1 ==> s[n..][i] == init[n..][i];
    }
  }

  /** Trimming cuts spaces off both ends and nothing else. */
  lemma TrimCutsSpaces(s: string) returns (before: string, behind: string)
    ensures s == before + Trim(s) + behind && AllSpace(before) && AllSpace(behind)
  {
    DropLeadingSplits(s);
    var rest := DropLeading(s);
    DropTrailingSplits(rest);
    before, behind := s[..|s| - |rest|], rest[|Trim(s)|..];
  }

  /** Where the elements of Uniq(xs) come from. */
  function Firsts(xs: seq<string>): seq<nat> {
    if xs == [] then []
    else if xs[|xs| - 1] in Uniq(xs[..|xs| - 1]) then Firsts(xs[..|xs| - 1])
    else Firsts(xs[..|xs| - 1]) + [|xs| - 1]
  }

  predicate IsFirst(xs: seq<string>, n: nat) { n < |xs| && xs[n] !in xs[..n] }

  /** `ns` increases and lists where the elements of `ys` first occur in `xs`. */
  ghost predicate PicksFirsts(xs: seq<string>, ns: seq<nat>, ys: seq<string>) {
    && |ns| == |ys|
    && (forall k :: 0 <= k < |ns| ==> IsFirst(xs, ns[k]) && ys[k] == xs[ns[k]])
    && (forall j, k :: 0 <= j < k < |ns| ==> ns[j] < ns[k])
  }

  /** Removing duplicates keeps the first occurrence of each name, in order. */
  lemma {:induction false} UniqKeepsFirsts(xs: seq<string>)
    ensures PicksFirsts(xs, Firsts(xs), Uniq(xs))
  {
    if xs != [] {
      var init, last := xs[..|xs| - 1], xs[|xs| - 1];
      assert xs == init + [last];
      UniqKeepsFirsts(init);
      assert last in Uniq(init) <==> last in init by { UniqFacts(init); }
      assert last in Uniq(init) ==> Uniq(xs) == Uniq(init) && Firsts(xs) == Firsts(init);
      assert last !in Uniq(init) ==> Uniq(xs) == Uniq(init) + [last] && Firsts(xs) == Firsts(init) + [|init|];
      hide PicksFirsts, Uniq, Firsts;
      PicksExtend(init, Firsts(init), Uniq(init), last);
    }
  }

  lemma PicksExtend(xs: seq<string>, ns: seq<nat>, ys: seq<string>, x: string)
    requires PicksFirsts(xs, ns, ys)
    ensures PicksFirsts(xs + [x], ns, ys)
    ensures x !in xs ==> PicksFirsts(xs + [x], ns + [|xs|], ys + [x])
  {
    forall n: nat | IsFirst(xs, n) ensures IsFirst(xs + [x], n) && (xs + [x])[n] == xs[n] {
      assert (xs + [x])[..n] == xs[..n];
    }
    assert (xs + [x])[..|xs|] == xs;
  }

  /** Splitting loses nothing: joining the parts gives the text back. */
  lemma {:induction false} JoinSplit(s: string)
    ensures Join(Split(s)) == s
  {
    if s != "" {
      var rest := Split(s[1..]);
      JoinSplit(s[1..]);
      assert s == [s[0]] + s[1..];
      if s[0] == ',' {
        assert ([""] + rest)[1..] == rest;
        assert Join([""] + rest) == "" + "," + Join(rest);
      } else {
        var parts := [[s[0]] + rest[0]] + rest[1..];
        assert parts[1..] == rest[1..];
        assert Join(parts) == [s[0]] + Join(rest);
      }
    }
  }
}
