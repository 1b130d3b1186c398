/** The known-model registry: records of the same model merged by key, in a fixed order. */
module Registry {
  import opened Prelude
  import opened Text
  import opened Ordering

  datatype KnownModel = KnownModel(
    provider: string,
    runtime: string,
    modelId: string,
    runtimeId: Option<string>,
    name: Option<string>,
    source: string,
    localPath: Option<string>,
    format: Option<string>,
    contextLength: Option<int>,
    quantization: Option<string>,
    sizeBytes: Option<int>,
    license: Option<string>,
    installState: string,
    healthState: string,
    loadState: string,
    tags: seq<string>,
    capabilities: seq<string>,
    routingEligible: bool,
    backend: Option<string>,
    assignedRoutes: seq<string>,
    lastSeenAt: Option<string>,
    metadata: map<string, string>)

  datatype Key =
    | PathKey(path: string, modelId: string)
    | BackendKey(provider: string, runtime: string, backend: string, modelId: string)
    | ModelKey(provider: string, runtime: string, modelId: string)

  predicate Truthy(o: Option<string>) {
    o.Some? && o.value != ""
  }

  function KeyOf(m: KnownModel): Key {
    if Truthy(m.localPath) then PathKey(m.localPath.value, m.modelId)
    else if Truthy(m.backend) then BackendKey(m.provider, m.runtime, m.backend.value, m.modelId)
    else ModelKey(m.provider, m.runtime, m.modelId)
  }

  /** The path tells where a model lies, when it is known. */
  predicate HasPath(m: KnownModel) {
    m.localPath.Some? && m.localPath.value != ""
  }

  predicate HasBackend(m: KnownModel) {
    m.backend.Some? && m.backend.value != ""
  }

  /**
    * Which records are of one model: those with the same model id that lie at the same path; or
    * lie nowhere and have the same provider, runtime and backend, or all but no backend.
    */
  lemma SameKeyIff(a: KnownModel, b: KnownModel)
    ensures KeyOf(a) == KeyOf(b) <==>
      && a.modelId == b.modelId
      && (HasPath(a) <==> HasPath(b))
      && (HasPath(a) ==> a.localPath == b.localPath)
      && (!HasPath(a) ==>
            && a.provider == b.provider && a.runtime == b.runtime
            && (HasBackend(a) <==> HasBackend(b))
            && (HasBackend(a) ==> a.backend == b.backend))
  {
  }

  // ---------------------------------------------------------------- merging the fields

  function Prefer(left: Option<string>, right: Option<string>): Option<string> {
    if Truthy(left) then left else if Truthy(right) then right else None
  }

  function PreferKnown(left: string, right: string): string {
    if left != "" then left else if right != "" then right else "unknown"
  }

  function PreferNumber(left: Option<int>, right: Option<int>): Option<int> {
    if left.Some? && left.value != 0 then left else right
  }

  /** The non-blank values, stripped. */
  function Cleaned(values: seq<string>): seq<string> {
    if values == [] then []
    else
      var last := Strip(values[|values| - 1]);
      Cleaned(values[..|values| - 1]) + (if last == "" then [] else [last])
  }

  function UniqueStrings(values: seq<string>): seq<string> {
    Dedupe(Cleaned(values))
  }

  /** Split at every `+`. */
  function SplitPlus(s: string, part: string): seq<string> {
    if s == "" then [part]
    else if s[0] == '+' then [part] + SplitPlus(s[1..], "")
    else SplitPlus(s[1..], part + [s[0]])
  }

  function NonEmpty(parts: seq<string>): seq<string> {
    if parts == [] then []
    else (if parts[0] == "" then [] else [parts[0]]) + NonEmpty(parts[1..])
  }

  function Parts(source: string): seq<string> {
    NonEmpty(SplitPlus(source, ""))
  }

  function JoinPlus(parts: seq<string>): string {
    if parts == [] then ""
    else if |parts| == 1 then parts[0]
    else parts[0] + "+" + JoinPlus(parts[1..])
  }

  function MergeSources(left: string, right: string): string {
    JoinPlus(UniqueStrings(Parts(left) + Parts(right)))
  }

  function StateRank(state: string): nat {
    if state == "installed" then 6
    else if state == "available" || state == "loaded" then 5
    else if state == "configured" then 4
    else if state == "remote" then 3
    else if state == "unloaded" then 2
    else if state == "unknown" then 1
    else 0
  }

  /** How states rank: `available` and `loaded` tie, and any state not listed comes last. */
  lemma StateOrder(other: string)
    requires other !in {"installed", "available", "loaded", "configured", "remote", "unloaded", "unknown"}
    ensures StateRank("installed") > StateRank("available") == StateRank("loaded") > StateRank("configured")
         > StateRank("remote") > StateRank("unloaded") > StateRank("unknown") > StateRank(other)
  {
  }

  function StatePreference(left: string, right: string): string {
    if StateRank(left) >= StateRank(right) then left else right
  }

  function MergeModel(l: KnownModel, r: KnownModel): KnownModel {
    KnownModel(
      PreferKnown(l.provider, r.provider),
      PreferKnown(l.runtime, r.runtime),
      l.modelId,
      Prefer(l.runtimeId, r.runtimeId),
      Prefer(l.name, r.name),
      MergeSources(l.source, r.source),
      Prefer(l.localPath, r.localPath),
      Prefer(l.format, r.format),
      PreferNumber(l.contextLength, r.contextLength),
      Prefer(l.quantization, r.quantization),
      PreferNumber(l.sizeBytes, r.sizeBytes),
      Prefer(l.license, r.license),
      StatePreference(l.installState, r.installState),
      StatePreference(l.healthState, r.healthState),
      StatePreference(l.loadState, r.loadState),
      UniqueStrings(l.tags + r.tags),
      UniqueStrings(l.capabilities + r.capabilities),
      l.routingEligible || r.routingEligible,
      Prefer(l.backend, r.backend),
      UniqueStrings(l.assignedRoutes + r.assignedRoutes),
      Prefer(l.lastSeenAt, r.lastSeenAt),
      l.metadata + r.metadata)
  }

  predicate Named(m: KnownModel) {
    m.provider != "" && m.runtime != ""
  }

  predicate AllNamed(rows: seq<KnownModel>) {
    forall i :: 0 <= i < |rows| ==> Named(rows[i])
  }

  /** Merging two records of one key keeps the key, exactly when their provider and runtime are known or play no part in it. */
  lemma MergeKeepsKeyIff(l: KnownModel, r: KnownModel)
    requires KeyOf(l) == KeyOf(r)
    ensures KeyOf(MergeModel(l, r)) == KeyOf(l) <==> KeyOf(l).PathKey? || Named(l)
  {
  }

  // ---------------------------------------------------------------- cleaning laws

  lemma {:induction false} CleanedAppend(a: seq<string>, b: seq<string>)
    ensures Cleaned(a + b) == Cleaned(a) + Cleaned(b)
  {
    if b == [] {
      assert a + b == a;
    } else {
      var n := |b| - 1;
      assert (a + b)[..|a + b| - 1] == a + b[..n];
      CleanedAppend(a, b[..n]);
    }
  }

  predicate IsClean(values: seq<string>) {
    forall i :: 0 <= i < |values| ==> values[i] != "" && Strip(values[i]) == values[i]
  }

  lemma {:induction false} CleanedIsClean(values: seq<string>)
    ensures IsClean(Cleaned(values))
  {
    if values != [] {
      CleanedIsClean(values[..|values| - 1]);
      StripTwice(values[|values| - 1]);
    }
  }

  lemma {:induction false} CleanStays(values: seq<string>)
    requires IsClean(values)
    ensures Cleaned(values) == values
  {
    if values != [] {
      CleanStays(values[..|values| - 1]);
      assert values == values[..|values| - 1] + [values[|values| - 1]];
    }
  }

  /** Cleaning keeps exactly the non-blank values, stripped; and with the value at a place, those before it first. */
  lemma {:induction false} CleanedMembers(values: seq<string>, x: string)
    ensures x in Cleaned(values) <==> x != "" && exists v :: v in values && Strip(v) == x
  {
    if values != [] {
      var init, last := values[..|values| - 1], values[|values| - 1];
      CleanedMembers(init, x);
      assert values == init + [last];
    }
  }

  lemma UniqueIsClean(values: seq<string>)
    ensures IsClean(UniqueStrings(values))
    ensures Cleaned(UniqueStrings(values)) == UniqueStrings(values)
  {
    CleanedIsClean(values);
    DedupeElements(Cleaned(values));
    forall i | 0 <= i < |UniqueStrings(values)|
      ensures UniqueStrings(values)[i] != "" && Strip(UniqueStrings(values)[i]) == UniqueStrings(values)[i]
    {
      assert UniqueStrings(values)[i] in Cleaned(values);
    }
    CleanStays(UniqueStrings(values));
  }

  lemma UniqueLeft(a: seq<string>, b: seq<string>)
    ensures UniqueStrings(UniqueStrings(a) + b) == UniqueStrings(a + b)
  {
    CleanedAppend(UniqueStrings(a), b);
    CleanedAppend(a, b);
    UniqueIsClean(a);
    DedupeLeft(Cleaned(a), Cleaned(b));
  }

  lemma UniqueRight(a: seq<string>, b: seq<string>)
    ensures UniqueStrings(a + UniqueStrings(b)) == UniqueStrings(a + b)
  {
    CleanedAppend(a, UniqueStrings(b));
    CleanedAppend(a, b);
    UniqueIsClean(b);
    DedupeRight(Cleaned(a), Cleaned(b));
  }

  lemma UniqueAssociative(a: seq<string>, b: seq<string>, c: seq<string>)
    ensures UniqueStrings(UniqueStrings(a + b) + c) == UniqueStrings(a + UniqueStrings(b + c))
    ensures UniqueStrings(UniqueStrings(a + b) + c) == UniqueStrings(a + b + c)
  {
    UniqueLeft(a + b, c);
    UniqueRight(a, b + c);
    assert a + b + c == a + (b + c);
  }

  predicate PlusFree(s: string) {
    forall i :: 0 <= i < |s| ==> s[i] != '+'
  }

  /** Names that can be joined by `+` and found again. */
  predicate AreTokens(parts: seq<string>) {
    forall i :: 0 <= i < |parts| ==> parts[i] != "" && PlusFree(parts[i])
  }

  lemma {:induction false} SplitTakesToken(token: string, rest: string, part: string)
    requires PlusFree(token)
    ensures SplitPlus(token + rest, part) == SplitPlus(rest, part + token)
  {
    if token == "" {
      assert token + rest == rest && part + token == part;
    } else {
      assert (token + rest)[1..] == token[1..] + rest;
      assert part + [token[0]] + token[1..] == part + token;
      SplitTakesToken(token[1..], rest, part + [token[0]]);
    }
  }

  /** Joining tokens and splitting again gives the tokens back. */
  lemma {:induction false} SplitJoin(parts: seq<string>)
    requires AreTokens(parts)
    ensures Parts(JoinPlus(parts)) == parts
  {
    if parts == [] {
      assert SplitPlus("", "") == [""];
    } else if |parts| == 1 {
      assert parts[0] + "" == parts[0] && "" + parts[0] == parts[0];
      SplitTakesToken(parts[0], "", "");
      assert SplitPlus(parts[0], "") == [parts[0]];
      assert NonEmpty([parts[0]]) == [parts[0]] + NonEmpty([]);
      assert parts == [parts[0]];
    } else {
      var rest := "+" + JoinPlus(parts[1..]);
      assert parts[0] + "+" + JoinPlus(parts[1..]) == parts[0] + rest;
      assert "" + parts[0] == parts[0];
      SplitTakesToken(parts[0], rest, "");
      assert rest[1..] == JoinPlus(parts[1..]);
      SplitJoin(parts[1..]);
      assert parts == [parts[0]] + parts[1..];
    }
  }

  lemma {:induction false} SplitPlusFree(s: string, part: string)
    requires PlusFree(part)
    ensures forall p :: p in SplitPlus(s, part) ==> PlusFree(p)
  {
    if s != "" {
      if s[0] == '+' {
        SplitPlusFree(s[1..], "");
      } else {
        SplitPlusFree(s[1..], part + [s[0]]);
      }
    }
  }

  lemma {:induction false} NonEmptyMembers(parts: seq<string>)
    ensures forall p :: p in NonEmpty(parts) ==> p in parts && p != ""
  {
    if parts != [] { NonEmptyMembers(parts[1..]); }
  }

  lemma {:induction false} CleanedPlusFree(values: seq<string>)
    requires forall p :: p in values ==> PlusFree(p)
    ensures forall p :: p in Cleaned(values) ==> PlusFree(p)
  {
    if values != [] {
      var last := values[|values| - 1];
      CleanedPlusFree(values[..|values| - 1]);
      StripShape(last);
      assert PlusFree(last);
      forall i | 0 <= i < |Strip(last)| ensures Strip(last)[i] != '+' {
        assert Strip(last)[i] in last;
      }
    }
  }

  /** A merged source splits into the deduplicated parts of the two. */
  lemma PartsOfMerged(left: string, right: string)
    ensures Parts(MergeSources(left, right)) == UniqueStrings(Parts(left) + Parts(right))
  {
    var all := Parts(left) + Parts(right);
    SplitPlusFree(left, "");
    SplitPlusFree(right, "");
    NonEmptyMembers(SplitPlus(left, ""));
    NonEmptyMembers(SplitPlus(right, ""));
    assert forall p :: p in all ==> PlusFree(p);
    CleanedPlusFree(all);
    UniqueIsClean(all);
    DedupeElements(Cleaned(all));
    var unique := UniqueStrings(all);
    assert forall i :: 0 <= i < |unique| ==> unique[i] in Cleaned(all);
    SplitJoin(unique);
  }

  lemma MergeSourcesAssociative(a: string, b: string, c: string)
    ensures MergeSources(MergeSources(a, b), c) == MergeSources(a, MergeSources(b, c))
  {
    PartsOfMerged(a, b);
    PartsOfMerged(b, c);
    UniqueAssociative(Parts(a), Parts(b), Parts(c));
  }

  lemma StatePreferenceAssociative(a: string, b: string, c: string)
    ensures StatePreference(StatePreference(a, b), c) == StatePreference(a, StatePreference(b, c))
  {
  }

  lemma OverrideAssociative(a: map<string, string>, b: map<string, string>, c: map<string, string>)
    ensures (a + b) + c == a + (b + c)
  {
  }

  lemma PreferredFieldsAssociative(a: KnownModel, b: KnownModel, c: KnownModel)
    ensures var l, r := MergeModel(MergeModel(a, b), c), MergeModel(a, MergeModel(b, c));
      && l.runtimeId == r.runtimeId && l.name == r.name && l.localPath == r.localPath && l.format == r.format
      && l.contextLength == r.contextLength && l.quantization == r.quantization && l.sizeBytes == r.sizeBytes
      && l.license == r.license && l.backend == r.backend && l.lastSeenAt == r.lastSeenAt
  {
  }

  lemma ListFieldsAssociative(a: KnownModel, b: KnownModel, c: KnownModel)
    ensures var l, r := MergeModel(MergeModel(a, b), c), MergeModel(a, MergeModel(b, c));
      && l.source == r.source && l.tags == r.tags && l.capabilities == r.capabilities
      && l.assignedRoutes == r.assignedRoutes
  {
    MergeSourcesAssociative(a.source, b.source, c.source);
    UniqueAssociative(a.tags, b.tags, c.tags);
    UniqueAssociative(a.capabilities, b.capabilities, c.capabilities);
    UniqueAssociative(a.assignedRoutes, b.assignedRoutes, c.assignedRoutes);
  }

  lemma StateFieldsAssociative(a: KnownModel, b: KnownModel, c: KnownModel)
    ensures var l, r := MergeModel(MergeModel(a, b), c), MergeModel(a, MergeModel(b, c));
      && l.metadata == r.metadata && l.installState == r.installState
      && l.healthState == r.healthState && l.loadState == r.loadState
  {
    OverrideAssociative(a.metadata, b.metadata, c.metadata);
    StatePreferenceAssociative(a.installState, b.installState, c.installState);
    StatePreferenceAssociative(a.healthState, b.healthState, c.healthState);
    StatePreferenceAssociative(a.loadState, b.loadState, c.loadState);
  }

  /** Merging named records is associative. */
  lemma MergeAssociative(a: KnownModel, b: KnownModel, c: KnownModel)
    requires Named(a) && Named(b) && Named(c)
    ensures MergeModel(MergeModel(a, b), c) == MergeModel(a, MergeModel(b, c))
  {
    PreferredFieldsAssociative(a, b, c);
    ListFieldsAssociative(a, b, c);
    StateFieldsAssociative(a, b, c);
  }

  // ---------------------------------------------------------------- merging all records

  /** The dictionary the merge builds. */
  function MergeMap(rows: seq<KnownModel>): map<Key, KnownModel> {
    if rows == [] then map[]
    else
      var m := MergeMap(rows[..|rows| - 1]);
      var row := rows[|rows| - 1];
      var k := KeyOf(row);
      m[k := if k in m then MergeModel(m[k], row) else row]
  }

  function Keys(rows: seq<KnownModel>): (keys: seq<Key>)
    ensures |keys| == |rows| && forall i :: 0 <= i < |rows| ==> keys[i] == KeyOf(rows[i])
  {
    seq(|rows|, i requires 0 <= i < |rows| => KeyOf(rows[i]))
  }

  /** The dictionary's insertion order. */
  function KeyOrder(rows: seq<KnownModel>): seq<Key> {
    Dedupe(Keys(rows))
  }

  lemma {:induction false} MergeMapKeys(rows: seq<KnownModel>)
    ensures forall k :: k in MergeMap(rows) <==> k in Keys(rows)
    ensures forall k :: k in MergeMap(rows) <==> k in KeyOrder(rows)
  {
    DedupeElements(Keys(rows));
    if rows != [] {
      var n := |rows| - 1;
      MergeMapKeys(rows[..n]);
      assert Keys(rows) == Keys(rows[..n]) + [KeyOf(rows[n])];
    }
  }

  function ValuesIn(m: map<Key, KnownModel>, order: seq<Key>): (values: seq<KnownModel>)
    requires forall k :: k in order ==> k in m
    ensures |values| == |order| && forall i :: 0 <= i < |order| ==> values[i] == m[order[i]]
  {
    seq(|order|, i requires 0 <= i < |order| => m[order[i]])
  }

  function SortKey(m: KnownModel): seq<string> {
    [m.provider, m.runtime, if m.backend.Some? then m.backend.value else "", m.modelId]
  }

  predicate SortsBefore(a: KnownModel, b: KnownModel) {
    !TupleLess(SortKey(b), SortKey(a))
  }

  function MergedRows(rows: seq<KnownModel>): seq<KnownModel> {
    MergeMapKeys(rows);
    Sort(ValuesIn(MergeMap(rows), KeyOrder(rows)), SortsBefore)
  }

  /** What one more record changes. */
  lemma MergeOneMore(rows: seq<KnownModel>, i: nat)
    requires i < |rows|
    ensures var m, k := MergeMap(rows[..i]), KeyOf(rows[i]);
      && MergeMap(rows[..i + 1]) == m[k := if k in m then MergeModel(m[k], rows[i]) else rows[i]]
      && KeyOrder(rows[..i + 1]) == if k in m then KeyOrder(rows[..i]) else KeyOrder(rows[..i]) + [k]
  {
    assert rows[..i + 1][..i] == rows[..i];
    assert Keys(rows[..i + 1]) == Keys(rows[..i]) + [KeyOf(rows[i])];
    DedupeSnoc(Keys(rows[..i]), KeyOf(rows[i]));
    MergeMapKeys(rows[..i]);
  }

  method MergeModels(rows: seq<KnownModel>) returns (out: seq<KnownModel>)
    ensures out == MergedRows(rows)
  {
    var merged: map<Key, KnownModel> := map[];
    var order: seq<Key> := [];
    MergeMapKeys([]);
    for i := 0 to |rows|
      invariant merged == MergeMap(rows[..i])
      invariant order == KeyOrder(rows[..i])
    {
      MergeOneMore(rows, i);
      var row := rows[i];
      var k := KeyOf(row);
      if k in merged {
        merged := merged[k := MergeModel(merged[k], row)];
      } else {
        merged := merged[k := row];
        order := order + [k];
      }
    }
    assert rows[..|rows|] == rows;
    MergeMapKeys(rows);
    out := Sort(ValuesIn(merged, order), SortsBefore);
  }

  // ---------------------------------------------------------------- one key at a time

  /** The records of one key, in order. */
  function Group(rows: seq<KnownModel>, k: Key): seq<KnownModel> {
    if rows == [] then []
    else
      Group(rows[..|rows| - 1], k)
      + (if KeyOf(rows[|rows| - 1]) == k then [rows[|rows| - 1]] else [])
  }

  function Fold(group: seq<KnownModel>): KnownModel
    requires group != []
  {
    if |group| == 1 then group[0] else MergeModel(Fold(group[..|group| - 1]), group[|group| - 1])
  }

  lemma {:induction false} GroupMembers(rows: seq<KnownModel>, k: Key)
    ensures forall r :: r in Group(rows, k) <==> r in rows && KeyOf(r) == k
  {
    if rows != [] {
      GroupMembers(rows[..|rows| - 1], k);
      assert rows == rows[..|rows| - 1] + [rows[|rows| - 1]];
    }
  }

  lemma FoldSnoc(group: seq<KnownModel>, r: KnownModel)
    ensures Fold(group + [r]) == if group == [] then r else MergeModel(Fold(group), r)
  {
    assert (group + [r])[..|group|] == group;
  }

  /** The dictionary holds, under each key, the left-to-right merge of that key's records. */
  lemma {:induction false} MergeMapFolds(rows: seq<KnownModel>, k: Key)
    ensures k in MergeMap(rows) <==> Group(rows, k) != []
    ensures k in MergeMap(rows) ==> MergeMap(rows)[k] == Fold(Group(rows, k))
  {
    if rows != [] {
      var n := |rows| - 1;
      var g := Group(rows[..n], k);
      MergeMapFolds(rows[..n], k);
      if KeyOf(rows[n]) == k {
        FoldSnoc(g, rows[n]);
        assert Group(rows, k) == g + [rows[n]];
      } else {
        assert Group(rows, k) == g;
      }
    }
  }

  lemma {:induction false} GroupAppend(xs: seq<KnownModel>, ys: seq<KnownModel>, k: Key)
    ensures Group(xs + ys, k) == Group(xs, k) + Group(ys, k)
  {
    if ys == [] {
      assert xs + ys == xs;
    } else {
      var n := |ys| - 1;
      assert (xs + ys)[..|xs + ys| - 1] == xs + ys[..n];
      GroupAppend(xs, ys[..n], k);
    }
  }

  lemma {:induction false} FoldNamed(group: seq<KnownModel>)
    requires group != [] && AllNamed(group)
    ensures Named(Fold(group))
  {
    if |group| > 1 { FoldNamed(group[..|group| - 1]); }
  }

  lemma {:induction false} FoldAppend(a: seq<KnownModel>, b: seq<KnownModel>)
    requires a != [] && b != [] && AllNamed(a) && AllNamed(b)
    ensures Fold(a + b) == MergeModel(Fold(a), Fold(b))
  {
    var n := |b| - 1;
    assert (a + b)[..|a + b| - 1] == a + b[..n];
    if n == 0 {
      assert a + b[..0] == a;
    } else {
      FoldAppend(a, b[..n]);
      FoldNamed(a);
      FoldNamed(b[..n]);
      MergeAssociative(Fold(a), Fold(b[..n]), b[n]);
    }
  }

  lemma {:induction false} FoldKeepsKey(group: seq<KnownModel>, k: Key)
    requires group != [] && AllNamed(group) && forall r :: r in group ==> KeyOf(r) == k
    ensures KeyOf(Fold(group)) == k
  {
    if |group| > 1 {
      var n := |group| - 1;
      FoldKeepsKey(group[..n], k);
      FoldNamed(group[..n]);
      assert group[n] in group;
      MergeKeepsKeyIff(Fold(group[..n]), group[n]);
    }
  }

  lemma GroupNamed(rows: seq<KnownModel>, k: Key)
    requires AllNamed(rows)
    ensures AllNamed(Group(rows, k))
  {
    GroupMembers(rows, k);
    var g := Group(rows, k);
    forall i | 0 <= i < |g| ensures Named(g[i]) {
      assert g[i] in g;
    }
  }

  lemma MergeMapKeepsKeys(rows: seq<KnownModel>, k: Key)
    requires AllNamed(rows) && k in MergeMap(rows)
    ensures KeyOf(MergeMap(rows)[k]) == k && Named(MergeMap(rows)[k])
  {
    MergeMapFolds(rows, k);
    GroupMembers(rows, k);
    GroupNamed(rows, k);
    FoldKeepsKey(Group(rows, k), k);
    FoldNamed(Group(rows, k));
  }

  // ---------------------------------------------------------------- the merged registry

  lemma SortsBeforeIsPreorder()
    ensures TotalPreorder(SortsBefore)
  {
    forall a, b ensures SortsBefore(a, b) || SortsBefore(b, a) {
      TupleLessTrichotomy(SortKey(a), SortKey(b));
    }
    forall a, b, c | SortsBefore(a, b) && SortsBefore(b, c) ensures SortsBefore(a, c) {
      TupleLessTrichotomy(SortKey(a), SortKey(b));
      TupleLessTrichotomy(SortKey(b), SortKey(c));
      if TupleLess(SortKey(c), SortKey(a)) {
        if TupleLess(SortKey(a), SortKey(b)) {
          TupleLessTransitive(SortKey(c), SortKey(a), SortKey(b));
        }
      }
    }
  }

  /** `a` is not listed after `b`: by provider, then runtime, then backend, none first, then model id. */
  predicate ListedBefore(a: KnownModel, b: KnownModel) {
    var (x, y) := (if a.backend.Some? then a.backend.value else "", if b.backend.Some? then b.backend.value else "");
    || StringLess(a.provider, b.provider)
    || (a.provider == b.provider && StringLess(a.runtime, b.runtime))
    || (a.provider == b.provider && a.runtime == b.runtime && StringLess(x, y))
    || (a.provider == b.provider && a.runtime == b.runtime && x == y && !StringLess(b.modelId, a.modelId))
  }

  lemma {:induction false} TupleLessCons(a: seq<string>, b: seq<string>)
    requires a != [] && b != []
    ensures TupleLess(a, b) <==> StringLess(a[0], b[0]) || (a[0] == b[0] && TupleLess(a[1..], b[1..]))
  {
  }

  lemma SortsBeforeByFields(a: KnownModel, b: KnownModel)
    ensures SortsBefore(a, b) <==> ListedBefore(a, b)
  {
    var s, t := SortKey(b), SortKey(a);
    TupleLessCons(s, t);
    TupleLessCons(s[1..], t[1..]);
    TupleLessCons(s[1..][1..], t[1..][1..]);
    TupleLessCons(s[1..][1..][1..], t[1..][1..][1..]);
    assert s[1..][1..][1..][1..] == [] && t[1..][1..][1..][1..] == [];
    StringLessTrichotomy(s[0], t[0]);
    StringLessTrichotomy(s[1], t[1]);
    StringLessTrichotomy(s[2], t[2]);
  }

  lemma ValuesOneEach(m: map<Key, KnownModel>, order: seq<Key>)
    requires NoDuplicates(order) && forall k :: k in order <==> k in m
    requires forall k :: k in m ==> KeyOf(m[k]) == k
    ensures KeysDistinct(ValuesIn(m, order), KeyOf)
    ensures forall r :: r in ValuesIn(m, order) <==> KeyOf(r) in m && r == m[KeyOf(r)]
  {
    var values := ValuesIn(m, order);
    forall i | 0 <= i < |values| ensures KeyOf(values[i]) == order[i] && order[i] in m {
      assert order[i] in order;
    }
    forall r | KeyOf(r) in m && r == m[KeyOf(r)] ensures r in values {
      var i :| 0 <= i < |order| && order[i] == KeyOf(r);
      assert values[i] == r;
    }
  }

  /**
    * Merging yields exactly one record per distinct key of the input, each still under its
    * key, in sorted order.
    */
  lemma OneRecordPerKey(rows: seq<KnownModel>)
    requires AllNamed(rows)
    ensures var out := MergedRows(rows);
      && KeysDistinct(out, KeyOf)
      && Sorted(out, SortsBefore)
      && (forall i, j :: 0 <= i < j < |out| ==> ListedBefore(out[i], out[j]))
      && AllNamed(out)
      && (forall r :: r in out <==> KeyOf(r) in MergeMap(rows) && r == MergeMap(rows)[KeyOf(r)])
      && (forall k :: k in Keys(rows) <==> exists r :: r in out && KeyOf(r) == k)
  {
    MergeMapKeys(rows);
    var m, order := MergeMap(rows), KeyOrder(rows);
    var values := ValuesIn(m, order);
    var out := MergedRows(rows);
    SortsBeforeIsPreorder();
    SortCorrect(values, SortsBefore);
    DedupeElements(Keys(rows));
    forall k | k in m ensures KeyOf(m[k]) == k && Named(m[k]) { MergeMapKeepsKeys(rows, k); }
    ValuesOneEach(m, order);
    PermutedKeysDistinct(values, out, KeyOf);
    SameMembers(out, values);
    forall i, j | 0 <= i < j < |out| ensures ListedBefore(out[i], out[j]) { SortsBeforeByFields(out[i], out[j]); }
    forall i | 0 <= i < |out| ensures Named(out[i]) {
      assert out[i] in out;
    }
    forall k | k in Keys(rows) ensures exists r :: r in out && KeyOf(r) == k {
      assert KeyOf(m[k]) == k && m[k] in out;
    }
  }

  lemma {:induction false} GroupOfDistinct(rows: seq<KnownModel>, k: Key)
    requires KeysDistinct(rows, KeyOf)
    ensures forall r :: r in rows && KeyOf(r) == k ==> Group(rows, k) == [r]
    ensures (forall r :: r in rows ==> KeyOf(r) != k) ==> Group(rows, k) == []
  {
    if rows != [] {
      var n := |rows| - 1;
      GroupOfDistinct(rows[..n], k);
      assert forall r :: r in rows <==> r in rows[..n] || r == rows[n];
      if KeyOf(rows[n]) == k {
        forall r | r in rows[..n] ensures KeyOf(r) != k {
          var i :| 0 <= i < n && rows[i] == r;
        }
        assert Group(rows, k) == [] + [rows[n]] == [rows[n]];
      } else {
        assert Group(rows, k) == Group(rows[..n], k) + [] == Group(rows[..n], k);
      }
    }
  }

  /** After merging, each key's group is its one merged record. */
  lemma GroupOfMerged(rows: seq<KnownModel>, k: Key)
    requires AllNamed(rows)
    ensures Group(MergedRows(rows), k) == if k in MergeMap(rows) then [MergeMap(rows)[k]] else []
  {
    OneRecordPerKey(rows);
    MergeMapKeys(rows);
    var out := MergedRows(rows);
    GroupOfDistinct(out, k);
    if k in MergeMap(rows) {
      MergeMapKeepsKeys(rows, k);
      assert MergeMap(rows)[k] in out;
    }
  }

  /** Merging two parts first, and then their results, gives the same registry as merging all at once. */
  lemma MergeInParts(xs: seq<KnownModel>, ys: seq<KnownModel>)
    requires AllNamed(xs) && AllNamed(ys)
    ensures MergeMap(xs + ys) == MergeMap(MergedRows(xs) + MergedRows(ys))
  {
    var parts := MergedRows(xs) + MergedRows(ys);
    forall k ensures k in MergeMap(xs + ys) <==> k in MergeMap(parts)
      ensures k in MergeMap(xs + ys) ==> MergeMap(xs + ys)[k] == MergeMap(parts)[k]
    {
      var a, b := Group(xs, k), Group(ys, k);
      MergeMapFolds(xs + ys, k);
      MergeMapFolds(parts, k);
      GroupAppend(xs, ys, k);
      GroupAppend(MergedRows(xs), MergedRows(ys), k);
      GroupFolded(xs, k);
      GroupFolded(ys, k);
      GroupNamed(xs, k);
      GroupNamed(ys, k);
      FoldInParts(a, b);
    }
  }

  /** A group as the merged registry holds it: one record, or none. */
  function Folded(group: seq<KnownModel>): seq<KnownModel> {
    if group == [] then [] else [Fold(group)]
  }

  lemma GroupFolded(rows: seq<KnownModel>, k: Key)
    requires AllNamed(rows)
    ensures Group(MergedRows(rows), k) == Folded(Group(rows, k))
  {
    GroupOfMerged(rows, k);
    MergeMapFolds(rows, k);
  }

  lemma FoldInParts(a: seq<KnownModel>, b: seq<KnownModel>)
    requires AllNamed(a) && AllNamed(b)
    ensures (a + b == []) <==> (Folded(a) + Folded(b) == [])
    ensures a + b != [] ==> Fold(a + b) == Fold(Folded(a) + Folded(b))
  {
    if a == [] {
      assert a + b == b && Folded(a) + Folded(b) == Folded(b);
    } else if b == [] {
      assert a + b == a && Folded(a) + Folded(b) == Folded(a);
    } else {
      FoldAppend(a, b);
      FoldSnoc([Fold(a)], Fold(b));
    }
  }

  // ---------------------------------------------------------------- the listing, merged in parts

  function IndexOf(keys: seq<Key>, k: Key): (i: int)
    ensures 0 <= i <= |keys|
    ensures i < |keys| <==> k in keys
    ensures i < |keys| ==> keys[i] == k
  {
    if keys == [] || keys[0] == k then 0 else 1 + IndexOf(keys[1..], k)
  }

  lemma {:induction false} IndexOfAppend(a: seq<Key>, b: seq<Key>, k: Key)
    ensures IndexOf(a + b, k) == if k in a then IndexOf(a, k) else |a| + IndexOf(b, k)
  {
    if a == [] {
      assert a + b == b;
    } else {
      assert (a + b)[1..] == a[1..] + b;
      IndexOfAppend(a[1..], b, k);
    }
  }

  /** The keys stand in their order of first occurrence in the list. */
  ghost predicate InOrderOf(keys: seq<Key>, d: seq<Key>) {
    forall i, j :: 0 <= i < j < |d| ==> IndexOf(keys, d[i]) < IndexOf(keys, d[j])
  }

  /** Deduplication keeps the order of first occurrence. */
  lemma {:induction false} DedupeInOrder(keys: seq<Key>)
    ensures InOrderOf(keys, Dedupe(keys))
  {
    if keys != [] {
      var init, last := keys[..|keys| - 1], keys[|keys| - 1];
      var d := Dedupe(init);
      DedupeInOrder(init);
      DedupeElements(init);
      assert keys == init + [last];
      IndexOfAppend(init, [last], last);
      forall i | 0 <= i < |d| ensures IndexOf(keys, d[i]) == IndexOf(init, d[i]) {
        assert d[i] in init;
        IndexOfAppend(init, [last], d[i]);
      }
      assert InOrderOf(keys, d);
      if last !in d {
        forall i | 0 <= i < |d| ensures IndexOf(keys, d[i]) < IndexOf(keys, last) {
          assert d[i] in init;
        }
        assert InOrderOf(keys, d + [last]);
      }
    }
  }

  /** Where a record's key first occurs. */
  function Place(keys: seq<Key>): KnownModel -> int {
    (r: KnownModel) => IndexOf(keys, KeyOf(r))
  }

  /** The merged registry is in order, ties in order of first occurrence. */
  lemma ListingStable(rows: seq<KnownModel>)
    requires AllNamed(rows)
    ensures Sorted(MergedRows(rows), Precedes(SortsBefore, Place(Keys(rows))))
  {
    MergeMapKeys(rows);
    var order := KeyOrder(rows);
    var values := ValuesIn(MergeMap(rows), order);
    SortsBeforeIsPreorder();
    DedupeInOrder(Keys(rows));
    forall i | 0 <= i < |values| ensures KeyOf(values[i]) == order[i] {
      assert order[i] in order;
      MergeMapKeepsKeys(rows, order[i]);
    }
    var place := Place(Keys(rows));
    assert forall i :: 0 <= i < |values| ==> place(values[i]) == IndexOf(Keys(rows), order[i]);
    SortStable(values, SortsBefore, place);
  }

  /** Of two keys, the later one comes first in the merged registry exactly when its record sorts below. */
  lemma MergedPosition(rows: seq<KnownModel>, k1: Key, k2: Key)
    requires AllNamed(rows) && k1 in MergeMap(rows) && k2 in MergeMap(rows)
    requires IndexOf(Keys(rows), k1) < IndexOf(Keys(rows), k2)
    ensures var keys := Keys(MergedRows(rows));
      IndexOf(keys, k1) < IndexOf(keys, k2)
      <==> !TupleLess(SortKey(MergeMap(rows)[k2]), SortKey(MergeMap(rows)[k1]))
  {
    var out, m := MergedRows(rows), MergeMap(rows);
    OneRecordPerKey(rows);
    ListingStable(rows);
    MergedIndex(rows, k1);
    MergedIndex(rows, k2);
    var i, j := IndexOf(Keys(out), k1), IndexOf(Keys(out), k2);
    TupleLessTrichotomy(SortKey(m[k1]), SortKey(m[k2]));
    if i < j {
      assert Precedes(SortsBefore, Place(Keys(rows)))(out[i], out[j]);
    } else {
      assert Precedes(SortsBefore, Place(Keys(rows)))(out[j], out[i]);
    }
  }

  lemma MergedIndex(rows: seq<KnownModel>, k: Key)
    requires AllNamed(rows) && k in MergeMap(rows)
    ensures var i := IndexOf(Keys(MergedRows(rows)), k);
      i < |MergedRows(rows)| && MergedRows(rows)[i] == MergeMap(rows)[k] && KeyOf(MergeMap(rows)[k]) == k
  {
    var out := MergedRows(rows);
    OneRecordPerKey(rows);
    MergeMapKeepsKeys(rows, k);
    var r := MergeMap(rows)[k];
    assert r in out;
    var j :| 0 <= j < |out| && out[j] == r;
    assert Keys(out)[j] == k;
    var i := IndexOf(Keys(out), k);
    assert KeyOf(out[i]) == k && out[i] in out;
  }

  /**
    * Two keys of the first part whose records tie in the whole registry, but sorted against
    * their order of first occurrence within the part.
    */
  ghost predicate Reordered(xs: seq<KnownModel>, ys: seq<KnownModel>, k1: Key, k2: Key) {
    && k1 in MergeMap(xs) && k2 in MergeMap(xs) && k1 in MergeMap(xs + ys) && k2 in MergeMap(xs + ys)
    && IndexOf(Keys(xs), k1) < IndexOf(Keys(xs), k2)
    && SortKey(MergeMap(xs + ys)[k1]) == SortKey(MergeMap(xs + ys)[k2])
    && TupleLess(SortKey(MergeMap(xs)[k2]), SortKey(MergeMap(xs)[k1]))
  }

  /** A tie of the whole registry keeps its order in parts exactly when the first part does not reverse it. */
  lemma TieInParts(xs: seq<KnownModel>, ys: seq<KnownModel>, k1: Key, k2: Key)
    requires AllNamed(xs) && AllNamed(ys)
    requires k1 in MergeMap(xs + ys) && k2 in MergeMap(xs + ys)
    requires SortKey(MergeMap(xs + ys)[k1]) == SortKey(MergeMap(xs + ys)[k2])
    requires IndexOf(Keys(xs + ys), k1) < IndexOf(Keys(xs + ys), k2)
    ensures var keys := Keys(MergedRows(xs) + MergedRows(ys));
      IndexOf(keys, k1) < IndexOf(keys, k2) <==> !Reordered(xs, ys, k1, k2)
  {
    KeysAppend(xs, ys);
    KeysAppend(MergedRows(xs), MergedRows(ys));
    PartKeys(xs, ys, k1);
    PartKeys(xs, ys, k2);
    if k1 in Keys(xs) && k2 in Keys(xs) {
      MergedPosition(xs, k1, k2);
    } else if k1 !in Keys(xs) {
      TieInSecond(xs, ys, k1, k2);
    }
  }

  lemma KeysAppend(xs: seq<KnownModel>, ys: seq<KnownModel>)
    ensures Keys(xs + ys) == Keys(xs) + Keys(ys)
  {
  }

  lemma TieInSecond(xs: seq<KnownModel>, ys: seq<KnownModel>, k1: Key, k2: Key)
    requires AllNamed(ys)
    requires k1 in MergeMap(xs + ys) && k1 !in MergeMap(xs) && k2 in MergeMap(xs + ys) && k2 !in MergeMap(xs)
    requires SortKey(MergeMap(xs + ys)[k1]) == SortKey(MergeMap(xs + ys)[k2])
    requires IndexOf(Keys(ys), k1) < IndexOf(Keys(ys), k2)
    ensures IndexOf(Keys(MergedRows(ys)), k1) < IndexOf(Keys(MergedRows(ys)), k2)
  {
    OnlyInSecond(xs, ys, k1);
    OnlyInSecond(xs, ys, k2);
    MergedPosition(ys, k1, k2);
    TupleLessTrichotomy(SortKey(MergeMap(ys)[k1]), SortKey(MergeMap(ys)[k2]));
  }

  /** Where a key of two parts is found, before merging them and after; and its record, if only in the second. */
  lemma PartKeys(xs: seq<KnownModel>, ys: seq<KnownModel>, k: Key)
    requires AllNamed(xs) && AllNamed(ys) && k in MergeMap(xs + ys)
    ensures k in MergeMap(xs) <==> k in Keys(xs)
    ensures k in Keys(MergedRows(xs)) <==> k in Keys(xs)
    ensures IndexOf(Keys(xs) + Keys(ys), k)
         == if k in Keys(xs) then IndexOf(Keys(xs), k) else |xs| + IndexOf(Keys(ys), k)
    ensures IndexOf(Keys(MergedRows(xs)) + Keys(MergedRows(ys)), k)
         == if k in Keys(xs) then IndexOf(Keys(MergedRows(xs)), k)
            else |MergedRows(xs)| + IndexOf(Keys(MergedRows(ys)), k)
    ensures k !in Keys(xs) ==> k in MergeMap(ys) && MergeMap(xs + ys)[k] == MergeMap(ys)[k]
  {
    MergeMapKeys(xs);
    IndexOfAppend(Keys(xs), Keys(ys), k);
    IndexOfAppend(Keys(MergedRows(xs)), Keys(MergedRows(ys)), k);
    MergeMapFolds(xs, k);
    GroupFolded(xs, k);
    MergeMapFolds(MergedRows(xs), k);
    MergeMapKeys(MergedRows(xs));
    if k !in Keys(xs) {
      OnlyInSecond(xs, ys, k);
    }
  }

  lemma OnlyInSecond(xs: seq<KnownModel>, ys: seq<KnownModel>, k: Key)
    requires k in MergeMap(xs + ys) && k !in MergeMap(xs)
    ensures k in MergeMap(ys) && MergeMap(xs + ys)[k] == MergeMap(ys)[k]
  {
    MergeMapFolds(xs, k);
    MergeMapFolds(ys, k);
    MergeMapFolds(xs + ys, k);
    GroupAppend(xs, ys, k);
    assert [] + Group(ys, k) == Group(ys, k);
  }

  /** The two listings hold the same records. */
  lemma PartsSameRecords(xs: seq<KnownModel>, ys: seq<KnownModel>)
    requires AllNamed(xs) && AllNamed(ys)
    ensures AllNamed(xs + ys) && AllNamed(MergedRows(xs) + MergedRows(ys))
    ensures multiset(MergedRows(xs + ys)) == multiset(MergedRows(MergedRows(xs) + MergedRows(ys)))
  {
    OneRecordPerKey(xs);
    OneRecordPerKey(ys);
    var parts := MergedRows(xs) + MergedRows(ys);
    MergeInParts(xs, ys);
    OneRecordPerKey(xs + ys);
    OneRecordPerKey(parts);
    var a, b := MergedRows(xs + ys), MergedRows(parts);
    DistinctCountsOnce(a, KeyOf);
    DistinctCountsOnce(b, KeyOf);
    forall r ensures multiset(a)[r] == multiset(b)[r] {
      assert r in a <==> r in multiset(a);
      assert r in b <==> r in multiset(b);
    }
  }

  /**
    * The merged listing, order included, is the same exactly when the first part reverses no
    * two keys that tie in the whole registry.
    */
  lemma ListingInPartsIff(xs: seq<KnownModel>, ys: seq<KnownModel>)
    requires AllNamed(xs) && AllNamed(ys)
    ensures MergedRows(xs + ys) == MergedRows(MergedRows(xs) + MergedRows(ys))
       <==> !exists k1, k2 :: Reordered(xs, ys, k1, k2)
  {
    var parts := MergedRows(xs) + MergedRows(ys);
    var all, place, place' := MergedRows(xs + ys), Place(Keys(xs + ys)), Place(Keys(parts));
    PartsSameRecords(xs, ys);
    ListingStable(xs + ys);
    ListingStable(parts);
    SameArrangementIff(all, MergedRows(parts), SortsBefore, place, place');
    OneRecordPerKey(xs + ys);
    if k1, k2 :| Reordered(xs, ys, k1, k2) {
      ReversedTie(xs, ys, k1, k2);
      var a, b := MergeMap(xs + ys)[k1], MergeMap(xs + ys)[k2];
      assert a in all && b in all && SortsBefore(a, b) && SortsBefore(b, a) && place(a) < place(b);
      assert !(place'(a) < place'(b));
    } else {
      forall a, b | a in all && b in all && SortsBefore(a, b) && SortsBefore(b, a) && place(a) < place(b)
        ensures place'(a) < place'(b)
      {
        TupleLessTrichotomy(SortKey(a), SortKey(b));
        TieInParts(xs, ys, KeyOf(a), KeyOf(b));
      }
    }
  }

  lemma ReversedTie(xs: seq<KnownModel>, ys: seq<KnownModel>, k1: Key, k2: Key)
    requires AllNamed(xs) && AllNamed(ys) && AllNamed(xs + ys) && Reordered(xs, ys, k1, k2)
    ensures var a, b := MergeMap(xs + ys)[k1], MergeMap(xs + ys)[k2];
      && KeyOf(a) == k1 && KeyOf(b) == k2
      && SortsBefore(a, b) && SortsBefore(b, a)
      && IndexOf(Keys(xs + ys), k1) < IndexOf(Keys(xs + ys), k2)
      && !(IndexOf(Keys(MergedRows(xs) + MergedRows(ys)), k1) < IndexOf(Keys(MergedRows(xs) + MergedRows(ys)), k2))
  {
    MergeMapKeepsKeys(xs + ys, k1);
    MergeMapKeepsKeys(xs + ys, k2);
    var a, b := MergeMap(xs + ys)[k1], MergeMap(xs + ys)[k2];
    TupleLessTrichotomy(SortKey(a), SortKey(b));
    KeysAppend(xs, ys);
    PartKeys(xs, ys, k1);
    PartKeys(xs, ys, k2);
    TieInParts(xs, ys, k1, k2);
  }

  /** A record of one file, on a backend if one is known. */
  function FileRecord(path: string, backend: Option<string>): KnownModel {
    KnownModel("p", "r", "m", None, None, "", Some(path), None, None, None, None, None, "", "", "",
               [], [], false, backend, [], None, map[])
  }

  /** A part that learns a backend only from the other part lists two records the other way round. */
  lemma PartsReorder()
    ensures var xs := [FileRecord("b", Some("s")), FileRecord("a", None)];
      var ys := [FileRecord("a", Some("s"))];
      MergedRows(xs + ys) != MergedRows(MergedRows(xs) + MergedRows(ys))
  {
    var b, a, a' := FileRecord("b", Some("s")), FileRecord("a", None), FileRecord("a", Some("s"));
    ReorderingMaps(b, a, a');
    FileSortKeys(b, a, a');
    assert Reordered([b, a], [a'], KeyOf(b), KeyOf(a));
    ListingInPartsIff([b, a], [a']);
  }

  lemma FileSortKeys(b: KnownModel, a: KnownModel, a': KnownModel)
    requires b == FileRecord("b", Some("s")) && a == FileRecord("a", None) && a' == FileRecord("a", Some("s"))
    ensures TupleLess(SortKey(a), SortKey(b))
    ensures SortKey(MergeModel(a, a')) == SortKey(b)
  {
    assert StringLess("", "s");
    TupleLessHead("r", ["", "m"], ["s", "m"]);
    TupleLessHead("p", ["r"] + ["", "m"], ["r"] + ["s", "m"]);
    assert SortKey(a) == ["p"] + (["r"] + ["", "m"]) && SortKey(b) == ["p"] + (["r"] + ["s", "m"]);
  }

  lemma TupleLessHead(x: string, a: seq<string>, b: seq<string>)
    requires TupleLess(a, b)
    ensures TupleLess([x] + a, [x] + b)
  {
  }

  lemma ReorderingMaps(b: KnownModel, a: KnownModel, a': KnownModel)
    requires KeyOf(a') == KeyOf(a) != KeyOf(b)
    ensures MergeMap([b, a]) == map[KeyOf(b) := b, KeyOf(a) := a]
    ensures MergeMap([b, a] + [a']) == map[KeyOf(b) := b, KeyOf(a) := MergeModel(a, a')]
    ensures IndexOf(Keys([b, a]), KeyOf(b)) < IndexOf(Keys([b, a]), KeyOf(a))
  {
    assert [b][..0] == [];
    assert MergeMap([b]) == map[KeyOf(b) := b];
    assert [b, a][..1] == [b];
    assert MergeMap([b, a]) == map[KeyOf(b) := b, KeyOf(a) := a];
    assert ([b, a] + [a'])[..2] == [b, a];
    assert Keys([b, a])[0] == KeyOf(b);
  }

  /** Merging a merged registry changes nothing, order included. */
  lemma MergeIdempotent(rows: seq<KnownModel>)
    requires AllNamed(rows)
    ensures MergedRows(MergedRows(rows)) == MergedRows(rows)
  {
    var out := MergedRows(rows);
    OneRecordPerKey(rows);
    MergeMapKeys(out);
    assert NoDuplicates(Keys(out));
    DedupeOfDistinct(Keys(out));
    var values := ValuesIn(MergeMap(out), KeyOrder(out));
    forall i | 0 <= i < |out| ensures values[i] == out[i] {
      GroupOfDistinct(out, KeyOf(out[i]));
      MergeMapFolds(out, KeyOf(out[i]));
      assert out[i] in out;
    }
    assert values == out;
    SortSorted(out, SortsBefore);
  }

  lemma {:induction false} DedupeOfDistinct<T>(s: seq<T>)
    requires NoDuplicates(s)
    ensures Dedupe(s) == s
  {
    if s != [] {
      var n := |s| - 1;
      DedupeOfDistinct(s[..n]);
      assert s == s[..n] + [s[n]];
    }
  }

  // ---------------------------------------------------------------- what a merged record says

  /** The fields that merge alike. */
  datatype StateField = InstallState | HealthState | LoadState
  datatype ListField = Tags | Capabilities | AssignedRoutes
  datatype TextField = RuntimeId | Name | LocalPath | Format | Quantization | License | BackendName | LastSeenAt

  function StateOf(m: KnownModel, f: StateField): string {
    match f
    case InstallState => m.installState
    case HealthState => m.healthState
    case LoadState => m.loadState
  }

  function ListOf(m: KnownModel, f: ListField): seq<string> {
    match f
    case Tags => m.tags
    case Capabilities => m.capabilities
    case AssignedRoutes => m.assignedRoutes
  }

  function TextOf(m: KnownModel, f: TextField): Option<string> {
    match f
    case RuntimeId => m.runtimeId
    case Name => m.name
    case LocalPath => m.localPath
    case Format => m.format
    case Quantization => m.quantization
    case License => m.license
    case BackendName => m.backend
    case LastSeenAt => m.lastSeenAt
  }

  /** The lists of all records, one after the other. */
  function AllOf(group: seq<KnownModel>, f: ListField): seq<string> {
    if group == [] then [] else AllOf(group[..|group| - 1], f) + ListOf(group[|group| - 1], f)
  }

  /** The leftmost state of highest rank. */
  ghost predicate LeftmostHighest(states: seq<string>, s: string) {
    exists i :: 0 <= i < |states| && states[i] == s
      && (forall j :: 0 <= j < i ==> StateRank(states[j]) < StateRank(s))
      && (forall j :: i < j < |states| ==> StateRank(states[j]) <= StateRank(s))
  }

  function States(group: seq<KnownModel>, f: StateField): (states: seq<string>)
    ensures |states| == |group| && forall i :: 0 <= i < |group| ==> states[i] == StateOf(group[i], f)
  {
    seq(|group|, i requires 0 <= i < |group| => StateOf(group[i], f))
  }

  function Texts(group: seq<KnownModel>, f: TextField): (texts: seq<Option<string>>)
    ensures |texts| == |group| && forall i :: 0 <= i < |group| ==> texts[i] == TextOf(group[i], f)
  {
    seq(|group|, i requires 0 <= i < |group| => TextOf(group[i], f))
  }

  /** The first text that is there; without one there is none. */
  ghost predicate FirstPresent(texts: seq<Option<string>>, v: Option<string>) {
    if Truthy(v) then
      exists i :: 0 <= i < |texts| && texts[i] == v && forall j :: 0 <= j < i ==> !Truthy(texts[j])
    else forall i :: 0 <= i < |texts| ==> !Truthy(texts[i])
  }

  lemma MergedFields(l: KnownModel, r: KnownModel, text: TextField, list: ListField, state: StateField)
    ensures var m := MergeModel(l, r);
      && TextOf(m, text) == Prefer(TextOf(l, text), TextOf(r, text))
      && ListOf(m, list) == UniqueStrings(ListOf(l, list) + ListOf(r, list))
      && StateOf(m, state) == StatePreference(StateOf(l, state), StateOf(r, state))
  {
  }

  lemma FoldTextStep(texts: seq<Option<string>>, v: Option<string>, next: Option<string>)
    requires FirstPresent(texts, v)
    ensures FirstPresent(texts + [next], Prefer(v, next))
  {
    var all := texts + [next];
    if Truthy(v) {
      var i :| 0 <= i < |texts| && texts[i] == v && forall j :: 0 <= j < i ==> !Truthy(texts[j]);
      assert all[i] == v;
    } else {
      assert all[|texts|] == next;
    }
  }

  lemma {:induction false} FoldText(group: seq<KnownModel>, f: TextField)
    requires group != []
    ensures FirstPresent(Texts(group, f), TextOf(Fold(group), f))
  {
    var n := |group| - 1;
    if n == 0 {
      assert Texts(group, f)[0] == TextOf(group[0], f);
    } else {
      FoldText(group[..n], f);
      MergedFields(Fold(group[..n]), group[n], f, Tags, HealthState);
      FoldTextStep(Texts(group[..n], f), TextOf(Fold(group[..n]), f), TextOf(group[n], f));
      TextsSnoc(group, f);
    }
  }

  lemma TextsSnoc(group: seq<KnownModel>, f: TextField)
    requires group != []
    ensures Texts(group, f) == Texts(group[..|group| - 1], f) + [TextOf(group[|group| - 1], f)]
  {
  }

  lemma GroupSnoc(group: seq<KnownModel>)
    requires group != []
    ensures forall r :: r in group <==> r in group[..|group| - 1] || r == group[|group| - 1]
  {
  }

  lemma {:induction false} FoldEligible(group: seq<KnownModel>)
    requires group != []
    ensures Fold(group).routingEligible <==> exists r :: r in group && r.routingEligible
  {
    var n := |group| - 1;
    GroupSnoc(group);
    if n > 0 {
      FoldEligible(group[..n]);
    }
  }

  lemma {:induction false} FoldState(group: seq<KnownModel>, f: StateField)
    requires group != []
    ensures LeftmostHighest(States(group, f), StateOf(Fold(group), f))
  {
    var n := |group| - 1;
    if n == 0 {
      assert States(group, f)[0] == StateOf(group[0], f);
    } else {
      FoldState(group[..n], f);
      MergedFields(Fold(group[..n]), group[n], Name, Tags, f);
      FoldStateStep(States(group[..n], f), StateOf(Fold(group[..n]), f), StateOf(group[n], f));
      StatesSnoc(group, f);
    }
  }

  lemma StatesSnoc(group: seq<KnownModel>, f: StateField)
    requires group != []
    ensures States(group, f) == States(group[..|group| - 1], f) + [StateOf(group[|group| - 1], f)]
  {
  }

  lemma {:induction false} FoldList(group: seq<KnownModel>, f: ListField)
    requires group != []
    ensures ListOf(Fold(group), f) == if |group| >= 2 then UniqueStrings(AllOf(group, f)) else AllOf(group, f)
  {
    var n := |group| - 1;
    if n == 0 {
      assert AllOf(group, f) == AllOf(group[..0], f) + ListOf(group[0], f);
      assert AllOf(group[..0], f) == [];
    } else {
      FoldList(group[..n], f);
      MergedFields(Fold(group[..n]), group[n], Name, f, HealthState);
      if n > 1 {
        UniqueLeft(AllOf(group[..n], f), ListOf(group[n], f));
      }
    }
  }

  lemma FoldStateStep(states: seq<string>, s: string, next: string)
    requires LeftmostHighest(states, s)
    ensures LeftmostHighest(states + [next], StatePreference(s, next))
  {
    var all := states + [next];
    var i :| 0 <= i < |states| && states[i] == s
      && (forall j :: 0 <= j < i ==> StateRank(states[j]) < StateRank(s))
      && (forall j :: i < j < |states| ==> StateRank(states[j]) <= StateRank(s));
    if StateRank(s) >= StateRank(next) {
      assert all[i] == s;
    } else {
      assert all[|states|] == next;
    }
  }

  // ------------------------------------------------ the fields that merge each in their own way

  function AllParts(group: seq<KnownModel>): seq<string> {
    if group == [] then [] else AllParts(group[..|group| - 1]) + Parts(group[|group| - 1].source)
  }

  lemma {:induction false} FoldSource(group: seq<KnownModel>)
    requires group != []
    ensures Parts(Fold(group).source) == if |group| >= 2 then UniqueStrings(AllParts(group)) else AllParts(group)
    ensures |group| >= 2 ==> Fold(group).source == JoinPlus(UniqueStrings(AllParts(group)))
  {
    var n := |group| - 1;
    if n == 0 {
      assert AllParts(group) == AllParts(group[..0]) + Parts(group[0].source);
      assert AllParts(group[..0]) == [];
    } else {
      FoldSource(group[..n]);
      PartsOfMerged(Fold(group[..n]).source, group[n].source);
      if n > 1 {
        UniqueLeft(AllParts(group[..n]), Parts(group[n].source));
      }
    }
  }

  /** The last map that has the key supplies its value. */
  ghost predicate LastToHave(maps: seq<map<string, string>>, m: map<string, string>, x: string) {
    if x in m then
      exists i :: 0 <= i < |maps| && x in maps[i] && maps[i][x] == m[x] && forall j :: i < j < |maps| ==> x !in maps[j]
    else forall i :: 0 <= i < |maps| ==> x !in maps[i]
  }

  function Metadata(group: seq<KnownModel>): (maps: seq<map<string, string>>)
    ensures |maps| == |group| && forall i :: 0 <= i < |group| ==> maps[i] == group[i].metadata
  {
    seq(|group|, i requires 0 <= i < |group| => group[i].metadata)
  }

  lemma FoldMetadataStep(maps: seq<map<string, string>>, m: map<string, string>, next: map<string, string>, x: string)
    requires LastToHave(maps, m, x)
    ensures LastToHave(maps + [next], m + next, x)
  {
    var all := maps + [next];
    if x in next {
      assert all[|maps|] == next;
    } else if x in m {
      var i :| 0 <= i < |maps| && x in maps[i] && maps[i][x] == m[x] && forall j :: i < j < |maps| ==> x !in maps[j];
      assert all[i] == maps[i];
    }
  }

  lemma MetadataSnoc(group: seq<KnownModel>)
    requires group != []
    ensures Metadata(group) == Metadata(group[..|group| - 1]) + [group[|group| - 1].metadata]
  {
  }

  lemma {:induction false} FoldMetadata(group: seq<KnownModel>, x: string)
    requires group != []
    ensures LastToHave(Metadata(group), Fold(group).metadata, x)
  {
    var n := |group| - 1;
    if n == 0 {
      assert Metadata(group)[0] == group[0].metadata;
    } else {
      FoldMetadata(group[..n], x);
      FoldMetadataStep(Metadata(group[..n]), Fold(group[..n]).metadata, group[n].metadata, x);
      MetadataSnoc(group);
    }
  }

  datatype NumberField = ContextLength | SizeBytes

  function NumberOf(m: KnownModel, f: NumberField): Option<int> {
    match f
    case ContextLength => m.contextLength
    case SizeBytes => m.sizeBytes
  }

  predicate NonZero(o: Option<int>) {
    o.Some? && o.value != 0
  }

  function Numbers(group: seq<KnownModel>, f: NumberField): (numbers: seq<Option<int>>)
    ensures |numbers| == |group| && forall i :: 0 <= i < |group| ==> numbers[i] == NumberOf(group[i], f)
  {
    seq(|group|, i requires 0 <= i < |group| => NumberOf(group[i], f))
  }

  /** The first number that is not zero; without one, what the last record says. */
  ghost predicate FirstNonZero(numbers: seq<Option<int>>, v: Option<int>) {
    if NonZero(v) then
      exists i :: 0 <= i < |numbers| && numbers[i] == v && forall j :: 0 <= j < i ==> !NonZero(numbers[j])
    else numbers != [] && v == numbers[|numbers| - 1] && forall i :: 0 <= i < |numbers| ==> !NonZero(numbers[i])
  }

  lemma FoldNumberStep(numbers: seq<Option<int>>, v: Option<int>, next: Option<int>)
    requires FirstNonZero(numbers, v)
    ensures FirstNonZero(numbers + [next], PreferNumber(v, next))
  {
    var all := numbers + [next];
    if NonZero(v) {
      var i :| 0 <= i < |numbers| && numbers[i] == v && forall j :: 0 <= j < i ==> !NonZero(numbers[j]);
      assert all[i] == v;
    } else {
      assert all[|numbers|] == next;
    }
  }

  lemma NumbersSnoc(group: seq<KnownModel>, f: NumberField)
    requires group != []
    ensures Numbers(group, f) == Numbers(group[..|group| - 1], f) + [NumberOf(group[|group| - 1], f)]
  {
  }

  lemma MergedNumber(l: KnownModel, r: KnownModel, f: NumberField)
    ensures NumberOf(MergeModel(l, r), f) == PreferNumber(NumberOf(l, f), NumberOf(r, f))
  {
  }

  lemma {:induction false} FoldNumber(group: seq<KnownModel>, f: NumberField)
    requires group != []
    ensures FirstNonZero(Numbers(group, f), NumberOf(Fold(group), f))
  {
    var n := |group| - 1;
    if n == 0 {
      assert Numbers(group, f)[0] == NumberOf(group[0], f);
    } else {
      FoldNumber(group[..n], f);
      MergedNumber(Fold(group[..n]), group[n], f);
      FoldNumberStep(Numbers(group[..n], f), NumberOf(Fold(group[..n]), f), NumberOf(group[n], f));
      NumbersSnoc(group, f);
    }
  }

  lemma MergedOrigin(l: KnownModel, r: KnownModel)
    ensures var m := MergeModel(l, r);
      && m.modelId == l.modelId
      && m.provider == PreferKnown(l.provider, r.provider) && m.runtime == PreferKnown(l.runtime, r.runtime)
  {
  }

  /** What two records merged at least are called; later records change nothing. */
  lemma {:induction false} FoldOrigin(group: seq<KnownModel>)
    requires group != []
    ensures var m := Fold(group);
      && m.modelId == group[0].modelId
      && m.provider == (if |group| == 1 then group[0].provider else PreferKnown(group[0].provider, group[1].provider))
      && m.runtime == (if |group| == 1 then group[0].runtime else PreferKnown(group[0].runtime, group[1].runtime))
  {
    var n := |group| - 1;
    if n > 0 {
      var init := group[..n];
      assert init[0] == group[0];
      if n == 1 {
        assert Fold(init) == group[0];
      } else {
        assert init[1] == group[1];
        FoldOrigin(init);
      }
      MergedOrigin(Fold(init), group[n]);
    }
  }

  /**
    * Per key: a merged record is eligible when any of its records is; carries for each state
    * field the leftmost of the highest-ranking states; has the entries of each list of all its
    * records, once each in order of first appearance, its source likewise (a record merged with nothing
    * keeps these as they are); takes each optional text and number from the first record that
    * has it, each metadata entry from the last one, and its names from the first.
    */
  lemma MergedRecord(rows: seq<KnownModel>, k: Key)
    requires k in MergeMap(rows)
    ensures var g := Group(rows, k);
      var m := MergeMap(rows)[k];
      && (m.routingEligible <==> exists r :: r in rows && KeyOf(r) == k && r.routingEligible)
      && (forall f :: LeftmostHighest(States(g, f), StateOf(m, f)))
      && (forall f :: ListOf(m, f) == if |g| >= 2 then UniqueStrings(AllOf(g, f)) else AllOf(g, f))
      && (forall f :: FirstPresent(Texts(g, f), TextOf(m, f)))
      && (forall f :: FirstNonZero(Numbers(g, f), NumberOf(m, f)))
      && (forall x :: LastToHave(Metadata(g), m.metadata, x))
      && g != [] && m.modelId == g[0].modelId
      && m.source == (if |g| >= 2 then JoinPlus(UniqueStrings(AllParts(g))) else g[0].source)
      && m.provider == (if |g| >= 2 then PreferKnown(g[0].provider, g[1].provider) else g[0].provider)
      && m.runtime == (if |g| >= 2 then PreferKnown(g[0].runtime, g[1].runtime) else g[0].runtime)
  {
    MergeMapFolds(rows, k);
    GroupMembers(rows, k);
    var g := Group(rows, k);
    FoldEligible(g);
    forall f ensures LeftmostHighest(States(g, f), StateOf(Fold(g), f)) { FoldState(g, f); }
    forall f ensures ListOf(Fold(g), f) == if |g| >= 2 then UniqueStrings(AllOf(g, f)) else AllOf(g, f) {
      FoldList(g, f);
    }
    forall f ensures FirstPresent(Texts(g, f), TextOf(Fold(g), f)) { FoldText(g, f); }
    forall f ensures FirstNonZero(Numbers(g, f), NumberOf(Fold(g), f)) { FoldNumber(g, f); }
    forall x ensures LastToHave(Metadata(g), Fold(g).metadata, x) { FoldMetadata(g, x); }
    FoldSource(g);
    FoldOrigin(g);
  }
}
