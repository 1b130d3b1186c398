/** Loading the engine catalog and the routing targets, and what a loaded configuration guarantees. */
module Config {
  import opened Prelude
  import opened Models
  import opened Policy
  import opened Text
  import Scanner

  datatype RouterConfig = RouterConfig(
    listing: seq<string>,
    engines: Catalog,
    routingTargets: map<string, string>,
    safety: Scanner.Safety,
    providerPolicy: ProviderPolicy)

  datatype ConfigError =
    | MissingEngines
    | BlankEngineName
    | InvalidEngine(name: string)
    | UndefinedFallback
    | BlankTarget
    | MissingTargets
    | UndefinedTarget
    | InvalidScoring
    | InvalidSafety
    | InvalidProviderPolicy

  const REQUIRED_ENGINES: seq<string> := [
    "intent_router", "fast_local", "balanced_local", "reasoning_local", "code_agent", "web_research",
    "multimodal_vision", "image_generation", "human_confirm"]

  const REQUIRED_TARGETS: seq<string> := [
    "simple", "balanced", "reasoning", "coding", "research", "vision", "image_generation", "confirmation"]

  const DEFAULT_TARGETS: map<string, string> := map[
    "simple" := "fast_local",
    "balanced" := "balanced_local",
    "reasoning" := "reasoning_local",
    "coding" := "code_agent",
    "research" := "web_research",
    "vision" := "multimodal_vision",
    "image_generation" := "image_generation",
    "confirmation" := "human_confirm"]

  /** One entry of the raw engine mapping; no body when its fields do not parse. */
  datatype RawEngine = RawEngine(name: string, body: Option<Engine>)

  ghost predicate IsMapping(raw: seq<RawEngine>) {
    forall i, j :: 0 <= i < j < |raw| ==> raw[i].name != raw[j].name
  }

  /** What routing may rely on. */
  ghost predicate Loaded(c: RouterConfig) {
    && WellNamed(c.engines)
    && ClosedUnderFallback(c.engines)
    && (forall k :: k in c.engines <==> k in c.listing)
    && NoDuplicates(c.listing)
    && (forall k :: k in REQUIRED_ENGINES ==> k in c.engines)
    && (forall t :: t in REQUIRED_TARGETS ==> t in c.routingTargets)
    && (forall t :: t in c.routingTargets ==> c.routingTargets[t] in c.engines)
  }

  /** The targets a file's entries produce over the defaults; a later entry replaces an earlier one. */
  function Overlay(defaults: map<string, string>, entries: seq<(string, string)>): map<string, string> {
    if entries == [] then defaults
    else
      var last := entries[|entries| - 1];
      Overlay(defaults, entries[..|entries| - 1])[last.0 := last.1]
  }

  lemma {:induction false} OverlayKeepsKeys(defaults: map<string, string>, entries: seq<(string, string)>)
    ensures defaults.Keys <= Overlay(defaults, entries).Keys
  {
    if entries != [] {
      OverlayKeepsKeys(defaults, entries[..|entries| - 1]);
    }
  }

  /** A target no entry names keeps its default. */
  lemma {:induction false} OverlayKeepsDefault(
    defaults: map<string, string>, entries: seq<(string, string)>, t: string)
    requires forall i :: 0 <= i < |entries| ==> entries[i].0 != t
    ensures t in Overlay(defaults, entries) <==> t in defaults
    ensures t in defaults ==> Overlay(defaults, entries)[t] == defaults[t]
  {
    if entries != [] { OverlayKeepsDefault(defaults, entries[..|entries| - 1], t); }
  }

  /** A target's engine is the one its last entry names. */
  lemma {:induction false} OverlayTakesLast(
    defaults: map<string, string>, entries: seq<(string, string)>, i: nat)
    requires i < |entries| && forall j :: i < j < |entries| ==> entries[j].0 != entries[i].0
    ensures entries[i].0 in Overlay(defaults, entries)
    ensures Overlay(defaults, entries)[entries[i].0] == entries[i].1
  {
    if i < |entries| - 1 { OverlayTakesLast(defaults, entries[..|entries| - 1], i); }
  }

  lemma DefaultsCoverRequiredTargets()
    ensures forall t :: t in REQUIRED_TARGETS ==> t in DEFAULT_TARGETS
  {
  }

  lemma OverlayCoversRequired(entries: seq<(string, string)>)
    ensures forall t :: t in REQUIRED_TARGETS ==> t in Overlay(DEFAULT_TARGETS, entries)
  {
    OverlayKeepsKeys(DEFAULT_TARGETS, entries);
    DefaultsCoverRequiredTargets();
  }

  function Names(raw: seq<RawEngine>): (names: seq<string>)
    ensures |names| == |raw| && forall i :: 0 <= i < |raw| ==> names[i] == raw[i].name
  {
    seq(|raw|, i requires 0 <= i < |raw| => raw[i].name)
  }

  predicate EntriesParse(raw: seq<RawEngine>) {
    forall i :: 0 <= i < |raw| ==> !Blank(raw[i].name) && raw[i].body.Some?
  }

  predicate FallbacksDefined(raw: seq<RawEngine>)
    requires EntriesParse(raw)
  {
    forall i :: 0 <= i < |raw| && raw[i].body.value.fallback.Some? ==> raw[i].body.value.fallback.value in Names(raw)
  }

  predicate TargetsParse(entries: seq<(string, string)>) {
    forall i :: 0 <= i < |entries| ==> !Blank(entries[i].0) && !Blank(entries[i].1)
  }

  predicate AllIn(required: seq<string>, names: seq<string>) {
    forall k :: k in required ==> k in names
  }

  predicate ValuesIn(targets: map<string, string>, names: seq<string>) {
    forall t :: t in targets ==> targets[t] in names
  }

  /** Exactly the raw configurations that load. */
  predicate Loadable(raw: seq<RawEngine>, entries: seq<(string, string)>) {
    && AllIn(REQUIRED_ENGINES, Names(raw))
    && EntriesParse(raw)
    && FallbacksDefined(raw)
    && TargetsParse(entries)
    && ValuesIn(Overlay(DEFAULT_TARGETS, entries), Names(raw))
  }

  ghost predicate HasEntry(raw: seq<RawEngine>, name: string) {
    exists i :: 0 <= i < |raw| && raw[i].name == name
  }

  lemma NamesAreEntries(raw: seq<RawEngine>, name: string)
    ensures name in Names(raw) <==> HasEntry(raw, name)
  {
    if i :| 0 <= i < |raw| && raw[i].name == name {
      assert Names(raw)[i] == name;
    }
  }

  lemma AllInIff(required: seq<string>, raw: seq<RawEngine>)
    ensures AllIn(required, Names(raw)) <==> EnginesAreEntries((set k | k in required), raw)
  {
    forall k ensures k in Names(raw) <==> HasEntry(raw, k) { NamesAreEntries(raw, k); }
  }

  lemma ValuesInIff(targets: map<string, string>, raw: seq<RawEngine>)
    ensures ValuesIn(targets, Names(raw)) <==> forall t :: t in targets ==> HasEntry(raw, targets[t])
  {
    forall k ensures k in Names(raw) <==> HasEntry(raw, k) { NamesAreEntries(raw, k); }
  }

  lemma FallbacksIff(raw: seq<RawEngine>)
    requires EntriesParse(raw)
    ensures FallbacksDefined(raw) <==> forall i :: 0 <= i < |raw| ==>
      var fallback := raw[i].body.value.fallback; fallback.None? || HasEntry(raw, fallback.value)
  {
    forall k ensures k in Names(raw) <==> HasEntry(raw, k) { NamesAreEntries(raw, k); }
  }

  /** Every entry has a name that is not blank, fields that parse, and a fallback, if any, that is an entry. */
  ghost predicate EntriesInOrder(raw: seq<RawEngine>) {
    forall i :: 0 <= i < |raw| ==>
      && !Blank(raw[i].name) && raw[i].body.Some?
      && (raw[i].body.value.fallback.None? || HasEntry(raw, raw[i].body.value.fallback.value))
  }

  lemma EntriesInOrderIff(raw: seq<RawEngine>)
    ensures EntriesInOrder(raw) <==> EntriesParse(raw) && FallbacksDefined(raw)
  {
    if EntriesParse(raw) {
      FallbacksIff(raw);
    }
  }

  /** Every target's entry names a target and an engine, neither blank. */
  ghost predicate TargetsInOrder(entries: seq<(string, string)>) {
    forall i :: 0 <= i < |entries| ==> !Blank(entries[i].0) && !Blank(entries[i].1)
  }

  ghost predicate EnginesAreEntries(names: set<string>, raw: seq<RawEngine>) {
    forall k :: k in names ==> HasEntry(raw, k)
  }

  /**
    * What makes a file loadable: the required engines are entries, the entries are in order, the
    * target entries too, and what the targets come to, entries over defaults, are entries.
    */
  lemma LoadableIff(raw: seq<RawEngine>, entries: seq<(string, string)>)
    ensures Loadable(raw, entries) <==>
      && EnginesAreEntries((set k | k in REQUIRED_ENGINES), raw)
      && EntriesInOrder(raw)
      && TargetsInOrder(entries)
      && EnginesAreEntries(Overlay(DEFAULT_TARGETS, entries).Values, raw)
  {
    AllInIff(REQUIRED_ENGINES, raw);
    EntriesInOrderIff(raw);
    ValuesAreEntries(Overlay(DEFAULT_TARGETS, entries), raw);
  }

  lemma ValuesAreEntries(targets: map<string, string>, raw: seq<RawEngine>)
    ensures ValuesIn(targets, Names(raw)) <==> EnginesAreEntries(targets.Values, raw)
  {
    ValuesInIff(targets, raw);
    forall t | t in targets ensures targets[t] in targets.Values {}
  }

  /** The engine mapping holds every raw entry under its own name, and nothing else. */
  ghost predicate HoldsEntries(engines: Catalog, raw: seq<RawEngine>)
    requires EntriesParse(raw)
  {
    && (forall k :: k in engines <==> k in Names(raw))
    && (forall i :: 0 <= i < |raw| ==>
          raw[i].name in engines && engines[raw[i].name] == raw[i].body.value.(name := raw[i].name))
  }

  lemma EntriesMakeCatalog(engines: Catalog, raw: seq<RawEngine>)
    requires EntriesParse(raw) && HoldsEntries(engines, raw)
    ensures WellNamed(engines)
    ensures ClosedUnderFallback(engines) <==> FallbacksDefined(raw)
  {
    var names := Names(raw);
    forall k | k in engines ensures k != "" && engines[k].name == k {
      var i :| 0 <= i < |raw| && names[i] == k;
      assert engines[raw[i].name].name == k;
    }
    if ClosedUnderFallback(engines) {
      forall i | 0 <= i < |raw| && raw[i].body.value.fallback.Some?
        ensures raw[i].body.value.fallback.value in names
      {
        assert engines[raw[i].name].fallback == raw[i].body.value.fallback;
      }
    }
    if FallbacksDefined(raw) {
      forall k | k in engines && engines[k].fallback.Some? ensures engines[k].fallback.value in engines {
        var i :| 0 <= i < |raw| && names[i] == k;
        assert engines[raw[i].name].fallback == raw[i].body.value.fallback;
      }
    }
  }

  method LoadEngines(raw: seq<RawEngine>) returns (r: Result<Catalog, ConfigError>)
    requires IsMapping(raw)
    ensures r.Ok? <==> EntriesParse(raw)
    ensures r.Ok? ==> HoldsEntries(r.value, raw)
  {
    var engines: Catalog := map[];
    for k := 0 to |raw|
      invariant EntriesParse(raw[..k])
      invariant HoldsEntries(engines, raw[..k])
    {
      assert raw[..k + 1] == raw[..k] + [raw[k]];
      assert Names(raw[..k + 1]) == Names(raw[..k]) + [raw[k].name];
      if Blank(raw[k].name) {
        return Err(BlankEngineName);
      }
      if raw[k].body.None? {
        return Err(InvalidEngine(raw[k].name));
      }
      engines := engines[raw[k].name := raw[k].body.value.(name := raw[k].name)];
    }
    assert raw[..|raw|] == raw;
    return Ok(engines);
  }

  method LoadRoutingTargets(entries: seq<(string, string)>, names: seq<string>)
    returns (r: Result<map<string, string>, ConfigError>)
    ensures r.Ok? <==> TargetsParse(entries) && ValuesIn(Overlay(DEFAULT_TARGETS, entries), names)
    ensures r.Ok? ==> r.value == Overlay(DEFAULT_TARGETS, entries)
  {
    var targets := DEFAULT_TARGETS;
    for k := 0 to |entries|
      invariant targets == Overlay(DEFAULT_TARGETS, entries[..k])
      invariant TargetsParse(entries[..k])
    {
      assert entries[..k + 1][..k] == entries[..k];
      if Blank(entries[k].0) || Blank(entries[k].1) {
        return Err(BlankTarget);
      }
      targets := targets[entries[k].0 := entries[k].1];
    }
    assert entries[..|entries|] == entries;
    OverlayCoversRequired(entries);
    if exists t :: t in REQUIRED_TARGETS && t !in targets {
      return Err(MissingTargets);
    }
    if !ValuesIn(targets, names) {
      return Err(UndefinedTarget);
    }
    return Ok(targets);
  }

  /** The sections that follow, each with no value when its fields do not parse. */
  datatype Sections = Sections(
    scoringParses: bool, safety: Option<Scanner.Safety>, policy: Option<ProviderPolicy>)

  predicate SectionsParse(s: Sections) {
    s.scoringParses && s.safety.Some? && s.policy.Some?
  }

  /** A file loads exactly when it is loadable, and then gives routing everything it relies on. */
  method LoadRouterConfig(raw: seq<RawEngine>, entries: seq<(string, string)>, sections: Sections)
    returns (r: Result<RouterConfig, ConfigError>)
    requires IsMapping(raw)
    ensures r.Ok? <==> Loadable(raw, entries) && SectionsParse(sections)
    ensures r.Ok? ==>
      && Loaded(r.value)
      && r.value.listing == Names(raw)
      && HoldsEntries(r.value.engines, raw)
      && r.value.routingTargets == Overlay(DEFAULT_TARGETS, entries)
      && Some(r.value.safety) == sections.safety && Some(r.value.providerPolicy) == sections.policy
    ensures r.Err? && Loadable(raw, entries) ==>
      r.error == if !sections.scoringParses then InvalidScoring
                 else if sections.safety.None? then InvalidSafety else InvalidProviderPolicy
  {
    var names := Names(raw);
    if !AllIn(REQUIRED_ENGINES, names) {
      return Err(MissingEngines);
    }
    var loaded := LoadEngines(raw);
    if loaded.Err? {
      return Err(loaded.error);
    }
    var engines := loaded.value;
    EntriesMakeCatalog(engines, raw);
    if !ClosedUnderFallback(engines) {
      return Err(UndefinedFallback);
    }
    var targets := LoadRoutingTargets(entries, names);
    if targets.Err? {
      return Err(targets.error);
    }
    OverlayCoversRequired(entries);
    if !sections.scoringParses {
      return Err(InvalidScoring);
    }
    if sections.safety.None? {
      return Err(InvalidSafety);
    }
    if sections.policy.None? {
      return Err(InvalidProviderPolicy);
    }
    return Ok(RouterConfig(names, engines, targets.value, sections.safety.value, sections.policy.value));
  }
}
