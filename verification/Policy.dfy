/**
  * How the configured provider policy, a route pool, the caller's profile and the caller's
  * hints combine into requirements, and exactly when that combination only narrows.
  */
module Policy {
  import opened Prelude
  import opened Models
  import opened Resolver

  datatype ProviderRules = ProviderRules(
    allowlist: seq<string>,
    denylist: seq<string>,
    localOnly: bool,
    hostedAllowed: bool,
    maxCostTier: Option<CostTier>,
    maxLatencyTier: Option<LatencyTier>)

  /** The configured policy: global rules, and one further set of rules per route. */
  datatype ProviderPolicy = ProviderPolicy(rules: ProviderRules, routePools: map<string, ProviderRules>)

  datatype Hints = Hints(
    forceEngine: Option<string>,
    profile: Profile,
    latencySensitive: bool,
    maxCostTier: Option<CostTier>,
    maxLatencyTier: Option<LatencyTier>,
    attachments: seq<string>,
    allowedProviders: seq<string>,
    deniedProviders: seq<string>,
    localOnly: bool,
    hostedAllowed: Option<bool>)

  const DEFAULT_HINTS := Hints(None, Balanced, false, None, None, [], [], [], false, None)

  const LOCAL_PROVIDERS: seq<string> := ["local", "human"]

  const TOOL_TARGETS: set<string> := {"coding", "research", "vision", "image_generation"}

  function OrElse<T>(first: Option<T>, second: Option<T>): Option<T> {
    if first.Some? then first else second
  }

  /** Profile constraints fill in what the hints leave open. */
  function ApplyProfile(h: Hints): Hints {
    h.(latencySensitive := h.latencySensitive || h.profile == Fast,
       maxCostTier := OrElse(h.maxCostTier, if h.profile == Fast then Some("low") else None),
       maxLatencyTier := OrElse(h.maxLatencyTier, if h.profile == Fast then Some("medium") else None),
       allowedProviders := if h.allowedProviders != [] then h.allowedProviders
                           else if h.profile == Private then LOCAL_PROVIDERS else [])
  }

  function Without(s: seq<string>, x: string): (r: seq<string>)
    ensures forall y :: y in r <==> y in s && y != x
  {
    if s == [] then []
    else
      assert s == [s[0]] + s[1..];
      (if s[0] == x then [] else [s[0]]) + Without(s[1..], x)
  }

  function KeepIn(s: seq<string>, keep: seq<string>): (r: seq<string>)
    ensures forall y :: y in r <==> y in s && y in keep
  {
    if s == [] then []
    else
      assert s == [s[0]] + s[1..];
      (if s[0] in keep then [s[0]] else []) + KeepIn(s[1..], keep)
  }

  function RequiredModalities(h: Hints): seq<string> {
    Without(h.attachments, "code")
  }

  function IntersectOrRoute(baseList: seq<string>, route: seq<string>): seq<string> {
    if baseList != [] && route != [] then KeepIn(baseList, route)
    else if route != [] then route
    else baseList
  }

  /** What local-only makes of an allowlist. */
  function LocalPart(a: seq<string>): seq<string> {
    var both := IntersectOrRoute(a, LOCAL_PROVIDERS);
    if both == [] then LOCAL_PROVIDERS else both
  }

  function CombinedAllowlist(policyList: seq<string>, hintList: seq<string>, localOnly: bool): seq<string> {
    var allowed := IntersectOrRoute(policyList, hintList);
    var local := if localOnly then LocalPart(allowed) else allowed;
    Dedupe(if local != [] && "human" !in local then local + ["human"] else local)
  }

  function CombinedDenylist(policyList: seq<string>, hintList: seq<string>): seq<string> {
    Without(Dedupe(policyList + hintList), "human")
  }

  function StricterCost(hint: Option<CostTier>, policy: Option<CostTier>): Option<CostTier> {
    if hint.None? then policy
    else if policy.None? then hint
    else if CostRank(hint.value) <= CostRank(policy.value) then hint else policy
  }

  function StricterLatency(hint: Option<LatencyTier>, policy: Option<LatencyTier>): Option<LatencyTier> {
    if hint.None? then policy
    else if policy.None? then hint
    else if LatencyRank(hint.value) <= LatencyRank(policy.value) then hint else policy
  }

  /** The global rules with the route's own pool laid over them. */
  function EffectiveRules(p: ProviderPolicy, target: Option<string>): ProviderRules {
    if target.None? || target.value !in p.routePools then p.rules
    else
      var pool := p.routePools[target.value];
      ProviderRules(
        IntersectOrRoute(p.rules.allowlist, pool.allowlist),
        Dedupe(p.rules.denylist + pool.denylist),
        p.rules.localOnly || pool.localOnly,
        p.rules.hostedAllowed && pool.hostedAllowed,
        OrElse(pool.maxCostTier, p.rules.maxCostTier),
        OrElse(pool.maxLatencyTier, p.rules.maxLatencyTier))
  }

  predicate RulesAreLocal(r: ProviderRules) {
    r.localOnly || !r.hostedAllowed
  }

  predicate HintsAreLocal(h: Hints) {
    h.localOnly || h.hostedAllowed == Some(false)
  }

  predicate NeedsTools(h: Hints, target: Option<string>) {
    (target.Some? && target.value in TOOL_TARGETS) || RequiredModalities(h) != []
  }

  function RequirementsUnder(h: Hints, target: Option<string>, rules: ProviderRules): Requirements {
    Requirements(
      h.profile,
      NeedsTools(h, target),
      RequiredModalities(h),
      StricterCost(h.maxCostTier, rules.maxCostTier),
      StricterLatency(
        OrElse(h.maxLatencyTier, if h.latencySensitive then Some("medium") else None), rules.maxLatencyTier),
      CombinedAllowlist(rules.allowlist, h.allowedProviders, RulesAreLocal(rules) || HintsAreLocal(h)),
      CombinedDenylist(rules.denylist, h.deniedProviders))
  }

  function DeriveRequirements(h: Hints, target: Option<string>, p: ProviderPolicy): Requirements {
    RequirementsUnder(h, target, EffectiveRules(p, target))
  }

  // ---------------------------------------------------------------- what the requirements mean

  /** The providers several lists leave, as a set; no list at all admits anyone. */
  datatype Allowed = Anyone | Only(providers: set<string>)

  function Listed(list: seq<string>): Allowed {
    if list == [] then Anyone else Only(set x | x in list)
  }

  /** Two lists together. Lists without a common provider lift each other: that is the code's reading. */
  function Together(a: Allowed, b: Allowed): Allowed {
    if a.Anyone? then b
    else if b.Anyone? then a
    else if a.providers !! b.providers then Anyone
    else Only(a.providers * b.providers)
  }

  /** Local-only leaves the local providers listed, or both when none is. */
  function LocalOnly(a: Allowed): Allowed {
    var local := {"local", "human"};
    if a.Anyone? || a.providers !! local then Only(local) else Only(a.providers * local)
  }

  function PoolFor(p: ProviderPolicy, target: Option<string>): Option<ProviderRules> {
    if target.Some? && target.value in p.routePools then Some(p.routePools[target.value]) else None
  }

  /** The providers the configured policy and the target's pool leave. */
  function ConfiguredFor(target: Option<string>, p: ProviderPolicy): Allowed {
    var pool := PoolFor(p, target);
    Together(Listed(p.rules.allowlist), if pool.Some? then Listed(pool.value.allowlist) else Anyone)
  }

  /** Policy, pool or caller ask for local providers only, or for no hosted ones. */
  predicate LocalAsked(h: Hints, target: Option<string>, p: ProviderPolicy) {
    var pool := PoolFor(p, target);
    || p.rules.localOnly || !p.rules.hostedAllowed
    || (pool.Some? && (pool.value.localOnly || !pool.value.hostedAllowed))
    || h.localOnly || h.hostedAllowed == Some(false)
  }

  /** The providers that policy, pool, profile and caller leave. */
  function AllowedFor(h: Hints, target: Option<string>, p: ProviderPolicy): Allowed {
    var caller :=
      if h.allowedProviders == [] && h.profile == Private then Only({"local", "human"})
      else Listed(h.allowedProviders);
    var all := Together(ConfiguredFor(target, p), caller);
    if LocalAsked(h, target, p) then LocalOnly(all) else all
  }

  /** The provider terms: never for `human`, otherwise allowed by the lists together and denied by none. */
  predicate ProviderTerms(provider: string, h: Hints, target: Option<string>, p: ProviderPolicy) {
    provider == "human" ||
    (var pool := PoolFor(p, target);
     var allowed := AllowedFor(h, target, p);
     && (allowed.Anyone? || provider in allowed.providers)
     && provider !in p.rules.denylist
     && (pool.Some? ==> provider !in pool.value.denylist)
     && provider !in h.deniedProviders)
  }

  /** The tier is within the caller's cap, or the fast profile's, and within the pool's, or the policy's. */
  predicate CostTerms(tier: string, h: Hints, target: Option<string>, p: ProviderPolicy) {
    var pool := PoolFor(p, target);
    && (h.maxCostTier.Some? ==> CostRank(tier) <= CostRank(h.maxCostTier.value))
    && (h.maxCostTier.None? && h.profile == Fast ==> CostRank(tier) <= CostRank("low"))
    && (if pool.Some? && pool.value.maxCostTier.Some? then CostRank(tier) <= CostRank(pool.value.maxCostTier.value)
        else p.rules.maxCostTier.Some? ==> CostRank(tier) <= CostRank(p.rules.maxCostTier.value))
  }

  /** The same for latency, where a latency-sensitive caller without a cap of its own asks for `medium`. */
  predicate LatencyTerms(tier: string, h: Hints, target: Option<string>, p: ProviderPolicy) {
    var pool := PoolFor(p, target);
    && (h.maxLatencyTier.Some? ==> LatencyRank(tier) <= LatencyRank(h.maxLatencyTier.value))
    && (h.maxLatencyTier.None? && (h.latencySensitive || h.profile == Fast) ==>
          LatencyRank(tier) <= LatencyRank("medium"))
    && (if pool.Some? && pool.value.maxLatencyTier.Some? then
          LatencyRank(tier) <= LatencyRank(pool.value.maxLatencyTier.value)
        else p.rules.maxLatencyTier.Some? ==> LatencyRank(tier) <= LatencyRank(p.rules.maxLatencyTier.value))
  }

  /** Every attachment but code is a modality to offer; any such attachment, and some targets, need tools. */
  ghost predicate CapabilityTerms(e: Engine, h: Hints, target: Option<string>) {
    && (forall m :: m in h.attachments && m != "code" ==> m in e.modalities && e.supportsTools)
    && (target in {Some("coding"), Some("research"), Some("vision"), Some("image_generation")} ==> e.supportsTools)
  }

  lemma TogetherIsIntersection(a: seq<string>, b: seq<string>)
    ensures Listed(IntersectOrRoute(a, b)) == Together(Listed(a), Listed(b))
  {
    var both := IntersectOrRoute(a, b);
    if a != [] && b != [] {
      NonEmptyHasMember(both);
      var sa, sb := set x | x in a, set x | x in b;
      assert forall x :: x in sa * sb <==> x in both;
      assert (set x | x in both) == sa * sb;
    }
  }

  /** The combined list leaves what the two lists together leave, and `human`. */
  lemma CombinedIsTogether(policyList: seq<string>, hintList: seq<string>, local: bool, provider: string)
    ensures var all := Together(Listed(policyList), Listed(hintList));
      var left := if local then LocalOnly(all) else all;
      ProviderAllowed(CombinedAllowlist(policyList, hintList, local), provider)
      <==> provider == "human" || left.Anyone? || provider in left.providers
  {
    var a := IntersectOrRoute(policyList, hintList);
    TogetherIsIntersection(policyList, hintList);
    CombinedAllowlistMembers(policyList, hintList, local);
    if local && a != [] {
      assert (set x | x in a) !! {"local", "human"} <==> "local" !in a && "human" !in a;
    }
  }

  lemma AllowedMeaning(raw: Hints, target: Option<string>, p: ProviderPolicy, provider: string)
    ensures var allowed := AllowedFor(raw, target, p);
      ProviderAllowed(DeriveRequirements(ApplyProfile(raw), target, p).allowedProviders, provider)
      <==> provider == "human" || allowed.Anyone? || provider in allowed.providers
  {
    var h, rules := ApplyProfile(raw), EffectiveRules(p, target);
    CombinedIsTogether(rules.allowlist, h.allowedProviders, RulesAreLocal(rules) || HintsAreLocal(h), provider);
    assert Listed(LOCAL_PROVIDERS) == Only({"local", "human"}) by {
      assert LOCAL_PROVIDERS[0] == "local" && LOCAL_PROVIDERS[1] == "human";
    }
    var pool := PoolFor(p, target);
    if pool.Some? {
      TogetherIsIntersection(p.rules.allowlist, pool.value.allowlist);
    }
  }

  lemma DeniedMeaning(raw: Hints, target: Option<string>, p: ProviderPolicy, provider: string)
    ensures var pool := PoolFor(p, target);
      provider in DeriveRequirements(ApplyProfile(raw), target, p).deniedProviders
      <==> provider != "human" && (provider in p.rules.denylist
             || (pool.Some? && provider in pool.value.denylist) || provider in raw.deniedProviders)
  {
    var rules := EffectiveRules(p, target);
    DedupeElements(rules.denylist + raw.deniedProviders);
    var pool := PoolFor(p, target);
    if pool.Some? {
      DedupeElements(p.rules.denylist + pool.value.denylist);
    }
  }

  lemma CostMeaning(raw: Hints, target: Option<string>, p: ProviderPolicy, tier: string)
    ensures CostTerms(tier, raw, target, p)
       <==> !CostExceeds(tier, DeriveRequirements(ApplyProfile(raw), target, p).maxCostTier)
  {
  }

  lemma LatencyMeaning(raw: Hints, target: Option<string>, p: ProviderPolicy, tier: string)
    ensures LatencyTerms(tier, raw, target, p)
       <==> !LatencyExceeds(tier, DeriveRequirements(ApplyProfile(raw), target, p).maxLatencyTier)
  {
  }

  lemma CapabilityMeaning(e: Engine, raw: Hints, target: Option<string>, p: ProviderPolicy)
    ensures var req := DeriveRequirements(ApplyProfile(raw), target, p);
      CapabilityTerms(e, raw, target)
      <==> (req.needsTools ==> e.supportsTools) && forall m :: m in req.requiredModalities ==> m in e.modalities
  {
    NonEmptyHasMember(RequiredModalities(raw));
  }

  /**
    * What it is to meet the derived requirements, term by term from the configured policy, the
    * target's pool, the profile and the caller's hints: nobody's terms are dropped, and nothing
    * else is asked.
    */
  lemma RequirementsMeaning(e: Engine, raw: Hints, target: Option<string>, p: ProviderPolicy)
    ensures MeetsRequirements(e, DeriveRequirements(ApplyProfile(raw), target, p))
       <==> && ProviderTerms(e.provider, raw, target, p)
            && CostTerms(e.costTier, raw, target, p)
            && LatencyTerms(e.latencyTier, raw, target, p)
            && CapabilityTerms(e, raw, target)
  {
    AllowedMeaning(raw, target, p, e.provider);
    DeniedMeaning(raw, target, p, e.provider);
    CostMeaning(raw, target, p, e.costTier);
    LatencyMeaning(raw, target, p, e.latencyTier);
    CapabilityMeaning(e, raw, target, p);
    assert ProviderTerms(e.provider, raw, target, p)
      <==> && e.provider !in DeriveRequirements(ApplyProfile(raw), target, p).deniedProviders
           && ProviderAllowed(DeriveRequirements(ApplyProfile(raw), target, p).allowedProviders, e.provider);
  }

  /** The caller's list, or the private profile's, has no provider in common with the configured ones. */
  predicate CallerListLifted(h: Hints, target: Option<string>, p: ProviderPolicy) {
    var configured := ConfiguredFor(target, p);
    configured.Only? &&
    if h.allowedProviders != [] then configured.providers !! (set x | x in h.allowedProviders)
    else h.profile == Private && configured.providers !! {"local", "human"}
  }

  /**
    * The caller's own terms are honoured: denied providers, tier caps, latency sensitivity,
    * attachments, local-only; and its allowed providers, unless the configured ones share none
    * with them or local-only replaces them. A private caller without a list of its own gets only
    * local providers and `human`, a fast one low cost and medium latency at most.
    */
  lemma CallerTermsHonoured(e: Engine, h: Hints, target: Option<string>, p: ProviderPolicy)
    requires MeetsRequirements(e, DeriveRequirements(ApplyProfile(h), target, p))
    ensures e.provider in h.deniedProviders ==> e.provider == "human"
    ensures h.maxCostTier.Some? ==> CostRank(e.costTier) <= CostRank(h.maxCostTier.value)
    ensures h.maxLatencyTier.Some? ==> LatencyRank(e.latencyTier) <= LatencyRank(h.maxLatencyTier.value)
    ensures h.latencySensitive && h.maxLatencyTier.None? ==> LatencyRank(e.latencyTier) <= LatencyRank("medium")
    ensures forall m :: m in h.attachments && m != "code" ==> m in e.modalities
    ensures h.profile == Fast ==>
      && (h.maxCostTier.None? ==> CostRank(e.costTier) <= CostRank("low"))
      && (h.maxLatencyTier.None? ==> LatencyRank(e.latencyTier) <= LatencyRank("medium"))
    ensures h.localOnly || h.hostedAllowed == Some(false) ==> e.provider == "local" || e.provider == "human"
    ensures h.allowedProviders != [] && !CallerListLifted(h, target, p) ==>
      || e.provider in h.allowedProviders || e.provider == "human"
      || (e.provider == "local" && AllowedFor(h, target, p) == Only({"local", "human"}))
    ensures h.profile == Private && h.allowedProviders == [] && !CallerListLifted(h, target, p) ==>
      e.provider == "local" || e.provider == "human"
  {
    RequirementsMeaning(e, h, target, p);
    if e.provider != "human" {
      CallerProviders(e.provider, h, target, p);
    }
  }

  lemma CallerProviders(provider: string, h: Hints, target: Option<string>, p: ProviderPolicy)
    requires ProviderTerms(provider, h, target, p) && provider != "human"
    ensures h.localOnly || h.hostedAllowed == Some(false) ==> provider == "local"
    ensures h.allowedProviders != [] && !CallerListLifted(h, target, p) ==>
      || provider in h.allowedProviders
      || (provider == "local" && AllowedFor(h, target, p) == Only({"local", "human"}))
    ensures h.profile == Private && h.allowedProviders == [] && !CallerListLifted(h, target, p) ==> provider == "local"
  {
  }

  /**
    * A private caller stays local: local-only is asked for as well; or the caller lists no
    * providers and the configured ones, if any, include a local one; or the caller's list and the
    * configured ones have providers in common, and only local ones.
    */
  predicate StaysLocal(h: Hints, target: Option<string>, p: ProviderPolicy) {
    var local, configured := {"local", "human"}, ConfiguredFor(target, p);
    var listed := set x | x in h.allowedProviders;
    || LocalAsked(h, target, p)
    || (h.allowedProviders == [] && (configured.Anyone? || !(configured.providers !! local)))
    || (h.allowedProviders != [] && configured.Anyone? && listed <= local)
    || (h.allowedProviders != [] && configured.Only?
        && !(configured.providers !! listed) && configured.providers * listed <= local)
  }

  /** Exactly when the private profile keeps a request to local providers and the gate. */
  lemma PrivateStaysLocalIff(h: Hints, target: Option<string>, p: ProviderPolicy)
    requires h.profile == Private
    ensures (forall x :: ProviderAllowed(DeriveRequirements(ApplyProfile(h), target, p).allowedProviders, x)
                    ==> x == "local" || x == "human")
       <==> StaysLocal(h, target, p)
  {
    var allowed := AllowedFor(h, target, p);
    forall x ensures ProviderAllowed(DeriveRequirements(ApplyProfile(h), target, p).allowedProviders, x)
                <==> x == "human" || allowed.Anyone? || x in allowed.providers
    {
      AllowedMeaning(h, target, p, x);
    }
    if allowed.Anyone? {
      var outside := SomeProviderOutside(LOCAL_PROVIDERS);
      assert outside != LOCAL_PROVIDERS[0] && outside != LOCAL_PROVIDERS[1];
      assert ProviderAllowed(DeriveRequirements(ApplyProfile(h), target, p).allowedProviders, outside);
    } else if x :| x in allowed.providers && x !in {"local", "human"} {
      assert ProviderAllowed(DeriveRequirements(ApplyProfile(h), target, p).allowedProviders, x);
    }
    StaysLocalMeaning(h, target, p);
  }

  lemma StaysLocalMeaning(h: Hints, target: Option<string>, p: ProviderPolicy)
    requires h.profile == Private
    ensures StaysLocal(h, target, p)
       <==> AllowedFor(h, target, p).Only? && AllowedFor(h, target, p).providers <= {"local", "human"}
  {
  }

  /** A private caller that lists a hosted provider is admitted to it. */
  lemma PrivateCallerMayListHosted(provider: string)
    requires provider !in {"local", "human"}
    ensures var h := DEFAULT_HINTS.(profile := Private, allowedProviders := [provider]);
      var p := ProviderPolicy(ProviderRules([], [], false, true, None, None), map[]);
      !StaysLocal(h, None, p) && ProviderTerms(provider, h, None, p)
  {
    var h := DEFAULT_HINTS.(profile := Private, allowedProviders := [provider]);
    var p := ProviderPolicy(ProviderRules([], [], false, true, None, None), map[]);
    assert h.allowedProviders[0] == provider;
    var listed := set x | x in h.allowedProviders;
    assert provider in listed;
    assert !(listed <= {"local", "human"});
    assert !LocalAsked(h, None, p) && ConfiguredFor(None, p) == Anyone;
    assert AllowedFor(h, None, p) == Only(listed);
  }

  // ---------------------------------------------------------------- the gate stays reachable

  /** No policy, pool, profile or hint excludes the `human` provider. */
  lemma HumanNeverExcluded(h: Hints, target: Option<string>, p: ProviderPolicy)
    ensures var req := DeriveRequirements(h, target, p);
      && "human" !in req.deniedProviders
      && (req.allowedProviders == [] || "human" in req.allowedProviders)
  {
    var rules := EffectiveRules(p, target);
    CombinedAllowlistMembers(rules.allowlist, h.allowedProviders, RulesAreLocal(rules) || HintsAreLocal(h));
  }

  // ---------------------------------------------------------------- hints only narrow, or when not

  predicate ProviderAllowed(allowed: seq<string>, provider: string) {
    allowed == [] || provider in allowed
  }

  /** The combined allowlist as a set of providers, case by case. */
  lemma CombinedAllowlistMembers(policyList: seq<string>, hintList: seq<string>, localOnly: bool)
    ensures var a := IntersectOrRoute(policyList, hintList);
      var r := CombinedAllowlist(policyList, hintList, localOnly);
      && (r == [] <==> !localOnly && a == [])
      && (forall x :: x in r <==>
            if localOnly then
              (x == "human" || (x == "local" && (a == [] || "local" in a || "human" !in a)))
            else (x in a || (x == "human" && a != [])))
  {
    var a := IntersectOrRoute(policyList, hintList);
    var local := if localOnly then LocalPart(a) else a;
    var full := if local != [] && "human" !in local then local + ["human"] else local;
    if localOnly { LocalPartMembers(a); }
    DedupeElements(full);
    if full != [] {
      assert full[0] in Dedupe(full);
    }
  }

  lemma LocalPartMembers(a: seq<string>)
    ensures LocalPart(a) != []
    ensures forall x :: x in LocalPart(a) <==>
      (x == "local" && (a == [] || "local" in a || "human" !in a))
      || (x == "human" && (a == [] || "human" in a || "local" !in a))
  {
    assert forall x :: x in LOCAL_PROVIDERS <==> x == "local" || x == "human" by {
      assert LOCAL_PROVIDERS[0] == "local" && LOCAL_PROVIDERS[1] == "human";
    }
    if a != [] {
      var both := KeepIn(a, LOCAL_PROVIDERS);
      assert "local" in a ==> "local" in both;
      assert "human" in a ==> "human" in both;
      assert both != [] ==> both[0] in both;
    }
  }

  /** The hints make the derived allowlist admit a provider that the policy alone refuses. */
  predicate HintsLoosenAllowlist(policyList: seq<string>, hintList: seq<string>, policyLocal: bool, local: bool) {
    && policyList != []
    && var a := IntersectOrRoute(policyList, hintList);
       if local then
         && "local" !in policyList && "human" !in a
         && (policyLocal ==> "human" in policyList)
       else a == []
  }

  ghost predicate AllowlistNarrows(policyList: seq<string>, hintList: seq<string>, policyLocal: bool, local: bool) {
    forall x :: ProviderAllowed(CombinedAllowlist(policyList, hintList, local), x)
            ==> ProviderAllowed(CombinedAllowlist(policyList, [], policyLocal), x)
  }

  /** An allowlist never names every provider. */
  lemma SomeProviderOutside(s: seq<string>) returns (x: string)
    ensures x !in s
  {
    x := seq(MaxLength(s) + 1, _ => 'x');
    LongerThanAll(s, x);
  }

  function MaxLength(s: seq<string>): nat {
    if s == [] then 0
    else
      var rest := MaxLength(s[1..]);
      if |s[0]| > rest then |s[0]| else rest
  }

  lemma {:induction false} LongerThanAll(s: seq<string>, x: string)
    requires |x| > MaxLength(s)
    ensures x !in s
  {
    if s != [] { LongerThanAll(s[1..], x); }
  }

  /** An intersection keeps no provider the policy does not list. */
  lemma IntersectionWithin(policyList: seq<string>, hintList: seq<string>)
    ensures policyList != [] ==> forall x :: x in IntersectOrRoute(policyList, hintList) ==> x in policyList
    ensures IntersectOrRoute(policyList, []) == policyList
  {
  }

  lemma LooseningAdmitsMore(
    policyList: seq<string>, hintList: seq<string>, policyLocal: bool, hintLocal: bool) returns (x: string)
    requires HintsLoosenAllowlist(policyList, hintList, policyLocal, policyLocal || hintLocal)
    ensures ProviderAllowed(CombinedAllowlist(policyList, hintList, policyLocal || hintLocal), x)
    ensures !ProviderAllowed(CombinedAllowlist(policyList, [], policyLocal), x)
  {
    IntersectionWithin(policyList, hintList);
    CombinedAllowlistMembers(policyList, hintList, policyLocal || hintLocal);
    CombinedAllowlistMembers(policyList, [], policyLocal);
    if policyLocal || hintLocal {
      x := "local";
    } else {
      x := SomeProviderOutside(CombinedAllowlist(policyList, [], policyLocal));
    }
  }

  lemma TightHintsAdmitNoMore(
    policyList: seq<string>, hintList: seq<string>, policyLocal: bool, hintLocal: bool, x: string)
    requires !HintsLoosenAllowlist(policyList, hintList, policyLocal, policyLocal || hintLocal)
    requires ProviderAllowed(CombinedAllowlist(policyList, hintList, policyLocal || hintLocal), x)
    ensures ProviderAllowed(CombinedAllowlist(policyList, [], policyLocal), x)
  {
    IntersectionWithin(policyList, hintList);
    CombinedAllowlistMembers(policyList, hintList, policyLocal || hintLocal);
    CombinedAllowlistMembers(policyList, [], policyLocal);
  }

  /**
    * Exactly when caller hints keep the provider allowlist at least as strict as the policy
    * alone makes it. They fail to when an intersection comes out empty and so reads as "no
    * allowlist", or is replaced by the local providers although the policy did not list `local`.
    */
  lemma AllowlistNarrowsIff(policyList: seq<string>, hintList: seq<string>, policyLocal: bool, hintLocal: bool)
    ensures AllowlistNarrows(policyList, hintList, policyLocal, policyLocal || hintLocal)
       <==> !HintsLoosenAllowlist(policyList, hintList, policyLocal, policyLocal || hintLocal)
  {
    if HintsLoosenAllowlist(policyList, hintList, policyLocal, policyLocal || hintLocal) {
      var x := LooseningAdmitsMore(policyList, hintList, policyLocal, hintLocal);
    } else {
      forall x | ProviderAllowed(CombinedAllowlist(policyList, hintList, policyLocal || hintLocal), x)
        ensures ProviderAllowed(CombinedAllowlist(policyList, [], policyLocal), x)
      {
        TightHintsAdmitNoMore(policyList, hintList, policyLocal, hintLocal, x);
      }
    }
  }

  /** The hints make this policy's allowlist for the target admit more than it would alone. */
  predicate Loosens(h: Hints, target: Option<string>, p: ProviderPolicy) {
    var rules := EffectiveRules(p, target);
    HintsLoosenAllowlist(rules.allowlist, h.allowedProviders, RulesAreLocal(rules),
                         RulesAreLocal(rules) || HintsAreLocal(h))
  }

  lemma DenylistNarrows(policyList: seq<string>, hintList: seq<string>, x: string)
    ensures x in CombinedDenylist(policyList, []) ==> x in CombinedDenylist(policyList, hintList)
  {
    DedupeElements(policyList + hintList);
    DedupeElements(policyList + []);
  }

  /**
    * Whatever the hints, an engine that meets the combined requirements meets each requirement
    * the policy alone would set on tools, modalities, denied providers and tier caps; on allowed
    * providers too, unless the hints loosen the allowlist.
    */
  lemma HintsOnlyNarrow(e: Engine, h: Hints, target: Option<string>, p: ProviderPolicy)
    requires MeetsRequirements(e, DeriveRequirements(h, target, p))
    ensures MeetsRequirements(e, DeriveRequirements(DEFAULT_HINTS, target, p).(allowedProviders := []))
    ensures !Loosens(h, target, p) ==> MeetsRequirements(e, DeriveRequirements(DEFAULT_HINTS, target, p))
  {
    OtherTermsNarrow(e, h, target, p);
    if !Loosens(h, target, p) {
      AllowedUnderPolicyAlone(h, target, p, e.provider);
      MeetsWithAllowed(e, DeriveRequirements(DEFAULT_HINTS, target, p));
    }
  }

  lemma OtherTermsNarrow(e: Engine, h: Hints, target: Option<string>, p: ProviderPolicy)
    requires MeetsRequirements(e, DeriveRequirements(h, target, p))
    ensures MeetsRequirements(e, DeriveRequirements(DEFAULT_HINTS, target, p).(allowedProviders := []))
    ensures ProviderAllowed(DeriveRequirements(h, target, p).allowedProviders, e.provider)
  {
    DenylistNarrows(EffectiveRules(p, target).denylist, h.deniedProviders, e.provider);
  }

  lemma MeetsWithAllowed(e: Engine, req: Requirements)
    requires MeetsRequirements(e, req.(allowedProviders := [])) && ProviderAllowed(req.allowedProviders, e.provider)
    ensures MeetsRequirements(e, req)
  {
  }

  lemma AllowedUnderPolicyAlone(h: Hints, target: Option<string>, p: ProviderPolicy, provider: string)
    requires ProviderAllowed(DeriveRequirements(h, target, p).allowedProviders, provider) && !Loosens(h, target, p)
    ensures ProviderAllowed(DeriveRequirements(DEFAULT_HINTS, target, p).allowedProviders, provider)
  {
    var rules := EffectiveRules(p, target);
    AllowlistNarrowsIff(rules.allowlist, h.allowedProviders, RulesAreLocal(rules), HintsAreLocal(h));
  }

  lemma NonEmptyHasMember(s: seq<string>)
    ensures s != [] ==> exists x :: x in s
  {
    if s != [] {
      assert s[0] in s;
    }
  }

  /** A caller asking only for a provider outside the policy's allowlist lifts the allowlist altogether. */
  lemma DisjointHintLiftsAllowlist(provider: string)
    ensures ProviderAllowed(CombinedAllowlist(["local"], ["openai"], false), provider)
    ensures ProviderAllowed(CombinedAllowlist(["local"], [], false), provider)
       <==> provider == "local" || provider == "human"
  {
    NonEmptyHasMember(KeepIn(["local"], ["openai"]));
    CombinedAllowlistMembers(["local"], ["openai"], false);
    CombinedAllowlistMembers(["local"], [], false);
  }

  // ---------------------------------------------------------------- route pools

  predicate CostCapNarrows(pool: Option<CostTier>, general: Option<CostTier>) {
    pool.None? || general.None? || CostRank(pool.value) <= CostRank(general.value)
  }

  predicate LatencyCapNarrows(pool: Option<LatencyTier>, general: Option<LatencyTier>) {
    pool.None? || general.None? || LatencyRank(pool.value) <= LatencyRank(general.value)
  }

  /** Every tier is the tier of some engine, so caps can be compared by the engines they admit. */
  ghost predicate CostNoLooser(narrow: Option<CostTier>, wide: Option<CostTier>) {
    forall tier: string :: CostExceeds(tier, wide) ==> CostExceeds(tier, narrow)
  }

  ghost predicate LatencyNoLooser(narrow: Option<LatencyTier>, wide: Option<LatencyTier>) {
    forall tier: string :: LatencyExceeds(tier, wide) ==> LatencyExceeds(tier, narrow)
  }

  /**
    * A route pool always keeps the global denylist and the local-only switches, but its tier
    * caps replace the global ones: they narrow exactly when they do not rank above them.
    */
  lemma RoutePoolCapsNarrowIff(p: ProviderPolicy, target: string)
    requires target in p.routePools
    ensures var pool := p.routePools[target];
      var rules := EffectiveRules(p, Some(target));
      && (forall x :: x in p.rules.denylist || x in pool.denylist <==> x in rules.denylist)
      && (RulesAreLocal(rules) <==> RulesAreLocal(p.rules) || RulesAreLocal(pool))
      && CostNoLooser(rules.maxCostTier, p.rules.maxCostTier)
         == CostCapNarrows(pool.maxCostTier, p.rules.maxCostTier)
      && LatencyNoLooser(rules.maxLatencyTier, p.rules.maxLatencyTier)
         == LatencyCapNarrows(pool.maxLatencyTier, p.rules.maxLatencyTier)
  {
    var pool := p.routePools[target];
    var rules := EffectiveRules(p, Some(target));
    DedupeElements(p.rules.denylist + pool.denylist);
    if !CostCapNarrows(pool.maxCostTier, p.rules.maxCostTier) {
      assert CostExceeds(pool.maxCostTier.value, p.rules.maxCostTier);
      assert !CostExceeds(pool.maxCostTier.value, rules.maxCostTier);
    }
    if !LatencyCapNarrows(pool.maxLatencyTier, p.rules.maxLatencyTier) {
      assert LatencyExceeds(pool.maxLatencyTier.value, p.rules.maxLatencyTier);
      assert !LatencyExceeds(pool.maxLatencyTier.value, rules.maxLatencyTier);
    }
  }

  /** A pool's allowlist narrows the global one exactly when both listing providers leaves some in common. */
  lemma RoutePoolAllowlistNarrowsIff(general: seq<string>, pool: seq<string>)
    ensures (forall x :: ProviderAllowed(IntersectOrRoute(general, pool), x) ==> ProviderAllowed(general, x))
       <==> general == [] || pool == [] || exists x :: x in general && x in pool
  {
    var both := IntersectOrRoute(general, pool);
    if general != [] && pool != [] {
      if x :| x in general && x in pool {
        assert x in both;
      } else {
        NonEmptyHasMember(both);
        var outside := SomeProviderOutside(general);
        assert ProviderAllowed(both, outside) && !ProviderAllowed(general, outside);
      }
    }
  }
}
