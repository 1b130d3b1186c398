/**
  * Routing a scored prompt to an engine, the hot path beside it, and the dispatch plan. The
  * scorer's output is an arbitrary input.
  */
module Router {
  import opened Prelude
  import opened Models
  import opened Resolver
  import opened Policy
  import opened Config
  import opened Ranking
  import Scanner

  /** The scorer's verdict on a prompt; only what routing reads. */
  datatype Features = Features(
    destructiveAction: bool,
    sendAction: bool,
    purchaseAction: bool,
    highImpactExternalAction: bool,
    requiresConfirmation: bool,
    ambiguous: bool,
    sensitiveDomain: bool,
    requiresImageGeneration: bool,
    requiresVision: bool,
    requiresFreshness: bool,
    requiresCodeExecution: bool,
    codingIntent: bool,
    multiStepReasoning: bool,
    longContext: bool,
    simpleTransform: bool)

  datatype Analysis = Analysis(complexity: int, risk: int, confidence: int, features: Features)

  // ---------------------------------------------------------------- confirmation predicates

  predicate RequiresHumanConfirmation(f: Features, s: Scanner.Safety) {
    s.requireHumanConfirmation &&
    (|| (f.destructiveAction && !s.allowDestructive)
     || (f.sendAction && !s.allowSend)
     || (f.purchaseAction && !s.allowPurchase)
     || (f.highImpactExternalAction && !s.allowHighImpact)
     || (f.requiresConfirmation
         && !(f.destructiveAction || f.sendAction || f.purchaseAction || f.highImpactExternalAction)))
  }

  predicate RequiresAmbiguousHighImpactConfirmation(f: Features, s: Scanner.Safety) {
    s.requireHumanConfirmation && !s.allowAmbiguousHighImpact && f.ambiguous && f.sensitiveDomain
  }

  predicate RequiresProfileConfirmation(a: Analysis, s: Scanner.Safety, profile: Profile) {
    s.requireHumanConfirmation && profile == Safe &&
    (a.features.ambiguous || a.features.sensitiveDomain || a.features.requiresConfirmation || a.risk >= 50)
  }

  /** Some confirmation predicate holds of the prompt. */
  predicate ConfirmationRequired(a: Analysis, s: Scanner.Safety, profile: Profile) {
    || RequiresHumanConfirmation(a.features, s)
    || RequiresAmbiguousHighImpactConfirmation(a.features, s)
    || RequiresProfileConfirmation(a, s, profile)
  }

  function TargetRoute(a: Analysis, modalities: seq<string>, s: Scanner.Safety): string {
    var f := a.features;
    if RequiresHumanConfirmation(f, s) then "confirmation"
    else if RequiresAmbiguousHighImpactConfirmation(f, s) then "confirmation"
    else if f.requiresImageGeneration then "image_generation"
    else if modalities != [] then "vision"
    else if f.requiresVision && !f.requiresCodeExecution then "vision"
    else if f.requiresFreshness then "research"
    else if f.requiresCodeExecution || f.codingIntent then "coding"
    else if a.complexity >= 60 || f.multiStepReasoning || f.longContext then "reasoning"
    else if a.confidence < 60 then "reasoning"
    else if f.simpleTransform && a.complexity < 35 && a.risk < 20 then "simple"
    else "balanced"
  }

  // ---------------------------------------------------------------- route

  datatype Decision = Decision(
    selected: string,
    fallbackEngine: Option<string>,
    requiresConfirmation: bool,
    configValid: bool,
    availabilityValid: bool,
    requirements: Requirements,
    rejections: seq<Rejection>,
    alternatives: seq<Alternative>,
    fallbackUsed: bool,
    profile: Profile)

  /** A target's resolution; a target the configuration lacks ends at the gate. */
  function ResolveRoute(c: RouterConfig, av: Availability, req: Requirements, target: string): Resolution {
    if target in c.routingTargets then Resolve(c.engines, av, req, c.routingTargets[target])
    else
      Resolution(FAIL_CLOSED_ENGINE, Some(FAIL_CLOSED_ENGINE), false, [Rejection(target, RouteUndefined)], true)
  }

  function FailClosed(req: Requirements): Decision {
    Decision(FAIL_CLOSED_ENGINE, None, true, false, false, req, [], [], true, req.profile)
  }

  function ListedEngines(c: RouterConfig): seq<Engine>
    requires forall n :: n in c.listing ==> n in c.engines
  {
    seq(|c.listing|, i requires 0 <= i < |c.listing| => c.engines[c.listing[i]])
  }

  predicate Forces(h: Hints) {
    h.forceEngine.Some? && h.forceEngine.value != ""
  }

  /** The forced engine is honoured: nothing asks for confirmation, or the gate itself is forced. */
  predicate HonoursForce(a: Analysis, s: Scanner.Safety, h: Hints) {
    Forces(h) && !(ConfirmationRequired(a, s, h.profile) && h.forceEngine.value != FAIL_CLOSED_ENGINE)
  }

  /** The target whose policy and tool needs apply. */
  function DecisionTarget(a: Analysis, s: Scanner.Safety, h: Hints): string {
    if HonoursForce(a, s, h) then TargetRoute(a, RequiredModalities(h), s)
    else if Forces(h) then "confirmation"
    else if RequiresProfileConfirmation(a, s, h.profile) then "confirmation"
    else TargetRoute(a, RequiredModalities(h), s)
  }

  function ContextOf(a: Analysis, h: Hints): RankingContext {
    RankingContext(h.latencySensitive, a.risk, a.complexity, a.features.sensitiveDomain, a.features.longContext)
  }

  /** The alternatives and their rejections, when the caller asks for them. */
  function Alternatives(
    c: RouterConfig, av: Availability, a: Analysis, h: Hints, req: Requirements, selected: string, wanted: bool
  ): (seq<Alternative>, seq<Rejection>)
    requires forall n :: n in c.listing ==> n in c.engines
  {
    if wanted then
      (Ranked(ListedEngines(c), selected, ContextOf(a, h), av, req), Refused(ListedEngines(c), selected, av, req))
    else ([], [])
  }

  /** The forced engine's own path: it repeats the confirmation predicates on the way out. */
  function RouteForcedEngine(
    c: RouterConfig, av: Availability, a: Analysis, h: Hints, req: Requirements, force: string,
    includeAlternatives: bool
  ): Decision
    requires forall n :: n in c.listing ==> n in c.engines
  {
    var r := Resolve(c.engines, av, req, force);
    var (alternatives, refused) := Alternatives(c, av, a, h, req, r.selected, includeAlternatives);
    Decision(
      r.selected, r.fallbackEngine,
      ConfirmationRequired(a, c.safety, h.profile) || r.selected == FAIL_CLOSED_ENGINE,
      true, r.availabilityValid, req, Dedupe(r.rejections + refused),
      if r.selected == FAIL_CLOSED_ENGINE then [] else alternatives, r.fallbackUsed, h.profile)
  }

  /** The routing decision; `hints` is absent when the caller's hints are invalid. */
  function Route(
    c: RouterConfig, av: Availability, a: Analysis, hints: Option<Hints>, includeAlternatives: bool
  ): Decision
    requires forall n :: n in c.listing ==> n in c.engines
  {
    if hints.None? then FailClosed(NO_REQUIREMENTS)
    else
      var h := ApplyProfile(hints.value);
      var modalities := RequiredModalities(h);
      var confirm := ConfirmationRequired(a, c.safety, h.profile);
      if Forces(h) && !(confirm && h.forceEngine.value != FAIL_CLOSED_ENGINE) then
        var req := DeriveRequirements(h, Some(TargetRoute(a, modalities, c.safety)), c.providerPolicy);
        RouteForcedEngine(c, av, a, h, req, h.forceEngine.value, includeAlternatives)
      else
        var target :=
          if Forces(h) || RequiresProfileConfirmation(a, c.safety, h.profile) then "confirmation"
          else TargetRoute(a, modalities, c.safety);
        var req := DeriveRequirements(h, Some(target), c.providerPolicy);
        var r := ResolveRoute(c, av, req, target);
        var (alternatives, refused) := Alternatives(c, av, a, h, req, r.selected, includeAlternatives);
        var requiresConfirmation := confirm || r.selected == FAIL_CLOSED_ENGINE;
        Decision(
          r.selected, r.fallbackEngine, requiresConfirmation, true, r.availabilityValid, req,
          Dedupe(r.rejections + refused),
          if requiresConfirmation && r.selected == FAIL_CLOSED_ENGINE then [] else alternatives,
          r.fallbackUsed, h.profile)
  }

  // ---------------------------------------------------------------- what asks for confirmation

  /** The scorer saw an action of the category. */
  predicate FlagOf(f: Features, c: Scanner.Category) {
    match c
    case Destructive => f.destructiveAction
    case Send => f.sendAction
    case Purchase => f.purchaseAction
    case HighImpact => f.highImpactExternalAction
  }

  /** An action that the safety settings do not waive. */
  ghost predicate UnwaivedAction(f: Features, s: Scanner.Safety) {
    exists c :: FlagOf(f, c) && !Scanner.Allows(s, c)
  }

  /** The target is settled by an action alone: unwaived, or asked about without being of any category. */
  lemma HumanConfirmationIff(f: Features, s: Scanner.Safety)
    ensures RequiresHumanConfirmation(f, s)
       <==> s.requireHumanConfirmation
            && (UnwaivedAction(f, s) || (f.requiresConfirmation && forall c :: !FlagOf(f, c)))
  {
    assert FlagOf(f, Scanner.Destructive) == f.destructiveAction && FlagOf(f, Scanner.Send) == f.sendAction
        && FlagOf(f, Scanner.Purchase) == f.purchaseAction && FlagOf(f, Scanner.HighImpact) == f.highImpactExternalAction;
    if f.destructiveAction && !s.allowDestructive {
      assert !Scanner.Allows(s, Scanner.Destructive);
    } else if f.sendAction && !s.allowSend {
      assert !Scanner.Allows(s, Scanner.Send);
    } else if f.purchaseAction && !s.allowPurchase {
      assert !Scanner.Allows(s, Scanner.Purchase);
    } else if f.highImpactExternalAction && !s.allowHighImpact {
      assert !Scanner.Allows(s, Scanner.HighImpact);
    }
  }

  /**
    * Exactly which prompts must be confirmed, when confirmation is on at all: one with an
    * unwaived action; one the scorer wants confirmed without an action of any category; an
    * ambiguous one in a sensitive domain, unless that is waived; and, under the safe profile,
    * one that is any of ambiguous, sensitive, wanted confirmed, or of risk 50 or more.
    */
  lemma ConfirmationIff(a: Analysis, s: Scanner.Safety, profile: Profile)
    ensures ConfirmationRequired(a, s, profile) <==>
      && s.requireHumanConfirmation
      && (|| UnwaivedAction(a.features, s)
          || (a.features.requiresConfirmation && forall c :: !FlagOf(a.features, c))
          || (a.features.ambiguous && a.features.sensitiveDomain && !s.allowAmbiguousHighImpact)
          || (profile == Safe && (a.features.ambiguous || a.features.sensitiveDomain
                                  || a.features.requiresConfirmation || a.risk >= 50)))
  {
    HumanConfirmationIff(a.features, s);
  }

  /** The rules of target selection, first match wins; the last rule always matches. */
  ghost predicate IsTarget(a: Analysis, modalities: seq<string>, confirm: bool, target: string) {
    var f := a.features;
    var hard := a.complexity >= 60 || f.multiStepReasoning || f.longContext;
    var easy := f.simpleTransform && a.complexity < 35 && a.risk < 20;
    var plain := !confirm && !f.requiresImageGeneration && modalities == [] && !f.requiresFreshness
                 && !f.requiresCodeExecution && !f.codingIntent && !f.requiresVision;
    match target
    case "confirmation" => confirm
    case "image_generation" => !confirm && f.requiresImageGeneration
    case "vision" =>
      !confirm && !f.requiresImageGeneration && (modalities != [] || (f.requiresVision && !f.requiresCodeExecution))
    case "research" =>
      !confirm && !f.requiresImageGeneration && modalities == [] && f.requiresFreshness
      && (f.requiresVision ==> f.requiresCodeExecution)
    case "coding" =>
      !confirm && !f.requiresImageGeneration && modalities == [] && !f.requiresFreshness
      && (f.requiresCodeExecution || (f.codingIntent && !f.requiresVision))
    case "reasoning" => plain && (hard || a.confidence < 60)
    case "simple" => plain && !hard && a.confidence >= 60 && easy
    case "balanced" => plain && !hard && a.confidence >= 60 && !easy
    case _ => false
  }

  /** The target of a prompt, each by its exact condition. */
  lemma TargetRouteIff(a: Analysis, modalities: seq<string>, s: Scanner.Safety, target: string)
    ensures TargetRoute(a, modalities, s) == target
       <==> IsTarget(a, modalities,
                     RequiresHumanConfirmation(a.features, s) || RequiresAmbiguousHighImpactConfirmation(a.features, s),
                     target)
  {
  }

  // ---------------------------------------------------------------- the dispatch plan

  datatype BlockReason = ConfirmationRequiredFirst | IsTheGate | ConfigInvalid | EngineUnavailable

  datatype DispatchPlan = DispatchPlan(
    selected: string,
    provider: string,
    model: string,
    adapter: string,
    dryRun: bool,
    canDispatch: bool,
    blocked: bool,
    requiresConfirmation: bool,
    reasons: seq<BlockReason>)

  function BuildDispatchPlan(c: RouterConfig, d: Decision): DispatchPlan {
    var known := d.selected in c.engines;
    var blocked :=
      d.requiresConfirmation || d.selected == FAIL_CLOSED_ENGINE || !d.configValid || !d.availabilityValid;
    DispatchPlan(
      d.selected,
      if known then c.engines[d.selected].provider else "unknown",
      if known then c.engines[d.selected].model else "unknown",
      if known then c.engines[d.selected].adapter else "unknown",
      true, !blocked, blocked, d.requiresConfirmation,
      (if d.requiresConfirmation then [ConfirmationRequiredFirst] else [])
      + (if d.selected == FAIL_CLOSED_ENGINE then [IsTheGate] else [])
      + (if !d.configValid then [ConfigInvalid] else [])
      + (if !d.availabilityValid then [EngineUnavailable] else []))
  }

  /**
    * A prompt for which some confirmation predicate holds is never dispatched, whatever the
    * hints say and whatever engine they force.
    */
  lemma ConfirmationBlocksDispatch(
    c: RouterConfig, av: Availability, a: Analysis, h: Hints, includeAlternatives: bool)
    requires forall n :: n in c.listing ==> n in c.engines
    requires ConfirmationRequired(a, c.safety, h.profile)
    ensures var d := Route(c, av, a, Some(h), includeAlternatives);
      && d.requiresConfirmation
      && !BuildDispatchPlan(c, d).canDispatch
      && ConfirmationRequiredFirst in BuildDispatchPlan(c, d).reasons
  {
    assert ApplyProfile(h).profile == h.profile;
    var d := Route(c, av, a, Some(h), includeAlternatives);
    assert BuildDispatchPlan(c, d).reasons[0] == ConfirmationRequiredFirst;
  }

  /**
    * What a plan that can dispatch says of its prompt, whatever the hints and whatever engine
    * they force: with confirmation on, every action in it is waived, and nothing else about it
    * asks for confirmation.
    */
  lemma DispatchedPromptIsSafe(
    c: RouterConfig, av: Availability, a: Analysis, h: Hints, includeAlternatives: bool)
    requires forall n :: n in c.listing ==> n in c.engines
    requires BuildDispatchPlan(c, Route(c, av, a, Some(h), includeAlternatives)).canDispatch
    requires c.safety.requireHumanConfirmation
    ensures forall category :: FlagOf(a.features, category) ==> Scanner.Allows(c.safety, category)
    ensures a.features.requiresConfirmation ==> exists category :: FlagOf(a.features, category)
    ensures a.features.ambiguous && a.features.sensitiveDomain ==> c.safety.allowAmbiguousHighImpact
    ensures h.profile == Safe ==>
      && !a.features.ambiguous && !a.features.sensitiveDomain && !a.features.requiresConfirmation && a.risk < 50
  {
    ConfirmationIff(a, c.safety, h.profile);
    if ConfirmationRequired(a, c.safety, h.profile) {
      ConfirmationBlocksDispatch(c, av, a, h, includeAlternatives);
    }
  }

  /** Where resolution starts: the honoured forced engine, or the engine of the target's route. */
  function ChainStart(c: RouterConfig, a: Analysis, h: Hints): Option<string> {
    var target := DecisionTarget(a, c.safety, h);
    if HonoursForce(a, c.safety, h) then h.forceEngine
    else if target in c.routingTargets then Some(c.routingTargets[target])
    else None
  }

  /** A loaded configuration routes every target a decision can settle on. */
  lemma DecisionTargetIsRouted(c: RouterConfig, a: Analysis, h: Hints)
    requires Loaded(c)
    ensures DecisionTarget(a, c.safety, h) in c.routingTargets
    ensures ChainStart(c, a, h).Some?
  {
    RequiredTargetNames();
  }

  lemma RequiredTargetNames()
    ensures forall t :: t in REQUIRED_TARGETS <==>
      t in {"simple", "balanced", "reasoning", "coding", "research", "vision", "image_generation", "confirmation"}
  {
    assert REQUIRED_TARGETS[0] == "simple" && REQUIRED_TARGETS[1] == "balanced" && REQUIRED_TARGETS[2] == "reasoning"
        && REQUIRED_TARGETS[3] == "coding" && REQUIRED_TARGETS[4] == "research" && REQUIRED_TARGETS[5] == "vision"
        && REQUIRED_TARGETS[6] == "image_generation" && REQUIRED_TARGETS[7] == "confirmation";
  }

  /**
    * The engine of a decision, forced or not, is the first on its fallback chain that meets
    * the requirements derived for the target the analysis and the hints settle on; the chain
    * always has a start, so no decision ends at an undefined route.
    */
  lemma DecisionIsFirstAcceptable(
    c: RouterConfig, av: Availability, a: Analysis, h: Hints, includeAlternatives: bool)
    requires Loaded(c)
    ensures var d := Route(c, av, a, Some(h), includeAlternatives);
      var g := ApplyProfile(h);
      && d.requirements == DeriveRequirements(g, Some(DecisionTarget(a, c.safety, g)), c.providerPolicy)
      && ChainStart(c, a, g).Some?
      && IsFirstAcceptable(c.engines, av, d.requirements, ChainStart(c, a, g).value, d.selected)
      && (d.availabilityValid <==>
            exists i: nat :: AcceptableAt(c.engines, av, d.requirements, ChainStart(c, a, g).value, i))
  {
    DecisionTargetIsRouted(c, a, ApplyProfile(h));
    RouteResolves(c, av, a, h, includeAlternatives);
    var d := Route(c, av, a, Some(h), includeAlternatives);
    ResolveSelectsFirst(c.engines, av, d.requirements, ChainStart(c, a, ApplyProfile(h)).value);
  }

  /** Both paths of routing come down to one resolution, from where the chain starts. */
  lemma RouteResolves(c: RouterConfig, av: Availability, a: Analysis, h: Hints, includeAlternatives: bool)
    requires forall n :: n in c.listing ==> n in c.engines
    requires ChainStart(c, a, ApplyProfile(h)).Some?
    ensures var d := Route(c, av, a, Some(h), includeAlternatives);
      var g := ApplyProfile(h);
      var r := Resolve(c.engines, av, d.requirements, ChainStart(c, a, g).value);
      && d.requirements == DeriveRequirements(g, Some(DecisionTarget(a, c.safety, g)), c.providerPolicy)
      && d.selected == r.selected && d.fallbackEngine == r.fallbackEngine
      && d.availabilityValid == r.availabilityValid && d.fallbackUsed == r.fallbackUsed
      && (!includeAlternatives ==> d.rejections == Dedupe(r.rejections))
  {
    var g := ApplyProfile(h);
    var target := DecisionTarget(a, c.safety, g);
    var r := Resolve(c.engines, av, DeriveRequirements(g, Some(target), c.providerPolicy), ChainStart(c, a, g).value);
    assert r.rejections + [] == r.rejections;
  }

  /** The context alternatives are scored in; the fast profile counts as latency-sensitive. */
  function ScoringContext(a: Analysis, h: Hints): RankingContext {
    RankingContext(h.latencySensitive || h.profile == Fast, a.risk, a.complexity,
                   a.features.sensitiveDomain, a.features.longContext)
  }

  lemma RouteLists(c: RouterConfig, av: Availability, a: Analysis, h: Hints, includeAlternatives: bool)
    requires forall n :: n in c.listing ==> n in c.engines
    requires ChainStart(c, a, ApplyProfile(h)).Some?
    ensures var d := Route(c, av, a, Some(h), includeAlternatives);
      var r := Resolve(c.engines, av, d.requirements, ChainStart(c, a, ApplyProfile(h)).value);
      && (includeAlternatives ==>
            && d.alternatives
               == (if d.selected == FAIL_CLOSED_ENGINE then []
                   else Ranked(ListedEngines(c), d.selected, ScoringContext(a, h), av, d.requirements))
            && d.rejections == Dedupe(r.rejections + Refused(ListedEngines(c), d.selected, av, d.requirements)))
      && (!includeAlternatives ==> d.alternatives == [])
  {
    RouteResolves(c, av, a, h, includeAlternatives);
    assert ContextOf(a, ApplyProfile(h)) == ScoringContext(a, h);
  }

  /** The listing holds each engine of a loaded configuration once. */
  lemma ListedOnce(c: RouterConfig)
    requires Loaded(c)
    ensures DistinctNames(ListedEngines(c))
    ensures forall e :: e in ListedEngines(c) <==> e.name in c.engines && c.engines[e.name] == e
  {
    var listed := ListedEngines(c);
    forall i, j | 0 <= i < j < |listed| ensures listed[i].name != listed[j].name {
      assert c.listing[i] in c.listing && c.listing[j] in c.listing;
    }
    forall e ensures e in listed <==> e.name in c.engines && c.engines[e.name] == e {
      if e in listed {
        var i :| 0 <= i < |listed| && listed[i] == e;
        assert c.listing[i] in c.listing;
      }
      if e.name in c.engines && c.engines[e.name] == e {
        var i :| 0 <= i < |c.listing| && c.listing[i] == e.name;
        assert listed[i] == e;
      }
    }
  }

  /** An engine that is accounted for beside the selected one. */
  ghost predicate StandsBeside(c: RouterConfig, selected: string, name: string) {
    name in c.engines && c.engines[name].enabled && name !in {selected, "human_confirm", "intent_router"}
  }

  /**
    * A decision accounts for every engine that stands beside the selected one: as an
    * alternative, scored in the request's context, when it is available and meets the
    * requirements; otherwise as a rejection with its own reason. The alternatives descend
    * strictly; there are none to the gate, and nothing else is listed but what resolution
    * rejected on the way.
    */
  lemma DecisionAccountsForEngines(c: RouterConfig, av: Availability, a: Analysis, h: Hints)
    requires Loaded(c)
    ensures var d := Route(c, av, a, Some(h), true);
      var start := ChainStart(c, a, ApplyProfile(h));
      && start.Some?
      && (forall alternative :: alternative in d.alternatives <==>
            && d.selected != FAIL_CLOSED_ENGINE
            && StandsBeside(c, d.selected, alternative.engine)
            && EngineAvailable(c.engines[alternative.engine], av)
            && MeetsRequirements(c.engines[alternative.engine], d.requirements)
            && alternative == RankEngine(c.engines[alternative.engine], ScoringContext(a, h)))
      && (forall r :: r in d.rejections <==>
            || r in Resolve(c.engines, av, d.requirements, start.value).rejections
            || (StandsBeside(c, d.selected, r.engine)
                && SkipReason(c.engines[r.engine], av, d.requirements) == Some(r.reason)))
      && (forall i, j :: 0 <= i < j < |d.alternatives| ==> RanksAbove(d.alternatives[i], d.alternatives[j]))
  {
    DecisionTargetIsRouted(c, a, ApplyProfile(h));
    RouteLists(c, av, a, h, true);
    ListedOnce(c);
    var d := Route(c, av, a, Some(h), true);
    var listed, req := ListedEngines(c), d.requirements;
    var r := Resolve(c.engines, av, req, ChainStart(c, a, ApplyProfile(h)).value);
    DedupeElements(r.rejections + Refused(listed, d.selected, av, req));
    RejectionsBeside(c, av, d.selected, req);
    AlternativesBeside(c, av, d.selected, ScoringContext(a, h), req);
    RankedStrictly(listed, d.selected, ScoringContext(a, h), av, req);
  }

  lemma RejectionsBeside(c: RouterConfig, av: Availability, selected: string, req: Requirements)
    requires Loaded(c)
    ensures forall x :: x in Refused(ListedEngines(c), selected, av, req) <==>
      StandsBeside(c, selected, x.engine) && SkipReason(c.engines[x.engine], av, req) == Some(x.reason)
  {
    ListedOnce(c);
    forall x ensures x in Refused(ListedEngines(c), selected, av, req) <==>
      StandsBeside(c, selected, x.engine) && SkipReason(c.engines[x.engine], av, req) == Some(x.reason)
    {
      RejectionsAreOfConsidered(ListedEngines(c), selected, av, req, x);
      if StandsBeside(c, selected, x.engine) {
        assert c.engines[x.engine] in ListedEngines(c);
      }
    }
  }

  lemma AlternativesBeside(c: RouterConfig, av: Availability, selected: string, ctx: RankingContext, req: Requirements)
    requires Loaded(c)
    ensures forall x :: x in Ranked(ListedEngines(c), selected, ctx, av, req) <==>
      && StandsBeside(c, selected, x.engine)
      && EngineAvailable(c.engines[x.engine], av) && MeetsRequirements(c.engines[x.engine], req)
      && x == RankEngine(c.engines[x.engine], ctx)
  {
    ListedOnce(c);
    forall x ensures x in Ranked(ListedEngines(c), selected, ctx, av, req) <==>
      && StandsBeside(c, selected, x.engine)
      && EngineAvailable(c.engines[x.engine], av) && MeetsRequirements(c.engines[x.engine], req)
      && x == RankEngine(c.engines[x.engine], ctx)
    {
      AlternativesAreOfConsidered(ListedEngines(c), selected, ctx, av, req, x);
      if StandsBeside(c, selected, x.engine) {
        assert c.engines[x.engine] in ListedEngines(c);
      }
    }
  }

  /**
    * Where a decision starts: at the engine the caller forces, unless the prompt must be
    * confirmed and that engine is not the gate; otherwise at the engine of its target, which is
    * `confirmation` whenever the prompt must be confirmed. An empty forced engine is none.
    */
  lemma ChainStartMeaning(c: RouterConfig, a: Analysis, raw: Hints)
    requires Loaded(c)
    ensures var confirm := ConfirmationRequired(a, c.safety, raw.profile);
      var forced := raw.forceEngine.Some? && raw.forceEngine.value != "";
      var target := DecisionTarget(a, c.safety, ApplyProfile(raw));
      && target in c.routingTargets
      && ChainStart(c, a, ApplyProfile(raw))
         == (if forced && (raw.forceEngine == Some("human_confirm") || !confirm) then raw.forceEngine
             else Some(c.routingTargets[target]))
      && (confirm && (!forced || raw.forceEngine != Some("human_confirm")) ==> target == "confirmation")
  {
    DecisionTargetIsRouted(c, a, ApplyProfile(raw));
  }

  /** The chain's first acceptable engine is not the gate. */
  ghost predicate FindsEngine(c: Catalog, av: Availability, req: Requirements, start: string) {
    exists i: nat :: FirstAcceptableAt(c, av, req, start, i) && Nth(c, start, i) != Some(FAIL_CLOSED_ENGINE)
  }

  lemma FirstAcceptableIsFound(c: Catalog, av: Availability, req: Requirements, start: string, engine: string)
    requires IsFirstAcceptable(c, av, req, start, engine)
    ensures engine != FAIL_CLOSED_ENGINE <==> FindsEngine(c, av, req, start)
    ensures engine != FAIL_CLOSED_ENGINE ==> Acceptable(c, av, req, engine)
    ensures engine != FAIL_CLOSED_ENGINE ==> exists i: nat :: AcceptableAt(c, av, req, start, i)
  {
    if i: nat :| AcceptableAt(c, av, req, start, i) {
      var first := FirstExists(c, av, req, start, i);
      assert FirstAcceptableAt(c, av, req, start, first);
    }
  }

  /** Invalid hints fail closed: the gate, to be confirmed, blocked for every reason there is. */
  lemma InvalidHintsFailClosed(c: RouterConfig, av: Availability, a: Analysis, includeAlternatives: bool)
    requires forall n :: n in c.listing ==> n in c.engines
    ensures var d := Route(c, av, a, None, includeAlternatives);
      && d.selected == FAIL_CLOSED_ENGINE && d.requiresConfirmation && d.alternatives == [] && d.rejections == []
      && BuildDispatchPlan(c, d).reasons == [ConfirmationRequiredFirst, IsTheGate, ConfigInvalid, EngineUnavailable]
  {
  }

  /** A plan can dispatch exactly when the decision gives no reason to block it. */
  lemma PlanDispatches(c: RouterConfig, d: Decision)
    ensures var plan := BuildDispatchPlan(c, d);
      && (plan.canDispatch <==>
            !d.requiresConfirmation && d.selected != FAIL_CLOSED_ENGINE && d.configValid && d.availabilityValid)
      && (plan.canDispatch <==> plan.reasons == [])
      && plan.dryRun && plan.blocked == !plan.canDispatch && plan.selected == d.selected
      && (match if d.selected in c.engines then Some(c.engines[d.selected]) else None
          case Some(e) => plan.provider == e.provider && plan.model == e.model && plan.adapter == e.adapter
          case None => plan.provider == plan.model == plan.adapter == "unknown")
      && (ConfirmationRequiredFirst in plan.reasons <==> d.requiresConfirmation)
      && (IsTheGate in plan.reasons <==> d.selected == FAIL_CLOSED_ENGINE)
      && (ConfigInvalid in plan.reasons <==> !d.configValid)
      && (EngineUnavailable in plan.reasons <==> !d.availabilityValid)
      && plan.requiresConfirmation == d.requiresConfirmation
  {
  }

  /** Both ways out of routing set the confirmation flag alike. */
  lemma RouteFlags(c: RouterConfig, av: Availability, a: Analysis, h: Hints, includeAlternatives: bool)
    requires forall n :: n in c.listing ==> n in c.engines
    ensures var d := Route(c, av, a, Some(h), includeAlternatives);
      && d.configValid
      && (d.requiresConfirmation <==>
            ConfirmationRequired(a, c.safety, h.profile) || d.selected == FAIL_CLOSED_ENGINE)
      && (d.selected == FAIL_CLOSED_ENGINE ==> d.alternatives == [])
      && d.profile == h.profile
  {
    assert ApplyProfile(h).profile == h.profile;
  }

  /**
    * Exactly when a prompt may be dispatched: the hints are valid, nothing asks for
    * confirmation, and the first acceptable engine on the chain is not the gate. That engine is
    * then defined, enabled, available, and meets the requirements derived from policy and hints.
    */
  lemma CanDispatchIff(
    c: RouterConfig, av: Availability, a: Analysis, hints: Option<Hints>, includeAlternatives: bool)
    requires Loaded(c)
    ensures var d := Route(c, av, a, hints, includeAlternatives);
      var plan := BuildDispatchPlan(c, d);
      && (plan.canDispatch <==>
            && hints.Some?
            && !ConfirmationRequired(a, c.safety, hints.value.profile)
            && var h := ApplyProfile(hints.value);
               ChainStart(c, a, h).Some? && FindsEngine(c.engines, av, d.requirements, ChainStart(c, a, h).value))
      && (plan.canDispatch ==>
            && plan.selected == d.selected != FAIL_CLOSED_ENGINE
            && Acceptable(c.engines, av, d.requirements, plan.selected)
            && var e := c.engines[plan.selected];
               plan.provider == e.provider && plan.model == e.model && plan.adapter == e.adapter)
      && (plan.canDispatch <==> plan.reasons == [])
      && plan.dryRun && plan.blocked == !plan.canDispatch
  {
    var d := Route(c, av, a, hints, includeAlternatives);
    PlanDispatches(c, d);
    if hints.Some? {
      var h := ApplyProfile(hints.value);
      RouteFlags(c, av, a, hints.value, includeAlternatives);
      DecisionIsFirstAcceptable(c, av, a, hints.value, includeAlternatives);
      FirstAcceptableIsFound(c.engines, av, d.requirements, ChainStart(c, a, h).value, d.selected);
    }
  }

  /**
    * An engine dispatched to under caller hints is one the configured policy alone admits for
    * the target, tier caps, denied providers and all; its allowlist too, unless the hints
    * loosen it.
    */
  lemma DispatchObeysPolicyAlone(
    c: RouterConfig, av: Availability, a: Analysis, h: Hints, includeAlternatives: bool)
    requires Loaded(c)
    requires BuildDispatchPlan(c, Route(c, av, a, Some(h), includeAlternatives)).canDispatch
    ensures var selected := Route(c, av, a, Some(h), includeAlternatives).selected;
      var target := Some(DecisionTarget(a, c.safety, ApplyProfile(h)));
      var alone := DeriveRequirements(DEFAULT_HINTS, target, c.providerPolicy);
      && selected in c.engines
      && MeetsRequirements(c.engines[selected], alone.(allowedProviders := []))
      && (!Loosens(ApplyProfile(h), target, c.providerPolicy) ==> MeetsRequirements(c.engines[selected], alone))
  {
    DispatchedMeetsDerived(c, av, a, h, includeAlternatives);
    var d := Route(c, av, a, Some(h), includeAlternatives);
    HintsOnlyNarrow(c.engines[d.selected], ApplyProfile(h), Some(DecisionTarget(a, c.safety, ApplyProfile(h))),
                    c.providerPolicy);
  }

  /**
    * An engine dispatched to is enabled and available, and keeps every term of the configured
    * policy, the target's pool, the profile and the caller's hints.
    */
  lemma DispatchedEngineKeepsTerms(
    c: RouterConfig, av: Availability, a: Analysis, h: Hints, includeAlternatives: bool)
    requires Loaded(c)
    requires BuildDispatchPlan(c, Route(c, av, a, Some(h), includeAlternatives)).canDispatch
    ensures var selected := Route(c, av, a, Some(h), includeAlternatives).selected;
      var target := Some(DecisionTarget(a, c.safety, ApplyProfile(h)));
      && selected != "human_confirm" && selected in c.engines
      && var e := c.engines[selected];
         && e.enabled
         && (av.report.Some? && selected in av.report.value ==> av.report.value[selected])
         && (av.report.Some? && selected !in av.report.value ==> selected in av.live)
         && ProviderTerms(e.provider, h, target, c.providerPolicy)
         && CostTerms(e.costTier, h, target, c.providerPolicy)
         && LatencyTerms(e.latencyTier, h, target, c.providerPolicy)
         && CapabilityTerms(e, h, target)
  {
    DispatchedMeetsDerived(c, av, a, h, includeAlternatives);
    var d := Route(c, av, a, Some(h), includeAlternatives);
    CanDispatchIff(c, av, a, Some(h), includeAlternatives);
    RequirementsMeaning(c.engines[d.selected], h, Some(DecisionTarget(a, c.safety, ApplyProfile(h))), c.providerPolicy);
  }

  lemma DispatchedMeetsDerived(
    c: RouterConfig, av: Availability, a: Analysis, h: Hints, includeAlternatives: bool)
    requires Loaded(c)
    requires BuildDispatchPlan(c, Route(c, av, a, Some(h), includeAlternatives)).canDispatch
    ensures var d := Route(c, av, a, Some(h), includeAlternatives);
      var g := ApplyProfile(h);
      && d.selected in c.engines
      && MeetsRequirements(c.engines[d.selected],
                           DeriveRequirements(g, Some(DecisionTarget(a, c.safety, g)), c.providerPolicy))
  {
    DecisionIsFirstAcceptable(c, av, a, h, includeAlternatives);
    var d := Route(c, av, a, Some(h), includeAlternatives);
    FirstAcceptableIsFound(c.engines, av, d.requirements, ChainStart(c, a, ApplyProfile(h)).value, d.selected);
  }

  // ---------------------------------------------------------------- the hot path

  function TargetName(t: Scanner.Target): string {
    match t
    case Simple => "simple"
    case BalancedTarget => "balanced"
    case Reasoning => "reasoning"
    case Coding => "coding"
    case Research => "research"
    case Vision => "vision"
    case ImageGeneration => "image_generation"
    case Confirmation => "confirmation"
  }

  /** The target names are the configuration's, in this order. */
  lemma TargetNames()
    ensures [TargetName(Scanner.Simple), TargetName(Scanner.BalancedTarget), TargetName(Scanner.Reasoning),
             TargetName(Scanner.Coding), TargetName(Scanner.Research), TargetName(Scanner.Vision),
             TargetName(Scanner.ImageGeneration), TargetName(Scanner.Confirmation)] == REQUIRED_TARGETS
  {
  }

  /** What the router compiles when it is built. */
  datatype FastRouter = FastRouter(
    config: RouterConfig,
    av: Availability,
    targetEngines: map<Scanner.Target, string>,
    rows: FastTable)

  /** The engine each target resolves to without any hints. */
  function CompiledEngine(c: RouterConfig, av: Availability, t: Scanner.Target): string {
    var req := DeriveRequirements(ApplyProfile(DEFAULT_HINTS), Some(TargetName(t)), c.providerPolicy);
    ResolveRoute(c, av, req, TargetName(t)).selected
  }

  const ALL_TARGETS: set<Scanner.Target> := {
    Scanner.Simple, Scanner.BalancedTarget, Scanner.Reasoning, Scanner.Coding, Scanner.Research,
    Scanner.Vision, Scanner.ImageGeneration, Scanner.Confirmation}

  lemma AllTargets(t: Scanner.Target)
    ensures t in ALL_TARGETS
  {
  }

  function Compile(c: RouterConfig, av: Availability): FastRouter {
    FastRouter(c, av, map t | t in ALL_TARGETS :: CompiledEngine(c, av, t), CompileRows(c.engines, av.report))
  }

  datatype FastHints = Absent | Invalid | Given(hints: Hints)

  predicate SafeProfileConfirms(p: Scanner.Prompt, t: Scanner.Target) {
    (t == Scanner.Reasoning && p.ambiguous) || p.sensitiveWord
  }

  function FastSelectTarget(r: FastRouter, req: Requirements, target: string): string {
    if target in r.config.routingTargets then FastSelect(r.rows, req, r.config.routingTargets[target])
    else FAIL_CLOSED_ENGINE
  }

  /** The target the dynamic path settles on. */
  function FastTargetFor(t: Scanner.Target, h: Hints): string {
    if t != Scanner.Confirmation && RequiredModalities(h) != [] then "vision" else TargetName(t)
  }

  /** The engine for a prompt the classifier put at target `t`. */
  function RouteFastAt(r: FastRouter, p: Scanner.Prompt, t: Scanner.Target, hints: FastHints): string
    requires t in r.targetEngines
  {
    match hints
    case Absent => r.targetEngines[t]
    case Invalid => FAIL_CLOSED_ENGINE
    case Given(raw) =>
      var h := ApplyProfile(raw);
      if h.profile == Safe && t != Scanner.Confirmation && SafeProfileConfirms(p, t) then FAIL_CLOSED_ENGINE
      else
        var target := FastTargetFor(t, h);
        var req := DeriveRequirements(h, Some(target), r.config.providerPolicy);
        if Forces(h) then
          if target == "confirmation" && h.forceEngine.value != FAIL_CLOSED_ENGINE then FAIL_CLOSED_ENGINE
          else FastSelect(r.rows, req, h.forceEngine.value)
        else FastSelectTarget(r, req, target)
  }

  function RouteFast(c: RouterConfig, av: Availability, p: Scanner.Prompt, hints: FastHints): string {
    var t := Scanner.ClassifyMasked(p, Scanner.ConfirmationMask(c.safety));
    AllTargets(t);
    RouteFastAt(Compile(c, av), p, t, hints)
  }

  /** The hot path as the router runs it: classify, then look up or resolve. */
  method RunRouteFast(r: FastRouter, p: Scanner.Prompt, hints: FastHints) returns (selected: string)
    requires r == Compile(r.config, r.av)
    ensures selected == RouteFast(r.config, r.av, p, hints)
  {
    var t := Scanner.FastTarget(p, r.config.safety);
    AllTargets(t);
    match hints
    case Absent => selected := r.targetEngines[t];
    case Invalid => selected := FAIL_CLOSED_ENGINE;
    case Given(raw) =>
      var h := ApplyProfile(raw);
      if h.profile == Safe && t != Scanner.Confirmation && SafeProfileConfirms(p, t) {
        return FAIL_CLOSED_ENGINE;
      }
      var target := FastTargetFor(t, h);
      var req := DeriveRequirements(h, Some(target), r.config.providerPolicy);
      if Forces(h) {
        if target == "confirmation" && h.forceEngine.value != FAIL_CLOSED_ENGINE {
          return FAIL_CLOSED_ENGINE;
        }
        selected := ResolveEngineFast(r.rows, req, h.forceEngine.value);
        return;
      }
      if target !in r.config.routingTargets {
        return FAIL_CLOSED_ENGINE;
      }
      selected := ResolveEngineFast(r.rows, req, r.config.routingTargets[target]);
  }

  lemma FastSelectTargetIsRich(c: RouterConfig, av: Availability, req: Requirements, target: string)
    requires Loaded(c) && ReportCovers(c.engines, av)
    ensures FastSelectTarget(Compile(c, av), req, target) == ResolveRoute(c, av, req, target).selected
  {
    if target in c.routingTargets {
      FastRefinesRich(c.engines, av, req, c.routingTargets[target]);
    }
  }

  /** The table compiled at start gives what the dynamic path gives for empty hints. */
  lemma CompiledTableAgrees(c: RouterConfig, av: Availability, p: Scanner.Prompt)
    requires Loaded(c) && ReportCovers(c.engines, av)
    ensures RouteFast(c, av, p, Absent) == RouteFast(c, av, p, Given(DEFAULT_HINTS))
  {
    var t := Scanner.ClassifyMasked(p, Scanner.ConfirmationMask(c.safety));
    AllTargets(t);
    var h := ApplyProfile(DEFAULT_HINTS);
    assert RequiredModalities(h) == [];
    FastSelectTargetIsRich(c, av, DeriveRequirements(h, Some(TargetName(t)), c.providerPolicy), TargetName(t));
  }

  /** The hot path refuses the hints: a safe profile, or a forced engine, meets a prompt to confirm. */
  predicate FastRefuses(p: Scanner.Prompt, t: Scanner.Target, h: Hints) {
    || (h.profile == Safe && t != Scanner.Confirmation && SafeProfileConfirms(p, t))
    || (Forces(h) && t == Scanner.Confirmation && h.forceEngine.value != FAIL_CLOSED_ENGINE)
  }

  /**
    * For every prompt and hints that it does not refuse, the hot path returns the first engine
    * on the chain that is enabled, available and meets the requirements derived for the target
    * it settled on, and the gate when there is none.
    */
  lemma RouteFastSelectsFirst(c: RouterConfig, av: Availability, p: Scanner.Prompt, raw: Hints)
    requires Loaded(c) && ReportCovers(c.engines, av)
    ensures var t := Scanner.ClassifyMasked(p, Scanner.ConfirmationMask(c.safety));
      var h := ApplyProfile(raw);
      var target := FastTargetFor(t, h);
      var req := DeriveRequirements(h, Some(target), c.providerPolicy);
      var selected := RouteFast(c, av, p, Given(raw));
      && target in c.routingTargets
      && (FastRefuses(p, t, h) ==> selected == FAIL_CLOSED_ENGINE)
      && (!FastRefuses(p, t, h) ==>
            IsFirstAcceptable(c.engines, av, req, if Forces(h) then h.forceEngine.value else c.routingTargets[target],
                              selected))
  {
    var t := Scanner.ClassifyMasked(p, Scanner.ConfirmationMask(c.safety));
    var h := ApplyProfile(raw);
    var target := FastTargetFor(t, h);
    TargetsAreRequired(t, h);
    var req := DeriveRequirements(h, Some(target), c.providerPolicy);
    var start := if Forces(h) then h.forceEngine.value else c.routingTargets[target];
    FastIsFirstAcceptable(c.engines, av, req, start);
  }

  /** The hot path turns to `vision` for any attachment but code, unless the prompt is to be confirmed. */
  lemma FastTargetMeaning(t: Scanner.Target, raw: Hints)
    ensures FastTargetFor(t, ApplyProfile(raw))
         == if t != Scanner.Confirmation && exists m :: m in raw.attachments && m != "code" then "vision"
            else TargetName(t)
  {
    NonEmptyHasMember(RequiredModalities(raw));
  }

  /**
    * It refuses a prompt to confirm when the caller forces an engine other than the gate, and
    * under the safe profile one with a sensitive word, or an ambiguous one to reason about.
    */
  lemma FastRefusesMeaning(p: Scanner.Prompt, t: Scanner.Target, raw: Hints)
    ensures FastRefuses(p, t, ApplyProfile(raw)) <==>
      || (raw.profile == Safe && t != Scanner.Confirmation
          && (p.sensitiveWord || (t == Scanner.Reasoning && p.ambiguous)))
      || (t == Scanner.Confirmation && raw.forceEngine.Some? && raw.forceEngine.value !in {"", "human_confirm"})
  {
  }

  lemma FastIsFirstAcceptable(c: Catalog, av: Availability, req: Requirements, start: string)
    requires WellNamed(c) && ReportCovers(c, av)
    ensures IsFirstAcceptable(c, av, req, start, FastSelect(CompileRows(c, av.report), req, start))
  {
    FastRefinesRich(c, av, req, start);
    ResolveSelectsFirst(c, av, req, start);
  }

  lemma TargetsAreRequired(t: Scanner.Target, h: Hints)
    ensures FastTargetFor(t, h) in REQUIRED_TARGETS
    ensures FastTargetFor(t, h) == "confirmation" <==> t == Scanner.Confirmation
  {
    RequiredTargetNames();
  }

  lemma GateResolvesToGate(c: Catalog, av: Availability, req: Requirements)
    requires FAIL_CLOSED_ENGINE in c ==> c[FAIL_CLOSED_ENGINE].fallback.None?
    ensures Resolve(c, av, req, FAIL_CLOSED_ENGINE).selected == FAIL_CLOSED_ENGINE
    ensures FastSelect(CompileRows(c, av.report), req, FAIL_CLOSED_ENGINE) == FAIL_CLOSED_ENGINE
  {
  }

  // ---------------------------------------------------------------- lexical actions and the gate

  /** No engine on the chain but the gate is enabled and meets the requirements. */
  ghost predicate GateOnly(c: Catalog, req: Requirements, start: string) {
    forall i: nat :: Nth(c, start, i).Some? ==>
      var name := Nth(c, start, i).value;
      name == FAIL_CLOSED_ENGINE || name !in c || !c[name].enabled || !MeetsRequirements(c[name], req)
  }

  /** The hints an absent argument stands for. */
  function HintsOf(hints: FastHints): Hints {
    if hints.Given? then ApplyProfile(hints.hints) else ApplyProfile(DEFAULT_HINTS)
  }

  /** The hints force an engine other than the gate, or are invalid. */
  predicate HintsRefused(hints: FastHints) {
    hints.Invalid? || (Forces(HintsOf(hints)) && HintsOf(hints).forceEngine.value != FAIL_CLOSED_ENGINE)
  }

  /** Where the hot path starts for a prompt to confirm. */
  function ConfirmationStart(c: RouterConfig, hints: FastHints): string
    requires "confirmation" in c.routingTargets
  {
    if Forces(HintsOf(hints)) then HintsOf(hints).forceEngine.value else c.routingTargets["confirmation"]
  }

  function ConfirmationNeeds(c: RouterConfig, hints: FastHints): Requirements {
    DeriveRequirements(HintsOf(hints), Some("confirmation"), c.providerPolicy)
  }

  /** Where a prompt to confirm ends: one resolution, by the resolver of the path taken. */
  function ConfirmationEngine(c: RouterConfig, av: Availability, hints: FastHints): string
    requires "confirmation" in c.routingTargets
  {
    var req, start := ConfirmationNeeds(c, hints), ConfirmationStart(c, hints);
    if HintsRefused(hints) then FAIL_CLOSED_ENGINE
    else if hints.Absent? then Resolve(c.engines, av, req, start).selected
    else FastSelect(CompileRows(c.engines, av.report), req, start)
  }

  lemma AbsentConfirmationAt(c: RouterConfig, av: Availability, p: Scanner.Prompt)
    requires "confirmation" in c.routingTargets && Scanner.Confirmation in Compile(c, av).targetEngines
    ensures RouteFastAt(Compile(c, av), p, Scanner.Confirmation, Absent) == ConfirmationEngine(c, av, Absent)
  {
    CompiledLookup(c, av, Scanner.Confirmation);
    CompiledConfirmation(c, av);
  }

  lemma CompiledLookup(c: RouterConfig, av: Availability, t: Scanner.Target)
    ensures t in Compile(c, av).targetEngines && Compile(c, av).targetEngines[t] == CompiledEngine(c, av, t)
  {
    AllTargets(t);
  }

  lemma CompiledConfirmation(c: RouterConfig, av: Availability)
    requires "confirmation" in c.routingTargets
    ensures CompiledEngine(c, av, Scanner.Confirmation) == ConfirmationEngine(c, av, Absent)
  {
    DefaultHintsForceNothing();
    assert TargetName(Scanner.Confirmation) == "confirmation";
  }

  lemma DefaultHintsForceNothing()
    ensures !HintsRefused(Absent) && !Forces(HintsOf(Absent))
  {
  }

  lemma CompiledConfirmationAt(c: RouterConfig, av: Availability, p: Scanner.Prompt, raw: Hints)
    requires "confirmation" in c.routingTargets && Scanner.Confirmation in Compile(c, av).targetEngines
    ensures RouteFastAt(Compile(c, av), p, Scanner.Confirmation, Given(raw)) == ConfirmationEngine(c, av, Given(raw))
  {
    var r := Compile(c, av);
    assert r.config == c && r.rows == CompileRows(c.engines, av.report);
    GivenConfirmationAt(r, p, raw);
  }

  lemma GivenConfirmationAt(r: FastRouter, p: Scanner.Prompt, raw: Hints)
    requires "confirmation" in r.config.routingTargets && Scanner.Confirmation in r.targetEngines
    ensures RouteFastAt(r, p, Scanner.Confirmation, Given(raw)) ==
      if HintsRefused(Given(raw)) then FAIL_CLOSED_ENGINE
      else FastSelect(r.rows, ConfirmationNeeds(r.config, Given(raw)), ConfirmationStart(r.config, Given(raw)))
  {
    assert FastTargetFor(Scanner.Confirmation, ApplyProfile(raw)) == "confirmation";
  }

  lemma ConfirmationRoute(
    c: RouterConfig, av: Availability, p: Scanner.Prompt, hints: FastHints, category: Scanner.Category)
    requires "confirmation" in c.routingTargets
    requires c.safety.requireHumanConfirmation && !Scanner.Allows(c.safety, category)
    requires Scanner.Occurs(Scanner.Words(p.tokens), category)
    ensures RouteFast(c, av, p, hints) == ConfirmationEngine(c, av, hints)
  {
    UnwaivedActionConfirms(c.safety, p, category);
    AllTargets(Scanner.Confirmation);
    if hints.Absent? {
      AbsentConfirmationAt(c, av, p);
    } else if hints.Given? {
      CompiledConfirmationAt(c, av, p, hints.hints);
    }
  }

  lemma UnwaivedActionConfirms(s: Scanner.Safety, p: Scanner.Prompt, category: Scanner.Category)
    requires s.requireHumanConfirmation && !Scanner.Allows(s, category)
    requires Scanner.Occurs(Scanner.Words(p.tokens), category)
    ensures Scanner.ClassifyMasked(p, Scanner.ConfirmationMask(s)) == Scanner.Confirmation
  {
    Scanner.ConfirmationMaskBits(s, category);
    Scanner.MaskedConfirmationIff(p, Scanner.ConfirmationMask(s));
  }

  /** Gate only: whatever is available, either resolver ends at the gate. */
  lemma GateOnlyResolvesToGate(c: Catalog, av: Availability, req: Requirements, start: string)
    requires WellNamed(c) && GateOnly(c, req, start)
    ensures Resolve(c, av, req, start).selected == FAIL_CLOSED_ENGINE
    ensures FastSelect(CompileRows(c, av.report), req, start) == FAIL_CLOSED_ENGINE
  {
    FastIgnoresLiveChecks(c, av, req, start);
    ResolveSelectsFirst(c, av, req, start);
    GateOnlySelectsGate(c, av, req, start, Resolve(c, av, req, start).selected);
    GateOnlySelectsGate(c, av.(live := {}), req, start, FastSelect(CompileRows(c, av.report), req, start));
  }

  lemma GateOnlySelectsGate(c: Catalog, av: Availability, req: Requirements, start: string, engine: string)
    requires GateOnly(c, req, start) && IsFirstAcceptable(c, av, req, start, engine)
    ensures engine == FAIL_CLOSED_ENGINE
  {
    if i: nat :| AcceptableAt(c, av, req, start, i) {
      var first := FirstExists(c, av, req, start, i);
      assert FirstAcceptableAt(c, av, req, start, first);
    }
  }

  /** Reported as the only available engine, one that the chain offers is selected by either resolver. */
  lemma OfferedIsSelected(c: Catalog, req: Requirements, start: string, i: nat) returns (av: Availability)
    requires WellNamed(c) && Nth(c, start, i).Some?
    requires var name := Nth(c, start, i).value;
      name in c && c[name].enabled && MeetsRequirements(c[name], req)
    ensures Resolve(c, av, req, start).selected == Nth(c, start, i).value
    ensures FastSelect(CompileRows(c, av.report), req, start) == Nth(c, start, i).value
  {
    var name := Nth(c, start, i).value;
    av := Availability(Some(map m | m in c :: m == name), {});
    FastRefinesRich(c, av, req, start);
    ResolveSelectsFirst(c, av, req, start);
    ResolveSound(c, av, req, start);
    assert AcceptableAt(c, av, req, start, i);
  }

  /**
    * Exactly when a prompt with an action of an unwaived category goes to the gate whatever is
    * available: the hints are refused, or no engine but the gate, on the chain from the forced
    * gate or from the confirmation target, is enabled and meets the requirements.
    */
  lemma LexicalActionReachesGate(c: RouterConfig, p: Scanner.Prompt, hints: FastHints, category: Scanner.Category)
    requires WellNamed(c.engines) && "confirmation" in c.routingTargets
    requires c.safety.requireHumanConfirmation && !Scanner.Allows(c.safety, category)
    requires Scanner.Occurs(Scanner.Words(p.tokens), category)
    ensures (forall av :: RouteFast(c, av, p, hints) == FAIL_CLOSED_ENGINE)
       <==> HintsRefused(hints) || GateOnly(c.engines, ConfirmationNeeds(c, hints), ConfirmationStart(c, hints))
  {
    ConfirmationEndsAtGateIff(c, hints);
    forall av ensures RouteFast(c, av, p, hints) == ConfirmationEngine(c, av, hints) {
      ConfirmationRoute(c, av, p, hints, category);
    }
  }

  lemma ConfirmationEndsAtGateIff(c: RouterConfig, hints: FastHints)
    requires WellNamed(c.engines) && "confirmation" in c.routingTargets
    ensures (forall av :: ConfirmationEngine(c, av, hints) == FAIL_CLOSED_ENGINE)
       <==> HintsRefused(hints) || GateOnly(c.engines, ConfirmationNeeds(c, hints), ConfirmationStart(c, hints))
  {
    var req, start := ConfirmationNeeds(c, hints), ConfirmationStart(c, hints);
    if GateOnly(c.engines, req, start) {
      forall av ensures ConfirmationEngine(c, av, hints) == FAIL_CLOSED_ENGINE {
        GateOnlyResolvesToGate(c.engines, av, req, start);
      }
    } else {
      var av, name := NotGateOnlyEscapes(c.engines, req, start);
      assert !HintsRefused(hints) ==> ConfirmationEngine(c, av, hints) == name;
    }
  }

  lemma NotGateOnlyEscapes(c: Catalog, req: Requirements, start: string)
    returns (av: Availability, name: string)
    requires WellNamed(c) && !GateOnly(c, req, start)
    ensures name != FAIL_CLOSED_ENGINE
    ensures Resolve(c, av, req, start).selected == FastSelect(CompileRows(c, av.report), req, start) == name
  {
    var i: nat :| Nth(c, start, i).Some?
      && Nth(c, start, i).value != FAIL_CLOSED_ENGINE && Nth(c, start, i).value in c
      && c[Nth(c, start, i).value].enabled && MeetsRequirements(c[Nth(c, start, i).value], req);
    name := Nth(c, start, i).value;
    av := OfferedIsSelected(c, req, start, i);
  }

  /** With a gate without fallback as the confirmation target, such a prompt always goes to the gate. */
  lemma PlainGateConfirms(
    c: RouterConfig, av: Availability, p: Scanner.Prompt, hints: FastHints, category: Scanner.Category)
    requires "confirmation" in c.routingTargets && c.routingTargets["confirmation"] == FAIL_CLOSED_ENGINE
    requires FAIL_CLOSED_ENGINE in c.engines && c.engines[FAIL_CLOSED_ENGINE].fallback.None?
    requires c.safety.requireHumanConfirmation && !Scanner.Allows(c.safety, category)
    requires Scanner.Occurs(Scanner.Words(p.tokens), category)
    ensures RouteFast(c, av, p, hints) == FAIL_CLOSED_ENGINE
  {
    ConfirmationRoute(c, av, p, hints, category);
    PlainGateEngine(c, av, hints);
  }

  lemma PlainGateEngine(c: RouterConfig, av: Availability, hints: FastHints)
    requires "confirmation" in c.routingTargets && c.routingTargets["confirmation"] == FAIL_CLOSED_ENGINE
    requires FAIL_CLOSED_ENGINE in c.engines && c.engines[FAIL_CLOSED_ENGINE].fallback.None?
    ensures ConfirmationEngine(c, av, hints) == FAIL_CLOSED_ENGINE
  {
    if !HintsRefused(hints) {
      GateResolvesToGate(c.engines, av, ConfirmationNeeds(c, hints));
    }
  }

  function PlainEngine(name: string): Engine {
    Engine(name, "local", "model", "adapter", "free", "low", true, None, true, [], 50, 50, 50, 50)
  }

  /** A configuration whose `confirmation` target names an ordinary engine. */
  function RedirectingConfig(): RouterConfig {
    RouterConfig(
      REQUIRED_ENGINES,
      map n | n in REQUIRED_ENGINES :: PlainEngine(n),
      Overlay(DEFAULT_TARGETS, [("confirmation", "fast_local")]),
      Scanner.Safety(true, false, false, false, false, false),
      ProviderPolicy(ProviderRules([], [], false, true, None, None), map[]))
  }

  lemma RedirectingConfigLoads()
    ensures Loaded(RedirectingConfig())
  {
    var c := RedirectingConfig();
    assert c.routingTargets == DEFAULT_TARGETS["confirmation" := "fast_local"] by {
      assert [("confirmation", "fast_local")][..0] == [];
      assert Overlay(DEFAULT_TARGETS, []) == DEFAULT_TARGETS;
    }
    RequiredTargetNames();
    RequiredEngineNames();
  }

  lemma RequiredEngineNames()
    ensures NoDuplicates(REQUIRED_ENGINES)
    ensures forall t :: t in DEFAULT_TARGETS ==> DEFAULT_TARGETS[t] in REQUIRED_ENGINES
    ensures "" !in REQUIRED_ENGINES
  {
    assert REQUIRED_ENGINES[1] == "fast_local" && REQUIRED_ENGINES[2] == "balanced_local"
        && REQUIRED_ENGINES[3] == "reasoning_local" && REQUIRED_ENGINES[4] == "code_agent"
        && REQUIRED_ENGINES[5] == "web_research" && REQUIRED_ENGINES[6] == "multimodal_vision"
        && REQUIRED_ENGINES[7] == "image_generation" && REQUIRED_ENGINES[8] == "human_confirm";
  }

  /** Such a configuration loads, and sends a prompt to be confirmed to that engine. */
  lemma RedirectedConfirmation(p: Scanner.Prompt, category: Scanner.Category)
    requires Scanner.Occurs(Scanner.Words(p.tokens), category)
    ensures Loaded(RedirectingConfig())
    ensures RedirectingConfig().safety.requireHumanConfirmation && !Scanner.Allows(RedirectingConfig().safety, category)
    ensures RouteFast(RedirectingConfig(), Availability(None, {}), p, Absent) == "fast_local"
  {
    var c, av := RedirectingConfig(), Availability(None, {});
    RedirectingConfigLoads();
    RequiredTargetNames();
    RequiredEngineNames();
    ConfirmationRoute(c, av, p, Absent, category);
    PlainEngineServes("fast_local");
    StartIsSelected(c.engines, av, ConfirmationNeeds(c, Absent), "fast_local");
  }

  lemma PlainEngineServes(name: string)
    requires name in REQUIRED_ENGINES
    ensures Acceptable(RedirectingConfig().engines, Availability(None, {}),
                       ConfirmationNeeds(RedirectingConfig(), Absent), name)
  {
  }

  lemma StartIsSelected(c: Catalog, av: Availability, req: Requirements, start: string)
    requires start != "" && Acceptable(c, av, req, start)
    ensures Resolve(c, av, req, start).selected == start
  {
    SkipReasonIsRefusal(c[start], av, req);
  }
}
