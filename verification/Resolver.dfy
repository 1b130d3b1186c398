/**
  * Fallback resolution. The rich resolver follows the fallback chain with a visited set and
  * records why it skipped each engine; the fast one walks precompiled rows for a bounded
  * number of steps. Both are proved to find the first acceptable engine on the chain.
  */
module Resolver {
  import opened Prelude
  import opened Models

  datatype Reason =
    | Undefined
    | Disabled
    | Unavailable
    | ProviderDenied(provider: string)
    | ProviderExcludedByPrivateProfile(provider: string)
    | ProviderNotAllowed(provider: string)
    | ToolsRequired
    | MissingModality(modality: string)
    | CostTierExceeds(costTier: string)
    | LatencyTierExceeds(latencyTier: string)
    | CycleDetected
    | RouteUndefined

  datatype Rejection = Rejection(engine: string, reason: Reason)

  datatype Resolution = Resolution(
    selected: string,
    fallbackEngine: Option<string>,
    availabilityValid: bool,
    rejections: seq<Rejection>,
    fallbackUsed: bool)

  // ---------------------------------------------------------------- one engine

  function EngineAvailable(e: Engine, av: Availability): bool {
    match av.report
    case None => true
    case Some(report) => if e.name in report then report[e.name] else e.name in av.live
  }

  predicate CostExceeds(tier: string, cap: Option<CostTier>) {
    cap.Some? && CostRank(tier) > CostRank(cap.value)
  }

  predicate LatencyExceeds(tier: string, cap: Option<LatencyTier>) {
    cap.Some? && LatencyRank(tier) > LatencyRank(cap.value)
  }

  function MissingModalityOf(required: seq<string>, offered: seq<string>): (m: Option<string>)
    ensures m.None? <==> forall x :: x in required ==> x in offered
    ensures m.Some? ==> m.value in required && m.value !in offered
  {
    if required == [] then None
    else if required[0] !in offered then Some(required[0])
    else
      assert required == [required[0]] + required[1..];
      MissingModalityOf(required[1..], offered)
  }

  /** Why a requirement rules the engine out, if one does; the checks run in this order. */
  function ConstraintReason(e: Engine, req: Requirements): Option<Reason> {
    if e.provider in req.deniedProviders then Some(ProviderDenied(e.provider))
    else if req.allowedProviders != [] && e.provider !in req.allowedProviders then
      Some(if req.profile == Private then ProviderExcludedByPrivateProfile(e.provider)
           else ProviderNotAllowed(e.provider))
    else if req.needsTools && !e.supportsTools then Some(ToolsRequired)
    else
      match MissingModalityOf(req.requiredModalities, e.modalities)
      case Some(m) => Some(MissingModality(m))
      case None =>
        if CostExceeds(e.costTier, req.maxCostTier) then Some(CostTierExceeds(e.costTier))
        else if LatencyExceeds(e.latencyTier, req.maxLatencyTier) then Some(LatencyTierExceeds(e.latencyTier))
        else None
  }

  /** The declarative acceptance test: what an engine must satisfy, clause by clause. */
  predicate MeetsRequirements(e: Engine, req: Requirements) {
    && e.provider !in req.deniedProviders
    && (req.allowedProviders == [] || e.provider in req.allowedProviders)
    && (req.needsTools ==> e.supportsTools)
    && (forall m :: m in req.requiredModalities ==> m in e.modalities)
    && !CostExceeds(e.costTier, req.maxCostTier)
    && !LatencyExceeds(e.latencyTier, req.maxLatencyTier)
  }

  /** Why the resolver skips an engine, if it does. */
  function SkipReason(e: Engine, av: Availability, req: Requirements): Option<Reason> {
    if !e.enabled then Some(Disabled)
    else if !EngineAvailable(e, av) then Some(Unavailable)
    else ConstraintReason(e, req)
  }

  /** An engine the resolver may select. */
  predicate Acceptable(c: Catalog, av: Availability, req: Requirements, name: string) {
    && name in c
    && c[name].enabled
    && EngineAvailable(c[name], av)
    && MeetsRequirements(c[name], req)
  }

  // ---------------------------------------------------------------- the chain, independently

  /** The i-th name on the fallback chain that starts at `start`. */
  function Nth(c: Catalog, start: string, i: nat): Option<string> {
    if i == 0 then Some(start)
    else
      match Nth(c, start, i - 1)
      case None => None
      case Some(n) => if n in c then c[n].fallback else None
  }

  predicate AcceptableAt(c: Catalog, av: Availability, req: Requirements, start: string, i: nat) {
    Nth(c, start, i).Some? && Acceptable(c, av, req, Nth(c, start, i).value)
  }

  predicate FirstAcceptableAt(c: Catalog, av: Availability, req: Requirements, start: string, i: nat) {
    && AcceptableAt(c, av, req, start, i)
    && forall j: nat :: j < i ==> !AcceptableAt(c, av, req, start, j)
  }

  lemma {:induction false} NthShift(c: Catalog, start: string, i: nat)
    requires start in c
    ensures Nth(c, start, i + 1) ==
            if c[start].fallback.Some? then Nth(c, c[start].fallback.value, i) else None
  {
    if i > 0 {
      NthShift(c, start, i - 1);
    } else {
      assert Nth(c, start, 0) == Some(start);
    }
  }

  lemma {:induction false} NthDead(c: Catalog, start: string, i: nat)
    requires start !in c
    ensures i > 0 ==> Nth(c, start, i) == None
  {
    if i > 1 {
      NthDead(c, start, i - 1);
    } else {
      assert Nth(c, start, 0) == Some(start);
    }
  }

  // ---------------------------------------------------------------- the rich resolver

  /** The result of continuing at `current`, with `visited` already skipped. */
  function ResolveFrom(
    c: Catalog, av: Availability, req: Requirements, target: string, current: string, visited: set<string>
  ): Resolution
    decreases c.Keys - visited
  {
    if current == "" || current in visited then
      Resolution(FAIL_CLOSED_ENGINE, Some(FAIL_CLOSED_ENGINE), false, [Rejection(current, CycleDetected)], true)
    else if current !in c then
      Resolution(FAIL_CLOSED_ENGINE, Some(FAIL_CLOSED_ENGINE), false, [Rejection(current, Undefined)], true)
    else
      var e := c[current];
      match SkipReason(e, av, req)
      case None =>
        if current != target then Resolution(current, Some(current), true, [], true)
        else Resolution(current, e.fallback, true, [], false)
      case Some(reason) =>
        match e.fallback
        case None =>
          Resolution(FAIL_CLOSED_ENGINE, Some(FAIL_CLOSED_ENGINE), false, [Rejection(current, reason)], true)
        case Some(next) =>
          assert current in c.Keys - visited;
          var rest := ResolveFrom(c, av, req, target, next, visited + {current});
          rest.(rejections := [Rejection(current, reason)] + rest.rejections)
  }

  function Resolve(c: Catalog, av: Availability, req: Requirements, target: string): Resolution {
    ResolveFrom(c, av, req, target, target, {})
  }

  /** The rich resolver as the router runs it. */
  method ResolveEnabledEngine(target: string, c: Catalog, req: Requirements, av: Availability)
    returns (r: Resolution)
    ensures r == Resolve(c, av, req, target)
  {
    var visited: set<string> := {};
    var current := target;
    var rejected: seq<Rejection> := [];
    while current != "" && current !in visited
      invariant var rest := ResolveFrom(c, av, req, target, current, visited);
        Resolve(c, av, req, target) == rest.(rejections := rejected + rest.rejections)
      decreases c.Keys - visited
    {
      ghost var rest := ResolveFrom(c, av, req, target, current, visited);
      visited := visited + {current};
      if current !in c {
        return Resolution(FAIL_CLOSED_ENGINE, Some(FAIL_CLOSED_ENGINE), false,
                          rejected + [Rejection(current, Undefined)], true);
      }
      var e := c[current];
      var reason: Reason;
      if e.enabled {
        if !EngineAvailable(e, av) {
          reason := Unavailable;
        } else {
          var constraint := ConstraintReason(e, req);
          if constraint.None? {
            assert rejected + [] == rejected;
            if current != target {
              return Resolution(current, Some(current), true, rejected, true);
            }
            return Resolution(current, e.fallback, true, rejected, false);
          }
          reason := constraint.value;
        }
      } else {
        reason := Disabled;
      }
      ghost var before := rejected;
      rejected := rejected + [Rejection(current, reason)];
      if e.fallback.None? {
        return Resolution(FAIL_CLOSED_ENGINE, Some(FAIL_CLOSED_ENGINE), false, rejected, true);
      }
      ghost var next := ResolveFrom(c, av, req, target, e.fallback.value, visited);
      assert rest.rejections == [Rejection(current, reason)] + next.rejections;
      assert before + rest.rejections == rejected + next.rejections;
      current := e.fallback.value;
    }
    return Resolution(FAIL_CLOSED_ENGINE, Some(FAIL_CLOSED_ENGINE), false,
                      rejected + [Rejection(current, CycleDetected)], true);
  }

  /** Skipped engines lead nowhere but to each other or to `current`. */
  ghost predicate Explored(
    c: Catalog, av: Availability, req: Requirements, visited: set<string>, current: string)
  {
    forall v :: v in visited ==>
      && v in c && !Acceptable(c, av, req, v)
      && c[v].fallback.Some? && (c[v].fallback.value in visited || c[v].fallback.value == current)
  }

  lemma ExploredStep(c: Catalog, av: Availability, req: Requirements, visited: set<string>, current: string)
    requires Explored(c, av, req, visited, current)
    requires current in c && !Acceptable(c, av, req, current) && c[current].fallback.Some?
    ensures Explored(c, av, req, visited + {current}, c[current].fallback.value)
  {
  }

  lemma {:induction false} ChainStaysExplored(
    c: Catalog, av: Availability, req: Requirements, visited: set<string>, start: string, i: nat)
    requires Explored(c, av, req, visited, start) && start in visited
    ensures Nth(c, start, i).Some? && Nth(c, start, i).value in visited
  {
    if i > 0 {
      ChainStaysExplored(c, av, req, visited, start, i - 1);
    }
  }

  lemma SkipReasonIsRefusal(e: Engine, av: Availability, req: Requirements)
    ensures SkipReason(e, av, req).None?
       <==> e.enabled && EngineAvailable(e, av) && MeetsRequirements(e, req)
  {
  }

  /** The engine keeps the first `k` of the acceptance clauses, in the order they are checked. */
  ghost predicate KeepsFirst(e: Engine, av: Availability, req: Requirements, k: nat) {
    && (k > 0 ==> e.enabled)
    && (k > 1 ==> EngineAvailable(e, av))
    && (k > 2 ==> e.provider !in req.deniedProviders)
    && (k > 3 ==> req.allowedProviders == [] || e.provider in req.allowedProviders)
    && (k > 4 ==> req.needsTools ==> e.supportsTools)
    && (k > 5 ==> forall m :: m in req.requiredModalities ==> m in e.modalities)
    && (k > 6 ==> !CostExceeds(e.costTier, req.maxCostTier))
    && (k > 7 ==> !LatencyExceeds(e.latencyTier, req.maxLatencyTier))
  }

  /** The clause a reason says the engine breaks, by its place in the order. */
  function ClauseOf(reason: Reason): nat {
    match reason
    case Disabled => 0
    case Unavailable => 1
    case ProviderDenied(_) => 2
    case ProviderExcludedByPrivateProfile(_) => 3
    case ProviderNotAllowed(_) => 3
    case ToolsRequired => 4
    case MissingModality(_) => 5
    case CostTierExceeds(_) => 6
    case LatencyTierExceeds(_) => 7
    case _ => 8
  }

  /**
    * The reason given is the first clause the engine breaks, and it names what breaks it: the
    * provider, a required modality the engine lacks, or the tier; a provider not allowed is put
    * down to the private profile exactly under that profile.
    */
  lemma ReasonIsFirstBroken(e: Engine, av: Availability, req: Requirements)
    ensures SkipReason(e, av, req).Some? ==>
      var reason := SkipReason(e, av, req).value;
      var k := ClauseOf(reason);
      && k < 8 && KeepsFirst(e, av, req, k) && !KeepsFirst(e, av, req, k + 1)
      && (match reason
          case ProviderDenied(p) => p == e.provider
          case ProviderExcludedByPrivateProfile(p) => p == e.provider && req.profile == Private
          case ProviderNotAllowed(p) => p == e.provider && req.profile != Private
          case MissingModality(m) => m in req.requiredModalities && m !in e.modalities
          case CostTierExceeds(t) => t == e.costTier
          case LatencyTierExceeds(t) => t == e.latencyTier
          case _ => true)
  {
  }

  /** An engine is available when there is no report, or it says so, or it is silent and the live check passes. */
  lemma AvailableIff(e: Engine, av: Availability)
    ensures EngineAvailable(e, av)
       <==> av.report.Some? ==> (if e.name in av.report.value then av.report.value[e.name] else e.name in av.live)
  {
  }

  /** What a resolution must be, stated on the chain alone. */
  ghost predicate SelectsFirst(
    c: Catalog, av: Availability, req: Requirements, target: string, start: string, r: Resolution)
  {
    && (forall i: nat :: FirstAcceptableAt(c, av, req, start, i) ==>
          && r.availabilityValid
          && Nth(c, start, i) == Some(r.selected)
          && |r.rejections| == i
          && r.fallbackUsed == (r.selected != target)
          && r.fallbackEngine == (if r.fallbackUsed then Some(r.selected) else c[r.selected].fallback))
    && ((forall i: nat :: !AcceptableAt(c, av, req, start, i)) ==>
          && !r.availabilityValid && r.selected == FAIL_CLOSED_ENGINE
          && r.fallbackEngine == Some(FAIL_CLOSED_ENGINE) && r.fallbackUsed)
  }

  lemma NothingAcceptable(
    c: Catalog, av: Availability, req: Requirements, visited: set<string>, start: string)
    requires Explored(c, av, req, visited, start)
    requires start in visited || start !in c
          || (!Acceptable(c, av, req, start) && c[start].fallback.None?)
    ensures forall i: nat :: !AcceptableAt(c, av, req, start, i)
  {
    forall i: nat ensures !AcceptableAt(c, av, req, start, i) {
      assert Nth(c, start, 0) == Some(start);
      if start in visited {
        ChainStaysExplored(c, av, req, visited, start, i);
      } else if start !in c {
        NthDead(c, start, i);
      } else if i > 0 {
        NthShift(c, start, i - 1);
      }
    }
  }

  lemma AcceptableShift(c: Catalog, av: Availability, req: Requirements, start: string, i: nat)
    requires start in c && c[start].fallback.Some? && !Acceptable(c, av, req, start)
    ensures AcceptableAt(c, av, req, start, i)
       <==> i > 0 && AcceptableAt(c, av, req, c[start].fallback.value, i - 1)
    ensures FirstAcceptableAt(c, av, req, start, i)
        ==> i > 0 && FirstAcceptableAt(c, av, req, c[start].fallback.value, i - 1)
  {
    var next := c[start].fallback.value;
    assert Nth(c, start, 0) == Some(start);
    if i > 0 {
      NthShift(c, start, i - 1);
      if FirstAcceptableAt(c, av, req, start, i) {
        forall j: nat | j < i - 1 ensures !AcceptableAt(c, av, req, next, j) {
          NthShift(c, start, j);
          assert !AcceptableAt(c, av, req, start, j + 1);
        }
      }
    }
  }

  lemma SelectsFirstStep(
    c: Catalog, av: Availability, req: Requirements, target: string, start: string,
    reason: Reason, rest: Resolution)
    requires start in c && c[start].fallback.Some? && !Acceptable(c, av, req, start)
    requires SelectsFirst(c, av, req, target, c[start].fallback.value, rest)
    ensures SelectsFirst(c, av, req, target, start,
                         rest.(rejections := [Rejection(start, reason)] + rest.rejections))
  {
    var next := c[start].fallback.value;
    forall i: nat | FirstAcceptableAt(c, av, req, start, i)
      ensures i > 0 && FirstAcceptableAt(c, av, req, next, i - 1) && Nth(c, start, i) == Nth(c, next, i - 1)
    {
      AcceptableShift(c, av, req, start, i);
      NthShift(c, start, i - 1);
    }
    if forall i: nat :: !AcceptableAt(c, av, req, start, i) {
      forall i: nat ensures !AcceptableAt(c, av, req, next, i) {
        AcceptableShift(c, av, req, start, i + 1);
        assert !AcceptableAt(c, av, req, start, i + 1);
      }
    }
  }

  lemma {:induction false} ResolveFromSelects(
    c: Catalog, av: Availability, req: Requirements, target: string, current: string, visited: set<string>)
    requires "" !in c
    requires Explored(c, av, req, visited, current)
    ensures SelectsFirst(c, av, req, target, current, ResolveFrom(c, av, req, target, current, visited))
    decreases c.Keys - visited
  {
    var r := ResolveFrom(c, av, req, target, current, visited);
    assert Nth(c, current, 0) == Some(current);
    if current in visited || current !in c {
      NothingAcceptable(c, av, req, visited, current);
    } else {
      SkipReasonIsRefusal(c[current], av, req);
      if Acceptable(c, av, req, current) {
        assert AcceptableAt(c, av, req, current, 0);
      } else if c[current].fallback.None? {
        NothingAcceptable(c, av, req, visited, current);
      } else {
        var next := c[current].fallback.value;
        assert current in c.Keys - visited;
        ResolveFromSelects(c, av, req, target, next, visited + {current});
        SelectsFirstStep(c, av, req, target, current, SkipReason(c[current], av, req).value,
                         ResolveFrom(c, av, req, target, next, visited + {current}));
      }
    }
  }

  lemma {:induction false} FirstExists(
    c: Catalog, av: Availability, req: Requirements, start: string, i: nat)
    returns (first: nat)
    requires AcceptableAt(c, av, req, start, i)
    ensures FirstAcceptableAt(c, av, req, start, first)
  {
    if j: nat :| j < i && AcceptableAt(c, av, req, start, j) {
      first := FirstExists(c, av, req, start, j);
    } else {
      first := i;
    }
  }

  /**
    * The rich resolver selects the first acceptable engine on the fallback chain, or the
    * confirmation gate when there is none, and says which of the two happened.
    */
  lemma ResolveSelectsFirst(c: Catalog, av: Availability, req: Requirements, target: string)
    requires "" !in c
    ensures SelectsFirst(c, av, req, target, target, Resolve(c, av, req, target))
    ensures Resolve(c, av, req, target).availabilityValid
       <==> exists i: nat :: AcceptableAt(c, av, req, target, i)
  {
    ResolveFromSelects(c, av, req, target, target, {});
    if i: nat :| AcceptableAt(c, av, req, target, i) {
      var first := FirstExists(c, av, req, target, i);
      assert FirstAcceptableAt(c, av, req, target, first);
    }
  }

  /** A resolution that succeeded selected an acceptable engine. */
  lemma ResolveSound(c: Catalog, av: Availability, req: Requirements, target: string)
    requires "" !in c
    ensures var r := Resolve(c, av, req, target);
      if r.availabilityValid then Acceptable(c, av, req, r.selected) else r.selected == FAIL_CLOSED_ENGINE
  {
    ResolveSelectsFirst(c, av, req, target);
    if i: nat :| AcceptableAt(c, av, req, target, i) {
      var first := FirstExists(c, av, req, target, i);
      assert FirstAcceptableAt(c, av, req, target, first);
    }
  }

  // ---------------------------------------------------------------- the rejection list

  /** The list follows the chain: its j-th entry is the j-th name, with that engine's own reason. */
  ghost predicate FollowsChain(
    c: Catalog, av: Availability, req: Requirements, start: string, rejections: seq<Rejection>)
  {
    forall j :: 0 <= j < |rejections| ==>
      && Nth(c, start, j) == Some(rejections[j].engine)
      && (match rejections[j].reason
          case CycleDetected => j == |rejections| - 1
          case Undefined => j == |rejections| - 1 && rejections[j].engine !in c
          case reason => rejections[j].engine in c && SkipReason(c[rejections[j].engine], av, req) == Some(reason))
  }

  /** Only cycle marks repeat a name: one of `visited`, of the list itself, or the empty one. */
  ghost predicate MarksRepeats(rs: seq<Rejection>, visited: set<string>) {
    forall j :: 0 <= j < |rs| ==>
      if rs[j].reason.CycleDetected? then
        rs[j].engine == "" || rs[j].engine in visited || exists i :: 0 <= i < j && rs[i].engine == rs[j].engine
      else
        rs[j].engine != "" && rs[j].engine !in visited && forall i :: 0 <= i < j ==> rs[i].engine != rs[j].engine
  }

  lemma FollowsChainStep(c: Catalog, av: Availability, req: Requirements, current: string, rest: seq<Rejection>)
    requires current in c && c[current].fallback.Some? && SkipReason(c[current], av, req).Some?
    requires FollowsChain(c, av, req, c[current].fallback.value, rest)
    ensures FollowsChain(c, av, req, current, [Rejection(current, SkipReason(c[current], av, req).value)] + rest)
  {
    SkipReasonIsRefusal(c[current], av, req);
    var rs := [Rejection(current, SkipReason(c[current], av, req).value)] + rest;
    assert Nth(c, current, 0) == Some(current);
    forall j | 0 < j < |rs| ensures Nth(c, current, j) == Nth(c, c[current].fallback.value, j - 1) && rs[j] == rest[j - 1] {
      NthShift(c, current, j - 1);
    }
  }

  lemma CycleMarkStep(first: Rejection, rest: seq<Rejection>, visited: set<string>, j: nat)
    requires MarksRepeats(rest, visited + {first.engine})
    requires 0 < j <= |rest| && rest[j - 1].reason.CycleDetected?
    ensures var rs := [first] + rest;
      rs[j].engine == "" || rs[j].engine in visited || exists i :: 0 <= i < j && rs[i].engine == rs[j].engine
  {
    var rs := [first] + rest;
    assert rs[j] == rest[j - 1];
    if rs[j].engine == first.engine {
      assert rs[0].engine == rs[j].engine;
    } else if i :| 0 <= i < j - 1 && rest[i].engine == rest[j - 1].engine {
      assert rs[i + 1].engine == rs[j].engine;
    }
  }

  lemma MarksRepeatsStep(first: Rejection, rest: seq<Rejection>, visited: set<string>)
    requires !first.reason.CycleDetected? && first.engine != "" && first.engine !in visited
    requires MarksRepeats(rest, visited + {first.engine})
    ensures MarksRepeats([first] + rest, visited)
  {
    var rs := [first] + rest;
    forall j | 0 < j < |rs| && rs[j].reason.CycleDetected?
      ensures rs[j].engine == "" || rs[j].engine in visited || exists i :: 0 <= i < j && rs[i].engine == rs[j].engine
    {
      CycleMarkStep(first, rest, visited, j);
    }
    forall j | 0 < j < |rs| && !rs[j].reason.CycleDetected?
      ensures rs[j].engine != "" && rs[j].engine !in visited && forall i :: 0 <= i < j ==> rs[i].engine != rs[j].engine
    {
      assert rs[j] == rest[j - 1];
      forall i | 0 < i < j ensures rs[i].engine != rs[j].engine {
        assert rs[i] == rest[i - 1];
      }
    }
  }

  lemma {:induction false} RejectionsFollowChainFrom(
    c: Catalog, av: Availability, req: Requirements, target: string, current: string, visited: set<string>)
    ensures var rs := ResolveFrom(c, av, req, target, current, visited).rejections;
      FollowsChain(c, av, req, current, rs) && MarksRepeats(rs, visited)
    decreases c.Keys - visited
  {
    assert Nth(c, current, 0) == Some(current);
    if current != "" && current !in visited && current in c {
      var e := c[current];
      SkipReasonIsRefusal(e, av, req);
      var reason := SkipReason(e, av, req);
      if reason.Some? && e.fallback.Some? {
        assert current in c.Keys - visited;
        RejectionsFollowChainFrom(c, av, req, target, e.fallback.value, visited + {current});
        var rest := ResolveFrom(c, av, req, target, e.fallback.value, visited + {current}).rejections;
        FollowsChainStep(c, av, req, current, rest);
        MarksRepeatsStep(Rejection(current, reason.value), rest, visited);
      }
    }
  }

  /**
    * The rejections are the skipped prefix of the chain, in order and without repeats; only a
    * last entry may instead mark a name seen before (a cycle) or one the catalog lacks.
    */
  lemma RejectionsFollowChain(c: Catalog, av: Availability, req: Requirements, target: string)
    requires "" !in c
    ensures var rs := Resolve(c, av, req, target).rejections;
      FollowsChain(c, av, req, target, rs) && MarksRepeats(rs, {})
  {
    RejectionsFollowChainFrom(c, av, req, target, target, {});
  }

  /** A failed resolution says where the chain ended: at a mark, or at an engine without a fallback. */
  lemma {:induction false} FailureShowsChainEnd(
    c: Catalog, av: Availability, req: Requirements, target: string, current: string, visited: set<string>)
    ensures var r := ResolveFrom(c, av, req, target, current, visited);
      !r.availabilityValid ==>
        && r.rejections != []
        && var last := r.rejections[|r.rejections| - 1];
           last.reason.CycleDetected? || last.engine !in c || c[last.engine].fallback.None?
    decreases c.Keys - visited
  {
    if current != "" && current !in visited && current in c
       && SkipReason(c[current], av, req).Some? && c[current].fallback.Some?
    {
      assert current in c.Keys - visited;
      FailureShowsChainEnd(c, av, req, target, c[current].fallback.value, visited + {current});
    }
  }

  lemma {:induction false} ChainStaysInCatalog(c: Catalog, start: string, i: nat)
    requires ClosedUnderFallback(c) && start in c
    ensures Nth(c, start, i).Some? ==> Nth(c, start, i).value in c
  {
    if i > 0 { ChainStaysInCatalog(c, start, i - 1); }
  }

  /** In a loaded catalog, no resolution from one of its engines meets an undefined engine. */
  lemma NoUndefinedRejection(c: Catalog, av: Availability, req: Requirements, target: string)
    requires WellNamed(c) && ClosedUnderFallback(c) && target in c
    ensures forall r :: r in Resolve(c, av, req, target).rejections ==>
      r.reason != Undefined && r.reason != RouteUndefined && r.engine in c
  {
    RejectionsFollowChain(c, av, req, target);
    var rs := Resolve(c, av, req, target).rejections;
    forall j | 0 <= j < |rs| ensures rs[j].engine in c && rs[j].reason != Undefined && rs[j].reason != RouteUndefined {
      ChainStaysInCatalog(c, target, j);
    }
  }

  // ---------------------------------------------------------------- the fast resolver

  /** One precompiled row of the hot path. */
  datatype FastRow = FastRow(
    enabled: bool,
    fallback: Option<string>,
    provider: string,
    supportsTools: bool,
    modalities: seq<string>,
    costTier: string,
    latencyTier: string,
    available: bool)

  type FastTable = map<string, FastRow>

  /** The fast path believes the report alone: an engine it omits is unavailable. */
  function FastAvailable(name: string, report: Option<map<string, bool>>): bool {
    report.None? || (name in report.value && report.value[name])
  }

  function CompileRows(c: Catalog, report: Option<map<string, bool>>): FastTable {
    map name | name in c ::
      FastRow(c[name].enabled, c[name].fallback, c[name].provider, c[name].supportsTools, c[name].modalities,
              c[name].costTier, c[name].latencyTier, FastAvailable(name, report))
  }

  predicate RowAccepts(row: FastRow, req: Requirements) {
    && row.enabled
    && row.available
    && !(req.needsTools && !row.supportsTools)
    && MissingModalityOf(req.requiredModalities, row.modalities).None?
    && !(req.allowedProviders != [] && row.provider !in req.allowedProviders)
    && row.provider !in req.deniedProviders
    && !CostExceeds(row.costTier, req.maxCostTier)
    && !LatencyExceeds(row.latencyTier, req.maxLatencyTier)
  }

  /** What `fuel` more steps of the bounded loop select. */
  function FastFrom(t: FastTable, req: Requirements, current: string, fuel: nat): string
    decreases fuel
  {
    if fuel == 0 || current !in t then FAIL_CLOSED_ENGINE
    else if RowAccepts(t[current], req) then current
    else
      match t[current].fallback
      case None => FAIL_CLOSED_ENGINE
      case Some(next) => FastFrom(t, req, next, fuel - 1)
  }

  function FastSelect(t: FastTable, req: Requirements, target: string): string {
    FastFrom(t, req, target, |t| + 1)
  }

  /** The bounded loop as the router runs it. */
  method ResolveEngineFast(t: FastTable, req: Requirements, target: string) returns (selected: string)
    ensures selected == FastSelect(t, req, target)
  {
    var current := target;
    for step := 0 to |t| + 1
      invariant FastSelect(t, req, target) == FastFrom(t, req, current, |t| + 1 - step)
    {
      if current !in t {
        return FAIL_CLOSED_ENGINE;
      }
      var row := t[current];
      if RowAccepts(row, req) {
        return current;
      }
      if row.fallback.None? {
        return FAIL_CLOSED_ENGINE;
      }
      current := row.fallback.value;
    }
    return FAIL_CLOSED_ENGINE;
  }

  /** The report and the live check tell the fast and the rich path the same about every enabled engine. */
  predicate ReportCovers(c: Catalog, av: Availability) {
    av.report.None? || forall k :: k in c && c[k].enabled ==> k in av.report.value || k !in av.live
  }

  lemma RowAcceptsIsAcceptable(c: Catalog, av: Availability, req: Requirements, name: string)
    requires WellNamed(c) && name in c
    requires c[name].enabled ==> FastAvailable(name, av.report) == EngineAvailable(c[name], av)
    ensures RowAccepts(CompileRows(c, av.report)[name], req) <==> Acceptable(c, av, req, name)
  {
  }

  lemma {:induction false} FastStaysExplored(
    c: Catalog, av: Availability, req: Requirements, visited: set<string>, start: string, fuel: nat)
    requires WellNamed(c) && ReportCovers(c, av)
    requires Explored(c, av, req, visited, start) && start in visited
    ensures FastFrom(CompileRows(c, av.report), req, start, fuel) == FAIL_CLOSED_ENGINE
    decreases fuel
  {
    if fuel > 0 {
      RowAcceptsIsAcceptable(c, av, req, start);
      var next := c[start].fallback.value;
      FastStaysExplored(c, av, req, visited, next, fuel - 1);
    }
  }

  lemma UnvisitedDecreases(c: Catalog, visited: set<string>, current: string)
    requires current in c && current !in visited
    ensures |c.Keys - (visited + {current})| < |c.Keys - visited|
  {
    assert c.Keys - (visited + {current}) == (c.Keys - visited) - {current};
  }

  /** At an engine not seen before both resolvers take the same step. */
  lemma BothStep(
    c: Catalog, av: Availability, req: Requirements, target: string, current: string,
    visited: set<string>, fuel: nat)
    requires WellNamed(c) && ReportCovers(c, av)
    requires current in c && current !in visited && fuel > 0
    requires !Acceptable(c, av, req, current) && c[current].fallback.Some? ==>
      FastFrom(CompileRows(c, av.report), req, c[current].fallback.value, fuel - 1)
      == ResolveFrom(c, av, req, target, c[current].fallback.value, visited + {current}).selected
    ensures FastFrom(CompileRows(c, av.report), req, current, fuel)
         == ResolveFrom(c, av, req, target, current, visited).selected
  {
    RowAcceptsIsAcceptable(c, av, req, current);
    SkipReasonIsRefusal(c[current], av, req);
  }

  /** Where the rich resolver marks a cycle or an undefined name, both end at the gate. */
  lemma BothStop(
    c: Catalog, av: Availability, req: Requirements, target: string, current: string,
    visited: set<string>, fuel: nat)
    requires WellNamed(c) && ReportCovers(c, av) && Explored(c, av, req, visited, current)
    requires current in visited || current !in c
    ensures FastFrom(CompileRows(c, av.report), req, current, fuel)
         == ResolveFrom(c, av, req, target, current, visited).selected
  {
    if current in visited {
      FastStaysExplored(c, av, req, visited, current, fuel);
    }
  }

  /** The pigeonhole: while engines remain unseen the fuel outlasts them; a repeat settles both. */
  lemma {:induction false} FastFromRefines(
    c: Catalog, av: Availability, req: Requirements, target: string, current: string,
    visited: set<string>, fuel: nat)
    requires WellNamed(c) && ReportCovers(c, av)
    requires Explored(c, av, req, visited, current)
    requires visited <= c.Keys && fuel > |c.Keys - visited|
    ensures FastFrom(CompileRows(c, av.report), req, current, fuel)
         == ResolveFrom(c, av, req, target, current, visited).selected
    decreases fuel
  {
    if current in visited || current !in c {
      BothStop(c, av, req, target, current, visited, fuel);
    } else {
      if !Acceptable(c, av, req, current) && c[current].fallback.Some? {
        ExploredStep(c, av, req, visited, current);
        UnvisitedDecreases(c, visited, current);
        FastFromRefines(c, av, req, target, c[current].fallback.value, visited + {current}, fuel - 1);
      }
      BothStep(c, av, req, target, current, visited, fuel);
    }
  }

  /**
    * For every catalog, start and requirements, the bounded loop selects what the visited-set
    * resolver selects, provided the report covers every enabled engine (or is absent).
    */
  lemma FastRefinesRich(c: Catalog, av: Availability, req: Requirements, target: string)
    requires WellNamed(c) && ReportCovers(c, av)
    ensures FastSelect(CompileRows(c, av.report), req, target) == Resolve(c, av, req, target).selected
  {
    assert CompileRows(c, av.report).Keys == c.Keys;
    assert c.Keys - {} == c.Keys;
    FastFromRefines(c, av, req, target, target, {}, |c| + 1);
  }

  /** The engine is the first acceptable one on the chain; the gate when there is none. */
  ghost predicate IsFirstAcceptable(c: Catalog, av: Availability, req: Requirements, start: string, engine: string) {
    && (forall i: nat :: FirstAcceptableAt(c, av, req, start, i) ==> Nth(c, start, i) == Some(engine))
    && ((forall i: nat :: !AcceptableAt(c, av, req, start, i)) ==> engine == FAIL_CLOSED_ENGINE)
  }

  /** Whatever the report covers, the fast resolver is the rich one with every live check failing. */
  lemma FastIgnoresLiveChecks(c: Catalog, av: Availability, req: Requirements, target: string)
    requires WellNamed(c)
    ensures FastSelect(CompileRows(c, av.report), req, target) == Resolve(c, av.(live := {}), req, target).selected
    ensures IsFirstAcceptable(c, av.(live := {}), req, target, FastSelect(CompileRows(c, av.report), req, target))
  {
    FastRefinesRich(c, av.(live := {}), req, target);
    ResolveSelectsFirst(c, av.(live := {}), req, target);
  }

  // ---------------------------------------------------------------- when the two agree

  /** The fast and the rich resolver agree on every start and every requirement. */
  ghost predicate ResolversAgree(c: Catalog, av: Availability) {
    forall req: Requirements, target: string ::
      FastSelect(CompileRows(c, av.report), req, target) == Resolve(c, av, req, target).selected
  }

  /** The report omits the engine, but its live check passes. */
  predicate Uncovered(c: Catalog, av: Availability, name: string) {
    name in c && c[name].enabled && av.report.Some? && name !in av.report.value && name in av.live
  }

  predicate ReportedAvailable(c: Catalog, av: Availability, name: string) {
    name in c && c[name].enabled && (av.report.None? || (name in av.report.value && av.report.value[name]))
  }

  /**
    * No engine but the gate is uncovered; and if the gate is, no engine after it on its chain
    * is enabled and reported available.
    */
  ghost predicate CoveredEnough(c: Catalog, av: Availability) {
    && (forall k :: Uncovered(c, av, k) ==> k == FAIL_CLOSED_ENGINE)
    && (Uncovered(c, av, FAIL_CLOSED_ENGINE) ==>
          forall i: nat :: i > 0 && Nth(c, FAIL_CLOSED_ENGINE, i).Some? ==>
            !ReportedAvailable(c, av, Nth(c, FAIL_CLOSED_ENGINE, i).value))
  }

  lemma {:induction false} NthOfNth(c: Catalog, start: string, i: nat, name: string, j: nat)
    requires Nth(c, start, i) == Some(name)
    ensures Nth(c, start, i + j) == Nth(c, name, j)
  {
    if j > 0 {
      NthOfNth(c, start, i, name, j - 1);
    } else {
      assert Nth(c, name, 0) == Some(name);
    }
  }

  /** An engine that only its live check makes available is an uncovered one. */
  lemma LiveOnlyIsUncovered(c: Catalog, av: Availability, req: Requirements, name: string)
    requires WellNamed(c)
    ensures Acceptable(c, av.(live := {}), req, name)
       <==> Acceptable(c, av, req, name) && !Uncovered(c, av, name)
    ensures Acceptable(c, av.(live := {}), req, name) ==> ReportedAvailable(c, av, name)
  {
  }

  /** Covered enough, both resolvers find the same first engine. */
  lemma CoveredResolversAgree(c: Catalog, av: Availability, req: Requirements, target: string)
    requires WellNamed(c) && CoveredEnough(c, av)
    ensures FastSelect(CompileRows(c, av.report), req, target) == Resolve(c, av, req, target).selected
  {
    var fast := FastSelect(CompileRows(c, av.report), req, target);
    FastIgnoresLiveChecks(c, av, req, target);
    ResolveSelectsFirst(c, av, req, target);
    if i: nat :| AcceptableAt(c, av, req, target, i) {
      var first := FirstExists(c, av, req, target, i);
      ReportedSelectionSame(c, av, req, target, first, fast);
    } else {
      NoneReported(c, av, req, target);
    }
  }

  lemma NoneReported(c: Catalog, av: Availability, req: Requirements, target: string)
    requires WellNamed(c) && forall i: nat :: !AcceptableAt(c, av, req, target, i)
    ensures forall i: nat :: !AcceptableAt(c, av.(live := {}), req, target, i)
  {
    forall i: nat ensures !AcceptableAt(c, av.(live := {}), req, target, i) {
      assert !AcceptableAt(c, av, req, target, i);
      if Nth(c, target, i).Some? {
        LiveOnlyIsUncovered(c, av, req, Nth(c, target, i).value);
      }
    }
  }

  lemma ReportedSelectionSame(
    c: Catalog, av: Availability, req: Requirements, target: string, first: nat, fast: string)
    requires WellNamed(c) && CoveredEnough(c, av) && FirstAcceptableAt(c, av, req, target, first)
    requires IsFirstAcceptable(c, av.(live := {}), req, target, fast)
    ensures Nth(c, target, first) == Some(fast)
  {
    var reported := av.(live := {});
    var name := Nth(c, target, first).value;
    if Uncovered(c, av, name) {
      forall j: nat ensures !AcceptableAt(c, reported, req, target, j) {
        UncoveredGateEndsReported(c, av, req, target, first, j);
      }
    } else {
      LiveOnlyIsUncovered(c, av, req, name);
      forall j: nat | j < first ensures !AcceptableAt(c, reported, req, target, j) {
        assert !AcceptableAt(c, av, req, target, j);
        if Nth(c, target, j).Some? {
          LiveOnlyIsUncovered(c, av, req, Nth(c, target, j).value);
        }
      }
      assert FirstAcceptableAt(c, reported, req, target, first);
    }
  }

  lemma UncoveredGateEndsReported(
    c: Catalog, av: Availability, req: Requirements, target: string, first: nat, j: nat)
    requires WellNamed(c) && CoveredEnough(c, av)
    requires FirstAcceptableAt(c, av, req, target, first) && Uncovered(c, av, Nth(c, target, first).value)
    ensures !AcceptableAt(c, av.(live := {}), req, target, j)
  {
    if Nth(c, target, j).Some? {
      LiveOnlyIsUncovered(c, av, req, Nth(c, target, j).value);
      if j < first {
        assert !AcceptableAt(c, av, req, target, j);
      } else if j > first {
        NthOfNth(c, target, first, FAIL_CLOSED_ENGINE, j - first);
      }
    }
  }

  /**
    * Exactly when the two agree: an engine missing from the report splits them as soon as its
    * live check passes, the gate only when its chain goes on to a reported engine.
    */
  lemma ResolversAgreeIffCovered(c: Catalog, av: Availability)
    requires WellNamed(c)
    ensures ResolversAgree(c, av) <==> CoveredEnough(c, av)
  {
    if CoveredEnough(c, av) {
      forall req: Requirements, target: string
        ensures FastSelect(CompileRows(c, av.report), req, target) == Resolve(c, av, req, target).selected
      {
        CoveredResolversAgree(c, av, req, target);
      }
    } else if k :| Uncovered(c, av, k) && k != FAIL_CLOSED_ENGINE {
      UncoveredSplits(c, av, k);
    } else {
      var i: nat :| i > 0 && Nth(c, FAIL_CLOSED_ENGINE, i).Some?
                    && ReportedAvailable(c, av, Nth(c, FAIL_CLOSED_ENGINE, i).value);
      UncoveredGateSplits(c, av, i);
    }
  }

  /** Started at an uncovered engine, the rich resolver selects it and the fast one does not. */
  lemma UncoveredSplits(c: Catalog, av: Availability, k: string)
    requires WellNamed(c) && Uncovered(c, av, k)
    ensures Resolve(c, av, NO_REQUIREMENTS, k).selected == k
    ensures k != FAIL_CLOSED_ENGINE ==> FastSelect(CompileRows(c, av.report), NO_REQUIREMENTS, k) != k
  {
    FastIgnoresLiveChecks(c, av, NO_REQUIREMENTS, k);
    ResolveSelectsFirst(c, av, NO_REQUIREMENTS, k);
    ResolveSound(c, av.(live := {}), NO_REQUIREMENTS, k);
    assert Nth(c, k, 0) == Some(k);
    assert FirstAcceptableAt(c, av, NO_REQUIREMENTS, k, 0);
    LiveOnlyIsUncovered(c, av, NO_REQUIREMENTS, k);
  }

  lemma UncoveredGateSplits(c: Catalog, av: Availability, i: nat)
    requires WellNamed(c) && Uncovered(c, av, FAIL_CLOSED_ENGINE)
    requires Nth(c, FAIL_CLOSED_ENGINE, i).Some? && ReportedAvailable(c, av, Nth(c, FAIL_CLOSED_ENGINE, i).value)
    ensures Resolve(c, av, NO_REQUIREMENTS, FAIL_CLOSED_ENGINE).selected == FAIL_CLOSED_ENGINE
    ensures FastSelect(CompileRows(c, av.report), NO_REQUIREMENTS, FAIL_CLOSED_ENGINE) != FAIL_CLOSED_ENGINE
  {
    UncoveredSplits(c, av, FAIL_CLOSED_ENGINE);
    FastFindsReported(c, av, FAIL_CLOSED_ENGINE, i);
    LiveOnlyIsUncovered(c, av, NO_REQUIREMENTS, FAIL_CLOSED_ENGINE);
  }

  lemma FastFindsReported(c: Catalog, av: Availability, start: string, i: nat)
    requires WellNamed(c)
    requires Nth(c, start, i).Some? && ReportedAvailable(c, av, Nth(c, start, i).value)
    ensures Acceptable(c, av.(live := {}), NO_REQUIREMENTS, FastSelect(CompileRows(c, av.report), NO_REQUIREMENTS, start))
  {
    FastRefinesRich(c, av.(live := {}), NO_REQUIREMENTS, start);
    ResolveSelectsFirst(c, av.(live := {}), NO_REQUIREMENTS, start);
    ResolveSound(c, av.(live := {}), NO_REQUIREMENTS, start);
    assert AcceptableAt(c, av.(live := {}), NO_REQUIREMENTS, start, i);
  }

  /**
    * Without the loader's ban on blank engine names the two differ: the rich resolver takes an
    * empty name for the end of the chain, the fast one for an engine.
    */
  lemma EmptyEngineNameSplitsResolvers(e: Engine, av: Availability)
    requires e.name == "" && e.enabled && av.report.None?
    ensures Resolve(map["" := e], av, NO_REQUIREMENTS, "").selected == FAIL_CLOSED_ENGINE
    ensures FastSelect(CompileRows(map["" := e], None), NO_REQUIREMENTS, "") == ""
  {
  }
}
