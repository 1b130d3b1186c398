/** Ranked alternatives to the selected engine. */
module Ranking {
  import opened Prelude
  import opened Models
  import opened Resolver
  import opened Ordering

  /** The scorer's answers that ranking looks at. */
  datatype RankingContext = RankingContext(
    latencySensitive: bool,
    riskScore: int,
    complexityScore: int,
    sensitiveDomain: bool,
    longContext: bool)

  datatype Alternative = Alternative(
    engine: string,
    rankScore: int,
    capability: Score,
    trust: Score,
    cost: Score,
    latency: Score)

  /** Weights in hundredths. */
  datatype Weights = Weights(capability: nat, trust: nat, cost: nat, latency: nat)

  function WeightsFor(ctx: RankingContext): Weights {
    if ctx.latencySensitive then Weights(20, 20, 10, 50)
    else if ctx.riskScore >= 50 || ctx.sensitiveDomain then Weights(25, 50, 15, 10)
    else if ctx.complexityScore >= 60 || ctx.longContext then Weights(55, 25, 15, 5)
    else Weights(45, 30, 20, 5)
  }

  /** Round hundredths to the nearest integer, ties to even. */
  function RoundHundredths(n: int): int {
    var q, r := n / 100, n % 100;
    if r < 50 || (r == 50 && q % 2 == 0) then q else q + 1
  }

  function WeightedSum(e: Engine, w: Weights): int {
    e.capability * w.capability + e.trust * w.trust + (100 - e.cost) * w.cost + (100 - e.latency) * w.latency
  }

  function RankEngine(e: Engine, ctx: RankingContext): Alternative {
    var score := RoundHundredths(WeightedSum(e, WeightsFor(ctx)));
    Alternative(e.name, if score < 0 then 0 else if score > 100 then 100 else score,
                e.capability, e.trust, e.cost, e.latency)
  }

  lemma Scaled(x: Score, w: nat)
    ensures 0 <= x * w <= 100 * w
  {
  }

  /** Every weight row sums to one, so the exact score is in range and the clamp never acts. */
  lemma ClampIsIdle(e: Engine, ctx: RankingContext)
    ensures var w := WeightsFor(ctx);
      && w.capability + w.trust + w.cost + w.latency == 100
      && 0 <= WeightedSum(e, w) <= 10000
      && 0 <= RoundHundredths(WeightedSum(e, w)) <= 100
      && RankEngine(e, ctx).rankScore == RoundHundredths(WeightedSum(e, w))
  {
    var w := WeightsFor(ctx);
    Scaled(e.capability, w.capability);
    Scaled(e.trust, w.trust);
    Scaled(100 - e.cost, w.cost);
    Scaled(100 - e.latency, w.latency);
  }

  /** The weight of each merit, in hundredths, by what the request is sensitive to first. */
  ghost predicate Weighs(ctx: RankingContext, capability: int, trust: int, cost: int, latency: int) {
    if ctx.latencySensitive then (capability, trust, cost, latency) == (20, 20, 10, 50)
    else if ctx.riskScore >= 50 || ctx.sensitiveDomain then (capability, trust, cost, latency) == (25, 50, 15, 10)
    else if ctx.complexityScore >= 60 || ctx.longContext then (capability, trust, cost, latency) == (55, 25, 15, 5)
    else (capability, trust, cost, latency) == (45, 30, 20, 5)
  }

  /** The score is the integer nearest the weighted mean of the engine's merits, the even one at a tie. */
  lemma ScoreIsNearest(e: Engine, ctx: RankingContext, capability: int, trust: int, cost: int, latency: int)
    requires Weighs(ctx, capability, trust, cost, latency)
    ensures var a := RankEngine(e, ctx);
      var off := 100 * a.rankScore
                 - (capability * e.capability + trust * e.trust + cost * (100 - e.cost) + latency * (100 - e.latency));
      && -50 <= off <= 50 && (off == 50 || off == -50 ==> a.rankScore % 2 == 0)
      && a.engine == e.name && a.capability == e.capability && a.trust == e.trust
      && a.cost == e.cost && a.latency == e.latency
  {
    var w := WeightsFor(ctx);
    assert (capability, trust, cost, latency) == (w.capability, w.trust, w.cost, w.latency);
    ClampIsIdle(e, ctx);
    NearestHundredth(WeightedSum(e, w));
    SumOfMerits(e, w);
  }

  lemma SumOfMerits(e: Engine, w: Weights)
    ensures WeightedSum(e, w)
         == w.capability * e.capability + w.trust * e.trust + w.cost * (100 - e.cost) + w.latency * (100 - e.latency)
  {
  }

  lemma NearestHundredth(n: int)
    ensures var r := RoundHundredths(n);
      -50 <= 100 * r - n <= 50 && (100 * r - n == 50 || 100 * r - n == -50 ==> r % 2 == 0)
  {
  }

  /** A better engine never scores lower, in any context. */
  lemma BetterNeverScoresLower(e: Engine, better: Engine, ctx: RankingContext)
    requires better.capability >= e.capability && better.trust >= e.trust
    requires better.cost <= e.cost && better.latency <= e.latency
    ensures RankEngine(better, ctx).rankScore >= RankEngine(e, ctx).rankScore
  {
    var w := WeightsFor(ctx);
    ClampIsIdle(e, ctx);
    ClampIsIdle(better, ctx);
    WeighedMore(e.capability, better.capability, w.capability);
    WeighedMore(e.trust, better.trust, w.trust);
    WeighedMore(100 - e.cost, 100 - better.cost, w.cost);
    WeighedMore(100 - e.latency, 100 - better.latency, w.latency);
  }

  lemma WeighedMore(x: int, y: int, w: nat)
    requires x <= y
    ensures x * w <= y * w
  {
  }

  // ---------------------------------------------------------------- who is considered

  predicate Considered(e: Engine, selected: string) {
    e.enabled && e.name != selected && e.name != FAIL_CLOSED_ENGINE && e.name != "intent_router"
  }

  predicate Passes(e: Engine, selected: string, av: Availability, req: Requirements) {
    Considered(e, selected) && SkipReason(e, av, req).None?
  }

  function Passing(
    listing: seq<Engine>, selected: string, ctx: RankingContext, av: Availability, req: Requirements
  ): seq<Alternative> {
    if listing == [] then []
    else
      var e := listing[|listing| - 1];
      var rest := Passing(listing[..|listing| - 1], selected, ctx, av, req);
      if Passes(e, selected, av, req) then rest + [RankEngine(e, ctx)] else rest
  }

  function Refused(listing: seq<Engine>, selected: string, av: Availability, req: Requirements): seq<Rejection> {
    if listing == [] then []
    else
      var e := listing[|listing| - 1];
      var rest := Refused(listing[..|listing| - 1], selected, av, req);
      if Considered(e, selected) && SkipReason(e, av, req).Some? then
        rest + [Rejection(e.name, SkipReason(e, av, req).value)]
      else rest
  }

  // ---------------------------------------------------------------- the order

  /** `a` outranks `b`: score, capability, cheapness, speed, then the later name. */
  predicate Outranks(a: Alternative, b: Alternative) {
    if a.rankScore != b.rankScore then a.rankScore > b.rankScore
    else if a.capability != b.capability then a.capability > b.capability
    else if a.cost != b.cost then 100 - a.cost > 100 - b.cost
    else if a.latency != b.latency then 100 - a.latency > 100 - b.latency
    else StringLess(b.engine, a.engine)
  }

  predicate NotBelow(a: Alternative, b: Alternative) {
    !Outranks(b, a)
  }

  lemma OutranksTrichotomy(a: Alternative, b: Alternative)
    ensures Outranks(a, b) ==> !Outranks(b, a)
    ensures a.engine != b.engine ==> Outranks(a, b) || Outranks(b, a)
    ensures Outranks(a, b) || Outranks(b, a) ||
            (a.rankScore == b.rankScore && a.capability == b.capability && a.cost == b.cost
             && a.latency == b.latency && a.engine == b.engine)
  {
    StringLessTrichotomy(a.engine, b.engine);
  }

  lemma OutranksTransitive(a: Alternative, b: Alternative, c: Alternative)
    requires Outranks(a, b) && Outranks(b, c)
    ensures Outranks(a, c)
  {
    if StringLess(b.engine, a.engine) && StringLess(c.engine, b.engine) {
      StringLessTransitive(c.engine, b.engine, a.engine);
    }
  }

  lemma NotBelowIsPreorder()
    ensures TotalPreorder(NotBelow)
  {
    forall a, b ensures NotBelow(a, b) || NotBelow(b, a) {
      OutranksTrichotomy(a, b);
    }
    forall a, b, c | NotBelow(a, b) && NotBelow(b, c) ensures NotBelow(a, c) {
      OutranksTrichotomy(a, b);
      OutranksTrichotomy(b, c);
      OutranksTrichotomy(a, c);
      if Outranks(c, a) {
        if Outranks(a, b) {
          OutranksTransitive(c, a, b);
        } else if Outranks(b, c) {
          OutranksTransitive(b, c, a);
        }
      }
    }
  }

  function Ranked(
    listing: seq<Engine>, selected: string, ctx: RankingContext, av: Availability, req: Requirements
  ): seq<Alternative> {
    Sort(Passing(listing, selected, ctx, av, req), NotBelow)
  }

  method RankAlternatives(
    listing: seq<Engine>, selected: string, ctx: RankingContext, req: Requirements, av: Availability)
    returns (alternatives: seq<Alternative>, rejections: seq<Rejection>)
    ensures alternatives == Ranked(listing, selected, ctx, av, req)
    ensures rejections == Refused(listing, selected, av, req)
  {
    alternatives, rejections := [], [];
    for k := 0 to |listing|
      invariant alternatives == Passing(listing[..k], selected, ctx, av, req)
      invariant rejections == Refused(listing[..k], selected, av, req)
    {
      var e := listing[k];
      assert listing[..k + 1][..k] == listing[..k];
      if e.name == selected || !e.enabled {
        continue;
      }
      if e.name == FAIL_CLOSED_ENGINE || e.name == "intent_router" {
        continue;
      }
      if !EngineAvailable(e, av) {
        rejections := rejections + [Rejection(e.name, Unavailable)];
        continue;
      }
      var constraint := ConstraintReason(e, req);
      if constraint.Some? {
        rejections := rejections + [Rejection(e.name, constraint.value)];
        continue;
      }
      alternatives := alternatives + [RankEngine(e, ctx)];
    }
    assert listing[..|listing|] == listing;
    alternatives := Sort(alternatives, NotBelow);
  }

  // ---------------------------------------------------------------- laws

  ghost predicate DistinctNames(listing: seq<Engine>) {
    forall i, j :: 0 <= i < j < |listing| ==> listing[i].name != listing[j].name
  }

  lemma {:induction false} PassingMembers(
    listing: seq<Engine>, selected: string, ctx: RankingContext, av: Availability, req: Requirements)
    ensures forall a :: a in Passing(listing, selected, ctx, av, req) <==>
      exists e :: e in listing && Passes(e, selected, av, req) && a == RankEngine(e, ctx)
  {
    if listing != [] {
      var n := |listing| - 1;
      PassingMembers(listing[..n], selected, ctx, av, req);
      assert listing == listing[..n] + [listing[n]];
    }
  }

  lemma {:induction false} RefusedMembers(
    listing: seq<Engine>, selected: string, av: Availability, req: Requirements)
    ensures forall r :: r in Refused(listing, selected, av, req) <==>
      exists e :: e in listing && Considered(e, selected) && SkipReason(e, av, req) == Some(r.reason)
                  && r.engine == e.name
  {
    if listing != [] {
      var n := |listing| - 1;
      RefusedMembers(listing[..n], selected, av, req);
      assert listing == listing[..n] + [listing[n]];
    }
  }

  /**
    * Every considered engine is either an alternative or a rejection, never both, and nothing
    * else is listed.
    */
  lemma AlternativesPartition(
    listing: seq<Engine>, selected: string, ctx: RankingContext, av: Availability, req: Requirements, name: string)
    requires DistinctNames(listing)
    ensures var alternatives := Ranked(listing, selected, ctx, av, req);
      var rejections := Refused(listing, selected, av, req);
      var offered := exists a :: a in alternatives && a.engine == name;
      var refused := exists r :: r in rejections && r.engine == name;
      && !(offered && refused)
      && ((exists e :: e in listing && e.name == name && Considered(e, selected)) <==> offered || refused)
      && (offered ==>
            && name != selected && name != "human_confirm" && name != "intent_router"
            && exists e :: e in listing && e.name == name && e.enabled && EngineAvailable(e, av)
                           && MeetsRequirements(e, req) && RankEngine(e, ctx) in alternatives)
      && (forall e ::
            (e in listing && e.name == name && e.enabled && name !in {selected, "human_confirm", "intent_router"})
            ==> (offered <==> EngineAvailable(e, av) && MeetsRequirements(e, req)))
  {
    var passing := Passing(listing, selected, ctx, av, req);
    var alternatives := Ranked(listing, selected, ctx, av, req);
    var rejections := Refused(listing, selected, av, req);
    PassingMembers(listing, selected, ctx, av, req);
    RefusedMembers(listing, selected, av, req);
    NotBelowIsPreorder();
    SortCorrect(passing, NotBelow);
    SameMembers(alternatives, passing);
    if e :| e in listing && e.name == name && Considered(e, selected) {
      SkipReasonIsRefusal(e, av, req);
      forall e' | e' in listing && e'.name == name ensures e' == e {
        var i :| 0 <= i < |listing| && listing[i] == e;
        var j :| 0 <= j < |listing| && listing[j] == e';
      }
      match SkipReason(e, av, req)
      case None => assert RankEngine(e, ctx) in alternatives;
      case Some(reason) => assert Rejection(name, reason) in rejections;
    }
  }

  /** Every rejection is of a listed, enabled engine that may stand beside the selected one, for its own reason. */
  lemma RejectionsAreOfConsidered(
    listing: seq<Engine>, selected: string, av: Availability, req: Requirements, r: Rejection)
    ensures r in Refused(listing, selected, av, req) <==>
      exists e :: e in listing && e.name == r.engine && e.enabled
                  && e.name !in {selected, "human_confirm", "intent_router"} && SkipReason(e, av, req) == Some(r.reason)
  {
    RefusedMembers(listing, selected, av, req);
  }

  /** Every alternative is such an engine, available and meeting the requirements, with its own score. */
  lemma AlternativesAreOfConsidered(
    listing: seq<Engine>, selected: string, ctx: RankingContext, av: Availability, req: Requirements, a: Alternative)
    ensures a in Ranked(listing, selected, ctx, av, req) <==>
      exists e :: e in listing && e.enabled && e.name !in {selected, "human_confirm", "intent_router"}
                  && EngineAvailable(e, av) && MeetsRequirements(e, req) && a == RankEngine(e, ctx)
  {
    var passing := Passing(listing, selected, ctx, av, req);
    PassingMembers(listing, selected, ctx, av, req);
    NotBelowIsPreorder();
    SortCorrect(passing, NotBelow);
    SameMembers(Ranked(listing, selected, ctx, av, req), passing);
    forall e ensures SkipReason(e, av, req).None?
      <==> e.enabled && EngineAvailable(e, av) && MeetsRequirements(e, req) { SkipReasonIsRefusal(e, av, req); }
  }

  function NameOf(a: Alternative): string {
    a.engine
  }

  lemma {:induction false} PassingDistinct(
    listing: seq<Engine>, selected: string, ctx: RankingContext, av: Availability, req: Requirements)
    requires DistinctNames(listing)
    ensures KeysDistinct(Passing(listing, selected, ctx, av, req), NameOf)
  {
    if listing != [] {
      var n := |listing| - 1;
      PassingDistinct(listing[..n], selected, ctx, av, req);
      PassingMembers(listing[..n], selected, ctx, av, req);
      var p := Passing(listing[..n], selected, ctx, av, req);
      forall i | 0 <= i < |p| ensures p[i].engine != listing[n].name {
        assert p[i] in p;
        var e :| e in listing[..n] && p[i] == RankEngine(e, ctx);
        var k :| 0 <= k < n && listing[k] == e;
      }
    }
  }

  /** Field by field: the higher score, then capability, then the lower cost, then latency, then the later name. */
  predicate RanksAbove(a: Alternative, b: Alternative) {
    || a.rankScore > b.rankScore
    || (a.rankScore == b.rankScore && a.capability > b.capability)
    || (a.rankScore == b.rankScore && a.capability == b.capability && a.cost < b.cost)
    || (a.rankScore == b.rankScore && a.capability == b.capability && a.cost == b.cost && a.latency < b.latency)
    || (a.rankScore == b.rankScore && a.capability == b.capability && a.cost == b.cost && a.latency == b.latency
        && StringLess(b.engine, a.engine))
  }

  /** The alternatives descend strictly on the five-part key. */
  lemma RankedStrictly(
    listing: seq<Engine>, selected: string, ctx: RankingContext, av: Availability, req: Requirements)
    requires DistinctNames(listing)
    ensures Sorted(Ranked(listing, selected, ctx, av, req), Outranks)
    ensures var r := Ranked(listing, selected, ctx, av, req);
      forall i, j :: 0 <= i < j < |r| ==> RanksAbove(r[i], r[j])
  {
    var p := Passing(listing, selected, ctx, av, req);
    var r := Ranked(listing, selected, ctx, av, req);
    NotBelowIsPreorder();
    SortCorrect(p, NotBelow);
    PassingDistinct(listing, selected, ctx, av, req);
    PermutedKeysDistinct(p, r, NameOf);
    forall i, j | 0 <= i < j < |r| ensures Outranks(r[i], r[j]) {
      assert NameOf(r[i]) != NameOf(r[j]);
      OutranksTrichotomy(r[i], r[j]);
    }
  }

  /** The alternatives do not depend on the order the engines are listed in. */
  lemma RankedIgnoresListingOrder(
    one: seq<Engine>, other: seq<Engine>, selected: string, ctx: RankingContext, av: Availability, req: Requirements)
    requires DistinctNames(one) && DistinctNames(other)
    requires forall e :: e in one <==> e in other
    ensures Ranked(one, selected, ctx, av, req) == Ranked(other, selected, ctx, av, req)
  {
    var p, q := Passing(one, selected, ctx, av, req), Passing(other, selected, ctx, av, req);
    NotBelowIsPreorder();
    SortCorrect(p, NotBelow);
    SortCorrect(q, NotBelow);
    RankedStrictly(one, selected, ctx, av, req);
    RankedStrictly(other, selected, ctx, av, req);
    PassingMembers(one, selected, ctx, av, req);
    PassingMembers(other, selected, ctx, av, req);
    PassingDistinct(one, selected, ctx, av, req);
    PassingDistinct(other, selected, ctx, av, req);
    DistinctCountsOnce(p, NameOf);
    DistinctCountsOnce(q, NameOf);
    assert multiset(p) == multiset(q) by {
      forall x ensures multiset(p)[x] == multiset(q)[x] {
        assert x in p <==> x in multiset(p);
        assert x in q <==> x in multiset(q);
      }
    }
    forall a, b ensures Outranks(a, b) ==> !Outranks(b, a) {
      OutranksTrichotomy(a, b);
    }
    assert Asymmetric(Outranks);
    StrictOrderUnique(Sort(p, NotBelow), Sort(q, NotBelow), Outranks);
  }
}
