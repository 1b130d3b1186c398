/** The router's data: engines, requirements, availability. */
module Models {
  import opened Prelude

  /** The gate every refused or risky request ends at. */
  const FAIL_CLOSED_ENGINE: string := "human_confirm"

  type Score = i: int | 0 <= i <= 100

  datatype Engine = Engine(
    name: string,
    provider: string,
    model: string,
    adapter: string,
    costTier: string,
    latencyTier: string,
    enabled: bool,
    fallback: Option<string>,
    supportsTools: bool,
    modalities: seq<string>,
    capability: Score,
    trust: Score,
    cost: Score,
    latency: Score)

  /** The engine mapping of a configuration. */
  type Catalog = map<string, Engine>

  datatype Profile = Fast | Balanced | Quality | Private | Safe

  /** Rank of a cost tier; unknown tiers rank above every known one. */
  function CostRank(tier: string): nat {
    if tier == "none" || tier == "free" then 0
    else if tier == "low" then 1
    else if tier == "medium" || tier == "paid" then 2
    else if tier == "high" then 3
    else 999
  }

  /** Rank of a latency tier; unknown tiers rank above every known one. */
  function LatencyRank(tier: string): nat {
    if tier == "low" then 1
    else if tier == "medium" then 2
    else if tier == "high" then 3
    else if tier == "manual" then 4
    else 999
  }

  /** The order of the cost tiers, cheapest first, unknown ones last. */
  lemma CostTierOrder(unknown: string)
    requires unknown !in {"none", "free", "low", "medium", "paid", "high"}
    ensures CostRank("none") == CostRank("free") < CostRank("low") < CostRank("medium") == CostRank("paid")
         < CostRank("high") < CostRank(unknown)
  {
  }

  /** The order of the latency tiers, fastest first, unknown ones last. */
  lemma LatencyTierOrder(unknown: string)
    requires unknown !in {"low", "medium", "high", "manual"}
    ensures LatencyRank("low") < LatencyRank("medium") < LatencyRank("high") < LatencyRank("manual")
         < LatencyRank(unknown)
  {
  }

  /** Tiers a policy or a hint may name. */
  type CostTier = s: string | CostRank(s) < 999 witness "low"
  type LatencyTier = s: string | LatencyRank(s) < 999 witness "low"

  datatype Requirements = Requirements(
    profile: Profile,
    needsTools: bool,
    requiredModalities: seq<string>,
    maxCostTier: Option<CostTier>,
    maxLatencyTier: Option<LatencyTier>,
    allowedProviders: seq<string>,
    deniedProviders: seq<string>)

  const NO_REQUIREMENTS := Requirements(Balanced, false, [], None, None, [], [])

  /**
    * What the router knows about availability: the report taken when it was built (absent
    * when validation is off), and the engines whose live check would pass now.
    */
  datatype Availability = Availability(report: Option<map<string, bool>>, live: set<string>)

  /** What configuration loading guarantees about an engine mapping. */
  predicate WellNamed(c: Catalog) {
    && "" !in c
    && forall k :: k in c ==> c[k].name == k
  }

  /** Every fallback names an engine of the catalog. */
  predicate ClosedUnderFallback(c: Catalog) {
    forall k :: k in c && c[k].fallback.Some? ==> c[k].fallback.value in c
  }
}
