# Model router: verified model

The model router takes a prompt, decides which model engine should answer it, and sends the
request to a backend that serves that engine. This project models the parts of it whose
correctness spans several functions or whole runs, and proves what they keep.

- **Routing** (`Models`, `Resolver`, `Policy`, `Scanner`, `Config`, `Ranking`, `Router`). A
  prompt is classified, the configured provider policy, the target's route pool, the profile and
  the caller's hints are combined into requirements, and the engine's fallback chain is followed
  to the first engine that meets them. There are two resolvers: a rich one with a visited set
  and reasons, and a bounded loop over precompiled rows. Both are proved to find the first
  acceptable engine on the chain, which is defined without either. The two lexical scanners are
  proved against one definition of an action occurring in a text, and the confirmation gate is
  followed to the dispatch plan.
- **Managed runtimes** (`RuntimeManager`, `RuntimeProtocol`). Requests, the idle reaper,
  shutdown, cancellation and spontaneous process death interleave over per-backend locks. The
  step machine goes from one suspension to the next, or stops earlier, which only adds
  interleavings. Every property holds in every state of every run.
- **Rotating log** (`RoutingLog`). Numbered files shifted by renames; what a reader finds is
  followed through every operation of every rotation, failed ones included.
- **PID marker** (`PidMarker`). Invocations of the managed adapter own a process only through a
  marker file; runs of them are followed across changing commands.
- **Fallback graph** (`FallbackGraph`), **request forwarding** (`ProxyForwarding`) and the
  **registry merge** (`Registry`).

Code that updates state is a class or a method with loops here too, proved equal to a function of
the old state; the laws are lemmas about that function. `Prelude`, `Text` and `Ordering` hold
shared vocabulary: order-preserving deduplication, stripping, sorting and its uniqueness.

What comes from outside is a parameter: the scorer's verdict, the availability report and the
live checks, the answer of each upstream attempt, whether a process spawns, dies, or becomes
ready, and where a file operation fails.

## Where the code and its documentation differ

The model follows the code.

- `README.md:504` and `docs/production-readiness.md:79` say caller hints cannot loosen the
  configured allowlists. They can: a hint list disjoint from the configured one leaves an empty
  intersection, which reads as "no allowlist". `Policy.AllowlistNarrowsIff` gives the exact
  condition, `Policy.DisjointHintLiftsAllowlist` an instance. Denied providers, tools, modalities
  and tier caps never loosen (`Policy.HintsOnlyNarrow`), and this reaches the dispatched engine
  (`Router.DispatchObeysPolicyAlone`).
- `README.md:479` says route pools narrow the provider rules. A pool's tier cap replaces the
  global cap, and its allowlist may be disjoint from the global one; `Policy.RoutePoolCapsNarrowIff`
  and `Policy.RoutePoolAllowlistNarrowsIff` say exactly when each narrows.
- `README.md:434` says the private profile rejects hosted providers. A caller's own provider list
  replaces the profile's, and a configured list without a local provider lifts it:
  `Policy.PrivateStaysLocalIff` is the exact condition, `Policy.PrivateCallerMayListHosted` an
  instance.
- `hermes/plugins/model_router/policy.py:600-602` says the hot path sends lexical high-risk actions
  to `human_confirm`. It sends them to the engine the `confirmation` target resolves to, and a
  configuration may name any engine there, or give the gate a fallback:
  `Router.RedirectedConfirmation` is an instance, `Router.LexicalActionReachesGate` the exact
  condition.
- A stream's request is ended last of all, so an event that cannot be written leaves it open:
  `ProxyForwarding.StreamEndsRequestIff`, with `ProxyForwarding.LoneSurrogateLeavesRequestOpen`
  as the instance.
- Merging the registry in parts keeps every record but not always the order of the listing:
  `Registry.ListingInPartsIff`, with `Registry.PartsReorder` as the instance.
- The fast resolver trusts the availability report alone; the rich one checks an engine the
  report omits. `Resolver.ResolversAgreeIffCovered` gives the exact condition for agreement.
- Stopping a runtime resets its request counter, whatever is outstanding.
  `RuntimeProtocol.CounterExact` says exactly when the counter is right,
  `RuntimeProtocol.ResetCounterLosesARequest` shows a run in which the reaper then stops a
  process under a live request.
- The reaper does not look at the counter again once it has waited for a lock.
  `RuntimeProtocol.ReaperGentleIffIdleExceedsHold` gives the exact condition on the idle timeout.

## Model

| member | source | states |
|---|---|---|
| Resolver.ResolveEnabledEngine | hermes/plugins/model_router/policy.py:1421-1542 | the loop with its visited set computes the resolution the lemmas below are about, reason by reason |
| Resolver.ResolveSelectsFirst | hermes/plugins/model_router/policy.py:1421-1542 | the rich resolver selects the first engine on the fallback chain that is enabled, available and meets every constraint, after exactly as many rejections as it skipped; the gate exactly when there is none |
| Resolver.ResolveSound | hermes/plugins/model_router/policy.py:1421-1542 | a valid resolution is an acceptable engine, an invalid one is the gate |
| Resolver.SkipReasonIsRefusal | hermes/plugins/model_router/policy.py:1653-1685 | the ordered checks find no reason exactly when the engine is enabled, available and meets the requirements clause by clause |
| Resolver.ReasonIsFirstBroken | hermes/plugins/model_router/policy.py:1653-1685 | the reason given is the first clause the engine breaks, in the order of the checks, and names what breaks it |
| Resolver.AvailableIff | hermes/plugins/model_router/policy.py:1545-1555 | an engine is available without a report, or by the report, or by its live check when the report omits it |
| Models.CostTierOrder | hermes/plugins/model_router/policy.py:31-38 | the cost tiers in order, `none` with `free` and `medium` with `paid`, unknown ones above all |
| Models.LatencyTierOrder | hermes/plugins/model_router/policy.py:39-44 | the latency tiers in order, unknown ones above all |
| Resolver.MissingModalityOf | hermes/plugins/model_router/policy.py:1671-1673 | a missing modality is reported exactly when the engine lacks a required one |
| Resolver.RejectionsFollowChain | hermes/plugins/model_router/policy.py:1437-1542 | the j-th rejection is the j-th engine of the chain with that engine's own reason, none twice; only a last entry may mark a cycle or an undefined name |
| Resolver.FailureShowsChainEnd | hermes/plugins/model_router/policy.py:1437-1542 | a failed resolution's last rejection is where the chain ended: a cycle, an undefined name, or an engine without a fallback |
| Resolver.NoUndefinedRejection | hermes/plugins/model_router/config.py:119-123 | with a loaded catalog no resolution from one of its engines meets an undefined engine |
| Resolver.ResolveEngineFast | hermes/plugins/model_router/policy.py:712-758 | the bounded loop computes the selection the lemmas below are about |
| Resolver.FastRefinesRich | hermes/plugins/model_router/policy.py:712-758 | for every catalog, start and requirements the bounded loop selects what the visited-set resolver selects, when the report covers the enabled engines or is absent |
| Resolver.FastFromRefines | hermes/plugins/model_router/policy.py:712-758 | the pigeonhole behind it: the steps left exceed the engines not seen, and a repeat settles both resolvers |
| Resolver.ResolversAgreeIffCovered | hermes/plugins/model_router/policy.py:682-686 | the resolvers agree on all inputs if and only if every enabled engine but the gate is in the report or fails its live check, and a gate missing from the report but live has no enabled, reported engine after it on its chain |
| Resolver.EmptyEngineNameSplitsResolvers | hermes/plugins/model_router/policy.py:1441-1442 | an engine with an empty name, which loading refuses, would split the resolvers |
| Policy.HumanNeverExcluded | hermes/plugins/model_router/policy.py:1117-1138 | no policy, pool, profile or hint excludes provider `human`, so the gate stays reachable |
| Policy.CombinedAllowlistMembers | hermes/plugins/model_router/policy.py:1107-1130 | exactly which providers the combined allowlist names, local-only or not |
| Policy.AllowlistNarrowsIff | hermes/plugins/model_router/policy.py:1107-1130 | hints keep the allowlist at least as strict as the policy alone if and only if they do not empty an intersection or swap in the local providers |
| Policy.DisjointHintLiftsAllowlist | hermes/plugins/model_router/policy.py:1111-1114 | a concrete hint that admits every provider under an allowlist naming only `local` |
| Policy.HintsOnlyNarrow | hermes/plugins/model_router/policy.py:1037-1078 | an engine meeting policy and hints meets the policy alone on tools, modalities, denied providers and tier caps always, on allowed providers unless the hints loosen them |
| Policy.RequirementsMeaning | hermes/plugins/model_router/policy.py:1015-1150 | an engine meets the derived requirements if and only if it keeps every term of policy, pool, profile and caller: providers as sets, denials, caps, tools and modalities; nobody's terms are dropped |
| Policy.CallerTermsHonoured | hermes/plugins/model_router/policy.py:1037-1078 | the caller's denials, caps, latency sensitivity, attachments and local-only are honoured always, its provider list unless the configured ones share none with it or local-only replaces it; likewise what the fast and private profiles add |
| Policy.PrivateStaysLocalIff | hermes/plugins/model_router/profiles.py:70-77 | exactly when the private profile admits only local providers and the gate |
| Policy.PrivateCallerMayListHosted | hermes/plugins/model_router/policy.py:1024 | a private caller that lists a hosted provider is admitted to it |
| Policy.RoutePoolCapsNarrowIff | hermes/plugins/model_router/policy.py:1081-1104 | pools keep denylists and local-only switches; their tier caps narrow exactly when they do not rank above the global ones |
| Policy.RoutePoolAllowlistNarrowsIff | hermes/plugins/model_router/policy.py:1107-1114 | a pool's allowlist narrows exactly when one of the two is empty or they share a provider |
| Scanner.FastConfirmationActionMask | hermes/plugins/model_router/policy.py:892-935 | the scan with its three pending flags returns the mask of the action categories of all tokens |
| Scanner.ActionMaskBits | hermes/plugins/model_router/policy.py:892-935 | a bit of the mask is set exactly when an action of that category occurs somewhere in the text |
| Scanner.BookOpenIff | hermes/plugins/model_router/policy.py:909-914 | the pending booking flag means: an earlier `book`, with only articles since |
| Scanner.DestructiveMeaning | hermes/plugins/model_router/policy.py:915-917 | a destructive action is one of the destructive words |
| Scanner.SendMeaning | hermes/plugins/model_router/policy.py:905-920 | sending is one of the send words, or `email` or `message` right before a word that does not begin like a benign object |
| Scanner.PurchaseMeaning | hermes/plugins/model_router/policy.py:909-923 | purchasing is one of the purchase words, or `book`, then nothing but articles, then something bookable |
| Scanner.HighImpactMeaning | hermes/plugins/model_router/policy.py:901-926 | a high-impact action is one of those words, or `apply` right before `for` |
| Scanner.ScanToken | hermes/plugins/model_router/policy.py:901-934 | one pass of the loop body adds exactly the categories the token acts in, and leaves exactly these flags |
| Scanner.FastHasConfirmationWord | hermes/plugins/model_router/policy.py:974-1006 | the boolean scan is true exactly when some action occurs |
| Scanner.ScannersAgree | hermes/plugins/model_router/policy.py:892-1006 | for every text, an action occurs exactly when the mask is non-zero |
| Scanner.FastTargetRouteIndex | hermes/plugins/model_router/policy.py:789-833 | plain classification equals classification under the full mask |
| Scanner.FastTargetRouteIndexWithSafety | hermes/plugins/model_router/policy.py:836-882 | the masked classifier asks for confirmation exactly when an action of a masked category occurs |
| Scanner.MaskedConfirmationIff | hermes/plugins/model_router/policy.py:836-845 | the same as a law of classification |
| Scanner.ShrinkingMaskOnlyLifts | hermes/plugins/model_router/policy.py:836-882 | a smaller mask can only lift a confirmation, never turn one other target into another |
| Scanner.ConfirmationMaskBits | hermes/plugins/model_router/policy.py:1179-1192 | a category is masked exactly when confirmation is required and the category is not waived |
| Scanner.BenignTargetIsFirstMatch | hermes/plugins/model_router/policy.py:789-833 | a prompt not to be confirmed gets the target of the first of eleven rules it matches, and balanced when it matches none |
| Text.StripSplits | hermes/plugins/model_router/policy.py:898 | stripping removes only the given characters, only from the ends, and leaves none there |
| Text.BlankIff | hermes/plugins/model_router/config.py:112 | a blank string is one of white space alone |
| Scanner.FastTarget | hermes/plugins/model_router/policy.py:378-413 | whichever variant the router picks, it confirms exactly the unwaived actions |
| Config.LoadEngines | hermes/plugins/model_router/config.py:96-118 | succeeds exactly when every entry parses, and then holds every entry under its own name |
| Config.LoadRoutingTargets | hermes/plugins/model_router/config.py:151-183 | succeeds exactly when the entries parse and every target, defaults overlaid, names an engine |
| Config.OverlayTakesLast | hermes/plugins/model_router/config.py:151-183 | a target's engine is the one its last entry names |
| Config.OverlayKeepsDefault | hermes/plugins/model_router/config.py:151-183 | a target no entry names keeps its default |
| Config.LoadRouterConfig | hermes/plugins/model_router/config.py:75-148 | loads exactly when the engines, fallbacks and targets are in order and the scoring, safety and policy sections parse, in that order of refusal; then guarantees what routing relies on: names, closure under fallback, required engines and targets, targets naming engines |
| Config.LoadableIff | hermes/plugins/model_router/config.py:100-123 | what makes a file loadable, on its raw entries: required engines, names, fields, fallbacks, targets |
| Config.EntriesMakeCatalog | hermes/plugins/model_router/config.py:119-123 | the catalog is closed under fallback exactly when every entry's fallback is an entry |
| Ranking.RankAlternatives | hermes/plugins/model_router/policy.py:1558-1593 | the loop and its sort compute the lists the lemmas below are about |
| Ranking.AlternativesPartition | hermes/plugins/model_router/policy.py:1558-1593 | every enabled engine other than the selected one, the gate and the intent router is in exactly one of alternatives and rejections, and nothing else is; in the alternatives exactly when it is available and meets the requirements |
| Ranking.AlternativesAreOfConsidered | hermes/plugins/model_router/policy.py:1558-1593 | exactly which alternatives there are, each with its own score |
| Ranking.RejectionsAreOfConsidered | hermes/plugins/model_router/policy.py:1558-1593 | exactly which rejections there are, each with its own reason |
| Ranking.RankedStrictly | hermes/plugins/model_router/policy.py:1583-1593 | the alternatives descend strictly: higher score, then capability, then lower cost, then latency, then the later name |
| Ranking.RankedIgnoresListingOrder | hermes/plugins/model_router/policy.py:1583-1593 | listings of the same engines in any order give the same alternatives |
| Ranking.ClampIsIdle | hermes/plugins/model_router/policy.py:1596-1650 | every weight row sums to one, so the exact score is within 0..100 and the clamp never acts |
| Ranking.ScoreIsNearest | hermes/plugins/model_router/policy.py:1596-1650 | the score is the integer nearest the mean of capability, trust, cheapness and speed under the weights of the request's kind, the even one at a tie |
| Ranking.BetterNeverScoresLower | hermes/plugins/model_router/policy.py:1596-1650 | an engine at least as good in every merit never scores lower |
| Router.ConfirmationBlocksDispatch | hermes/plugins/model_router/policy.py:1195-1338 | when a confirmation predicate holds, no hints and no forced engine yield a plan that can dispatch |
| Router.ConfirmationIff | hermes/plugins/model_router/policy.py:1195-1248 | exactly which prompts must be confirmed: an unwaived action of some category, one the scorer wants confirmed without any, an ambiguous sensitive one, and the safe profile's cases |
| Router.HumanConfirmationIff | hermes/plugins/model_router/policy.py:1195-1220 | an action settles the confirmation target exactly when it is unwaived, or asked about without being of any category |
| Router.DispatchedPromptIsSafe | hermes/plugins/model_router/policy.py:439-591 | a plan that can dispatch, under any hints and forced engine, is for a prompt whose every action is waived and which nothing else asks to confirm |
| Router.TargetRouteIff | hermes/plugins/model_router/policy.py:1351-1385 | each target by its exact condition on the scorer's verdict and the attachments |
| Router.RouteFlags | hermes/plugins/model_router/policy.py:1297-1321 | both ways out of routing, the forced one included, ask for confirmation exactly when a predicate holds or the gate was selected, and list no alternatives to the gate |
| Router.RouteResolves | hermes/plugins/model_router/policy.py:479-591 | both ways come down to one resolution from where the chain starts, under the requirements derived for the target |
| Router.ChainStartMeaning | hermes/plugins/model_router/policy.py:479-521 | resolution starts at a forced engine unless the prompt must be confirmed and it is not the gate, otherwise at the target's engine; an empty forced engine is none |
| Router.DecisionAccountsForEngines | hermes/plugins/model_router/policy.py:543-591 | every enabled engine beside the selected one is an alternative, scored in the request's context, or a rejection with its own reason, and nothing else is listed but what resolution rejected |
| Router.InvalidHintsFailClosed | hermes/plugins/model_router/policy.py:451-458 | invalid hints fail closed: the gate, to be confirmed, blocked for all four reasons |
| Router.CanDispatchIff | hermes/plugins/model_router/dispatch.py:43-87 | a plan can dispatch exactly when the hints are valid, nothing asks for confirmation and the first acceptable engine on the chain is not the gate; the engine is then defined, enabled, available and meets the derived requirements |
| Router.PlanDispatches | hermes/plugins/model_router/dispatch.py:43-87 | a plan blocks exactly for the four reasons it lists, and carries the selected engine's provider, model and adapter, or none known |
| Router.DispatchedEngineKeepsTerms | hermes/plugins/model_router/policy.py:439-591 | an engine dispatched to is enabled, available, not the gate, and keeps every term of policy, pool, profile and caller |
| Router.DecisionIsFirstAcceptable | hermes/plugins/model_router/policy.py:439-591 | forced or not, the decision's engine is the first on its chain to meet the requirements derived for the target; in a loaded configuration the chain always has a start, so the undefined-route branch is dead |
| Router.DispatchObeysPolicyAlone | hermes/plugins/model_router/policy.py:439-591 | an engine dispatched to under hints is one the policy alone admits, its allowlist included unless the hints loosen it |
| Router.RunRouteFast | hermes/plugins/model_router/policy.py:593-710 | the hot path as run equals the specified one |
| Router.CompiledTableAgrees | hermes/plugins/model_router/policy.py:667-680 | for every prompt the table compiled at start gives what empty hints give on the dynamic path |
| Router.RouteFastSelectsFirst | hermes/plugins/model_router/policy.py:593-710 | unless it refuses the hints, the hot path returns the first engine on the chain meeting the requirements of the target it settled on, the gate when there is none |
| Router.FastTargetMeaning | hermes/plugins/model_router/policy.py:627-633 | any attachment but code turns the hot path to vision, unless the prompt is to be confirmed |
| Router.FastRefusesMeaning | hermes/plugins/model_router/policy.py:613-647 | exactly which hints the hot path refuses for a prompt |
| Router.TargetNames | hermes/plugins/model_router/policy.py:347-356 | the target names in their order |
| Router.LexicalActionReachesGate | hermes/plugins/model_router/policy.py:593-665 | for a text with an unwaived action and any hints: it goes to the gate whatever is available if and only if the hints are refused, or no engine but the gate on the chain from the confirmation target (or the forced gate) is enabled and meets the requirements |
| Router.PlainGateConfirms | hermes/plugins/model_router/policy.py:593-665 | with a gate without fallback as the confirmation target it always goes to the gate, forced engine or not |
| Router.RedirectedConfirmation | hermes/plugins/model_router/config.py:151-183 | a configuration that loads and sends every such text to an ordinary engine |
| Router.GateResolvesToGate | hermes/plugins/model_router/policy.py:688-758 | from a gate without fallback both resolvers end at the gate |
| RuntimeManager.RuntimeState.constructor | hermes/plugins/model_router/proxy_runtime.py:24-31 | a fresh state: no process, no log, no request |
| RuntimeManager.RuntimeState.Touch | hermes/plugins/model_router/proxy_runtime.py:73-76 | only the time of last use changes |
| RuntimeManager.RuntimeState.BeginRequest | hermes/plugins/model_router/proxy_runtime.py:78-82 | the counter goes up by one and the backend counts as used |
| RuntimeManager.RuntimeState.EndRequest | hermes/plugins/model_router/proxy_runtime.py:84-88 | the counter goes down by one but not below zero, and the backend counts as used |
| RuntimeManager.RuntimeState.EnterEnsure | hermes/plugins/model_router/proxy_runtime.py:63-71 | with the lock held: a running process is touched, a failed start changes nothing, a spawned process is recorded with its log |
| RuntimeManager.RuntimeState.FinishStop | hermes/plugins/model_router/proxy_runtime.py:179-195 | a finished stop clears process, log, last use and the counter |
| RuntimeProtocol.AtMostOneLiveProcess | hermes/plugins/model_router/proxy_runtime.py:63-195 | in every interleaving, cancellations and unkillable processes included, at most one spawned process per backend is alive and it is the recorded one |
| RuntimeProtocol.FreeLockMeansReady | hermes/plugins/model_router/proxy_runtime.py:117-195 | barring those two, whenever the lock is free a recorded process is one that passed readiness |
| RuntimeProtocol.CancelledStartStaysUnready | hermes/plugins/model_router/proxy_runtime.py:150-154 | a run with a cancelled start, after which the lock is free and the recorded process not ready |
| RuntimeProtocol.ReadyOnlyByProbe | hermes/plugins/model_router/proxy_runtime.py:156-177 | a process becomes ready only by its probe answering while it is being started |
| RuntimeProtocol.CounterNeverExceedsOutstanding | hermes/plugins/model_router/proxy_runtime.py:78-88 | the counter never exceeds the requests begun and not ended, in any interleaving |
| RuntimeProtocol.CounterExact | hermes/plugins/model_router/proxy_runtime.py:78-195 | on every run the counter equals the requests begun and not ended if and only if no stop completed under an outstanding request with some outstanding ever since |
| RuntimeProtocol.OutstandingCountsEvents | hermes/plugins/model_router/proxy_runtime.py:63-88 | the outstanding requests are those the run's events began, on a running or just ready process, and did not end |
| RuntimeProtocol.RequestBeginsOnReadyProcess | hermes/plugins/model_router/proxy_runtime.py:63-82 | on clean runs a request begins only on a recorded process that passed readiness |
| RuntimeProtocol.StopLeavesNothing | hermes/plugins/model_router/proxy_runtime.py:179-195 | a stop completes only with no process of the backend alive, and leaves none on record and the lock free |
| RuntimeProtocol.BusySinceIsLastMove | hermes/plugins/model_router/proxy_runtime.py:63-115 | the time a lock hold is measured from is when the lock last changed hands in the run |
| RuntimeProtocol.StartGivenUpIff | hermes/plugins/model_router/proxy_runtime.py:156-177 | a start may be given up exactly when its process exited or its whole readiness timeout has passed since it was started |
| RuntimeProtocol.StopHasOneWayOn | hermes/plugins/model_router/proxy_runtime.py:182-191 | a stop always has exactly one way on: the process is gone, or SIGTERM timed out, or SIGKILL did |
| RuntimeProtocol.NoOvertaking | hermes/plugins/model_router/proxy_runtime.py:67-71 | while the lock is held or someone waits, newcomers queue and change nothing else |
| RuntimeProtocol.FirstWaiterIsServed | hermes/plugins/model_router/proxy_runtime.py:67-71 | a freed lock goes to the first waiter, the others keeping their places |
| RuntimeProtocol.UncleanFreesLock | hermes/plugins/model_router/proxy_runtime.py:185-191 | a cancelled task and a process that outlives its kill free the lock and leave the record as it is |
| RuntimeProtocol.ReaperDiesWithItsStop | hermes/plugins/model_router/proxy_runtime.py:101-104 | the reaper does not survive its own stop being cut short |
| RuntimeProtocol.LifeCycle | hermes/plugins/model_router/proxy_runtime.py:63-195 | a run in which a request starts a process and is served, the reaper stops it once idle, by itself or killed, and the backend is as if never used |
| RuntimeProtocol.Perform | hermes/plugins/model_router/proxy_runtime.py:63-195 | every step of the protocol changes the manager's record exactly as the manager's own methods do |
| RuntimeProtocol.ReaperStopsOnlyIdle | hermes/plugins/model_router/proxy_runtime.py:90-111 | with an idle timeout above the longest lock hold, the reaper never waits for the lock and signals a process only with no active request, even with one clock reading for a whole pass; none is outstanding then exactly when no stop lost the count |
| RuntimeProtocol.ReaperStopsIffUnused | hermes/plugins/model_router/proxy_runtime.py:73-99 | a pass goes to stop a backend if and only if its process runs, the counter is zero, and no request began or ended on it, no process was started and nothing touched it within the idle timeout before the pass |
| RuntimeProtocol.LastUsedIsLastUse | hermes/plugins/model_router/proxy_runtime.py:63-88 | a recorded process's last use is the clock of the latest such event of the run |
| RuntimeProtocol.IdleMeansFree | hermes/plugins/model_router/proxy_runtime.py:90-99 | under that bound, a backend judged idle is one whose lock nobody holds or waits for |
| RuntimeProtocol.ShortIdleTimeoutInterruptsRequest | hermes/plugins/model_router/proxy_runtime.py:90-111 | with a timeout within the longest hold, a run in which the reaper stops a process under the request that started it |
| RuntimeProtocol.ReaperGentleIffIdleExceedsHold | hermes/plugins/model_router/proxy_runtime.py:90-111 | the reaper is gentle in every such run if and only if the timeout exceeds the longest hold |
| RuntimeProtocol.ResetCounterLosesARequest | hermes/plugins/model_router/proxy_runtime.py:195 | a run in which the counter, reset by a failed restart, reads zero under a live request and the reaper stops its process |
| RuntimeProtocol.StepKeepsInv | hermes/plugins/model_router/proxy_runtime.py:63-195 | every step of every task keeps the invariant behind these results |
| RoutingLog.RoutingLogWriter.constructor | hermes/plugins/model_router/routing_log.py:128-137 | a writer starts on the files there are, with negative limits taken as zero |
| RoutingLog.RoutingLogWriter.RotateIfNeeded | hermes/plugins/model_router/routing_log.py:151-163 | the descending rename loop leaves the files the operations so far produce, wherever it fails |
| RoutingLog.RoutingLogWriter.Write | hermes/plugins/model_router/routing_log.py:139-149 | appends after the rotation unless either fails, and reports which |
| RoutingLog.AppendsIff | hermes/plugins/model_router/routing_log.py:139-155 | a call writes its record unless appending fails, or the live file has reached the limit and a rotation operation fails |
| RoutingLog.FaultlessRunWritesAll | hermes/plugins/model_router/routing_log.py:139-149 | when nothing fails every record is written, in order |
| RoutingLog.SizeAdds | hermes/plugins/model_router/routing_log.py:154 | a file's size is the sum of its records' sizes |
| RoutingLog.AfterOpsRetained | hermes/plugins/model_router/routing_log.py:151-163 | at every point inside a rotation only the oldest file's records are missing from what is read |
| RoutingLog.RetainsSuffix | hermes/plugins/model_router/routing_log.py:139-163 | after every run, whatever failed, what is read is a contiguous suffix, in order, of the records written |
| RoutingLog.RetainsSuffixInsideRotation | hermes/plugins/model_router/routing_log.py:151-163 | the same between any two operations of a rotation |
| RoutingLog.NoDuplicateEntries | hermes/plugins/model_router/routing_log.py:139-163 | distinct records are never read twice |
| RoutingLog.BackupsStayFull | hermes/plugins/model_router/routing_log.py:151-163 | while rotations succeed, backups are without gaps and each holds at least the size limit |
| RoutingLog.DropsOnlyWhenFull | hermes/plugins/model_router/routing_log.py:151-163 | while rotations succeed, a record is dropped only when every backup exists and is full |
| RoutingLog.NothingDroppedWithoutRotation | hermes/plugins/model_router/routing_log.py:152-153 | with either limit zero nothing is ever dropped |
| RoutingLog.LiveFileBounded | hermes/plugins/model_router/routing_log.py:139-163 | with rotation on and whatever fails, the live file is smaller than the limit plus its last record |
| PidMarker.MarkerRoundTrip | hermes/plugins/model_router/runtime_adapters.py:1419-1467 | a marker just written is read back and matches its command exactly when the command has no blank token |
| PidMarker.ManagedRuntimeAdapter.TerminatePid | hermes/plugins/model_router/runtime_adapters.py:1495-1513 | signals sent and process state for every way a termination can go; true exactly when the process is gone |
| PidMarker.ManagedRuntimeAdapter.Stop | hermes/plugins/model_router/runtime_adapters.py:933-987 | status, marker and processes after a stop, as the run lemmas use them |
| PidMarker.ManagedRuntimeAdapter.Start | hermes/plugins/model_router/runtime_adapters.py:879-1066 | the same for a start, the stop after a failed readiness wait included |
| PidMarker.AtMostOneManagedProcess | hermes/plugins/model_router/runtime_adapters.py:879-1066 | after any series of starts, stops, loads and unloads under changing commands, at most one process the adapter spawned is alive, the marker names it, and every signal went to a process spawned with the command configured when it was sent |
| PidMarker.SuccessfulStopLeavesNone | hermes/plugins/model_router/runtime_adapters.py:933-987 | a stop that reports success leaves no spawned process alive |
| PidMarker.StartedIsTheOnlyOne | hermes/plugins/model_router/runtime_adapters.py:1027-1066 | a start that reports success spawned one process, and no other spawned one is alive |
| PidMarker.StopMeaning | hermes/plugins/model_router/runtime_adapters.py:933-987 | what every stop after any run answers and does: not running, blocked, or a signal to exactly the live process, stopped with the marker cleared exactly when the termination succeeds |
| PidMarker.StartMeaning | hermes/plugins/model_router/runtime_adapters.py:879-1066 | what every start after any run answers and does: unsupported, already running, blocked, or exactly one process spawned, recorded, and terminated again when it does not become ready |
| PidMarker.LoadAndUnloadMeaning | hermes/plugins/model_router/runtime_adapters.py:989-1025 | a load answers as its start and an unload as its stop; without the configured model neither acts |
| PidMarker.StopSignalsOnlyMatching | hermes/plugins/model_router/runtime_adapters.py:933-987 | whatever the marker file holds, a signal goes only to the live process of a marker recording the configured command |
| PidMarker.BarePidMarker | hermes/plugins/model_router/runtime_adapters.py:1441-1450 | a marker holding only a process id blocks start and stop while that process lives and is cleared or ignored afterwards |
| PidMarker.BlankTokenLosesTheProcess | hermes/plugins/model_router/proxy_config.py:730-736 | what the ban on blank command tokens buys: without it two starts leave two processes |
| FallbackGraph.VisitName | hermes/plugins/model_router/proxy_config.py:568-575 | the recursive visit terminates, the names off the trail decreasing, and computes the specified check |
| FallbackGraph.ValidateNoFallbackCycles | hermes/plugins/model_router/proxy_config.py:567-578 | raises if and only if the fallback graph has a cycle, and what it reports contains one |
| FallbackGraph.VisitReportsCycle | hermes/plugins/model_router/proxy_config.py:569-573 | a reported trail is a path whose last name occurred before |
| FallbackGraph.CycleIsVisited | hermes/plugins/model_router/proxy_config.py:574-578 | from every name on a cycle the visit ends in a report |
| FallbackGraph.CheckIsExact | hermes/plugins/model_router/proxy_config.py:567-578 | some visit from a key reports exactly when there is a cycle |
| ProxyForwarding.PostWithFallbacks | hermes/plugins/model_router/proxy.py:1651-1683 | the loop computes the outcome and the begin/contact/end trace the lemmas are about |
| ProxyForwarding.PostOutcomeMeaning | hermes/plugins/model_router/proxy.py:1651-1683 | an outcome is returned if and only if one attempt explains it: the first status below 500 or the last backend's response, the last backend's error, or an abort at an unsupported path or failed start, everything before having been retried |
| ProxyForwarding.PostTraceMeaning | hermes/plugins/model_router/proxy.py:1651-1683 | the backends contacted are exactly those up to the explaining attempt, once each, in order, each between the begin and the end of its own request with no other open |
| ProxyForwarding.OpenStreamWithFallbacks | hermes/plugins/model_router/proxy.py:1686-1724 | the stream form's outcome and trace, a failing close included |
| ProxyForwarding.StreamOutcomeMeaning | hermes/plugins/model_router/proxy.py:1686-1724 | one attempt explains a stream's outcome and no other outcome can be explained, a failing close included |
| ProxyForwarding.StreamTraceMeaning | hermes/plugins/model_router/proxy.py:1686-1724 | the same for the backends a stream contacts; a returned stream is left begun and contacted, the only request open |
| ProxyForwarding.StreamAnswersAsPost | hermes/plugins/model_router/proxy.py:1686-1724 | while no rejected stream fails to close, the stream form answers as the POST form |
| ProxyForwarding.PostEndsEveryRequest | hermes/plugins/model_router/proxy.py:1669-1680 | a POST ends every request it begins, on every backend |
| ProxyForwarding.StreamLeavesOneOpen | hermes/plugins/model_router/proxy.py:1686-1724 | opening a stream leaves exactly one request open, on the backend it returns, and none when it raises |
| ProxyForwarding.StreamResponseBytes | hermes/plugins/model_router/proxy.py:1727-1805 | relays every chunk, and however the body ends leaves the context, writes the event with the right status and ends the request last; what escapes, and what it skips |
| ProxyForwarding.StreamEndsRequestIff | hermes/plugins/model_router/proxy.py:1764-1795 | a relayed stream ends its request if and only if leaving the context is not cut off and there is no event to write for a prompt that cannot be encoded |
| ProxyForwarding.LoneSurrogateLeavesRequestOpen | hermes/plugins/model_router/routing_log.py:170-171 | with an event log, a prompt holding a lone surrogate leaves its request begun for good |
| ProxyForwarding.UsableMembers | hermes/plugins/model_router/proxy_config.py:178-184 | a fallback chain holds exactly the configured members the policy admits |
| ProxyForwarding.FallbackChainMembers | hermes/plugins/model_router/proxy_config.py:178-184 | a backend's fallbacks are the configured ones that exist and the policy admits |
| ProxyForwarding.UsableInOrder | hermes/plugins/model_router/proxy_config.py:178-184 | they keep the configured order |
| ProxyForwarding.NoRejectedBackendContacted | hermes/plugins/model_router/proxy_config.py:170-196 | whether an engine or the operator selects the primary, neither form ever contacts a backend the policy rejects |
| ProxyForwarding.EngineBackendIff | hermes/plugins/model_router/proxy_config.py:170-176 | an engine has a backend exactly when the configured one exists and the policy admits it |
| ProxyForwarding.ManualSelectionIsBounded | hermes/plugins/model_router/proxy.py:975-1055 | manual routing sends only to the configured backend, only when admitted, only for the default model or the backend's own |
| ProxyForwarding.ManualSelectionCases | hermes/plugins/model_router/proxy.py:975-1055 | manual routing case by case: each error exactly when it is due, and the model used otherwise |
| ProxyForwarding.PrimaryOfEngine | hermes/plugins/model_router/proxy.py:352-419 | an engine's primary is the backend configured for it exactly when it exists and is admitted; the gate has none |
| Registry.MergeModels | hermes/plugins/model_router/model_registry.py:409-415 | the dictionary loop and its sort compute the merged registry |
| Registry.SameKeyIff | hermes/plugins/model_router/model_registry.py:465-470 | which records are of one model: same id at the same path, or pathless with the same provider, runtime and backend or none |
| Registry.StateOrder | hermes/plugins/model_router/model_registry.py:889-900 | the order of the states, `available` with `loaded`, unlisted ones last |
| Registry.CleanedMembers | hermes/plugins/model_router/model_registry.py:865-875 | cleaning a list keeps exactly its non-blank values, stripped |
| Registry.SortsBeforeByFields | hermes/plugins/model_router/model_registry.py:473-474 | the listing goes by provider, runtime, backend with none first, then model id |
| Registry.MergeKeepsKeyIff | hermes/plugins/model_router/model_registry.py:418-470 | merging two records of one key keeps the key exactly when the key is a path or provider and runtime are known |
| Registry.SplitJoin | hermes/plugins/model_router/model_registry.py:882-886 | joining source names by `+` and splitting gives them back |
| Registry.PartsOfMerged | hermes/plugins/model_router/model_registry.py:882-886 | a merged source splits into the deduplicated parts of the two |
| Registry.UniqueAssociative | hermes/plugins/model_router/model_registry.py:865-875 | stripping and deduplicating lists early, on either side, changes nothing |
| Registry.MergeAssociative | hermes/plugins/model_router/model_registry.py:418-442 | merging records is associative in every field |
| Registry.MergeMapFolds | hermes/plugins/model_router/model_registry.py:409-415 | under each key the dictionary holds the left-to-right merge of that key's records |
| Registry.OneRecordPerKey | hermes/plugins/model_router/model_registry.py:409-474 | exactly one record per distinct input key, still under it, in sorted order |
| Registry.MergeInParts | hermes/plugins/model_router/model_registry.py:409-442 | merging two parts and then their results gives, under every key, the record of merging all at once |
| Registry.ListingInPartsIff | hermes/plugins/model_router/model_registry.py:409-474 | the sorted listing is the same too if and only if the first part does not reverse two keys that tie in the whole registry |
| Registry.PartsReorder | hermes/plugins/model_router/model_registry.py:409-474 | three records whose listing differs when merged in parts |
| Registry.ListingStable | hermes/plugins/model_router/model_registry.py:415-474 | the merged registry is in order, ties in order of first occurrence |
| Registry.MergeIdempotent | hermes/plugins/model_router/model_registry.py:409-442 | merging a merged registry changes nothing, order included |
| Registry.MergedRecord | hermes/plugins/model_router/model_registry.py:418-442 | every field per key: eligible when any record is, the leftmost state of highest rank, the entries of each list and the source parts once in order, each text and number from the first record that has it, each metadata entry from the last, names from the first |

## Left out

- HTTP, sockets, subprocess calls, file contents and YAML field parsing: oracles, or entries that
  parse or do not.
- The scorer, telemetry, admin actions, setup assistant and settings UI; the scorer's verdict is
  an arbitrary record.
- Substring marker tests, lower-casing and the year pattern of the classifier: given answers in
  `Scanner.Prompt`; only the token scanners are modelled character for character.
- Receipts, explanation and availability texts: plumbing around the modelled decision.
- Cost and latency tiers outside the known names in policies and hints: loading refuses them, so
  caps range over the known names; engines may have any tier.
- Ranking.ClampIsIdle: floating-point rounding is not modelled; scores are exact hundredths
  rounded half to even.
- The full text of the health endpoint, verifier, prompt capture and proxy authentication.
- RuntimeProtocol.CounterExact: does not say that a begun request is ever ended; one whose
  upstream call is cancelled counts as outstanding for good, as in the code.
- RuntimeProtocol.ReaperStopsOnlyIdle: clean runs only, in which no task is cancelled while it
  holds or awaits a lock, every killed process goes, and shutdown cancels the reaper only while
  it sleeps; clock values are integers.
- RuntimeProtocol.FreeLockMeansReady: clean runs only, since a cancelled start leaves an unready
  process on record.
- ProxyForwarding.StreamEndsRequestIff: says nothing of a stream body that is never iterated,
  which never ends its request; building an event fails only on a prompt without an encoding.
- The handle of the old runtime log when a process crashes and is restarted: the code overwrites
  it, and nothing is claimed about it.
- PidMarker.AtMostOneManagedProcess: assumes process ids are not reused, liveness checks tell the
  truth, the marker's path stays the same and can be written, and invocations do not overlap.
- RoutingLog.RetainsSuffix: a record is written whole or not at all, and no other process
  writes the files.
- Registry.MergeAssociative: metadata values are strings; nested values behave the same, as
  only top-level keys are merged.
- Registry.MergeInParts: for records with a provider and a runtime, as is
  Registry.ListingInPartsIff; without them a merge may move a record to another key, as
  `Registry.MergeKeepsKeyIff` says.
- Pricing estimates, evaluation summaries, hardware detection and installer planning: one
  function each, settled by reading it.
